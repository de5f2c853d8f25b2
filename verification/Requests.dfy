/** What can become of a request to another system. */
module Requests {

  /** Carried out and answered, never carried out, or carried out with the answer lost. */
  datatype Fate = Answered | Refused | Lost
}
