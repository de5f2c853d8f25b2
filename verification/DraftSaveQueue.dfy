/** The optimistic save queue of a compose window, and the versioned draft on the server it talks to. */
module DraftSaveQueue {
  import opened PriorityQueue
  import opened Requests

  datatype Attachment = Attachment(id: string, size: nat)

  /** What `draftContentKey` compares: the attachments, and all other fields as one text. */
  datatype Content = Content(text: string, attachments: seq<Attachment>)

  datatype Draft = Draft(version: nat, content: Content)

  /** The server's draft is its history: every accepted content, the first one being version 1. */
  type History = seq<Content>

  datatype Answer = Stored(draft: Draft) | Failure

  datatype Outcome = Done(draft: Option<Draft>) | Conflict | Error

  // The server.

  function Current(h: History): Draft
    requires h != []
  {
    Draft(|h|, h[|h| - 1])
  }

  function Reported(h: History, fate: Fate): Answer {
    if fate.Answered? && h != [] then Stored(Current(h)) else Failure
  }

  /** `createDraft`: the first request creates the draft, a repeated one returns what is there. */
  function Created(h: History, content: Content, fate: Fate): (History, Answer) {
    if fate.Refused? then (h, Failure)
    else
      var after := if h == [] then [content] else h;
      (after, Reported(after, fate))
  }

  /** `updateDraft`: accepted only at the current version. */
  function Updated(h: History, version: nat, content: Content, fate: Fate): (History, Answer) {
    if fate.Refused? || h == [] || |h| != version then (h, Failure)
    else (h + [content], Reported(h + [content], fate))
  }

  function FindAttachment(attachments: seq<Attachment>, id: string): (r: Option<Attachment>)
    ensures r.Some? ==> r.value in attachments && r.value.id == id
    ensures r.None? ==> forall a :: a in attachments ==> a.id != id
  {
    if attachments == [] then None
    else if attachments[0].id == id then Some(attachments[0])
    else
      assert forall a :: a in attachments <==> a == attachments[0] || a in attachments[1..];
      FindAttachment(attachments[1..], id)
  }

  function WithoutAttachment(attachments: seq<Attachment>, id: string): (r: seq<Attachment>)
    ensures forall a :: a in r <==> a in attachments && a.id != id
    ensures FindAttachment(attachments, id).None? ==> r == attachments
  {
    if attachments == [] then []
    else
      assert forall a :: a in attachments <==> a == attachments[0] || a in attachments[1..];
      (if attachments[0].id == id then [] else [attachments[0]]) + WithoutAttachment(attachments[1..], id)
  }

  /** The content with the file at the end of its attachments. */
  function Attach(content: Content, file: Attachment): Content {
    content.(attachments := WithoutAttachment(content.attachments, file.id) + [file])
  }

  /** `uploadDraftFile`: a file that is there already is not stored again; a new one needs the current version. */
  function Uploaded(h: History, version: nat, file: Attachment, fate: Fate): (History, Answer) {
    if fate.Refused? || h == [] then (h, Failure)
    else
      var current := h[|h| - 1];
      var existing := FindAttachment(current.attachments, file.id);
      if existing.Some? then (h, if existing.value == file then Reported(h, fate) else Failure)
      else if |h| != version then (h, Failure)
      else
        var after := h + [current.(attachments := current.attachments + [file])];
        (after, Reported(after, fate))
  }

  // The queue.

  datatype Queue = Queue(draft: Option<Draft>, bases: map<string, Draft>, submitted: set<Content>)

  /** `#adoptSavedDraft`: upload bases that stood at the previous draft move with it. */
  function Adopted(q: Queue, stored: Draft): Queue {
    Queue(Some(stored), map id | id in q.bases :: if q.draft == Some(q.bases[id]) then stored else q.bases[id], q.submitted)
  }

  /** The body of one `save`. `others` are contents other clients store between its two requests. */
  function SaveRun(h: History, q: Queue, content: Content, first: Fate, others: seq<Content>, second: Fate): (History, Queue, Outcome) {
    if q.draft.Some? then
      if q.draft.value.content == content then (h, q, Done(q.draft))
      else
        match Updated(h, q.draft.value.version, content, first)
        case (after, Failure) => (after, q, Error)
        case (after, Stored(stored)) =>
          if stored.content != content then (after, q, Conflict) else (after, Adopted(q, stored), Done(Some(stored)))
    else
      var submitting := q.(submitted := q.submitted + {content});
      match Created(h, content, first)
      case (after, Failure) => (after, submitting, Error)
      case (after, Stored(stored)) =>
        if stored.version != 1 || stored.content !in submitting.submitted then (after, submitting, Conflict)
        else if stored.content == content then (after, Adopted(submitting, stored).(submitted := {}), Done(Some(stored)))
        else
          match Updated(after + others, stored.version, content, second)
          case (last, Failure) => (last, submitting, Error)
          case (last, Stored(reconciled)) =>
            if reconciled.content != content then (last, submitting, Conflict)
            else (last, Adopted(submitting, reconciled).(submitted := {}), Done(Some(reconciled)))
  }

  /** The upload itself, at the base that was saved for it. */
  function UploadRun(h: History, q: Queue, file: Attachment, fate: Fate): (History, Queue, Outcome) {
    if file.id !in q.bases then (h, q, Error)
    else
      var base := q.bases[file.id];
      match Uploaded(h, base.version, file, fate)
      case (after, Failure) => (after, q, Error)
      case (after, Stored(stored)) =>
        var attached := FindAttachment(stored.content.attachments, file.id);
        if attached.None? || attached.value.size != file.size || stored.content != Attach(base.content, attached.value) then (after, q, Conflict)
        else (after, q.(draft := Some(stored), bases := q.bases[file.id := stored]), Done(Some(stored)))
  }

  /** The first part of `cancelUpload`. */
  function CancelRun(h: History, q: Queue, id: string, fate: Fate): (Queue, Outcome) {
    if id !in q.bases then (q, Done(None))
    else
      var base := q.bases[id];
      match if fate.Refused? then Failure else Reported(h, fate)
      case Failure => (q, Error)
      case Stored(stored) =>
        var attached := FindAttachment(stored.content.attachments, id);
        var expected := if attached.Some? then Attach(base.content, attached.value) else base.content;
        if stored.content != expected then (q, Conflict)
        else (q.(draft := Some(stored), bases := q.bases - {id}), Done(Some(stored)))
  }

  function RefreshRun(h: History, q: Queue, fate: Fate): (Queue, Outcome) {
    if q.draft.None? then (q, Done(None))
    else
      match if fate.Refused? then Failure else Reported(h, fate)
      case Failure => (q, Error)
      case Stored(refreshed) =>
        if refreshed.content != q.draft.value.content then (q, Conflict) else (q.(draft := Some(refreshed)), Done(Some(refreshed)))
  }

  /** The server side, one draft. */
  class DraftServer {
    var history: History

    constructor ()
      ensures history == []
    {
      history := [];
    }

    method Create(content: Content, fate: Fate) returns (answer: Answer)
      modifies this
      ensures (history, answer) == Created(old(history), content, fate)
    {
      if fate.Refused? {
        return Failure;
      }
      if history == [] {
        history := [content];
      }
      answer := Reported(history, fate);
    }

    method Update(version: nat, content: Content, fate: Fate) returns (answer: Answer)
      modifies this
      ensures (history, answer) == Updated(old(history), version, content, fate)
    {
      if fate.Refused? || history == [] || |history| != version {
        return Failure;
      }
      history := history + [content];
      answer := Reported(history, fate);
    }

    method Upload(version: nat, file: Attachment, fate: Fate) returns (answer: Answer)
      modifies this
      ensures (history, answer) == Uploaded(old(history), version, file, fate)
    {
      if fate.Refused? || history == [] {
        return Failure;
      }
      var current := history[|history| - 1];
      var existing := FindAttachment(current.attachments, file.id);
      if existing.Some? {
        return if existing.value == file then Reported(history, fate) else Failure;
      }
      if |history| != version {
        return Failure;
      }
      history := history + [current.(attachments := current.attachments + [file])];
      answer := Reported(history, fate);
    }

    method OthersWrite(contents: seq<Content>)
      modifies this
      ensures history == old(history) + contents
    {
      history := history + contents;
    }
  }

  class DraftSaveQueue {
    const server: DraftServer
    var draft: Option<Draft>
    var uploadBases: map<string, Draft>
    var submittedCreateContent: set<Content>

    ghost function State(): Queue
      reads this
    {
      Queue(draft, uploadBases, submittedCreateContent)
    }

    constructor (server: DraftServer, initial: Option<Draft>)
      ensures this.server == server && State() == Queue(initial, map[], {})
    {
      this.server, draft, uploadBases, submittedCreateContent := server, initial, map[], {};
    }

    method AdoptSavedDraft(stored: Draft)
      modifies this
      ensures State() == Adopted(old(State()), stored)
    {
      if draft.Some? {
        var ids := uploadBases.Keys;
        while ids != {}
          invariant ids <= uploadBases.Keys == old(uploadBases).Keys
          invariant draft == old(draft) && submittedCreateContent == old(submittedCreateContent)
          invariant forall id :: id in uploadBases ==>
            uploadBases[id] == if id !in ids && draft == Some(old(uploadBases)[id]) then stored else old(uploadBases)[id]
          decreases ids
        {
          var id :| id in ids;
          var base := uploadBases[id];
          if base.version == draft.value.version && base.content == draft.value.content {
            uploadBases := uploadBases[id := stored];
          }
          ids := ids - {id};
        }
      }
      draft := Some(stored);
    }

    method Save(content: Content, first: Fate, others: seq<Content>, second: Fate) returns (outcome: Outcome)
      modifies this, server
      ensures (server.history, State(), outcome) == SaveRun(old(server.history), old(State()), content, first, others, second)
    {
      if draft.Some? {
        if draft.value.content == content {
          return Done(draft);
        }
        var answer := server.Update(draft.value.version, content, first);
        if answer.Failure? {
          return Error;
        }
        if answer.draft.content != content {
          return Conflict;
        }
        AdoptSavedDraft(answer.draft);
        return Done(Some(answer.draft));
      }
      submittedCreateContent := submittedCreateContent + {content};
      var answer := server.Create(content, first);
      if answer.Failure? {
        return Error;
      }
      if answer.draft.version != 1 || answer.draft.content !in submittedCreateContent {
        return Conflict;
      }
      var reconciled := answer.draft;
      if answer.draft.content != content {
        server.OthersWrite(others);
        var again := server.Update(answer.draft.version, content, second);
        if again.Failure? {
          return Error;
        }
        reconciled := again.draft;
      }
      if reconciled.content != content {
        return Conflict;
      }
      AdoptSavedDraft(reconciled);
      submittedCreateContent := {};
      outcome := Done(Some(reconciled));
    }

    method Upload(file: Attachment, fate: Fate) returns (outcome: Outcome)
      modifies this, server
      ensures (server.history, State(), outcome) == UploadRun(old(server.history), old(State()), file, fate)
    {
      if file.id !in uploadBases {
        return Error;
      }
      var base := uploadBases[file.id];
      var answer := server.Upload(base.version, file, fate);
      if answer.Failure? {
        return Error;
      }
      var stored := answer.draft;
      var attached := FindAttachment(stored.content.attachments, file.id);
      if attached.None? || attached.value.size != file.size || stored.content != Attach(base.content, attached.value) {
        return Conflict;
      }
      draft := Some(stored);
      uploadBases := uploadBases[file.id := stored];
      outcome := Done(Some(stored));
    }

    method CancelUpload(id: string, fate: Fate) returns (outcome: Outcome)
      modifies this
      ensures (State(), outcome) == CancelRun(server.history, old(State()), id, fate)
    {
      if id !in uploadBases {
        return Done(None);
      }
      var base := uploadBases[id];
      if fate != Answered || server.history == [] {
        return Error;
      }
      var stored := Current(server.history);
      var attached := FindAttachment(stored.content.attachments, id);
      var expected := if attached.Some? then Attach(base.content, attached.value) else base.content;
      if stored.content != expected {
        return Conflict;
      }
      draft := Some(stored);
      uploadBases := uploadBases - {id};
      outcome := Done(Some(stored));
    }

    method RefreshAfterSend(fate: Fate) returns (outcome: Outcome)
      modifies this
      ensures (State(), outcome) == RefreshRun(server.history, old(State()), fate)
    {
      if draft.None? {
        return Done(None);
      }
      if fate != Answered || server.history == [] {
        return Error;
      }
      var refreshed := Current(server.history);
      if refreshed.content != draft.value.content {
        return Conflict;
      }
      draft := Some(refreshed);
      outcome := Done(Some(refreshed));
    }
  }
}
