/** The save queue request by request: operations chained to one another, every answer awaited, and other clients
    writing at any moment. Every such run is a list of the steps of `DraftSaveLaws`, in the order of submission. */
module DraftSaveInterleaving {
  import opened PriorityQueue
  import opened Requests
  import opened DraftSaveQueue
  import opened DraftSaveLaws
  import PromiseChain

  /** What is submitted to the queue. */
  datatype Job =
    | SaveJob(content: Content)
    | PrepareJob(content: Content, id: string)
    | UploadJob(file: Attachment)
    | FinishJob(content: Content, id: string)
    | CancelJob(id: string)
    | RefreshJob

  /** Waiting for the server to take up a request, or for its answer; the first save may ask twice. */
  datatype Stage = Asking | Told(answer: Answer) | AskingAgain(stored: Draft) | ToldAgain(stored: Draft, answer: Answer)

  datatype Busy = Busy(i: nat, stage: Stage)

  datatype Machine = Machine(chain: PromiseChain.Chain, jobs: seq<Job>, h: History, q: Queue, busy: Option<Busy>)

  predicate Saves(job: Job) {
    job.SaveJob? || job.PrepareJob? || job.FinishJob?
  }

  // One job, between its awaits.

  /** Up to the first request: a first save notes the content it is about to submit. */
  function Begun(q: Queue, job: Job): Queue {
    if Saves(job) && q.draft.None? then q.(submitted := q.submitted + {job.content}) else q
  }

  /** The outcome of a job that needs no request. */
  function Immediate(q: Queue, job: Job): Option<Outcome> {
    match job
    case UploadJob(file) => if file.id !in q.bases then Some(Error) else None
    case CancelJob(id) => if id !in q.bases then Some(Done(None)) else None
    case RefreshJob => if q.draft.None? then Some(Done(None)) else None
    case _ => if q.draft.Some? && q.draft.value.content == job.content then Some(Done(q.draft)) else None
  }

  /** The server takes up the first request. */
  function Served(h: History, q: Queue, job: Job, fate: Fate): (History, Answer) {
    match job
    case UploadJob(file) => if file.id in q.bases then Uploaded(h, q.bases[file.id].version, file, fate) else (h, Failure)
    case CancelJob(_) => (h, if fate.Refused? then Failure else Reported(h, fate))
    case RefreshJob => (h, if fate.Refused? then Failure else Reported(h, fate))
    case _ => if q.draft.Some? then Updated(h, q.draft.value.version, job.content, fate) else Created(h, job.content, fate)
  }

  datatype Received = Ended(q: Queue, outcome: Outcome) | AskAgain(stored: Draft)

  /** The answer to the first request of a save. */
  function SaveReceived(q: Queue, content: Content, answer: Answer): Received {
    match answer
    case Failure => Ended(q, Error)
    case Stored(stored) =>
      if q.draft.Some? then
        (if stored.content != content then Ended(q, Conflict) else Ended(Adopted(q, stored), Done(Some(stored))))
      else if stored.version != 1 || stored.content !in q.submitted then Ended(q, Conflict)
      else if stored.content == content then Ended(Adopted(q, stored).(submitted := {}), Done(Some(stored)))
      else AskAgain(stored)
  }

  function FirstReceived(q: Queue, job: Job, answer: Answer): Received {
    match job
    case UploadJob(file) =>
      (match answer
       case Failure => Ended(q, Error)
       case Stored(stored) =>
         var attached := FindAttachment(stored.content.attachments, file.id);
         if file.id !in q.bases || attached.None? || attached.value.size != file.size
            || stored.content != Attach(q.bases[file.id].content, attached.value) then Ended(q, Conflict)
         else Ended(q.(draft := Some(stored), bases := q.bases[file.id := stored]), Done(Some(stored))))
    case CancelJob(id) =>
      (match answer
       case Failure => Ended(q, Error)
       case Stored(stored) =>
         var attached := FindAttachment(stored.content.attachments, id);
         if id !in q.bases
            || stored.content != (if attached.Some? then Attach(q.bases[id].content, attached.value) else q.bases[id].content) then Ended(q, Conflict)
         else Ended(q.(draft := Some(stored), bases := q.bases - {id}), Done(Some(stored))))
    case RefreshJob =>
      (match answer
       case Failure => Ended(q, Error)
       case Stored(refreshed) =>
         if q.draft.None? || refreshed.content != q.draft.value.content then Ended(q, Conflict)
         else Ended(q.(draft := Some(refreshed)), Done(Some(refreshed))))
    case _ => SaveReceived(q, job.content, answer)
  }

  /** The answer to the second request of a first save. */
  function SecondReceived(q: Queue, content: Content, answer: Answer): (Queue, Outcome) {
    match answer
    case Failure => (q, Error)
    case Stored(reconciled) =>
      if reconciled.content != content then (q, Conflict)
      else (Adopted(q, reconciled).(submitted := {}), Done(Some(reconciled)))
  }

  /** What the caller of a job does at once when it succeeds: the base of an upload is noted or dropped. */
  function Closed(q: Queue, job: Job, outcome: Outcome): Queue {
    match job
    case PrepareJob(_, id) => if outcome.Done? && outcome.draft.Some? then q.(bases := q.bases[id := outcome.draft.value]) else q
    case FinishJob(_, id) => if outcome.Done? then q.(bases := q.bases - {id}) else q
    case _ => q
  }

  // The moves of the machine.

  datatype Move = Submit(job: Job) | Start(i: nat) | Skip(i: nat) | Serve(fate: Fate) | Receive | Derive(i: nat) | OthersWrite(contents: seq<Content>)

  predicate CanMove(m: Machine, move: Move) {
    match move
    case Submit(_) => true
    case Start(i) => PromiseChain.CanTake(m.chain, PromiseChain.Start(i)) && i < |m.jobs|
    case Skip(i) => PromiseChain.CanTake(m.chain, PromiseChain.Skip(i))
    case Serve(_) => m.busy.Some? && (m.busy.value.stage.Asking? || (m.busy.value.stage.AskingAgain? && Saves(JobOf(m)))) && m.busy.value.i < |m.jobs|
    case Receive =>
      && m.busy.Some? && (m.busy.value.stage.Told? || (m.busy.value.stage.ToldAgain? && Saves(JobOf(m)))) && m.busy.value.i < |m.jobs|
      && PromiseChain.CanTake(m.chain, PromiseChain.Settle(m.busy.value.i, true)) && PromiseChain.CanTake(m.chain, PromiseChain.Settle(m.busy.value.i, false))
    case Derive(i) => PromiseChain.CanTake(m.chain, PromiseChain.Derive(i))
    case OthersWrite(_) => true
  }

  /** The job at work. */
  function JobOf(m: Machine): Job {
    if m.busy.Some? && m.busy.value.i < |m.jobs| then m.jobs[m.busy.value.i] else RefreshJob
  }

  /** The operation ends: its promise settles and its caller goes on. */
  function Finished(m: Machine, i: nat, job: Job, q: Queue, outcome: Outcome): Machine
    requires PromiseChain.CanTake(m.chain, PromiseChain.Settle(i, outcome.Done?))
  {
    m.(chain := PromiseChain.Taken(m.chain, PromiseChain.Settle(i, outcome.Done?)), q := Closed(q, job, outcome), busy := None)
  }

  function Moved(m: Machine, move: Move): Machine
    requires CanMove(m, move)
  {
    match move
    case Submit(job) => m.(chain := PromiseChain.Submitted(m.chain), jobs := m.jobs + [job])
    case Start(i) =>
      var begun := m.(chain := PromiseChain.Taken(m.chain, PromiseChain.Start(i)));
      var job := m.jobs[i];
      (match Immediate(m.q, job)
       case Some(outcome) => Finished(begun, i, job, m.q, outcome)
       case None => begun.(q := Begun(m.q, job), busy := Some(Busy(i, Asking))))
    case Skip(i) => m.(chain := PromiseChain.Taken(m.chain, PromiseChain.Skip(i)))
    case Serve(fate) =>
      var busy := m.busy.value;
      if busy.stage.Asking? then
        var (after, answer) := Served(m.h, m.q, m.jobs[busy.i], fate);
        m.(h := after, busy := Some(busy.(stage := Told(answer))))
      else
        var (after, answer) := Updated(m.h, busy.stage.stored.version, m.jobs[busy.i].content, fate);
        m.(h := after, busy := Some(busy.(stage := ToldAgain(busy.stage.stored, answer))))
    case Receive =>
      var busy := m.busy.value;
      var job := m.jobs[busy.i];
      if busy.stage.Told? then
        (match FirstReceived(m.q, job, busy.stage.answer)
         case Ended(q, outcome) => Finished(m, busy.i, job, q, outcome)
         case AskAgain(stored) => m.(busy := Some(busy.(stage := AskingAgain(stored)))))
      else
        var (q, outcome) := SecondReceived(m.q, job.content, busy.stage.answer);
        Finished(m, busy.i, job, q, outcome)
    case Derive(i) => m.(chain := PromiseChain.Taken(m.chain, PromiseChain.Derive(i)))
    case OthersWrite(contents) => m.(h := m.h + contents)
  }

  function Run(start: System, moves: seq<Move>): Option<Machine> {
    if moves == [] then Some(Machine(PromiseChain.Empty(), [], start.h, start.q, None))
    else
      match Run(start, moves[..|moves| - 1])
      case None => None
      case Some(m) => if CanMove(m, moves[|moves| - 1]) then Some(Moved(m, moves[|moves| - 1])) else None
  }

  // One job is one step.

  function StepOf(job: Job, first: Fate, between: seq<Content>, second: Fate): Step {
    match job
    case SaveJob(content) => Save(content, first, between, second)
    case PrepareJob(content, id) => PrepareUpload(content, id, first, between, second)
    case UploadJob(file) => Upload(file, first)
    case FinishJob(content, id) => FinishUpload(content, id, first, between, second)
    case CancelJob(id) => Cancel(id, first)
    case RefreshJob => Refresh(first)
  }

  function JobsOf(steps: seq<Step>): seq<Job> {
    if steps == [] then []
    else
      var front := JobsOf(steps[..|steps| - 1]);
      match steps[|steps| - 1]
      case Others(_) => front
      case Save(content, _, _, _) => front + [SaveJob(content)]
      case PrepareUpload(content, id, _, _, _) => front + [PrepareJob(content, id)]
      case Upload(file, _) => front + [UploadJob(file)]
      case FinishUpload(content, id, _, _, _) => front + [FinishJob(content, id)]
      case Cancel(id, _) => front + [CancelJob(id)]
      case Refresh(_) => front + [RefreshJob]
  }

  lemma NoRequest(s: System, job: Job, outcome: Outcome)
    requires Immediate(s.q, job) == Some(outcome)
    ensures Stepped(s, StepOf(job, Answered, [], Answered)) == (System(s.h, Closed(s.q, job, outcome)), outcome)
  {
  }

  lemma OneRequest(s: System, job: Job, first: Fate, q: Queue, outcome: Outcome)
    requires Immediate(s.q, job).None?
    requires FirstReceived(Begun(s.q, job), job, Served(s.h, Begun(s.q, job), job, first).1) == Ended(q, outcome)
    ensures Stepped(s, StepOf(job, first, [], Answered)) ==
      (System(Served(s.h, Begun(s.q, job), job, first).0, Closed(q, job, outcome)), outcome)
  {
    hide Adopted, Attach, Uploaded, FindAttachment;
  }

  lemma TwoRequests(s: System, job: Job, first: Fate, stored: Draft, between: seq<Content>, second: Fate)
    requires Immediate(s.q, job).None? && Saves(job)
    requires FirstReceived(Begun(s.q, job), job, Served(s.h, Begun(s.q, job), job, first).1) == AskAgain(stored)
    ensures var asked := Updated(Served(s.h, Begun(s.q, job), job, first).0 + between, stored.version, job.content, second);
      var (q, outcome) := SecondReceived(Begun(s.q, job), job.content, asked.1);
      Stepped(s, StepOf(job, first, between, second)) == (System(asked.0, Closed(q, job, outcome)), outcome)
  {
    hide Adopted;
  }

  // The run explained by steps.

  /** The steps that are complete, the state they lead to, and what has become of the job at work since then. */
  datatype Trace = Trace(steps: seq<Step>, s: System, first: Fate, between: seq<Content>, second: Fate, extra: seq<Content>)

  ghost predicate ExplainsJob(m: Machine, job: Job, stage: Stage, t: Trace) {
    var q := Begun(t.s.q, job);
    && m.q == q && Immediate(t.s.q, job).None?
    && match stage
       case Asking => m.h == t.s.h
       case Told(answer) => Served(t.s.h, q, job, t.first).1 == answer && m.h == Served(t.s.h, q, job, t.first).0 + t.extra
       case AskingAgain(stored) =>
         && Saves(job) && FirstReceived(q, job, Served(t.s.h, q, job, t.first).1) == AskAgain(stored)
         && m.h == Served(t.s.h, q, job, t.first).0 + t.between
       case ToldAgain(stored, answer) =>
         && Saves(job) && FirstReceived(q, job, Served(t.s.h, q, job, t.first).1) == AskAgain(stored)
         && var asked := Updated(Served(t.s.h, q, job, t.first).0 + t.between, stored.version, job.content, t.second);
            asked.1 == answer && m.h == asked.0 + t.extra
  }

  ghost predicate Explains(start: System, m: Machine, t: Trace) {
    && DraftSaveLaws.After(start, t.steps) == t.s
    && |JobsOf(t.steps)| <= |m.jobs| && JobsOf(t.steps) == m.jobs[..|JobsOf(t.steps)|]
    && match m.busy
       case None => m.h == t.s.h && m.q == t.s.q
       case Some(busy) => busy.i == |JobsOf(t.steps)| < |m.jobs| && ExplainsJob(m, m.jobs[busy.i], busy.stage, t)
  }

  /** The jobs explained are those whose operations have settled; the one at work is the next one. */
  ghost predicate InStep(m: Machine, done: nat) {
    && PromiseChain.Sound(m.chain) && |m.chain.calls| == |m.jobs| && done <= |m.jobs|
    && (forall i :: 0 <= i < |m.jobs| ==> (i < done <==> PromiseChain.IsSettled(m.chain, i)))
    && (forall i :: 0 <= i < |m.jobs| ==> (m.chain.calls[i].started <==> i < done || (i == done && m.busy.Some?)))
    && (m.busy.Some? ==> m.busy.value.i == done < |m.jobs|)
  }

  /** The next operation to begin is the first one that has not settled, and nothing else is at work. */
  lemma StartsNext(m: Machine, done: nat, i: nat)
    requires InStep(m, done) && CanMove(m, Start(i))
    ensures i == done && m.busy.None?
  {
    assert PromiseChain.CallSound(m.chain, i);
    if done < i {
      PromiseChain.EarlierSettled(m.chain, done, i);
    }
    assert !PromiseChain.IsSettled(m.chain, i);
  }

  lemma AfterOneMore(start: System, steps: seq<Step>, step: Step)
    ensures DraftSaveLaws.After(start, steps + [step]) == Stepped(DraftSaveLaws.After(start, steps), step).0
    ensures JobsOf(steps + [step]) == JobsOf(steps) + JobsOf([step])
  {
    assert (steps + [step])[..|steps|] == steps;
    assert [step][..0] == [] && JobsOf([]) == [];
  }

  lemma JobOfStep(job: Job, first: Fate, between: seq<Content>, second: Fate)
    ensures JobsOf([StepOf(job, first, between, second)]) == [job]
  {
    assert [StepOf(job, first, between, second)][..0] == [];
  }

  /** A finished job becomes one step, and what others have written since then another one. */
  lemma ExtendTrace(start: System, t: Trace, job: Job, first: Fate, between: seq<Content>, second: Fate, s: System, extra: seq<Content>)
    returns (next: Trace)
    requires DraftSaveLaws.After(start, t.steps) == t.s && Stepped(t.s, StepOf(job, first, between, second)).0 == s
    ensures DraftSaveLaws.After(start, next.steps) == next.s == System(s.h + extra, s.q)
    ensures JobsOf(next.steps) == JobsOf(t.steps) + [job]
  {
    hide Stepped;
    var step := StepOf(job, first, between, second);
    AfterOneMore(start, t.steps, step);
    JobOfStep(job, first, between, second);
    var steps := t.steps + [step];
    AfterOneMore(start, steps, Others(extra));
    assert JobsOf([Others(extra)]) == [] by { assert [Others(extra)][..0] == []; }
    assert JobsOf(steps) + [] == JobsOf(steps);
    OthersStep(s, extra);
    next := Trace(steps + [Others(extra)], System(s.h + extra, s.q), Answered, [], Answered, []);
  }

  lemma OthersStep(s: System, extra: seq<Content>)
    ensures Stepped(s, Others(extra)).0 == System(s.h + extra, s.q)
  {
  }

  lemma OthersExplained(start: System, m: Machine, contents: seq<Content>, t: Trace) returns (next: Trace)
    requires Explains(start, m, t)
    ensures Explains(start, m.(h := m.h + contents), next) && JobsOf(next.steps) == JobsOf(t.steps)
  {
    hide DraftSaveLaws.After, Stepped, Served, FirstReceived, Updated, Begun, Immediate;
    if m.busy.Some? {
      match m.busy.value.stage
      case Asking => next := OthersBeforeJob(start, t, contents);
      case Told(_) =>
        next := t.(extra := t.extra + contents);
        MoreBehind(Served(t.s.h, m.q, m.jobs[m.busy.value.i], t.first).0, t.extra, contents);
      case AskingAgain(_) =>
        next := t.(between := t.between + contents);
        MoreBehind(Served(t.s.h, m.q, m.jobs[m.busy.value.i], t.first).0, t.between, contents);
      case ToldAgain(stored, _) =>
        next := t.(extra := t.extra + contents);
        MoreBehind(Updated(Served(t.s.h, m.q, m.jobs[m.busy.value.i], t.first).0 + t.between, stored.version, m.jobs[m.busy.value.i].content, t.second).0,
                   t.extra, contents);
    } else {
      next := OthersBeforeJob(start, t, contents);
    }
  }

  lemma MoreBehind<T>(a: seq<T>, b: seq<T>, c: seq<T>)
    ensures (a + b) + c == a + (b + c)
  {
  }

  lemma OthersBeforeJob(start: System, t: Trace, contents: seq<Content>) returns (next: Trace)
    requires DraftSaveLaws.After(start, t.steps) == t.s
    ensures DraftSaveLaws.After(start, next.steps) == next.s == System(t.s.h + contents, t.s.q)
    ensures JobsOf(next.steps) == JobsOf(t.steps)
  {
    hide Stepped;
    AfterOneMore(start, t.steps, Others(contents));
    OthersStep(t.s, contents);
    assert JobsOf([Others(contents)]) == [] by { assert [Others(contents)][..0] == []; }
    assert JobsOf(t.steps) + [] == JobsOf(t.steps);
    next := Trace(t.steps + [Others(contents)], System(t.s.h + contents, t.s.q), Answered, [], Answered, []);
  }

  lemma StartExplained(start: System, m: Machine, i: nat, t: Trace) returns (next: Trace)
    requires Explains(start, m, t) && InStep(m, |JobsOf(t.steps)|) && CanMove(m, Start(i))
    ensures Explains(start, Moved(m, Start(i)), next)
    ensures |JobsOf(next.steps)| == |JobsOf(t.steps)| + if Immediate(m.q, m.jobs[i]).Some? then 1 else 0
  {
    hide DraftSaveLaws.After, Stepped, Served, FirstReceived, Closed, Immediate, Begun, InStep, PromiseChain.CanTake, PromiseChain.Taken;
    StartsNext(m, |JobsOf(t.steps)|, i);
    var job := m.jobs[i];
    if Immediate(m.q, job).Some? {
      var outcome := Immediate(m.q, job).value;
      NoRequest(t.s, job, outcome);
      next := ExtendTrace(start, t, job, Answered, [], Answered, System(m.h, Closed(m.q, job, outcome)), []);
      assert m.h + [] == m.h;
      assert m.jobs[..i + 1] == m.jobs[..i] + [job];
    } else {
      next := t;
    }
  }

  lemma ServeExplained(start: System, m: Machine, fate: Fate, t: Trace) returns (next: Trace)
    requires Explains(start, m, t) && CanMove(m, Serve(fate))
    ensures Explains(start, Moved(m, Serve(fate)), next) && JobsOf(next.steps) == JobsOf(t.steps)
  {
    hide DraftSaveLaws.After, Stepped, Served, FirstReceived, Updated, Closed, Immediate;
    if m.busy.value.stage.Asking? {
      next := t.(first := fate, extra := []);
      var after := Served(m.h, m.q, m.jobs[m.busy.value.i], fate).0;
      assert after + [] == after;
    } else {
      next := t.(second := fate, extra := []);
      var after := Updated(m.h, m.busy.value.stage.stored.version, m.jobs[m.busy.value.i].content, fate).0;
      assert after + [] == after;
    }
  }

  lemma ReceiveExplained(start: System, m: Machine, t: Trace) returns (next: Trace)
    requires Explains(start, m, t) && CanMove(m, Receive)
    ensures Explains(start, Moved(m, Receive), next)
    ensures |JobsOf(next.steps)| == |JobsOf(t.steps)| + if Moved(m, Receive).busy.None? then 1 else 0
  {
    hide DraftSaveLaws.After, Stepped, Served, FirstReceived, SecondReceived, Updated, Closed, Immediate, PromiseChain.CanTake, PromiseChain.Taken;
    var busy := m.busy.value;
    var job := m.jobs[busy.i];
    assert m.jobs[..busy.i + 1] == m.jobs[..busy.i] + [job];
    if busy.stage.Told? {
      match FirstReceived(m.q, job, busy.stage.answer) {
        case Ended(q, outcome) =>
          OneRequest(t.s, job, t.first, q, outcome);
          next := ExtendTrace(start, t, job, t.first, [], Answered, System(Served(t.s.h, m.q, job, t.first).0, Closed(q, job, outcome)), t.extra);
        case AskAgain(stored) =>
          next := t.(between := t.extra);
          AskAgainSaves(m.q, job, busy.stage.answer);
      }
    } else {
      var stored := busy.stage.stored;
      TwoRequests(t.s, job, t.first, stored, t.between, t.second);
      var asked := Updated(Served(t.s.h, m.q, job, t.first).0 + t.between, stored.version, job.content, t.second);
      var (q, outcome) := SecondReceived(m.q, job.content, asked.1);
      next := ExtendTrace(start, t, job, t.first, t.between, t.second, System(asked.0, Closed(q, job, outcome)), t.extra);
    }
  }

  lemma AskAgainSaves(q: Queue, job: Job, answer: Answer)
    requires FirstReceived(q, job, answer).AskAgain?
    ensures Saves(job) && q.draft.None? && answer == Stored(FirstReceived(q, job, answer).stored)
    ensures FirstReceived(q, job, answer).stored.version == 1 && FirstReceived(q, job, answer).stored.content in q.submitted
  {
  }

  // The moves keep the machine in step with its chain.

  lemma ChainKept(m: Machine, move: Move)
    requires PromiseChain.Sound(m.chain) && CanMove(m, move)
    ensures PromiseChain.Sound(Moved(m, move).chain)
  {
    hide PromiseChain.Sound, PromiseChain.CanTake, PromiseChain.Taken, Served, FirstReceived, SecondReceived, Closed, Immediate;
    match move
    case Submit(_) => SubmitKept(m.chain);
    case Start(i) =>
      PromiseChain.TakenSound(m.chain, PromiseChain.Start(i));
      var begun := PromiseChain.Taken(m.chain, PromiseChain.Start(i));
      if Immediate(m.q, m.jobs[i]).Some? {
        PromiseChain.StartThenSettle(m.chain, i, Immediate(m.q, m.jobs[i]).value.Done?);
        PromiseChain.TakenSound(begun, PromiseChain.Settle(i, Immediate(m.q, m.jobs[i]).value.Done?));
      }
    case Skip(i) => PromiseChain.TakenSound(m.chain, PromiseChain.Skip(i));
    case Derive(i) => PromiseChain.TakenSound(m.chain, PromiseChain.Derive(i));
    case Receive =>
      PromiseChain.TakenSound(m.chain, PromiseChain.Settle(m.busy.value.i, true));
      PromiseChain.TakenSound(m.chain, PromiseChain.Settle(m.busy.value.i, false));
    case _ =>
  }

  lemma SubmitKept(c: PromiseChain.Chain)
    requires PromiseChain.Sound(c)
    ensures PromiseChain.Sound(PromiseChain.Submitted(c))
  {
    hide PromiseChain.Sound;
    PromiseChain.TakenSound(c, PromiseChain.Submit);
  }

  /** How many more operations have settled after the move. */
  function DoneBy(m: Machine, move: Move): nat
    requires CanMove(m, move)
  {
    match move
    case Start(i) => if Immediate(m.q, m.jobs[i]).Some? then 1 else 0
    case Receive => if Moved(m, move).busy.None? then 1 else 0
    case _ => 0
  }

  lemma StaysInStep(m: Machine, done: nat, move: Move)
    requires InStep(m, done) && CanMove(m, move)
    ensures InStep(Moved(m, move), done + DoneBy(m, move))
  {
    ChainKept(m, move);
    var after := Moved(m, move);
    if move.Start? { StartsNext(m, done, move.i); }
    if move.Skip? { PromiseChain.NeverSkipped(m.chain, move.i); }
    hide PromiseChain.Sound, Served, FirstReceived, SecondReceived, Closed, Immediate, Begun, Updated;
    forall i | 0 <= i < |after.jobs|
      ensures i < done + DoneBy(m, move) <==> PromiseChain.IsSettled(after.chain, i)
      ensures after.chain.calls[i].started <==> i < done + DoneBy(m, move) || (i == done + DoneBy(m, move) && after.busy.Some?)
    {
      SettledAfter(m, done, move, i);
    }
  }

  lemma SettledAfter(m: Machine, done: nat, move: Move, i: nat)
    requires InStep(m, done) && CanMove(m, move) && i < |Moved(m, move).jobs| && |Moved(m, move).chain.calls| == |Moved(m, move).jobs|
    requires move.Start? ==> move.i == done && m.busy.None?
    requires !move.Skip?
    ensures var after := Moved(m, move);
      && (i < done + DoneBy(m, move) <==> PromiseChain.IsSettled(after.chain, i))
      && (after.chain.calls[i].started <==> i < done + DoneBy(m, move) || (i == done + DoneBy(m, move) && after.busy.Some?))
  {
    hide Served, FirstReceived, SecondReceived, Closed, Immediate, Begun, Updated;
    hide PromiseChain.Sound, PromiseChain.CanTake, PromiseChain.Taken, PromiseChain.Submitted, PromiseChain.IsSettled;
    match move
    case Submit(_) => SubmitEffect(m.chain, i);
    case Start(k) =>
      PromiseChain.TurnEffect(m.chain, PromiseChain.Start(k), i);
      if Immediate(m.q, m.jobs[k]).Some? {
        var begun, ok := PromiseChain.Taken(m.chain, PromiseChain.Start(k)), Immediate(m.q, m.jobs[k]).value.Done?;
        PromiseChain.TakenSound(m.chain, PromiseChain.Start(k));
        PromiseChain.StartThenSettle(m.chain, k, ok);
        PromiseChain.TurnEffect(begun, PromiseChain.Settle(k, ok), i);
      }
    case Derive(k) => PromiseChain.TurnEffect(m.chain, PromiseChain.Derive(k), i);
    case Receive =>
      PromiseChain.TurnEffect(m.chain, PromiseChain.Settle(m.busy.value.i, true), i);
      PromiseChain.TurnEffect(m.chain, PromiseChain.Settle(m.busy.value.i, false), i);
    case _ =>
  }

  lemma SubmitEffect(c: PromiseChain.Chain, i: nat)
    requires PromiseChain.Sound(c) && i < |PromiseChain.Submitted(c).calls|
    ensures PromiseChain.IsSettled(PromiseChain.Submitted(c), i) <==> PromiseChain.IsSettled(c, i)
    ensures PromiseChain.Submitted(c).calls[i].started <==> i < |c.calls| && c.calls[i].started
    ensures PromiseChain.IsSettled(c, i) ==> i < |c.calls|
    ensures |PromiseChain.Submitted(c).calls| == |c.calls| + 1
  {
    hide PromiseChain.Sound;
    PromiseChain.TurnEffect(c, PromiseChain.Submit, i);
  }

  lemma MoveExplained(start: System, m: Machine, move: Move, t: Trace) returns (next: Trace)
    requires Explains(start, m, t) && InStep(m, |JobsOf(t.steps)|) && CanMove(m, move)
    ensures Explains(start, Moved(m, move), next) && InStep(Moved(m, move), |JobsOf(next.steps)|)
  {
    hide DraftSaveLaws.After, JobsOf, ExplainsJob, InStep, PromiseChain.CanTake, PromiseChain.Taken, PromiseChain.Submitted, Immediate;
    StaysInStep(m, |JobsOf(t.steps)|, move);
    match move
    case Start(i) => next := StartExplained(start, m, i, t);
    case Serve(fate) => next := ServeExplained(start, m, fate, t);
    case Receive => next := ReceiveExplained(start, m, t);
    case OthersWrite(contents) => next := OthersExplained(start, m, contents, t);
    case Submit(job) =>
      next := t;
      SubmitExplained(start, m, job, t);
    case _ =>
      next := t;
      ChainOnlyExplained(start, m, Moved(m, move).chain, t);
  }

  lemma SubmitExplained(start: System, m: Machine, job: Job, t: Trace)
    requires Explains(start, m, t)
    ensures Explains(start, Moved(m, Submit(job)), t)
  {
    hide Served, FirstReceived, Updated, Begun, Immediate, DraftSaveLaws.After;
    assert (m.jobs + [job])[..|JobsOf(t.steps)|] == m.jobs[..|JobsOf(t.steps)|];
  }

  lemma ChainOnlyExplained(start: System, m: Machine, chain: PromiseChain.Chain, t: Trace)
    requires Explains(start, m, t)
    ensures Explains(start, m.(chain := chain), t)
  {
    hide Served, FirstReceived, Updated, Begun, Immediate, DraftSaveLaws.After;
  }

  /** Every run of the machine is explained by a list of steps. */
  lemma {:induction false} RunExplained(start: System, moves: seq<Move>) returns (t: Trace)
    requires Run(start, moves).Some?
    ensures Explains(start, Run(start, moves).value, t) && InStep(Run(start, moves).value, |JobsOf(t.steps)|)
  {
    if moves == [] {
      t := Trace([], start, Answered, [], Answered, []);
      var m := Run(start, moves).value;
      assert m.jobs[..0] == [];
    } else {
      hide Explains, InStep, CanMove, Moved;
      var front := moves[..|moves| - 1];
      t := RunExplained(start, front);
      t := MoveExplained(start, Run(start, front).value, moves[|moves| - 1], t);
    }
  }

  /** Whenever no operation is at work, the server and the queue are where the steps of the operations that have settled,
      one after the other in the order of submission and with the writes of other clients in between, lead. */
  lemma EveryInterleavingIsSteps(start: System, moves: seq<Move>) returns (steps: seq<Step>)
    requires Run(start, moves).Some? && Run(start, moves).value.busy.None?
    ensures var m := Run(start, moves).value;
      && DraftSaveLaws.After(start, steps) == System(m.h, m.q)
      && |JobsOf(steps)| <= |m.jobs| && JobsOf(steps) == m.jobs[..|JobsOf(steps)|]
      && |m.chain.calls| == |m.jobs|
      && (forall i :: 0 <= i < |m.jobs| ==> (i < |JobsOf(steps)| <==> PromiseChain.IsSettled(m.chain, i)))
  {
    hide DraftSaveLaws.After, Run, JobsOf;
    var t := RunExplained(start, moves);
    steps := t.steps;
  }

  /** The job at work can always go on: its request can be served, or its answer received. */
  lemma BusyGoesOn(start: System, m: Machine, t: Trace, fate: Fate)
    requires Explains(start, m, t) && InStep(m, |JobsOf(t.steps)|) && m.busy.Some?
    ensures CanMove(m, Serve(fate)) || CanMove(m, Receive)
  {
    hide DraftSaveLaws.After, Served, FirstReceived, Updated, Begun, Immediate;
    var i := m.busy.value.i;
    assert PromiseChain.CallSound(m.chain, i);
    assert !PromiseChain.IsSettled(m.chain, i);
  }

  /** No interleaving gets stuck: while a submitted operation has not settled, the machine has a move other than a new
      submission or a write of another client. */
  lemma NeverStuck(start: System, moves: seq<Move>, k: nat, fate: Fate) returns (move: Move)
    requires Run(start, moves).Some? && k < |Run(start, moves).value.jobs|
    requires |Run(start, moves).value.chain.calls| == |Run(start, moves).value.jobs| && !PromiseChain.IsSettled(Run(start, moves).value.chain, k)
    ensures !move.Submit? && !move.OthersWrite? && CanMove(Run(start, moves).value, move)
  {
    hide Run, Explains;
    var m := Run(start, moves).value;
    var t := RunExplained(start, moves);
    if m.busy.Some? {
      BusyGoesOn(start, m, t, fate);
      move := if CanMove(m, Serve(fate)) then Serve(fate) else Receive;
    } else {
      var turn := PromiseChain.SomeTurn(m.chain, k);
      if turn.Start? {
        move := Start(turn.i);
      } else {
        assert forall i :: 0 <= i < |m.jobs| ==> (m.chain.calls[i].started ==> PromiseChain.IsSettled(m.chain, i));
        move := Derive(turn.i);
      }
    }
  }

  // What a single request replaces.

  /** A request of the queue that changes the server's draft creates it, or replaces exactly the version the queue holds,
      or the base of the upload, or a first version that the queue had submitted itself. */
  ghost predicate RequestReplaces(m: Machine, after: History) {
    var job := JobOf(m);
    || after == m.h
    || (m.h == [] && m.q.draft.None? && Saves(job) && after == [job.content])
    || (m.h != [] && m.q.draft == Some(Current(m.h)) && Saves(job) && after == m.h + [job.content])
    || (|m.h| == 1 && m.q.draft.None? && m.h[0] in m.q.submitted && Saves(job) && after == m.h + [job.content])
    || (m.h != [] && job.UploadJob? && job.file.id in m.q.bases && m.q.bases[job.file.id] == Current(m.h)
        && after == m.h + [Attach(m.h[|m.h| - 1], job.file)])
  }

  lemma RequestReplacesStep(m: Machine, t: Trace, fate: Fate)
    requires m.busy.Some? && m.busy.value.i < |m.jobs| && ExplainsJob(m, m.jobs[m.busy.value.i], m.busy.value.stage, t)
    requires Truthful(t.s.h, t.s.q) && CanMove(m, Serve(fate))
    ensures RequestReplaces(m, Moved(m, Serve(fate)).h)
  {
    hide Adopted, Attach;
    var job := m.jobs[m.busy.value.i];
    if m.busy.value.stage.AskingAgain? {
      AskAgainSaves(m.q, job, Served(t.s.h, m.q, job, t.first).1);
    } else if job.UploadJob? && job.file.id in m.q.bases {
      UploadReplacesBase(m.h, m.q, job.file, fate);
    }
  }

  /** At every moment of every interleaving, whatever other clients have written by then, a request of the queue replaces
      only what the queue holds or has submitted. */
  lemma NoUnseenRequest(start: System, moves: seq<Move>, fate: Fate)
    requires Truthful(start.h, start.q) && Run(start, moves).Some? && CanMove(Run(start, moves).value, Serve(fate))
    ensures var m := Run(start, moves).value; RequestReplaces(m, Moved(m, Serve(fate)).h)
  {
    hide DraftSaveLaws.After, Run, Truthful, RequestReplaces, Moved, ExplainsJob, InStep;
    var t := RunExplained(start, moves);
    RunTruthful(start, t.steps);
    RequestReplacesStep(Run(start, moves).value, t, fate);
  }
}
