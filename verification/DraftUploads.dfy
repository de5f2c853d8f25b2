/** When an upload, its cancellation and a refresh succeed, exactly; and that saving in the meantime does not spoil an
    upload. */
module DraftUploads {
  import opened PriorityQueue
  import opened Requests
  import opened DraftSaveQueue
  import opened DraftSaveLaws

  ghost predicate HasFile(content: Content, id: string) {
    exists a :: a in content.attachments && a.id == id
  }

  lemma FoundIffThere(content: Content, id: string)
    ensures FindAttachment(content.attachments, id).Some? <==> HasFile(content, id)
  {
  }

  /** The content has the file, and apart from it is that of the base. */
  ghost predicate BaseWithFile(content: Content, base: Content, file: Attachment) {
    && content.text == base.text && FindAttachment(content.attachments, file.id) == Some(file)
    && content.attachments == WithoutAttachment(base.attachments, file.id) + [file]
  }

  /** An upload that is answered succeeds if and only if the server still has the base that was saved for it, or has it with
      exactly this file added; and then the server has the base with the file at its end, and the queue holds that. */
  lemma UploadSucceedsIff(h: History, q: Queue, file: Attachment)
    requires Truthful(h, q) && file.id in q.bases
    ensures var (after, queue, outcome) := UploadRun(h, q, file, Answered);
      var base := q.bases[file.id];
      && (outcome.Done? <==> if HasFile(Current(h).content, file.id) then BaseWithFile(Current(h).content, base.content, file) else Current(h) == base)
      && (outcome.Done? ==> after != [] && BaseWithFile(Current(after).content, base.content, file))
      && (outcome.Done? ==> queue.draft == Some(Current(after)) && queue.bases == q.bases[file.id := Current(after)])
      && (!outcome.Done? ==> queue == q)
  {
    var base, last := q.bases[file.id], h[|h| - 1];
    FoundIffThere(last, file.id);
    if !HasFile(last, file.id) && |h| == base.version {
      assert last == base.content;
      AppendedIsFound(last, file);
      var stored := last.(attachments := last.attachments + [file]);
      assert (h + [stored])[|h|] == stored;
    }
  }

  /** Removing an upload that is answered succeeds if and only if the server has its base, with or without a file of this
      id; and then the queue holds what the server has. */
  lemma CancelSucceedsIff(h: History, q: Queue, id: string)
    requires Truthful(h, q) && id in q.bases
    ensures var (queue, outcome) := CancelRun(h, q, id, Answered);
      var base := q.bases[id];
      && (outcome.Done? <==> if HasFile(Current(h).content, id)
           then (exists a :: BaseWithFile(Current(h).content, base.content, a) && a.id == id) else Current(h).content == base.content)
      && (outcome.Done? ==> queue.draft == Some(Current(h)) && queue.bases == q.bases - {id})
      && (!outcome.Done? ==> queue == q)
  {
    FoundIffThere(Current(h).content, id);
    var found := FindAttachment(Current(h).content.attachments, id);
    if found.Some? {
      assert BaseWithFile(Current(h).content, q.bases[id].content, found.value) <==>
        Current(h).content == Attach(q.bases[id].content, found.value);
    }
  }

  /** A refresh that is answered succeeds if and only if the server has the content the queue holds, in whatever version. */
  lemma RefreshSucceedsIff(h: History, q: Queue)
    requires Truthful(h, q) && q.draft.Some?
    ensures var (queue, outcome) := RefreshRun(h, q, Answered);
      && (outcome.Done? <==> Current(h).content == q.draft.value.content)
      && (queue == if outcome.Done? then q.(draft := Some(Current(h))) else q)
  {
  }

  // Saving while an upload waits.

  /** The server has the base of the upload, and the queue holds it. */
  ghost predicate Ready(s: System, id: string) {
    s.h != [] && id in s.q.bases && s.q.draft == Some(s.q.bases[id]) && s.q.bases[id] == Current(s.h)
  }

  /** A save or a refresh of the queue itself, refused or answered. */
  predicate IsOwn(step: Step) {
    match step
    case Save(_, first, _, _) => first != Lost
    case Refresh(fate) => fate != Lost
    case _ => false
  }

  lemma PreparedIsReady(s: System, content: Content, id: string, others: seq<Content>, second: Fate)
    requires Synced(s)
    ensures var (after, outcome) := Stepped(s, PrepareUpload(content, id, Answered, others, second));
      s.q.draft.Some? || s.h == [] ==> outcome.Done? && Ready(after, id)
  {
  }

  lemma OwnKeepsReady(s: System, id: string, step: Step)
    requires Ready(s, id) && IsOwn(step)
    ensures Ready(Stepped(s, step).0, id)
  {
  }

  lemma {:induction false} OwnStepsKeepReady(start: System, id: string, steps: seq<Step>)
    requires Ready(start, id) && forall step :: step in steps ==> IsOwn(step)
    ensures Ready(After(start, steps), id)
  {
    if steps != [] {
      hide Ready, Stepped, IsOwn;
      OwnStepsKeepReady(start, id, steps[..|steps| - 1]);
      OwnKeepsReady(After(start, steps[..|steps| - 1]), id, steps[|steps| - 1]);
    }
  }

  /** Whatever the owner saves between preparing an upload and its turn, and however many of these saves are refused, the
      upload then succeeds: its base moves along with the draft. */
  lemma SavesDoNotSpoilUpload(start: System, content: Content, others: seq<Content>, second: Fate, steps: seq<Step>, file: Attachment)
    requires Synced(start) && Truthful(start.h, start.q)
    requires forall step :: step in steps ==> IsOwn(step)
    requires var saved := After(Stepped(start, PrepareUpload(content, file.id, Answered, others, second)).0, steps);
      saved.h != [] ==> !HasFile(Current(saved.h).content, file.id)
    ensures var prepared := Stepped(start, PrepareUpload(content, file.id, Answered, others, second)).0;
      var (after, outcome) := Stepped(After(prepared, steps), Upload(file, Answered));
      && outcome.Done? && After(prepared, steps).h != [] && after.h != []
      && BaseWithFile(Current(after.h).content, Current(After(prepared, steps).h).content, file)
  {
    assert start.q.draft.Some? || start.h == [];
    StepTruthful(start, PrepareUpload(content, file.id, Answered, others, second));
    RunTruthful(Stepped(start, PrepareUpload(content, file.id, Answered, others, second)).0, steps);
    hide Truthful, Synced, After, HasFile, BaseWithFile, IsOwn, SaveRun;
    var prepared := Stepped(start, PrepareUpload(content, file.id, Answered, others, second)).0;
    PreparedIsReady(start, content, file.id, others, second);
    OwnStepsKeepReady(prepared, file.id, steps);
    UploadSucceedsIff(After(prepared, steps).h, After(prepared, steps).q, file);
  }
}
