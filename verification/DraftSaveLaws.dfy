/** What the save queue may overwrite, in every interleaving with other clients. */
module DraftSaveLaws {
  import opened PriorityQueue
  import opened Requests
  import opened DraftSaveQueue

  /** One operation of the queue, or writes of other clients. The three parts of `uploadFile` are steps of their own,
      because other clients may write between them; the first one is only submitted when the file had no base at the
      call, which any run may decide as it likes. */
  datatype Step =
    | Others(contents: seq<Content>)
    | Save(content: Content, first: Fate, others: seq<Content>, second: Fate)
    | PrepareUpload(content: Content, id: string, first: Fate, others: seq<Content>, second: Fate)
    | Upload(file: Attachment, fate: Fate)
    | FinishUpload(content: Content, id: string, first: Fate, others: seq<Content>, second: Fate)
    | Cancel(id: string, fate: Fate)
    | Refresh(fate: Fate)

  datatype System = System(h: History, q: Queue)

  function Stepped(s: System, step: Step): (System, Outcome) {
    match step
    case Others(contents) => (System(s.h + contents, s.q), Done(None))
    case Save(content, first, others, second) =>
      var (h, q, outcome) := SaveRun(s.h, s.q, content, first, others, second);
      (System(h, q), outcome)
    case PrepareUpload(content, id, first, others, second) =>
      var (h, q, outcome) := SaveRun(s.h, s.q, content, first, others, second);
      (System(h, if outcome.Done? && outcome.draft.Some? then q.(bases := q.bases[id := outcome.draft.value]) else q), outcome)
    case Upload(file, fate) =>
      var (h, q, outcome) := UploadRun(s.h, s.q, file, fate);
      (System(h, q), outcome)
    case FinishUpload(content, id, first, others, second) =>
      var (h, q, outcome) := SaveRun(s.h, s.q, content, first, others, second);
      (System(h, if outcome.Done? then q.(bases := q.bases - {id}) else q), outcome)
    case Cancel(id, fate) =>
      var (q, outcome) := CancelRun(s.h, s.q, id, fate);
      (System(s.h, q), outcome)
    case Refresh(fate) =>
      var (q, outcome) := RefreshRun(s.h, s.q, fate);
      (System(s.h, q), outcome)
  }

  function After(start: System, steps: seq<Step>): System {
    if steps == [] then start else Stepped(After(start, steps[..|steps| - 1]), steps[|steps| - 1]).0
  }

  // What the queue holds was once on the server.

  predicate Was(h: History, draft: Draft) {
    1 <= draft.version <= |h| && h[draft.version - 1] == draft.content
  }

  ghost predicate Truthful(h: History, q: Queue) {
    && (q.draft.Some? ==> Was(h, q.draft.value))
    && (forall id :: id in q.bases ==> Was(h, q.bases[id]))
  }

  lemma LongerIsTruthful(h: History, more: History, q: Queue)
    requires Truthful(h, q) && h <= more
    ensures Truthful(more, q)
  {
  }

  lemma UpdatedGrows(h: History, version: nat, content: Content, fate: Fate)
    ensures h <= Updated(h, version, content, fate).0
    ensures var (after, answer) := Updated(h, version, content, fate);
      answer.Stored? ==> answer.draft == Draft(|h| + 1, content) && after == h + [content] && |h| == version && Was(after, answer.draft)
  {
  }

  lemma SaveTruthful(h: History, q: Queue, content: Content, first: Fate, others: seq<Content>, second: Fate)
    requires Truthful(h, q)
    ensures var (after, queue, outcome) := SaveRun(h, q, content, first, others, second);
      && h <= after && Truthful(after, queue)
      && (outcome.Done? ==> outcome.draft.Some? && queue.draft == outcome.draft)
      && (outcome.Done? ==> Was(after, outcome.draft.value) && outcome.draft.value.content == content)
  {
    if q.draft.Some? {
      UpdatedGrows(h, q.draft.value.version, content, first);
    } else {
      var created := Created(h, content, first).0;
      UpdatedGrows(created + others, 1, content, second);
    }
  }

  lemma StepTruthful(s: System, step: Step)
    requires Truthful(s.h, s.q)
    ensures s.h <= Stepped(s, step).0.h && Truthful(Stepped(s, step).0.h, Stepped(s, step).0.q)
  {
    hide SaveRun, FindAttachment, WithoutAttachment, Attach;
    match step
    case Save(content, first, others, second) => SaveTruthful(s.h, s.q, content, first, others, second);
    case PrepareUpload(content, _, first, others, second) => SaveTruthful(s.h, s.q, content, first, others, second);
    case FinishUpload(content, _, first, others, second) => SaveTruthful(s.h, s.q, content, first, others, second);
    case _ =>
  }

  lemma {:induction false} RunTruthful(start: System, steps: seq<Step>)
    requires Truthful(start.h, start.q)
    ensures start.h <= After(start, steps).h && Truthful(After(start, steps).h, After(start, steps).q)
  {
    if steps != [] {
      hide Stepped, Truthful;
      RunTruthful(start, steps[..|steps| - 1]);
      StepTruthful(After(start, steps[..|steps| - 1]), steps[|steps| - 1]);
    }
  }

  // What a write replaces.

  /** A save adds nothing of its own, or creates the draft, or replaces exactly the draft the queue held, or, when the
      answer to its first create was lost, a first version that it had submitted itself. */
  ghost predicate ReplacesHeld(h: History, q: Queue, content: Content, others: seq<Content>, after: History) {
    || after == h || (q.draft.None? && after == h + others)
    || (after == h + [content] && h == [] && q.draft.None?)
    || (after == h + [content] && h != [] && q.draft == Some(Current(h)))
    || (after == h + [content] && |h| == 1 && others == [] && q.draft.None? && h[0] in q.submitted)
  }

  lemma SaveReplacesHeld(h: History, q: Queue, content: Content, first: Fate, others: seq<Content>, second: Fate)
    requires Truthful(h, q)
    ensures ReplacesHeld(h, q, content, others, SaveRun(h, q, content, first, others, second).0)
  {
    if q.draft.None? {
      assert h + [] == h;
    }
  }

  /** An upload stores at most one new version, which is the current one with the file at its end; and that current one
      is the base the queue held for the file. */
  lemma UploadReplacesBase(h: History, q: Queue, file: Attachment, fate: Fate)
    requires Truthful(h, q)
    ensures var after := UploadRun(h, q, file, fate).0;
      after == h || (h != [] && file.id in q.bases && q.bases[file.id] == Current(h) && after == h + [Attach(h[|h| - 1], file)])
  {
  }

  /** In every run every version the queue adds follows a version it held; so it never overwrites what another client
      wrote without having seen it. */
  lemma NoUnseenOverwrite(start: System, steps: seq<Step>, step: Step)
    requires Truthful(start.h, start.q)
    ensures var s, next := After(start, steps), Stepped(After(start, steps), step).0;
      match step
      case Others(contents) => next.h == s.h + contents
      case Save(content, _, others, _) => ReplacesHeld(s.h, s.q, content, others, next.h)
      case PrepareUpload(content, _, _, others, _) => ReplacesHeld(s.h, s.q, content, others, next.h)
      case FinishUpload(content, _, _, others, _) => ReplacesHeld(s.h, s.q, content, others, next.h)
      case Upload(file, _) =>
        next.h == s.h || (s.h != [] && file.id in s.q.bases && s.q.bases[file.id] == Current(s.h) && next.h == s.h + [Attach(s.h[|s.h| - 1], file)])
      case Cancel(_, _) => next.h == s.h
      case Refresh(_) => next.h == s.h
  {
    hide After, SaveRun, UploadRun, CancelRun, RefreshRun, ReplacesHeld, Truthful, Attach;
    var s := After(start, steps);
    RunTruthful(start, steps);
    match step
    case Save(content, first, others, second) => SaveReplacesHeld(s.h, s.q, content, first, others, second);
    case PrepareUpload(content, _, first, others, second) => SaveReplacesHeld(s.h, s.q, content, first, others, second);
    case FinishUpload(content, _, first, others, second) => SaveReplacesHeld(s.h, s.q, content, first, others, second);
    case Upload(file, fate) => UploadReplacesBase(s.h, s.q, file, fate);
    case _ =>
  }

  /** `content` is `base`, or `base` with one file of this id at the end. */
  ghost predicate WithFile(content: Content, base: Content, id: string) {
    content == base || exists file: Attachment :: file.id == id && content == Attach(base, file)
  }

  /** What the queue holds after a step has the content it held before, the content it was asked to save, or a base of
      its own with the file in question: it never takes over an edit of another client. */
  lemma AdoptsOnlyOwnContent(s: System, step: Step)
    ensures var before, after := s.q.draft, Stepped(s, step).0.q.draft;
      after == before || (before.Some? && after.Some? && after.value.content == before.value.content)
      || match step
         case Others(_) => false
         case Save(content, _, _, _) => after.Some? && after.value.content == content
         case PrepareUpload(content, _, _, _, _) => after.Some? && after.value.content == content
         case FinishUpload(content, _, _, _, _) => after.Some? && after.value.content == content
         case Upload(file, _) => file.id in s.q.bases && after.Some? && WithFile(after.value.content, s.q.bases[file.id].content, file.id)
         case Cancel(id, _) => id in s.q.bases && after.Some? && WithFile(after.value.content, s.q.bases[id].content, id)
         case Refresh(_) => false
  {
    hide Attach, Adopted;
    match step
    case Save(content, first, others, second) => SavedContent(s.h, s.q, content, first, others, second);
    case PrepareUpload(content, _, first, others, second) => SavedContent(s.h, s.q, content, first, others, second);
    case FinishUpload(content, _, first, others, second) => SavedContent(s.h, s.q, content, first, others, second);
    case _ =>
  }

  lemma SavedContent(h: History, q: Queue, content: Content, first: Fate, others: seq<Content>, second: Fate)
    ensures var queue := SaveRun(h, q, content, first, others, second).1;
      queue.draft == q.draft || (queue.draft.Some? && queue.draft.value.content == content)
  {
  }

  // When a save does what it says.

  /** For a queue that holds a draft: the save succeeds and the server then has its content exactly when the held draft
      is the current one, or both the held and the current draft have that content already. It reports success
      although the server has another content exactly when the held draft has the content and the current one not. */
  lemma SaveSucceedsIff(h: History, q: Queue, content: Content, others: seq<Content>, second: Fate)
    requires Truthful(h, q) && q.draft.Some?
    ensures var (after, queue, outcome) := SaveRun(h, q, content, Answered, others, second);
      && after != [] && h != []
      && (outcome.Done? && Current(after).content == content <==>
          q.draft == Some(Current(h)) || (q.draft.value.content == content && Current(h).content == content))
      && (outcome.Done? && Current(after).content != content <==> q.draft.value.content == content && Current(h).content != content)
  {
  }

  /** For a queue without a draft: the first save succeeds exactly when there is no draft yet, or there is one version
      that has this content, or one that this queue submitted and nobody changes before the second request. */
  lemma FirstSaveSucceedsIff(h: History, q: Queue, content: Content, others: seq<Content>)
    requires q.draft.None?
    ensures var (after, queue, outcome) := SaveRun(h, q, content, Answered, others, Answered);
      && (outcome.Done? <==> h == [] || (|h| == 1 && (h[0] == content || (h[0] in q.submitted && others == []))))
      && (outcome.Done? ==> after != [] && Current(after).content == content && queue.draft == Some(Current(after)))
      && (!outcome.Done? ==> after == h || after == h + others)
  {
  }

  predicate Synced(s: System) {
    if s.h == [] then s.q.draft.None? else s.q.draft == Some(Current(s.h))
  }

  predicate NotLost(fate: Fate) {
    !fate.Lost?
  }

  /** Nobody else writes, and no answer is lost; requests may be refused. */
  predicate IsQuiet(step: Step) {
    match step
    case Others(_) => false
    case Save(_, first, others, second) => NotLost(first) && others == [] && NotLost(second)
    case PrepareUpload(_, _, first, others, second) => NotLost(first) && others == [] && NotLost(second)
    case FinishUpload(_, _, first, others, second) => NotLost(first) && others == [] && NotLost(second)
    case Upload(_, fate) => NotLost(fate)
    case Cancel(_, _) => true
    case Refresh(_) => true
  }

  lemma SaveKeepsSynced(s: System, content: Content, first: Fate, second: Fate)
    requires Synced(s) && NotLost(first) && NotLost(second)
    ensures var (h, q, _) := SaveRun(s.h, s.q, content, first, [], second); Synced(System(h, q))
  {
  }

  lemma UploadKeepsSynced(s: System, file: Attachment, fate: Fate)
    requires Synced(s) && Truthful(s.h, s.q) && NotLost(fate)
    ensures var (h, q, _) := UploadRun(s.h, s.q, file, fate); Synced(System(h, q))
  {
    if file.id in s.q.bases && s.h != [] {
      var base, current := s.q.bases[file.id], s.h[|s.h| - 1];
      if FindAttachment(current.attachments, file.id).None? && base.version == |s.h| {
        assert base == Current(s.h);
        AppendedIsFound(current, file);
      }
    }
  }

  lemma {:induction false} FindBehind(attachments: seq<Attachment>, file: Attachment)
    requires FindAttachment(attachments, file.id).None?
    ensures FindAttachment(attachments + [file], file.id) == Some(file)
  {
    if attachments != [] {
      FindBehind(attachments[1..], file);
      assert (attachments + [file])[1..] == attachments[1..] + [file];
    }
  }

  /** A new file ends up where `Attach` puts it. */
  lemma AppendedIsFound(content: Content, file: Attachment)
    requires FindAttachment(content.attachments, file.id).None?
    ensures content.(attachments := content.attachments + [file]) == Attach(content, file)
    ensures FindAttachment(content.attachments + [file], file.id) == Some(file)
  {
    FindBehind(content.attachments, file);
  }

  lemma StepKeepsSynced(s: System, step: Step)
    requires Synced(s) && Truthful(s.h, s.q) && IsQuiet(step)
    ensures Synced(Stepped(s, step).0)
  {
    hide SaveRun, UploadRun, Attach, FindAttachment;
    match step
    case Save(content, first, _, second) => SaveKeepsSynced(s, content, first, second);
    case PrepareUpload(content, _, first, _, second) => SaveKeepsSynced(s, content, first, second);
    case FinishUpload(content, _, first, _, second) => SaveKeepsSynced(s, content, first, second);
    case Upload(file, fate) => UploadKeepsSynced(s, file, fate);
    case _ =>
  }

  lemma {:induction false} RunKeepsSynced(start: System, steps: seq<Step>)
    requires Synced(start) && Truthful(start.h, start.q) && forall step :: step in steps ==> IsQuiet(step)
    ensures Synced(After(start, steps))
  {
    if steps != [] {
      hide Stepped, Synced, Truthful, IsQuiet;
      var front := steps[..|steps| - 1];
      assert forall step :: step in front ==> step in steps;
      RunKeepsSynced(start, front);
      RunTruthful(start, front);
      assert steps[|steps| - 1] in steps;
      StepKeepsSynced(After(start, front), steps[|steps| - 1]);
    }
  }

  /** However many requests were refused before, a save whose request is answered succeeds, and the server then holds
      exactly its content. */
  lemma RefusalsDoNotBlock(start: System, steps: seq<Step>, content: Content)
    requires Synced(start) && Truthful(start.h, start.q) && forall step :: step in steps ==> IsQuiet(step)
    ensures var (next, outcome) := Stepped(After(start, steps), Save(content, Answered, [], Answered));
      outcome.Done? && next.h != [] && Current(next.h).content == content && next.q.draft == Some(Current(next.h))
  {
    hide After;
    RunKeepsSynced(start, steps);
  }

  /** One lost answer to an update is enough to mislead the queue: going back to the old text then reports success
      without writing, and every other text is refused. */
  lemma LostAnswerMisleads(oldText: Content, newText: Content, other: Content)
    requires oldText != newText && other != oldText
    ensures var start := System([oldText], Queue(Some(Draft(1, oldText)), map[], {}));
      var (lost, failed) := Stepped(start, Save(newText, Lost, [], Answered));
      var (back, reported) := Stepped(lost, Save(oldText, Answered, [], Answered));
      && Synced(start) && failed == Error && reported.Done? && back.h == [oldText, newText]
      && Stepped(lost, Save(other, Answered, [], Answered)) == (lost, Error)
  {
    assert [oldText] + [newText] == [oldText, newText];
  }

  /** A lost answer to an upload is recovered: the same upload again stores nothing and succeeds. */
  lemma UploadRetryRecovers(s: System, file: Attachment)
    requires Synced(s) && Truthful(s.h, s.q) && s.h != [] && file.id in s.q.bases && s.q.bases[file.id] == Current(s.h)
    requires FindAttachment(s.h[|s.h| - 1].attachments, file.id).None?
    ensures var lost := Stepped(s, Upload(file, Lost)).0;
      var (again, outcome) := Stepped(lost, Upload(file, Answered));
      && lost.h == s.h + [Attach(s.h[|s.h| - 1], file)] && again.h == lost.h && outcome.Done? && Synced(again)
  {
    var current := s.h[|s.h| - 1];
    AppendedIsFound(current, file);
  }
}
