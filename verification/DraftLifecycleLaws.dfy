/** The nested account-then-draft lock (`#withDraftLifecycle`) over every interleaving. */
module DraftLifecycleLaws {
  import opened PriorityQueue
  import opened DraftLifecycle

  /** How far one operation is: waiting for the account, waiting for the draft, at work, done with the draft but not
      yet with the account, or finished. */
  datatype Stage = Queued | Nested | Working | Unwinding | Finished

  /** `outer` and `inner` are its calls; the inner one exists from stage `Nested` on. */
  datatype Operation = Operation(account: string, draft: string, outer: nat, inner: nat, stage: Stage)

  datatype System = System(turns: Turns, operations: seq<Operation>)

  /** The atomic steps of an operation; between two of them other operations may run. */
  datatype Step = Begin(account: string, draft: string) | EnterAccount(o: nat) | EnterDraft(o: nat) | LeaveDraft(o: nat) | LeaveAccount(o: nat)

  function Empty(): System {
    System(Turns(map[], []), [])
  }

  predicate Enabled(s: System, step: Step) {
    match step
    case Begin(_, _) => true
    case EnterAccount(o) => o < |s.operations| && s.operations[o].stage == Queued && CanEnter(s.turns, s.operations[o].outer)
    case EnterDraft(o) => o < |s.operations| && s.operations[o].stage == Nested && CanEnter(s.turns, s.operations[o].inner)
    case LeaveDraft(o) => o < |s.operations| && s.operations[o].stage == Working && CanLeave(s.turns, s.operations[o].inner)
    case LeaveAccount(o) => o < |s.operations| && s.operations[o].stage == Unwinding && CanLeave(s.turns, s.operations[o].outer)
  }

  function AtStage(s: System, turns: Turns, o: nat, stage: Stage): System
    requires o < |s.operations|
  {
    System(turns, s.operations[o := s.operations[o].(stage := stage)])
  }

  /** Entering the account runs on, without a pause, into joining the draft. */
  function Taken(s: System, step: Step): System
    requires Enabled(s, step)
  {
    match step
    case Begin(account, draft) =>
      System(Joined(s.turns, AccountKey(account), |s.operations|),
             s.operations + [Operation(account, draft, |s.turns.calls|, 0, Queued)])
    case EnterAccount(o) =>
      var operation := s.operations[o];
      var entered := Entered(s.turns, operation.outer);
      System(Joined(entered, DraftKey(operation.account, operation.draft), o),
             s.operations[o := operation.(inner := |entered.calls|, stage := Nested)])
    case EnterDraft(o) => AtStage(s, Entered(s.turns, s.operations[o].inner), o, Working)
    case LeaveDraft(o) => AtStage(s, Left(s.turns, s.operations[o].inner), o, Unwinding)
    case LeaveAccount(o) => AtStage(s, Left(s.turns, s.operations[o].outer), o, Finished)
  }

  // The invariant.

  function OuterPhase(stage: Stage): Phase {
    match stage
    case Queued => Waiting
    case Finished => Released
    case _ => Running
  }

  function InnerPhase(stage: Stage): Phase {
    match stage
    case Nested => Waiting
    case Working => Running
    case _ => Released
  }

  /** The operation's calls exist, carry its keys and are as far as its stage says; the inner one waits for nobody. */
  ghost predicate Matches(s: System, o: nat)
    requires o < |s.operations|
  {
    var p := s.operations[o];
    && p.outer < |s.turns.calls| && s.turns.calls[p.outer].key == AccountKey(p.account)
    && s.turns.calls[p.outer].owner == o && s.turns.calls[p.outer].phase == OuterPhase(p.stage)
    && (p.stage != Queued ==>
          && p.inner < |s.turns.calls| && s.turns.calls[p.inner].key == DraftKey(p.account, p.draft)
          && s.turns.calls[p.inner].owner == o && s.turns.calls[p.inner].phase == InnerPhase(p.stage)
          && s.turns.calls[p.inner].previous.None?)
  }

  ghost predicate Owned(s: System, t: nat)
    requires t < |s.turns.calls|
  {
    var call := s.turns.calls[t];
    && call.owner < |s.operations|
    && (call.key.AccountKey? ==> s.operations[call.owner].outer == t)
    && (call.key.DraftKey? ==> s.operations[call.owner].stage != Queued && s.operations[call.owner].inner == t)
  }

  ghost predicate Begun(s: System) {
    forall o, q :: 0 <= o < q < |s.operations| ==> s.operations[o].outer < s.operations[q].outer
  }

  ghost predicate Inv(s: System) {
    && Orderly(s.turns) && Begun(s)
    && (forall o :: 0 <= o < |s.operations| ==> Matches(s, o))
    && (forall t :: 0 <= t < |s.turns.calls| ==> Owned(s, t))
  }

  predicate InsideAccount(p: Operation) {
    p.stage == Nested || p.stage == Working || p.stage == Unwinding
  }

  /** Whoever got past the account lock finds every earlier operation of that account finished. */
  lemma EarlierFinished(s: System, o: nat, q: nat)
    requires Inv(s) && o < q < |s.operations| && s.operations[o].account == s.operations[q].account
    ensures s.operations[q].stage != Queued ==> s.operations[o].stage == Finished
  {
    assert Matches(s, o) && Matches(s, q);
    assert SameKey(s.turns, s.operations[o].outer, s.operations[q].outer);
  }

  /** When an operation may enter its account, no call of any draft of that account is unreleased. */
  lemma DraftIsFree(s: System, o: nat)
    requires Inv(s) && Enabled(s, EnterAccount(o))
    ensures DraftKey(s.operations[o].account, s.operations[o].draft) !in s.turns.tails
  {
    hide Orderly, InOrder, Linked;
    var p := s.operations[o];
    var key := DraftKey(p.account, p.draft);
    if key in s.turns.tails {
      TailIsUnreleased(s.turns, key);
      var t := s.turns.tails[key];
      assert Owned(s, t);
      var q := s.turns.calls[t].owner;
      assert Matches(s, q) && Matches(s, o);
      assert InsideAccount(s.operations[q]) && s.operations[q].account == p.account;
      OnlyOneInside(s, o, q);
    }
  }

  lemma TailIsUnreleased(turns: Turns, key: Key)
    requires Orderly(turns) && key in turns.tails
    ensures turns.tails[key] < |turns.calls| && turns.calls[turns.tails[key]].key == key && turns.calls[turns.tails[key]].phase != Released
  {
  }

  /** While one operation may enter an account no other operation is inside it. */
  lemma OnlyOneInside(s: System, o: nat, q: nat)
    requires Inv(s) && Enabled(s, EnterAccount(o)) && q < |s.operations| && s.operations[q].account == s.operations[o].account
    ensures !InsideAccount(s.operations[q])
  {
    if q < o {
      EarlierReleased(s, q, o);
    } else if o < q {
      EarlierFinished(s, o, q);
    }
  }

  lemma EarlierReleased(s: System, q: nat, o: nat)
    requires Inv(s) && q < o < |s.operations| && s.operations[q].account == s.operations[o].account
    requires CanEnter(s.turns, s.operations[o].outer)
    ensures s.operations[q].stage == Finished
  {
    var i, t := s.operations[q].outer, s.operations[o].outer;
    assert Matches(s, q) && Matches(s, o);
    assert SameKey(s.turns, i, t);
    if s.turns.calls[t].previous.Some? {
      var p := s.turns.calls[t].previous.value;
      assert SameKey(s.turns, p, t);
      if i < p { assert SameKey(s.turns, i, p); }
    }
  }

  lemma BeginKeepsInv(s: System, account: string, draft: string)
    requires Inv(s)
    ensures Inv(Taken(s, Begin(account, draft)))
  {
    hide Orderly;
    JoinedOrderly(s.turns, AccountKey(account), |s.operations|);
    var after := Taken(s, Begin(account, draft));
    forall o | 0 <= o < |after.operations|
      ensures Matches(after, o)
      ensures o < |s.operations| ==> after.operations[o].outer < |s.turns.calls|
    {
      if o < |s.operations| { assert Matches(s, o); }
    }
    forall t | 0 <= t < |after.turns.calls|
      ensures Owned(after, t)
    {
      if t < |s.turns.calls| { assert Owned(s, t); }
    }
  }

  lemma EnterAccountKeepsInv(s: System, o: nat)
    requires Inv(s) && Enabled(s, EnterAccount(o))
    ensures Inv(Taken(s, EnterAccount(o)))
  {
    DraftIsFree(s, o);
    hide Orderly, CanEnter;
    var p := s.operations[o];
    assert Matches(s, o);
    EnteredOrderly(s.turns, p.outer);
    JoinedOrderly(Entered(s.turns, p.outer), DraftKey(p.account, p.draft), o);
    var after := Taken(s, EnterAccount(o));
    forall q | 0 <= q < |after.operations|
      ensures Matches(after, q)
    {
      assert Matches(s, q);
    }
    forall t | 0 <= t < |after.turns.calls|
      ensures Owned(after, t)
    {
      if t < |s.turns.calls| { assert Owned(s, t); }
    }
  }

  lemma OtherStepsKeepInv(s: System, step: Step)
    requires Inv(s) && Enabled(s, step) && !step.Begin? && !step.EnterAccount?
    ensures Inv(Taken(s, step))
  {
    hide Orderly;
    var o := step.o;
    assert Matches(s, o);
    if step.EnterDraft? {
      EnteredOrderly(s.turns, s.operations[o].inner);
    } else {
      LeftOrderly(s.turns, if step.LeaveDraft? then s.operations[o].inner else s.operations[o].outer);
    }
    var after := Taken(s, step);
    forall q | 0 <= q < |after.operations|
      ensures Matches(after, q)
    {
      assert Matches(s, q);
    }
    forall t | 0 <= t < |after.turns.calls|
      ensures Owned(after, t)
    {
      assert Owned(s, t);
    }
  }

  lemma StepKeepsInv(s: System, step: Step)
    requires Inv(s) && Enabled(s, step)
    ensures Inv(Taken(s, step))
  {
    hide Inv;
    match step
    case Begin(account, draft) => BeginKeepsInv(s, account, draft);
    case EnterAccount(o) => EnterAccountKeepsInv(s, o);
    case _ => OtherStepsKeepInv(s, step);
  }

  // Runs.

  /** The states a list of steps can lead to. */
  ghost predicate Run(steps: seq<Step>, s: System)
    decreases |steps|, 1
  {
    if steps == [] then s == Empty()
    else exists before :: RunStep(steps, before, s)
  }

  ghost predicate RunStep(steps: seq<Step>, before: System, s: System)
    requires steps != []
    decreases |steps|, 0
  {
    Run(steps[..|steps| - 1], before) && Enabled(before, steps[|steps| - 1]) && Taken(before, steps[|steps| - 1]) == s
  }

  lemma {:induction false} RunInv(steps: seq<Step>, s: System)
    requires Run(steps, s)
    ensures Inv(s)
  {
    if steps != [] {
      hide Inv, Enabled, Taken;
      var before :| RunStep(steps, before, s);
      RunInv(steps[..|steps| - 1], before);
      StepKeepsInv(before, steps[|steps| - 1]);
    }
  }

  /** In every interleaving operations of one account run one at a time, in the order in which they began. */
  lemma OneAtATimeInOrder(steps: seq<Step>, s: System, o: nat, q: nat)
    requires Run(steps, s) && o < q < |s.operations| && s.operations[o].account == s.operations[q].account
    ensures s.operations[q].stage != Queued ==> s.operations[o].stage == Finished
    ensures !(InsideAccount(s.operations[o]) && InsideAccount(s.operations[q]))
  {
    RunInv(steps, s);
    EarlierFinished(s, o, q);
  }

  /** The inner lock is never contended: an operation that has entered its account can enter its draft at once. */
  lemma InnerNeverWaits(steps: seq<Step>, s: System, o: nat)
    requires Run(steps, s) && o < |s.operations| && s.operations[o].stage == Nested
    ensures Enabled(s, EnterDraft(o)) && s.turns.calls[s.operations[o].inner].previous.None?
  {
    RunInv(steps, s);
    assert Matches(s, o);
  }

  /** The map never outlives its operations: a key is in it exactly when some call of that key is unreleased. */
  lemma MapHoldsActiveKeys(steps: seq<Step>, s: System, key: Key)
    requires Run(steps, s)
    ensures key in s.turns.tails <==> exists t :: 0 <= t < |s.turns.calls| && s.turns.calls[t].key == key && s.turns.calls[t].phase != Released
  {
    RunInv(steps, s);
    if key in s.turns.tails { TailIsUnreleased(s.turns, key); }
  }

  // No deadlock.

  /** The step an operation takes next. */
  function NextStep(s: System, o: nat): Step
    requires o < |s.operations| && s.operations[o].stage != Finished
  {
    match s.operations[o].stage
    case Queued => EnterAccount(o)
    case Nested => EnterDraft(o)
    case Working => LeaveDraft(o)
    case _ => LeaveAccount(o)
  }

  /** The first unfinished operation of an account can always go on. */
  lemma FirstCanGoOn(s: System, o: nat)
    requires Inv(s) && o < |s.operations| && s.operations[o].stage != Finished
    requires forall q :: 0 <= q < o && s.operations[q].account == s.operations[o].account ==> s.operations[q].stage == Finished
    ensures Enabled(s, NextStep(s, o))
  {
    assert Matches(s, o);
    var t := s.operations[o].outer;
    if s.operations[o].stage == Queued && s.turns.calls[t].previous.Some? {
      var p := s.turns.calls[t].previous.value;
      assert SameKey(s.turns, p, t);
      assert Owned(s, p);
      var q := s.turns.calls[p].owner;
      assert Matches(s, q);
      assert q < o;
    }
  }

  /** No interleaving deadlocks: while an operation is unfinished, it or an earlier one of its account can go on. */
  lemma {:induction false} NeverStuck(steps: seq<Step>, s: System, o: nat) returns (q: nat)
    requires Run(steps, s) && o < |s.operations| && s.operations[o].stage != Finished
    ensures q <= o && s.operations[q].account == s.operations[o].account && s.operations[q].stage != Finished && Enabled(s, NextStep(s, q))
    decreases o
  {
    if forall e :: 0 <= e < o && s.operations[e].account == s.operations[o].account ==> s.operations[e].stage == Finished {
      RunInv(steps, s);
      FirstCanGoOn(s, o);
      q := o;
    } else {
      var e :| 0 <= e < o && s.operations[e].account == s.operations[o].account && s.operations[e].stage != Finished;
      q := NeverStuck(steps, s, e);
    }
  }

  function StepsLeft(stage: Stage): nat {
    match stage
    case Queued => 4
    case Nested => 3
    case Working => 2
    case Unwinding => 1
    case Finished => 0
  }

  function WorkLeft(operations: seq<Operation>): nat {
    if operations == [] then 0 else WorkLeft(operations[..|operations| - 1]) + StepsLeft(operations[|operations| - 1].stage)
  }

  lemma {:induction false} WorkLeftUpdate(operations: seq<Operation>, o: nat, p: Operation)
    requires o < |operations|
    ensures WorkLeft(operations[o := p]) == WorkLeft(operations) - StepsLeft(operations[o].stage) + StepsLeft(p.stage)
  {
    var n := |operations| - 1;
    if o < n {
      WorkLeftUpdate(operations[..n], o, p);
      assert operations[o := p][..n] == operations[..n][o := p];
    } else {
      assert operations[o := p][..n] == operations[..n];
    }
  }

  function Begins(steps: seq<Step>): nat {
    if steps == [] then 0 else Begins(steps[..|steps| - 1]) + if steps[|steps| - 1].Begin? then 1 else 0
  }

  /** Each operation takes four steps after it began, so once no operation begins any more every run comes to its end
      after exactly the work that is left. */
  lemma {:induction false} EveryRunEnds(steps: seq<Step>, s: System)
    requires Run(steps, s)
    ensures |steps| + WorkLeft(s.operations) == 5 * Begins(steps)
  {
    if steps != [] {
      var before :| RunStep(steps, before, s);
      var step := steps[|steps| - 1];
      EveryRunEnds(steps[..|steps| - 1], before);
      if step.Begin? {
        assert s.operations[..|before.operations|] == before.operations;
      } else {
        WorkLeftUpdate(before.operations, step.o, s.operations[step.o]);
        assert s.operations == before.operations[step.o := s.operations[step.o]];
      }
    }
  }
}
