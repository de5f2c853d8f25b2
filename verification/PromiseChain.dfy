/** The promise chain of the save queue: `operation = tail.then(body)`, `tail = operation.then(nothing, nothing)`. */
module PromiseChain {

  datatype Promise = Pending | Fulfilled | Rejected

  /** One submitted operation: the promise it was chained to, the one its caller holds, the one derived from that, and
      whether its body has begun. */
  datatype Call = Call(waitsFor: nat, result: nat, derived: nat, started: bool)

  /** All promises so far, by number, and the number of the one in the `tail` field. */
  datatype Chain = Chain(promises: seq<Promise>, calls: seq<Call>, tail: nat)

  function Empty(): Chain {
    Chain([Fulfilled], [], 0)
  }

  /** A body only begins when the promise it was chained to is fulfilled; were that one rejected, the operation would be
      rejected without running. The derived promise has a handler for either case. */
  datatype Turn = Submit | Start(i: nat) | Skip(i: nat) | Settle(i: nat, ok: bool) | Derive(i: nat)

  function At(c: Chain, p: nat): Promise {
    if p < |c.promises| then c.promises[p] else Pending
  }

  predicate CanTake(c: Chain, turn: Turn) {
    match turn
    case Submit => true
    case Start(i) => i < |c.calls| && !c.calls[i].started && At(c, c.calls[i].result) == Pending && At(c, c.calls[i].waitsFor) == Fulfilled
    case Skip(i) => i < |c.calls| && !c.calls[i].started && At(c, c.calls[i].result) == Pending && At(c, c.calls[i].waitsFor) == Rejected
    case Settle(i, _) => i < |c.calls| && c.calls[i].started && At(c, c.calls[i].result) == Pending
    case Derive(i) => i < |c.calls| && At(c, c.calls[i].result) != Pending && At(c, c.calls[i].derived) == Pending
  }

  function Resolved(c: Chain, p: nat, promise: Promise): Chain {
    if p < |c.promises| then c.(promises := c.promises[p := promise]) else c
  }

  function Submitted(c: Chain): Chain {
    var n := |c.promises|;
    Chain(c.promises + [Pending, Pending], c.calls + [Call(c.tail, n, n + 1, false)], n + 1)
  }

  function Taken(c: Chain, turn: Turn): (r: Chain)
    requires CanTake(c, turn)
    ensures |r.calls| == |c.calls| + if turn.Submit? then 1 else 0
  {
    match turn
    case Submit => Submitted(c)
    case Start(i) => c.(calls := c.calls[i := c.calls[i].(started := true)])
    case Skip(i) => Resolved(c, c.calls[i].result, Rejected)
    case Settle(i, ok) => Resolved(c, c.calls[i].result, if ok then Fulfilled else Rejected)
    case Derive(i) => Resolved(c, c.calls[i].derived, Fulfilled)
  }

  /** The chain after these turns, if each of them could be taken. */
  datatype Reached = NotReached | Reached(chain: Chain)

  function After(turns: seq<Turn>): Reached {
    if turns == [] then Reached(Empty())
    else
      match After(turns[..|turns| - 1])
      case NotReached => NotReached
      case Reached(c) => if CanTake(c, turns[|turns| - 1]) then Reached(Taken(c, turns[|turns| - 1])) else NotReached
  }

  class SaveTail {
    var promises: seq<Promise>
    var calls: seq<Call>
    var tail: nat

    ghost function State(): Chain
      reads this
    {
      Chain(promises, calls, tail)
    }

    constructor ()
      ensures State() == Empty()
    {
      promises, calls, tail := [Fulfilled], [], 0;
    }

    /** What every method of the queue does around its body. */
    method Submit() returns (call: nat)
      modifies this
      ensures call == |old(calls)| && State() == Submitted(old(State()))
    {
      call := |calls|;
      var operation := |promises|;
      promises := promises + [Pending];
      var derived := |promises|;
      promises := promises + [Pending];
      assert promises == old(promises) + [Pending, Pending];
      calls := calls + [Call(tail, operation, derived, false)];
      tail := derived;
    }
  }

  // What every turn keeps.

  /** The `i`-th call is chained to the promise derived from the call before it; that promise is never rejected and only
      settles once the operation has; and a body that has begun had its turn. */
  ghost predicate CallSound(c: Chain, i: nat)
    requires i < |c.calls|
  {
    var call := c.calls[i];
    && call.waitsFor == 2 * i && call.result == 2 * i + 1 && call.derived == 2 * i + 2
    && At(c, call.derived) != Rejected && (At(c, call.derived) == Fulfilled ==> At(c, call.result) != Pending)
    && (At(c, call.result) != Pending ==> call.started) && (call.started ==> At(c, call.waitsFor) == Fulfilled)
  }

  ghost predicate Sound(c: Chain) {
    && |c.promises| == 2 * |c.calls| + 1 && c.tail == 2 * |c.calls| && c.promises[0] == Fulfilled
    && (forall i :: 0 <= i < |c.calls| ==> CallSound(c, i))
  }

  /** Nobody waits for a promise that can be rejected. */
  lemma NeverSkipped(c: Chain, i: nat)
    requires Sound(c)
    ensures !CanTake(c, Skip(i))
  {
    if 0 < i < |c.calls| {
      assert CallSound(c, i) && CallSound(c, i - 1);
    } else if i == 0 && |c.calls| > 0 {
      assert CallSound(c, 0);
    }
  }

  lemma TakenSound(c: Chain, turn: Turn)
    requires Sound(c) && CanTake(c, turn)
    ensures Sound(Taken(c, turn))
  {
    if turn.Skip? { NeverSkipped(c, turn.i); }
    var after := Taken(c, turn);
    forall i | 0 <= i < |after.calls|
      ensures CallSound(after, i)
    {
      if i < |c.calls| { assert CallSound(c, i); }
      if !turn.Submit? { assert CallSound(c, turn.i); }
    }
  }

  lemma {:induction false} RunSound(turns: seq<Turn>)
    ensures After(turns).Reached? ==> Sound(After(turns).chain)
  {
    if turns != [] {
      hide Sound, CanTake, Taken;
      var front := After(turns[..|turns| - 1]);
      RunSound(turns[..|turns| - 1]);
      if front.Reached? && CanTake(front.chain, turns[|turns| - 1]) { TakenSound(front.chain, turns[|turns| - 1]); }
    }
  }

  predicate IsSettled(c: Chain, i: nat) {
    i < |c.calls| && At(c, c.calls[i].result) != Pending
  }

  /** Whoever is chained to a fulfilled promise finds everything submitted before it settled. */
  lemma {:induction false} EarlierSettled(c: Chain, i: nat, j: nat)
    requires Sound(c) && i < j < |c.calls| && At(c, c.calls[j].waitsFor) == Fulfilled
    ensures IsSettled(c, i) && c.calls[i].started
    decreases j
  {
    assert CallSound(c, j) && CallSound(c, j - 1) && CallSound(c, i);
    if i < j - 1 { EarlierSettled(c, i, j - 1); }
  }

  lemma StartThenSettle(c: Chain, i: nat, ok: bool)
    requires CanTake(c, Start(i))
    ensures CanTake(Taken(c, Start(i)), Settle(i, ok))
  {
  }

  /** Only its own turns begin and settle an operation. */
  lemma TurnEffect(c: Chain, turn: Turn, i: nat)
    requires Sound(c) && CanTake(c, turn) && i < |Taken(c, turn).calls|
    ensures IsSettled(Taken(c, turn), i) <==> IsSettled(c, i) || (turn.Settle? && turn.i == i)
    ensures Taken(c, turn).calls[i].started <==> (i < |c.calls| && c.calls[i].started) || turn == Start(i)
  {
    if turn.Skip? { NeverSkipped(c, turn.i); }
    if i < |c.calls| { assert CallSound(c, i); }
    if !turn.Submit? { assert CallSound(c, turn.i); }
  }

  /** In every run operations run one at a time in the order of submission: once the body of one has begun, every earlier
      one has settled, fulfilled or rejected. */
  lemma InSubmissionOrder(turns: seq<Turn>, i: nat, j: nat)
    requires After(turns).Reached? && i < j < |After(turns).chain.calls| && After(turns).chain.calls[j].started
    ensures IsSettled(After(turns).chain, i)
  {
    hide After;
    RunSound(turns);
    assert CallSound(After(turns).chain, j);
    EarlierSettled(After(turns).chain, i, j);
  }

  /** In every run failures do not block: while an operation has not settled, it or an earlier one has a turn to take, and
      no operation is ever skipped because another one failed. */
  lemma FailuresDoNotBlock(turns: seq<Turn>, k: nat) returns (turn: Turn)
    requires After(turns).Reached? && k < |After(turns).chain.calls| && !IsSettled(After(turns).chain, k)
    ensures turn.Start? || turn.Settle? || turn.Derive?
    ensures turn.i <= k && CanTake(After(turns).chain, turn)
    ensures !CanTake(After(turns).chain, Skip(k))
  {
    hide After;
    RunSound(turns);
    NeverSkipped(After(turns).chain, k);
    turn := SomeTurn(After(turns).chain, k);
  }

  lemma {:induction false} SomeTurn(c: Chain, k: nat) returns (turn: Turn)
    requires Sound(c) && k < |c.calls| && !IsSettled(c, k)
    ensures turn.Start? || turn.Settle? || turn.Derive?
    ensures turn.i <= k && CanTake(c, turn)
    decreases k
  {
    assert CallSound(c, k);
    if c.calls[k].started {
      turn := Settle(k, true);
    } else if k == 0 {
      turn := Start(k);
    } else {
      assert CallSound(c, k - 1);
      if !IsSettled(c, k - 1) {
        turn := SomeTurn(c, k - 1);
      } else if At(c, c.calls[k - 1].derived) == Pending {
        turn := Derive(k - 1);
      } else {
        turn := Start(k);
      }
    }
  }

  // Every run ends.

  /** The turns an operation still has to take. */
  function TurnsLeft(c: Chain, i: nat): nat
    requires i < |c.calls|
  {
    (if c.calls[i].started then 0 else 1) + (if At(c, c.calls[i].result) == Pending then 1 else 0)
    + (if At(c, c.calls[i].derived) == Pending then 1 else 0)
  }

  function WorkLeft(c: Chain, n: nat): nat
    requires n <= |c.calls|
  {
    if n == 0 then 0 else WorkLeft(c, n - 1) + TurnsLeft(c, n - 1)
  }

  function Submits(turns: seq<Turn>): nat {
    if turns == [] then 0 else Submits(turns[..|turns| - 1]) + if turns[|turns| - 1].Submit? then 1 else 0
  }

  /** A turn takes one off the work of its own operation and leaves the others alone. */
  lemma {:induction false} WorkAfter(c: Chain, turn: Turn, n: nat)
    requires Sound(c) && CanTake(c, turn) && n <= |c.calls|
    ensures n <= |Taken(c, turn).calls|
    ensures WorkLeft(Taken(c, turn), n) == WorkLeft(c, n) - if !turn.Submit? && turn.i < n then 1 else 0
  {
    if n > 0 {
      WorkAfter(c, turn, n - 1);
      assert CallSound(c, n - 1);
      if !turn.Submit? {
        assert CallSound(c, turn.i);
        NeverSkipped(c, turn.i);
      }
    }
  }

  /** Each operation takes three turns after it was submitted, so every run comes to its end. */
  lemma {:induction false} EveryRunEnds(turns: seq<Turn>)
    requires After(turns).Reached?
    ensures var c := After(turns).chain; |turns| + WorkLeft(c, |c.calls|) == 4 * Submits(turns)
  {
    if turns != [] {
      var front, last := turns[..|turns| - 1], turns[|turns| - 1];
      var c := After(front).chain;
      EveryRunEnds(front);
      RunSound(front);
      WorkAfter(c, last, |c.calls|);
    }
  }
}
