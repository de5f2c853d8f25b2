/** `serializeDraftLifecycle`: the promise chain per key that makes draft operations take turns. */
module DraftLifecycle {
  import opened PriorityQueue

  /** An account key and a draft key are never equal. `account` stands for store, tenant and account together. */
  datatype Key = AccountKey(account: string) | DraftKey(account: string, draft: string)

  datatype Phase = Waiting | Running | Released

  /** One call: the turn it waits for, if any, and how far it is. `owner` is the operation that made the call. */
  datatype Call = Call(key: Key, owner: nat, previous: Option<nat>, phase: Phase)

  /** The `draftLifecycleTurns` map, and all calls so far; a turn is the index of its call. */
  datatype Turns = Turns(tails: map<Key, nat>, calls: seq<Call>)

  /** Up to the first `await`: takes the tail of the chain as the turn to wait for and becomes the new tail. */
  function Joined(s: Turns, key: Key, owner: nat): Turns {
    Turns(s.tails[key := |s.calls|], s.calls + [Call(key, owner, if key in s.tails then Some(s.tails[key]) else None, Waiting)])
  }

  predicate CanEnter(s: Turns, turn: nat) {
    && turn < |s.calls| && s.calls[turn].phase == Waiting
    && (s.calls[turn].previous.Some? ==>
          s.calls[turn].previous.value < |s.calls| && s.calls[s.calls[turn].previous.value].phase == Released)
  }

  predicate CanLeave(s: Turns, turn: nat) {
    turn < |s.calls| && s.calls[turn].phase == Running
  }

  function Entered(s: Turns, turn: nat): Turns
    requires turn < |s.calls|
  {
    s.(calls := s.calls[turn := s.calls[turn].(phase := Running)])
  }

  /** The `finally` block: releases the turn and forgets the key if no one joined behind it. */
  function Left(s: Turns, turn: nat): Turns
    requires turn < |s.calls|
  {
    var key := s.calls[turn].key;
    Turns(if key in s.tails && s.tails[key] == turn then s.tails - {key} else s.tails,
          s.calls[turn := s.calls[turn].(phase := Released)])
  }

  class DraftLifecycleTurns {
    var tails: map<Key, nat>
    var calls: seq<Call>

    ghost function State(): Turns
      reads this
    {
      Turns(tails, calls)
    }

    constructor ()
      ensures State() == Turns(map[], [])
    {
      tails, calls := map[], [];
    }

    method Join(key: Key, owner: nat) returns (turn: nat)
      modifies this
      ensures turn == |old(calls)| && State() == Joined(old(State()), key, owner)
    {
      var previous := if key in tails then Some(tails[key]) else None;
      turn := |calls|;
      calls := calls + [Call(key, owner, previous, Waiting)];
      tails := tails[key := turn];
    }

    method Enter(turn: nat)
      requires CanEnter(State(), turn)
      modifies this`calls
      ensures State() == Entered(old(State()), turn)
    {
      calls := calls[turn := calls[turn].(phase := Running)];
    }

    method Leave(turn: nat)
      requires CanLeave(State(), turn)
      modifies this
      ensures State() == Left(old(State()), turn)
    {
      var key := calls[turn].key;
      calls := calls[turn := calls[turn].(phase := Released)];
      if key in tails && tails[key] == turn {
        tails := tails - {key};
      }
    }
  }

  // What every step keeps.

  ghost predicate SameKey(s: Turns, i: nat, j: nat)
    requires i < |s.calls| && j < |s.calls|
  {
    s.calls[i].key == s.calls[j].key
  }

  /** Whoever has entered has nobody unreleased in front of it. */
  ghost predicate InOrder(s: Turns) {
    forall i, j {:trigger SameKey(s, i, j)} :: 0 <= i < j < |s.calls| && SameKey(s, i, j) && s.calls[j].phase != Waiting ==>
      s.calls[i].phase == Released
  }

  /** Each call waits for the call right in front of it, or everyone in front of it is released. */
  ghost predicate Linked(s: Turns) {
    && (forall t :: 0 <= t < |s.calls| && s.calls[t].previous.Some? ==>
          s.calls[t].previous.value < t && SameKey(s, s.calls[t].previous.value, t))
    && (forall i, t {:trigger SameKey(s, i, t)} :: 0 <= i < t < |s.calls| && SameKey(s, i, t) ==>
          s.calls[i].phase == Released || (s.calls[t].previous.Some? && i <= s.calls[t].previous.value))
  }

  /** The map holds the last call of each key that has unreleased calls, and nothing else. */
  ghost predicate Tailed(s: Turns) {
    && (forall key :: key in s.tails ==> s.tails[key] < |s.calls| && s.calls[s.tails[key]].key == key && s.calls[s.tails[key]].phase != Released)
    && (forall t :: 0 <= t < |s.calls| && s.calls[t].phase != Released ==> s.calls[t].key in s.tails)
    && (forall t :: 0 <= t < |s.calls| && s.calls[t].key in s.tails ==> t <= s.tails[s.calls[t].key])
  }

  ghost predicate Orderly(s: Turns) {
    InOrder(s) && Linked(s) && Tailed(s)
  }

  lemma JoinedOrderly(s: Turns, key: Key, owner: nat)
    requires Orderly(s)
    ensures Orderly(Joined(s, key, owner))
  {
    var after := Joined(s, key, owner);
    assert forall t :: 0 <= t < |s.calls| ==> after.calls[t] == s.calls[t];
    forall i, t | 0 <= i < t < |after.calls| && SameKey(after, i, t)
      ensures after.calls[t].phase != Waiting ==> after.calls[i].phase == Released
      ensures after.calls[i].phase == Released || (after.calls[t].previous.Some? && i <= after.calls[t].previous.value)
    {
      if t < |s.calls| { assert SameKey(s, i, t); }
    }
    forall t | 0 <= t < |after.calls| && after.calls[t].previous.Some?
      ensures after.calls[t].previous.value < t && SameKey(after, after.calls[t].previous.value, t)
    {
      if t < |s.calls| { assert SameKey(s, s.calls[t].previous.value, t); }
    }
  }

  /** Entering keeps the order: the turn in front is released, and through it everyone before that. */
  lemma EnteredOrderly(s: Turns, turn: nat)
    requires Orderly(s) && CanEnter(s, turn)
    ensures Orderly(Entered(s, turn))
  {
    var after := Entered(s, turn);
    forall i, t | 0 <= i < t < |after.calls| && SameKey(after, i, t)
      ensures after.calls[t].phase != Waiting ==> after.calls[i].phase == Released
      ensures after.calls[i].phase == Released || (after.calls[t].previous.Some? && i <= after.calls[t].previous.value)
    {
      assert SameKey(s, i, t);
      if t == turn && s.calls[turn].previous.Some? {
        var p := s.calls[turn].previous.value;
        assert SameKey(s, p, turn);
        if i < p { assert SameKey(s, i, p); }
      }
    }
    forall t | 0 <= t < |after.calls| && after.calls[t].previous.Some?
      ensures after.calls[t].previous.value < t && SameKey(after, after.calls[t].previous.value, t)
    {
      assert SameKey(s, s.calls[t].previous.value, t);
    }
  }

  /** Forgetting the key is safe: when the tail leaves, everyone of that key has been released. */
  lemma LeftOrderly(s: Turns, turn: nat)
    requires Orderly(s) && CanLeave(s, turn)
    ensures Orderly(Left(s, turn))
  {
    var after := Left(s, turn);
    forall i, t | 0 <= i < t < |after.calls| && SameKey(after, i, t)
      ensures after.calls[t].phase != Waiting ==> after.calls[i].phase == Released
      ensures after.calls[i].phase == Released || (after.calls[t].previous.Some? && i <= after.calls[t].previous.value)
    {
      assert SameKey(s, i, t);
    }
    forall t | 0 <= t < |after.calls| && after.calls[t].previous.Some?
      ensures after.calls[t].previous.value < t && SameKey(after, after.calls[t].previous.value, t)
    {
      assert SameKey(s, s.calls[t].previous.value, t);
    }
    assert forall t :: 0 <= t < turn && SameKey(s, t, turn) ==> s.calls[t].phase == Released;
    assert forall t :: 0 <= t < turn && s.calls[t].key == s.calls[turn].key ==> SameKey(s, t, turn);
  }
}
