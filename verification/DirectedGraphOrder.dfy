/** The second half of `orderDirectedGraph`: the components become a condensed graph, and Kahn's algorithm
    over a priority queue lists them. */
module DirectedGraphOrder {
  import opened Orders
  import opened Graphs
  import opened PriorityQueue
  import opened GreedyOrder
  import opened StrongComponents

  /** Two nodes share a component exactly when each is reachable from the other. */
  lemma SameComponentIffMutual<T(!new)>(g: Graph<T>, components: seq<seq<T>>, of: map<T, nat>, u: T, v: T)
    requires WellFormed(g) && Collected(g, components, of) && of.Keys == g.after.Keys && u in of && v in of
    ensures of[u] == of[v] <==> Mutual(g, u, v)
  {
    if Mutual(g, u, v) {
      ComponentNotBefore(g, components, of, u, v);
      ComponentNotBefore(g, components, of, v, u);
    }
  }

  lemma ComponentNotBefore<T(!new)>(g: Graph<T>, components: seq<seq<T>>, of: map<T, nat>, u: T, v: T)
    requires Collected(g, components, of) && u in of && v in of && Reaches(g, u, v)
    ensures of[v] <= of[u]
  {
    var closed := set x | x in of && of[x] <= of[u];
    ClosedUnderReaches(g, closed, u, v);
  }

  // The condensation.

  /** Some edge leads from component `c` into the different component `d`. */
  ghost predicate Crosses<T(!new)>(g: Graph<T>, of: map<T, nat>, c: nat, d: nat) {
    c != d && exists u, v :: u in of && v in of && of[u] == c && of[v] == d && Edge(g, u, v)
  }

  ghost function Preds(after: seq<seq<nat>>, d: nat): (p: set<nat>)
    ensures forall c: nat :: c in p <==> c < |after| && d in after[c]
  {
    set c: nat | c < |after| && d in after[c]
  }

  ghost predicate Acyclic(after: seq<seq<nat>>) {
    forall c, d {:trigger d in after[c]} :: 0 <= c < |after| && d in after[c] ==> d < c
  }

  ghost predicate Condensed<T(!new)>(g: Graph<T>, of: map<T, nat>, after: seq<seq<nat>>) {
    && (forall c :: 0 <= c < |after| ==> Distinct(after[c]))
    && (forall c: nat, d: nat {:trigger Crosses(g, of, c, d)} {:trigger d in after[c]} ::
         c < |after| ==> (d in after[c] <==> Crosses(g, of, c, d)))
  }

  ghost predicate Counted(after: seq<seq<nat>>, incoming: seq<nat>) {
    |incoming| == |after| && forall d :: 0 <= d < |incoming| ==> incoming[d] == |Preds(after, d)|
  }

  lemma CondensedAcyclic<T(!new)>(g: Graph<T>, components: seq<seq<T>>, of: map<T, nat>, after: seq<seq<nat>>)
    requires Collected(g, components, of) && Condensed(g, of, after)
    ensures Acyclic(after)
  {
    forall c, d | 0 <= c < |after| && d in after[c]
      ensures d < c
    {
      assert Crosses(g, of, c, d);
    }
  }

  lemma PredsAfterAdd(after: seq<seq<nat>>, c: nat, d: nat, x: nat)
    requires c < |after| && d !in after[c]
    ensures |Preds(after[c := after[c] + [d]], x)| == |Preds(after, x)| + if x == d then 1 else 0
  {
    assert Preds(after[c := after[c] + [d]], x) == if x == d then Preds(after, x) + {c} else Preds(after, x);
  }

  lemma CountedAfterAdd(after: seq<seq<nat>>, incoming: seq<nat>, c: nat, d: nat)
    requires Counted(after, incoming) && c < |after| && d < |after| && d !in after[c]
    ensures Counted(after[c := after[c] + [d]], incoming[d := incoming[d] + 1])
  {
    forall x: nat | x < |after|
      ensures |Preds(after[c := after[c] + [d]], x)| == |Preds(after, x)| + if x == d then 1 else 0
    {
      PredsAfterAdd(after, c, d, x);
    }
  }

  /** `componentByValue`. */
  method IndexComponents<T(==,!new)>(g: Graph<T>, components: seq<seq<T>>, ghost of: map<T, nat>) returns (componentByValue: map<T, nat>)
    requires Collected(g, components, of)
    ensures componentByValue == of
  {
    componentByValue := map[];
    for c := 0 to |components|
      invariant forall v :: v in componentByValue ==> v in of && of[v] == componentByValue[v]
      invariant forall v :: v in of && of[v] < c ==> v in componentByValue
    {
      for i := 0 to |components[c]|
        invariant forall v :: v in componentByValue ==> v in of && of[v] == componentByValue[v]
        invariant forall v :: v in of && of[v] < c ==> v in componentByValue
        invariant forall k :: 0 <= k < i ==> components[c][k] in componentByValue
      {
        assert components[c][i] in components[c];
        componentByValue := componentByValue[components[c][i] := c];
      }
    }
  }

  /** `componentAfter` and `incoming`: the edges between different components, each once. */
  method Condense<T(==,!new)>(g: Graph<T>, components: seq<seq<T>>, of: map<T, nat>) returns (after: seq<seq<nat>>, incoming: seq<nat>)
    requires WellFormed(g) && Collected(g, components, of) && of.Keys == g.after.Keys
    ensures |after| == |components| && Condensed(g, of, after) && Counted(after, incoming)
  {
    after := seq(|components|, _ => []);
    incoming := seq(|components|, _ => 0);
    assert forall d: nat :: Preds(after, d) == {};
    for n := 0 to |g.nodes|
      invariant |after| == |components| && Counted(after, incoming)
      invariant Within(g, of, after)
      invariant forall i, v :: 0 <= i < n && Edge(g, g.nodes[i], v) ==> Noted(of, after, g.nodes[i], v)
    {
      var value := g.nodes[n];
      assert value in g.nodes;
      var component := of[value];
      var laterValues := g.after[value];
      for k := 0 to |laterValues|
        invariant |after| == |components| && Counted(after, incoming)
        invariant Within(g, of, after)
        invariant forall i, v :: 0 <= i < n && Edge(g, g.nodes[i], v) ==> Noted(of, after, g.nodes[i], v)
        invariant forall i :: 0 <= i < k ==> Noted(of, after, value, laterValues[i])
      {
        assert Edge(g, value, laterValues[k]);
        var laterComponent := of[laterValues[k]];
        if component == laterComponent || laterComponent in after[component] { continue; }
        ghost var before := after;
        CountedAfterAdd(after, incoming, component, laterComponent);
        WithinAfterAdd(g, of, after, value, laterValues[k]);
        after := after[component := after[component] + [laterComponent]];
        incoming := incoming[laterComponent := incoming[laterComponent] + 1];
        NotedAfterAdd(of, before, component, laterComponent);
      }
    }
    forall c: nat, d: nat | c < |after| && Crosses(g, of, c, d)
      ensures d in after[c]
    {
      var u, v :| u in of && v in of && of[u] == c && of[v] == d && Edge(g, u, v);
      assert u in g.nodes;
      var i :| 0 <= i < |g.nodes| && g.nodes[i] == u;
      assert Noted(of, after, g.nodes[i], v);
    }
  }

  /** Every recorded edge is one between different components. */
  ghost predicate Within<T(!new)>(g: Graph<T>, of: map<T, nat>, after: seq<seq<nat>>) {
    && (forall c :: 0 <= c < |after| ==> Distinct(after[c]))
    && (forall c: nat, d: nat {:trigger d in after[c]} :: c < |after| && d in after[c] ==> Crosses(g, of, c, d))
  }

  ghost predicate Noted<T>(of: map<T, nat>, after: seq<seq<nat>>, u: T, v: T) {
    u in of && v in of && (of[u] == of[v] || (of[u] < |after| && of[v] in after[of[u]]))
  }

  lemma WithinAfterAdd<T(!new)>(g: Graph<T>, of: map<T, nat>, after: seq<seq<nat>>, u: T, v: T)
    requires Within(g, of, after) && u in of && v in of && of[u] < |after| && of[u] != of[v] && Edge(g, u, v)
    requires of[v] !in after[of[u]]
    ensures Within(g, of, after[of[u] := after[of[u]] + [of[v]]])
  {
    assert Crosses(g, of, of[u], of[v]);
  }

  lemma NotedAfterAdd<T(!new)>(of: map<T, nat>, after: seq<seq<nat>>, c: nat, d: nat)
    requires c < |after|
    ensures forall u, v :: Noted(of, after, u, v) ==> Noted(of, after[c := after[c] + [d]], u, v)
    ensures forall u, v :: u in of && v in of && of[u] == c && of[v] == d ==> Noted(of, after[c := after[c] + [d]], u, v)
  {
  }

  // Kahn's algorithm.

  datatype ReadyEntry = ReadyEntry(component: nat, sequence: nat)

  /** `compareReady`. Entries only ever name existing components, so the last branch is never decisive. */
  function CompareReady<T(!new)>(cmp: (T, T) -> int, representatives: seq<Representative<T>>, left: ReadyEntry, right: ReadyEntry): int {
    if left.component < |representatives| && right.component < |representatives| then
      var compared := CompareRepresentatives(cmp, representatives[left.component], representatives[right.component]);
      if compared != 0 then compared else left.sequence - right.sequence
    else if left.component < |representatives| then -1
    else if right.component < |representatives| then 1
    else 0
  }

  lemma RepresentativesTransitive<T(!new)>(cmp: (T, T) -> int, a: Representative<T>, b: Representative<T>, c: Representative<T>)
    requires TotalPreorder(cmp)
    ensures CompareRepresentatives(cmp, a, b) <= 0 && CompareRepresentatives(cmp, b, c) <= 0 ==> CompareRepresentatives(cmp, a, c) <= 0
    ensures CompareRepresentatives(cmp, a, b) <= 0 && CompareRepresentatives(cmp, b, c) <= 0 && CompareRepresentatives(cmp, a, c) == 0
      ==> CompareRepresentatives(cmp, a, b) == 0 && CompareRepresentatives(cmp, b, c) == 0
    ensures CompareRepresentatives(cmp, a, b) <= 0 <==> CompareRepresentatives(cmp, b, a) >= 0
  {
    assert Chain(a.value, b.value, c.value);
    assert Chain(c.value, a.value, b.value);
    assert Chain(b.value, c.value, a.value);
  }

  lemma ReadyIsTotalPreorder<T(!new)>(cmp: (T, T) -> int, representatives: seq<Representative<T>>)
    requires TotalPreorder(cmp)
    ensures TotalPreorder((l: ReadyEntry, r: ReadyEntry) => CompareReady(cmp, representatives, l, r))
  {
    var n := |representatives|;
    forall a: ReadyEntry, b: ReadyEntry
      ensures CompareReady(cmp, representatives, a, b) <= 0 <==> CompareReady(cmp, representatives, b, a) >= 0
    {
      if a.component < n && b.component < n {
        RepresentativesTransitive(cmp, representatives[a.component], representatives[b.component], representatives[a.component]);
        RepresentativesTransitive(cmp, representatives[b.component], representatives[a.component], representatives[a.component]);
      }
    }
    forall a: ReadyEntry, b: ReadyEntry, c: ReadyEntry
      | CompareReady(cmp, representatives, a, b) <= 0 && CompareReady(cmp, representatives, b, c) <= 0
      ensures CompareReady(cmp, representatives, a, c) <= 0
    {
      if a.component < n && b.component < n && c.component < n {
        RepresentativesTransitive(cmp, representatives[a.component], representatives[b.component], representatives[c.component]);
      }
    }
  }

  ghost function Done(order: seq<nat>): (d: set<nat>)
    ensures forall c :: c in d <==> c in order
  {
    set c | c in order
  }

  /** The queue's entries name the components of `waiting`, each once. */
  ghost predicate Holds(entries: multiset<ReadyEntry>, waiting: set<nat>) {
    && (forall e :: e in entries ==> entries[e] == 1 && e.component in waiting)
    && (forall e, f :: e in entries && f in entries && e.component == f.component ==> e == f)
    && (forall c {:trigger c in waiting} :: c in waiting ==> exists e :: e in entries && e.component == c)
  }

  lemma HoldsAfterPush(entries: multiset<ReadyEntry>, waiting: set<nat>, e: ReadyEntry)
    requires Holds(entries, waiting) && e.component !in waiting
    ensures Holds(entries + multiset{e}, waiting + {e.component})
  {
    var entries' := entries + multiset{e};
    forall c | c in waiting + {e.component}
      ensures exists f :: f in entries' && f.component == c
    {
      if c in waiting {
        var f :| f in entries && f.component == c;
        assert f in entries';
      } else {
        assert e in entries';
      }
    }
  }

  lemma HoldsAfterPop(entries: multiset<ReadyEntry>, waiting: set<nat>, e: ReadyEntry)
    requires Holds(entries + multiset{e}, waiting)
    ensures e.component in waiting && Holds(entries, waiting - {e.component})
  {
    var all := entries + multiset{e};
    assert e in all;
    assert all[e] == 1;
    forall f | f in entries
      ensures entries[f] == 1 && f.component in waiting - {e.component}
    {
      assert f in all && all[f] == 1 && f != e;
    }
    forall c | c in waiting - {e.component}
      ensures exists f :: f in entries && f.component == c
    {
      var f :| f in all && f.component == c;
      assert f in entries;
    }
  }

  /** How many predecessors of `d` are not out yet. */
  ghost function Missing(after: seq<seq<nat>>, order: seq<nat>, d: nat): nat {
    |Preds(after, d) - Done(order)|
  }

  /** `incoming` counts the missing predecessors, except that the edges to `pending` of the component taken
      last have not been discounted yet. */
  ghost predicate Counts(after: seq<seq<nat>>, incoming: seq<nat>, order: seq<nat>, pending: seq<nat>) {
    && |incoming| == |after|
    && (forall d: nat :: d < |incoming| ==> incoming[d] == Missing(after, order, d) + if d in pending then 1 else 0)
  }

  /** `waiting` holds what is not out but has nothing left to wait for. */
  ghost predicate Waits(incoming: seq<nat>, order: seq<nat>, waiting: set<nat>) {
    forall d: nat {:trigger d in waiting} :: d in waiting <==> d < |incoming| && d !in order && incoming[d] == 0
  }

  /** The components that are out, in the order they came out. */
  ghost predicate Listed(after: seq<seq<nat>>, order: seq<nat>) {
    && Distinct(order) && (forall i :: 0 <= i < |order| ==> order[i] < |after|)
    && (forall i :: 0 <= i < |order| ==> Preds(after, order[i]) <= Done(order[..i]))
  }

  /** Each component that came out was a least one among those that could have. */
  ghost predicate LeastFirst<T(!new)>(cmp: (T, T) -> int, representatives: seq<Representative<T>>, after: seq<seq<nat>>, order: seq<nat>)
    requires |representatives| == |after|
  {
    forall i: nat, d: nat {:trigger Preds(after, d) <= Done(order[..i])} ::
      i < |order| && d < |after| && order[i] < |after| && d !in order[..i] && Preds(after, d) <= Done(order[..i]) ==>
        CompareRepresentatives(cmp, representatives[order[i]], representatives[d]) <= 0
  }

  lemma {:induction false} EveryComponentOut(after: seq<seq<nat>>, incoming: seq<nat>, order: seq<nat>, waiting: set<nat>, d: nat)
    requires Acyclic(after) && Counts(after, incoming, order, []) && Waits(incoming, order, waiting) && waiting == {}
    requires d < |after|
    ensures d in order
    decreases |after| - d
  {
    forall c | c in Preds(after, d)
      ensures c in order
    {
      EveryComponentOut(after, incoming, order, waiting, c);
    }
    assert Preds(after, d) - Done(order) == {};
    assert d !in waiting;
  }

  lemma CountsStart(after: seq<seq<nat>>, incoming: seq<nat>)
    requires Counted(after, incoming)
    ensures Counts(after, incoming, [], [])
  {
    forall d: nat | d < |after|
      ensures Preds(after, d) - Done([]) == Preds(after, d)
    {
    }
  }

  lemma MissingAfterTake(after: seq<seq<nat>>, order: seq<nat>, c: nat, d: nat)
    requires c < |after| && c !in order
    ensures Missing(after, order, d) == Missing(after, order + [c], d) + if d in after[c] then 1 else 0
  {
    var order' := order + [c];
    if d in after[c] {
      assert Preds(after, d) - Done(order) == (Preds(after, d) - Done(order')) + {c};
    } else {
      assert Preds(after, d) - Done(order) == Preds(after, d) - Done(order');
    }
  }

  /** Component `c` comes out; its outgoing edges are still to be discounted. */
  lemma CountsTake(after: seq<seq<nat>>, incoming: seq<nat>, order: seq<nat>, c: nat)
    requires Counts(after, incoming, order, []) && c < |after| && c !in order
    ensures Counts(after, incoming, order + [c], after[c])
  {
    forall d: nat | d < |incoming|
      ensures incoming[d] == Missing(after, order + [c], d) + if d in after[c] then 1 else 0
    {
      MissingAfterTake(after, order, c, d);
    }
  }

  lemma ListedTake(after: seq<seq<nat>>, incoming: seq<nat>, order: seq<nat>, c: nat)
    requires Counts(after, incoming, order, []) && Listed(after, order)
    requires c < |after| && c !in order && incoming[c] == 0
    ensures Listed(after, order + [c])
  {
    var order' := order + [c];
    assert Preds(after, c) - Done(order) == {};
    forall i | 0 <= i < |order'|
      ensures Preds(after, order'[i]) <= Done(order'[..i])
    {
      assert order'[..i] == if i < |order| then order[..i] else order;
      if i < |order| {
        assert order'[i] == order[i];
      } else {
        assert forall x :: x in Preds(after, c) ==> x in Preds(after, c) - Done(order) || x in Done(order);
      }
    }
  }

  lemma WaitsTake(incoming: seq<nat>, order: seq<nat>, waiting: set<nat>, c: nat)
    requires Waits(incoming, order, waiting) && c in waiting
    ensures Waits(incoming, order + [c], waiting - {c})
  {
  }

  /** One outgoing edge of the component just taken is discounted. */
  lemma CountsDiscount(after: seq<seq<nat>>, incoming: seq<nat>, order: seq<nat>, pending: seq<nat>)
    requires Counts(after, incoming, order, pending) && pending != [] && Distinct(pending) && pending[0] < |after|
    ensures incoming[pending[0]] > 0
    ensures Counts(after, incoming[pending[0] := incoming[pending[0]] - 1], order, pending[1..])
  {
    assert forall d :: d in pending <==> d == pending[0] || d in pending[1..];
    assert pending[0] !in pending[1..];
  }

  lemma WaitsDiscount(incoming: seq<nat>, order: seq<nat>, waiting: set<nat>, d: nat)
    requires Waits(incoming, order, waiting) && d < |incoming| && incoming[d] > 0 && d !in order
    ensures d !in waiting
    ensures Waits(incoming[d := incoming[d] - 1], order, if incoming[d] == 1 then waiting + {d} else waiting)
  {
  }

  /** What is still to come out of the current component is not out already. */
  lemma PendingNotOut(after: seq<seq<nat>>, order: seq<nat>, c: nat, d: nat)
    requires Acyclic(after) && Listed(after, order) && order != [] && c == order[|order| - 1] && d in after[c]
    ensures d !in order
  {
    forall i | 0 <= i < |order|
      ensures order[i] != d
    {
      assert forall k :: 0 <= k < i ==> order[..i][k] != c;
      assert c !in Preds(after, order[i]);
    }
  }

  lemma LeastFirstTake<T(!new)>(cmp: (T, T) -> int, representatives: seq<Representative<T>>, after: seq<seq<nat>>,
                                incoming: seq<nat>, order: seq<nat>, waiting: set<nat>, c: nat)
    requires |representatives| == |after| && LeastFirst(cmp, representatives, after, order)
    requires Counts(after, incoming, order, []) && Waits(incoming, order, waiting) && c in waiting
    requires forall d :: d in waiting && d < |after| ==> CompareRepresentatives(cmp, representatives[c], representatives[d]) <= 0
    ensures LeastFirst(cmp, representatives, after, order + [c])
  {
    var order' := order + [c];
    forall i: nat, d: nat
      | i < |order'| && d < |after| && order'[i] < |after| && d !in order'[..i] && Preds(after, d) <= Done(order'[..i])
      ensures CompareRepresentatives(cmp, representatives[order'[i]], representatives[d]) <= 0
    {
      if i < |order| {
        assert order'[..i] == order[..i];
      } else {
        assert order'[..i] == order;
        assert Preds(after, d) - Done(order) == {};
        assert d in waiting;
      }
    }
  }

  ghost function UpTo(n: nat): (all: set<nat>)
    ensures forall d: nat :: d in all <==> d < n
  {
    if n == 0 then {} else UpTo(n - 1) + {n - 1}
  }

  function Representatives<T(!new)>(isVisible: T -> bool, components: seq<seq<T>>): (r: seq<Representative<T>>)
    requires forall c :: 0 <= c < |components| ==> components[c] != []
    ensures |r| == |components|
    ensures forall c :: 0 <= c < |r| ==> r[c] == RepresentativeOf(isVisible, components[c])
  {
    seq(|components|, c requires 0 <= c < |components| => RepresentativeOf(isVisible, components[c]))
  }

  lemma NothingHeld(entries: multiset<ReadyEntry>)
    requires entries == multiset{}
    ensures Holds(entries, {})
  {
  }

  /** Queues the components that no edge enters. */
  method QueueSources(ready: MinPriorityQueue<ReadyEntry>, incoming: seq<nat>) returns (nextSequence: nat, ghost waiting: set<nat>)
    requires ready.Valid() && ready.values == []
    modifies ready
    ensures ready.Valid() && Holds(multiset(ready.values), waiting) && Waits(incoming, [], waiting)
  {
    hide TotalPreorder, Heap, Holds;
    nextSequence, waiting := 0, {};
    NothingHeld(multiset(ready.values));
    for component := 0 to |incoming|
      invariant ready.Valid() && Holds(multiset(ready.values), waiting)
      invariant forall d: nat {:trigger d in waiting} :: d in waiting <==> d < component && incoming[d] == 0
    {
      if incoming[component] == 0 {
        HoldsAfterPush(multiset(ready.values), waiting, ReadyEntry(component, nextSequence));
        ready.Push(ReadyEntry(component, nextSequence));
        nextSequence := nextSequence + 1;
        waiting := waiting + {component};
      }
    }
  }

  /** Discounts the edges of the component just listed and queues what has become ready. */
  method Release(ready: MinPriorityQueue<ReadyEntry>, after: seq<seq<nat>>, counts: seq<nat>, component: nat, sequence: nat,
                 ghost order: seq<nat>, ghost entry: set<nat>)
    returns (incoming: seq<nat>, nextSequence: nat, ghost waiting: set<nat>)
    requires ready.Valid() && Holds(multiset(ready.values), entry)
    requires Acyclic(after) && component < |after| && Distinct(after[component])
    requires Listed(after, order) && order != [] && order[|order| - 1] == component
    requires Counts(after, counts, order, after[component]) && Waits(counts, order, entry)
    modifies ready
    ensures ready.Valid() && Holds(multiset(ready.values), waiting)
    ensures Counts(after, incoming, order, []) && Waits(incoming, order, waiting)
  {
    hide Holds, TotalPreorder, Heap, Listed, Counts, Waits;
    incoming, nextSequence, waiting := counts, sequence, entry;
    var laterComponents := after[component];
    assert laterComponents[0..] == laterComponents;
    for k := 0 to |laterComponents|
      invariant ready.Valid() && Holds(multiset(ready.values), waiting)
      invariant Counts(after, incoming, order, laterComponents[k..]) && Waits(incoming, order, waiting)
    {
      var later := laterComponents[k];
      PendingNotOut(after, order, component, later);
      assert laterComponents[k..][1..] == laterComponents[k + 1..];
      CountsLength(after, incoming, order, laterComponents[k..]);
      DistinctSuffix(laterComponents, k);
      CountsDiscount(after, incoming, order, laterComponents[k..]);
      WaitsDiscount(incoming, order, waiting, later);
      var remaining := incoming[later] - 1;
      incoming := incoming[later := remaining];
      if remaining == 0 {
        HoldsAfterPush(multiset(ready.values), waiting, ReadyEntry(later, nextSequence));
        ready.Push(ReadyEntry(later, nextSequence));
        nextSequence := nextSequence + 1;
        waiting := waiting + {later};
      }
    }
    assert laterComponents[|laterComponents|..] == [];
  }

  lemma DistinctSuffix<T>(s: seq<T>, k: nat)
    requires Distinct(s) && k <= |s|
    ensures Distinct(s[k..])
  {
  }

  lemma CountsLength(after: seq<seq<nat>>, incoming: seq<nat>, order: seq<nat>, pending: seq<nat>)
    requires Counts(after, incoming, order, pending)
    ensures |incoming| == |after|
  {
  }

  /** `order` lists every component once, each behind its predecessors and always a least one of those that can come
      next; `ordered` are the visible values of the components in that order. */
  ghost predicate Lists<T(!new)>(cmp: (T, T) -> int, isVisible: T -> bool, components: seq<seq<T>>, after: seq<seq<nat>>,
                                 ordered: seq<T>, order: seq<nat>)
    requires |after| == |components| && forall c :: 0 <= c < |components| ==> components[c] != []
  {
    && Listed(after, order) && (forall d: nat :: d < |after| ==> d in order)
    && LeastFirst(cmp, Representatives(isVisible, components), after, order)
    && ordered == VisibleOf(isVisible, Picked(components, order))
  }

  /** Kahn's loop: repeatedly takes the least waiting component. */
  method ListComponents<T(!new)>(cmp: (T, T) -> int, isVisible: T -> bool, components: seq<seq<T>>,
                                 after: seq<seq<nat>>, counts: seq<nat>)
    returns (ordered: seq<T>)
    requires TotalPreorder(cmp) && forall c :: 0 <= c < |components| ==> components[c] != []
    requires |after| == |components| && Acyclic(after) && Counted(after, counts)
    requires forall c :: 0 <= c < |after| ==> Distinct(after[c])
    ensures exists order :: Lists(cmp, isVisible, components, after, ordered, order)
  {
    hide Holds, TotalPreorder, Heap, Listed, Counts, Waits, LeastFirst, Acyclic, CompareReady, Picked;
    var representatives := Representatives(isVisible, components);
    var compareReady := (l: ReadyEntry, r: ReadyEntry) => CompareReady(cmp, representatives, l, r);
    ReadyIsTotalPreorder(cmp, representatives);
    var ready := new MinPriorityQueue<ReadyEntry>(compareReady);
    var incoming := counts;
    var nextSequence;
    ghost var waiting;
    nextSequence, waiting := QueueSources(ready, incoming);
    ordered := [];
    ghost var order: seq<nat> := [];
    KahnStarts(cmp, isVisible, components, after, incoming);
    while |ready.values| > 0
      invariant ready.Valid() && fresh(ready) && ready.compare == compareReady
      invariant Holds(multiset(ready.values), waiting)
      invariant Counts(after, incoming, order, []) && Waits(incoming, order, waiting)
      invariant Listed(after, order) && LeastFirst(cmp, representatives, after, order)
      invariant ordered == VisibleOf(isVisible, Picked(components, order))
      decreases UpTo(|after|) - Done(order)
    {
      ghost var entries := ready.values;
      var top := ready.Pop();
      var component := top.value.component;
      HoldsAfterPop(multiset(ready.values), waiting, top.value);
      KahnTakes(cmp, representatives, after, incoming, order, waiting, entries, top.value);
      PickedTake(components, order, component, isVisible);
      ordered := ordered + Filter(isVisible, components[component]);
      ghost var before := order;
      order := order + [component];
      incoming, nextSequence, waiting := Release(ready, after, incoming, component, nextSequence, order, waiting - {component});
      assert component in Done(order) && component !in Done(before);
    }
    NoneWaiting(multiset(ready.values), waiting);
    forall d: nat | d < |after|
      ensures d in order
    {
      EveryComponentOut(after, incoming, order, waiting, d);
    }
    assert Lists(cmp, isVisible, components, after, ordered, order);
  }

  lemma KahnStarts<T(!new)>(cmp: (T, T) -> int, isVisible: T -> bool, components: seq<seq<T>>, after: seq<seq<nat>>, incoming: seq<nat>)
    requires |after| == |components| && Counted(after, incoming) && forall c :: 0 <= c < |components| ==> components[c] != []
    ensures Counts(after, incoming, [], []) && Listed(after, [])
    ensures LeastFirst(cmp, Representatives(isVisible, components), after, [])
    ensures VisibleOf(isVisible, Picked(components, [])) == []
  {
    CountsStart(after, incoming);
  }

  /** Taking the least entry keeps what Kahn's loop maintains about the order. */
  lemma KahnTakes<T(!new)>(cmp: (T, T) -> int, representatives: seq<Representative<T>>, after: seq<seq<nat>>, incoming: seq<nat>,
                           order: seq<nat>, waiting: set<nat>, entries: seq<ReadyEntry>, least: ReadyEntry)
    requires |representatives| == |after| && Listed(after, order) && LeastFirst(cmp, representatives, after, order)
    requires Counts(after, incoming, order, []) && Waits(incoming, order, waiting)
    requires Holds(multiset(entries), waiting) && least in entries
    requires forall e :: e in entries ==> CompareReady(cmp, representatives, least, e) <= 0
    ensures least.component < |after| && least.component !in order
    ensures Listed(after, order + [least.component]) && LeastFirst(cmp, representatives, after, order + [least.component])
    ensures Counts(after, incoming, order + [least.component], after[least.component])
    ensures Waits(incoming, order + [least.component], waiting - {least.component})
  {
    hide LeastFirst, Listed;
    var c := least.component;
    assert least in multiset(entries) && c in waiting;
    LeastOfWaiting(cmp, representatives, entries, waiting, least);
    LeastFirstTake(cmp, representatives, after, incoming, order, waiting, c);
    ListedTake(after, incoming, order, c);
    CountsTake(after, incoming, order, c);
    WaitsTake(incoming, order, waiting, c);
  }

  lemma NoneWaiting(entries: multiset<ReadyEntry>, waiting: set<nat>)
    requires Holds(entries, waiting) && entries == multiset{}
    ensures waiting == {}
  {
    assert forall c :: c !in waiting;
  }

  lemma LeastOfWaiting<T(!new)>(cmp: (T, T) -> int, representatives: seq<Representative<T>>, entries: seq<ReadyEntry>, waiting: set<nat>, least: ReadyEntry)
    requires Holds(multiset(entries), waiting) && least in entries
    requires forall d :: d in waiting ==> d < |representatives|
    requires forall e :: e in entries ==> CompareReady(cmp, representatives, least, e) <= 0
    ensures forall d :: d in waiting && d < |representatives| && least.component < |representatives| ==>
      CompareRepresentatives(cmp, representatives[least.component], representatives[d]) <= 0
  {
    forall d | d in waiting && least.component < |representatives|
      ensures CompareRepresentatives(cmp, representatives[least.component], representatives[d]) <= 0
    {
      var e :| e in multiset(entries) && e.component == d;
      assert e in entries;
    }
  }

  ghost function Picked<T>(components: seq<seq<T>>, order: seq<nat>): (blocks: seq<seq<T>>)
    ensures |blocks| == |order|
  {
    seq(|order|, i requires 0 <= i < |order| => if order[i] < |components| then components[order[i]] else [])
  }

  lemma PickedTake<T(!new)>(components: seq<seq<T>>, order: seq<nat>, c: nat, isVisible: T -> bool)
    requires c < |components|
    ensures VisibleOf(isVisible, Picked(components, order + [c])) == VisibleOf(isVisible, Picked(components, order)) + Filter(isVisible, components[c])
  {
    var blocks := Picked(components, order + [c]);
    assert blocks[..|blocks| - 1] == Picked(components, order);
  }

  // The listed components are the ordered blocks of the graph.

  lemma PickedCovers<T(!new)>(components: seq<seq<T>>, of: map<T, nat>, order: seq<nat>, v: T)
    requires forall v :: v in of ==> of[v] < |components| && v in components[of[v]]
    requires forall c, v :: 0 <= c < |components| && v in components[c] ==> v in of && of[v] == c
    requires forall d: nat :: d < |components| ==> d in order
    ensures Covered(Picked(components, order), v) <==> v in of
  {
    if v in of {
      assert of[v] in order;
      var i :| 0 <= i < |order| && order[i] == of[v];
      assert v in Picked(components, order)[i];
    }
  }

  lemma PickedCondensation<T(!new)>(g: Graph<T>, cmp: (T, T) -> int, components: seq<seq<T>>, of: map<T, nat>, order: seq<nat>)
    requires WellFormed(g) && Collected(g, components, of) && of.Keys == g.after.Keys && AllSorted(cmp, components)
    requires Distinct(order) && (forall i :: 0 <= i < |order| ==> order[i] < |components|)
    requires forall d: nat :: d < |components| ==> d in order
    ensures Condensation(g, cmp, Picked(components, order))
  {
    var blocks := Picked(components, order);
    forall v
      ensures v in g.nodes <==> Covered(blocks, v)
    {
      PickedCovers(components, of, order, v);
    }
    forall i, u, v | 0 <= i < |blocks| && u in blocks[i]
      ensures v in blocks[i] <==> v in g.nodes && Mutual(g, u, v)
    {
      PickedBlock(g, components, of, order, i, u, v);
    }
    forall i, j, v | 0 <= i < |blocks| && 0 <= j < |blocks| && v in blocks[i] && v in blocks[j]
      ensures i == j
    {
      assert of[v] == order[i] && of[v] == order[j];
      assert !(i < j) && !(j < i);
    }
  }

  lemma PickedBlock<T(!new)>(g: Graph<T>, components: seq<seq<T>>, of: map<T, nat>, order: seq<nat>, i: nat, u: T, v: T)
    requires WellFormed(g) && Collected(g, components, of) && of.Keys == g.after.Keys
    requires i < |order| && order[i] < |components| && u in components[order[i]]
    ensures v in components[order[i]] <==> v in g.nodes && Mutual(g, u, v)
  {
    if v in of { SameComponentIffMutual(g, components, of, u, v); }
  }

  lemma PickedTopological<T(!new)>(g: Graph<T>, components: seq<seq<T>>, of: map<T, nat>, after: seq<seq<nat>>, order: seq<nat>)
    requires WellFormed(g) && Collected(g, components, of) && of.Keys == g.after.Keys
    requires |after| == |components| && Condensed(g, of, after) && Listed(after, order)
    ensures Topological(g, Picked(components, order))
  {
    var blocks := Picked(components, order);
    forall i, j, u, v | 0 <= i < |blocks| && 0 <= j < |blocks| && u in blocks[i] && v in blocks[j] && Edge(g, u, v)
      ensures i <= j
    {
      assert of[u] == order[i] && of[v] == order[j];
      if order[i] != order[j] {
        assert Crosses(g, of, order[i], order[j]);
        assert order[i] in Preds(after, order[j]) && order[i] in order[..j];
        var k :| 0 <= k < j && order[k] == order[i];
      }
    }
  }

  lemma PickedReady<T(!new)>(g: Graph<T>, components: seq<seq<T>>, of: map<T, nat>, after: seq<seq<nat>>, order: seq<nat>, i: nat, j: nat)
    requires WellFormed(g) && Collected(g, components, of) && of.Keys == g.after.Keys
    requires |after| == |components| && Condensed(g, of, after) && Listed(after, order)
    requires i < j < |order| && Ready(g, Picked(components, order), i, Picked(components, order)[j])
    ensures Preds(after, order[j]) <= Done(order[..i])
  {
    var blocks := Picked(components, order);
    forall c | c in Preds(after, order[j])
      ensures c in order[..i]
    {
      assert Crosses(g, of, c, order[j]);
      var u, v :| u in of && v in of && of[u] == c && of[v] == order[j] && Edge(g, u, v);
      assert v in blocks[j] && u !in blocks[j];
      var k :| 0 <= k < i && u in blocks[k];
      assert order[..i][k] == of[u];
    }
  }

  lemma PickedGreedy<T(!new)>(g: Graph<T>, cmp: (T, T) -> int, isVisible: T -> bool, components: seq<seq<T>>, of: map<T, nat>,
                              after: seq<seq<nat>>, order: seq<nat>)
    requires WellFormed(g) && Collected(g, components, of) && of.Keys == g.after.Keys
    requires |after| == |components| && Condensed(g, of, after) && Listed(after, order)
    requires LeastFirst(cmp, Representatives(isVisible, components), after, order)
    ensures Greedy(g, cmp, isVisible, Picked(components, order))
  {
    var blocks := Picked(components, order);
    forall i, j | 0 <= i < j < |blocks| && Ready(g, blocks, i, blocks[j])
      ensures CompareBlocks(cmp, isVisible, blocks[i], blocks[j]) <= 0
    {
      PickedReady(g, components, of, after, order, i, j);
      assert forall k :: 0 <= k < i ==> order[..i][k] != order[j];
    }
  }

  lemma CondensedBounded<T(!new)>(g: Graph<T>, components: seq<seq<T>>, of: map<T, nat>, after: seq<seq<nat>>)
    requires Collected(g, components, of) && Condensed(g, of, after) && |after| == |components|
    ensures (forall c :: 0 <= c < |components| ==> components[c] != []) && (forall c :: 0 <= c < |after| ==> Distinct(after[c]))
  {
  }

  /** Lists the visible nodes so that each comes after everything it must follow, as far as cycles allow, and
      otherwise in the order of `cmp`. */
  method OrderDirectedGraph<T(==,!new)>(g: Graph<T>, cmp: (T, T) -> int, isVisible: T -> bool)
    returns (ordered: seq<T>, ghost blocks: seq<seq<T>>)
    requires WellFormed(g) && TotalPreorder(cmp)
    ensures RespectsReachability(g, isVisible, ordered)
    ensures OrderedBlocks(g, cmp, isVisible, blocks) && ordered == VisibleOf(isVisible, blocks)
  {
    hide *;
    var components, of := FindComponents(g, cmp);
    var componentByValue := IndexComponents(g, components, of);
    var after, incoming := Condense(g, components, componentByValue);
    CondensedAcyclic(g, components, of, after);
    CondensedBounded(g, components, of, after);
    ordered := ListComponents(cmp, isVisible, components, after, incoming);
    ghost var order :| Lists(cmp, isVisible, components, after, ordered, order);
    ListsFacts(cmp, isVisible, components, after, ordered, order);
    blocks := Picked(components, order);
    ListedFacts(after, order);
    PickedCondensation(g, cmp, components, of, order);
    PickedTopological(g, components, of, after, order);
    PickedGreedy(g, cmp, isVisible, components, of, after, order);
    BlocksOrdered(g, cmp, isVisible, blocks);
    GreedyRespectsReachability(g, cmp, isVisible, blocks);
  }

  lemma ListsFacts<T(!new)>(cmp: (T, T) -> int, isVisible: T -> bool, components: seq<seq<T>>, after: seq<seq<nat>>,
                            ordered: seq<T>, order: seq<nat>)
    requires |after| == |components| && forall c :: 0 <= c < |components| ==> components[c] != []
    requires Lists(cmp, isVisible, components, after, ordered, order)
    ensures Listed(after, order) && forall d: nat :: d < |after| ==> d in order
    ensures LeastFirst(cmp, Representatives(isVisible, components), after, order)
    ensures ordered == VisibleOf(isVisible, Picked(components, order))
  {
  }

  lemma ListedFacts(after: seq<seq<nat>>, order: seq<nat>)
    requires Listed(after, order)
    ensures Distinct(order) && forall i :: 0 <= i < |order| ==> order[i] < |after|
  {
  }

  lemma BlocksOrdered<T(!new)>(g: Graph<T>, cmp: (T, T) -> int, isVisible: T -> bool, blocks: seq<seq<T>>)
    requires Condensation(g, cmp, blocks) && Topological(g, blocks) && Greedy(g, cmp, isVisible, blocks)
    ensures OrderedBlocks(g, cmp, isVisible, blocks)
  {
  }
}
