/** When one value is listed before another: what the greedy order does with the comparator, stated without the
    representatives of blocks. */
module GreedyLaws {
  import opened Orders
  import opened Graphs
  import opened GreedyOrder

  /** A visible member none of the visible members compares below. */
  ghost predicate LeastVisible<T(!new)>(cmp: (T, T) -> int, isVisible: T -> bool, block: seq<T>, v: T) {
    v in block && isVisible(v) && forall w :: w in block && isVisible(w) ==> cmp(v, w) <= 0
  }

  ghost predicate HasVisible<T(!new)>(isVisible: T -> bool, block: seq<T>) {
    exists v :: v in block && isVisible(v)
  }

  /** The representative of a sorted block is its least visible member, or its least member when none is visible. */
  lemma {:induction false} RepresentativeIsLeast<T(!new)>(cmp: (T, T) -> int, isVisible: T -> bool, block: seq<T>)
    requires TotalPreorder(cmp) && block != [] && Sorted(cmp, block)
    ensures var r := RepresentativeOf(isVisible, block);
      && (HasVisible(isVisible, block) ==> LeastVisible(cmp, isVisible, block, r.value))
      && (!HasVisible(isVisible, block) ==> forall w :: w in block ==> cmp(r.value, w) <= 0)
  {
    var r := RepresentativeOf(isVisible, block);
    forall w | w in block
      ensures cmp(block[0], w) <= 0
    {
      HeadIsLeast(cmp, block, w);
    }
    if |block| > 1 && !isVisible(block[0]) {
      RepresentativeIsLeast(cmp, isVisible, block[1..]);
      assert forall v :: v in block <==> v == block[0] || v in block[1..];
    }
  }

  /** Of the blocks that can come next one without a visible member comes first, and otherwise the one with the least
      (visible) member. */
  lemma NextIsLeast<T(!new)>(g: Graph<T>, cmp: (T, T) -> int, isVisible: T -> bool, blocks: seq<seq<T>>, i: nat, j: nat)
    requires TotalPreorder(cmp) && OrderedBlocks(g, cmp, isVisible, blocks) && i < j < |blocks| && Ready(g, blocks, i, blocks[j])
    ensures HasVisible(isVisible, blocks[i]) ==> HasVisible(isVisible, blocks[j])
    ensures forall u, v :: LeastVisible(cmp, isVisible, blocks[i], u) && v in blocks[j] && isVisible(v) ==> cmp(u, v) <= 0
    ensures !HasVisible(isVisible, blocks[j]) ==> exists u :: u in blocks[i] && forall v :: v in blocks[j] ==> cmp(u, v) <= 0
  {
    var p, q := blocks[i], blocks[j];
    var l, r := RepresentativeOf(isVisible, p), RepresentativeOf(isVisible, q);
    RepresentativeIsLeast(cmp, isVisible, p);
    RepresentativeIsLeast(cmp, isVisible, q);
    assert CompareBlocks(cmp, isVisible, p, q) <= 0;
    forall u, v | LeastVisible(cmp, isVisible, p, u) && v in q && isVisible(v)
      ensures cmp(u, v) <= 0
    {
      Transitive(cmp, u, l.value, r.value);
      Transitive(cmp, u, r.value, v);
    }
    if !HasVisible(isVisible, q) {
      forall v | v in q
        ensures cmp(l.value, v) <= 0
      {
        Transitive(cmp, l.value, r.value, v);
      }
    }
  }

  /** Behind a block with a visible member another one waits only for blocks with visible members. */
  lemma {:induction false} WaitsForVisible<T(!new)>(g: Graph<T>, cmp: (T, T) -> int, isVisible: T -> bool, blocks: seq<seq<T>>, i: nat, j: nat)
    returns (k: nat)
    requires WellFormed(g) && TotalPreorder(cmp) && OrderedBlocks(g, cmp, isVisible, blocks)
    requires i < j < |blocks| && HasVisible(isVisible, blocks[i]) && !Ready(g, blocks, i, blocks[j])
    ensures i <= k < j && HasVisible(isVisible, blocks[k])
    ensures forall u, v :: u in blocks[k] && v in blocks[j] ==> Reaches(g, u, v)
    decreases j
  {
    hide Condensation, Topological, Greedy, Ready, HasVisible;
    k := Blocker(g, cmp, isVisible, blocks, i, j);
    if !HasVisible(isVisible, blocks[k]) {
      if Ready(g, blocks, i, blocks[k]) { NextIsLeast(g, cmp, isVisible, blocks, i, k); }
      var m := k;
      k := WaitsForVisible(g, cmp, isVisible, blocks, i, m);
      BlockFacts(g, cmp, blocks, m);
      forall u, v | u in blocks[k] && v in blocks[j]
        ensures Reaches(g, u, v)
      {
        ReachesTransitive(g, u, blocks[m][0], v);
      }
    }
  }

  /** A block that is not ready has an edge from a block that is not out. */
  lemma Blocker<T(!new)>(g: Graph<T>, cmp: (T, T) -> int, isVisible: T -> bool, blocks: seq<seq<T>>, i: nat, j: nat) returns (k: nat)
    requires WellFormed(g) && Condensation(g, cmp, blocks) && Topological(g, blocks)
    requires i < j < |blocks| && !Ready(g, blocks, i, blocks[j]) && HasVisible(isVisible, blocks[i])
    ensures i <= k < j
    ensures forall u, v :: u in blocks[k] && v in blocks[j] ==> Reaches(g, u, v)
  {
    hide HasVisible, Reaches;
    var x, y :| y in blocks[j] && Edge(g, x, y) && x !in blocks[j] && !(exists l :: 0 <= l < i && l < |blocks| && x in blocks[l]);
    assert x in g.nodes && Covered(blocks, x);
    k :| 0 <= k < |blocks| && x in blocks[k];
    assert i <= k < j;
    hide Topological;
    BlockReaches(g, cmp, blocks, k, j, x, y);
  }

  lemma BlockFacts<T(!new)>(g: Graph<T>, cmp: (T, T) -> int, blocks: seq<seq<T>>, i: nat)
    requires Condensation(g, cmp, blocks) && i < |blocks|
    ensures blocks[i] != [] && blocks[i][0] in blocks[i]
  {
  }

  lemma BlockReaches<T(!new)>(g: Graph<T>, cmp: (T, T) -> int, blocks: seq<seq<T>>, k: nat, j: nat, x: T, y: T)
    requires Condensation(g, cmp, blocks) && k < |blocks| && j < |blocks| && x in blocks[k] && y in blocks[j] && Edge(g, x, y)
    ensures forall u, v :: u in blocks[k] && v in blocks[j] ==> Reaches(g, u, v)
  {
    forall u, v | u in blocks[k] && v in blocks[j]
      ensures Reaches(g, u, v)
    {
      assert Mutual(g, u, x) && Mutual(g, y, v);
      ReachesEdge(g, x, y);
      ReachesTransitive(g, u, x, y);
      ReachesTransitive(g, u, y, v);
    }
  }

  /** Every listed value is in a block, and the listing follows the blocks. */
  lemma ListedIn<T(!new)>(isVisible: T -> bool, blocks: seq<seq<T>>, a: nat) returns (i: nat)
    requires a < |VisibleOf(isVisible, blocks)|
    ensures i < |blocks| && VisibleOf(isVisible, blocks)[a] in blocks[i] && isVisible(VisibleOf(isVisible, blocks)[a])
  {
    VisibleMembers(isVisible, blocks, VisibleOf(isVisible, blocks)[a]);
    i :| 0 <= i < |blocks| && VisibleOf(isVisible, blocks)[a] in blocks[i];
  }

  lemma PositionOf<T(!new)>(isVisible: T -> bool, blocks: seq<seq<T>>, v: T, i: nat) returns (a: nat)
    requires i < |blocks| && v in blocks[i] && isVisible(v)
    ensures a < |VisibleOf(isVisible, blocks)| && VisibleOf(isVisible, blocks)[a] == v
  {
    assert Covered(blocks, v);
    VisibleMembers(isVisible, blocks, v);
    a :| 0 <= a < |VisibleOf(isVisible, blocks)| && VisibleOf(isVisible, blocks)[a] == v;
  }

  lemma {:induction false} FilterSorted<T(!new)>(cmp: (T, T) -> int, keep: T -> bool, s: seq<T>)
    requires Sorted(cmp, s)
    ensures Sorted(cmp, Filter(keep, s))
  {
    if s != [] {
      var n := |s| - 1;
      var front := Filter(keep, s[..n]);
      FilterSorted(cmp, keep, s[..n]);
      forall c | 0 <= c < |front|
        ensures cmp(front[c], s[n]) <= 0
      {
        assert front[c] in front;
        var k :| 0 <= k < n && s[k] == front[c];
      }
    }
  }

  /** Within a block the listing is sorted. */
  lemma {:induction false} SortedWithin<T(!new)>(cmp: (T, T) -> int, isVisible: T -> bool, blocks: seq<seq<T>>, i: nat, a: nat, b: nat)
    requires Disjoint(blocks) && i < |blocks| && Sorted(cmp, blocks[i]) && a < b < |VisibleOf(isVisible, blocks)|
    requires VisibleOf(isVisible, blocks)[a] in blocks[i] && VisibleOf(isVisible, blocks)[b] in blocks[i]
    ensures cmp(VisibleOf(isVisible, blocks)[a], VisibleOf(isVisible, blocks)[b]) <= 0
  {
    var n := |blocks| - 1;
    var out, front := VisibleOf(isVisible, blocks), VisibleOf(isVisible, blocks[..n]);
    assert out == front + Filter(isVisible, blocks[n]);
    hide VisibleOf, Filter, Disjoint, Sorted;
    if i == n {
      NotInFront(isVisible, blocks, a);
      NotInFront(isVisible, blocks, b);
      assert Sorted(cmp, Filter(isVisible, blocks[n])) by { FilterSorted(cmp, isVisible, blocks[n]); }
      SortedAt(cmp, Filter(isVisible, blocks[n]), a - |front|, b - |front|);
    } else {
      InFront(isVisible, blocks, i, a);
      InFront(isVisible, blocks, i, b);
      DisjointFront(blocks);
      SortedWithin(cmp, isVisible, blocks[..n], i, a, b);
    }
  }

  lemma SortedAt<T(!new)>(cmp: (T, T) -> int, s: seq<T>, i: nat, j: nat)
    requires Sorted(cmp, s) && i < j < |s|
    ensures cmp(s[i], s[j]) <= 0
  {
  }

  lemma DisjointFront<T(!new)>(blocks: seq<seq<T>>)
    requires Disjoint(blocks) && blocks != []
    ensures Disjoint(blocks[..|blocks| - 1])
  {
  }

  /** What lies in the last block is listed by it, and what lies in another one is not. */
  lemma NotInFront<T(!new)>(isVisible: T -> bool, blocks: seq<seq<T>>, c: nat)
    requires Disjoint(blocks) && blocks != [] && c < |VisibleOf(isVisible, blocks)|
    requires VisibleOf(isVisible, blocks)[c] in blocks[|blocks| - 1]
    ensures |VisibleOf(isVisible, blocks[..|blocks| - 1])| <= c
  {
    var n := |blocks| - 1;
    var v := VisibleOf(isVisible, blocks)[c];
    assert !Covered(blocks[..n], v) by {
      assert forall k :: 0 <= k < n ==> v !in blocks[k] && blocks[..n][k] == blocks[k];
    }
    VisibleMembers(isVisible, blocks[..n], v);
    assert VisibleOf(isVisible, blocks) == VisibleOf(isVisible, blocks[..n]) + Filter(isVisible, blocks[n]);
  }

  lemma InFront<T(!new)>(isVisible: T -> bool, blocks: seq<seq<T>>, i: nat, c: nat)
    requires Disjoint(blocks) && i < |blocks| - 1 && c < |VisibleOf(isVisible, blocks)|
    requires VisibleOf(isVisible, blocks)[c] in blocks[i]
    ensures c < |VisibleOf(isVisible, blocks[..|blocks| - 1])|
    ensures VisibleOf(isVisible, blocks[..|blocks| - 1])[c] == VisibleOf(isVisible, blocks)[c] && blocks[..|blocks| - 1][i] == blocks[i]
  {
    var n := |blocks| - 1;
    var front, last := VisibleOf(isVisible, blocks[..n]), Filter(isVisible, blocks[n]);
    assert VisibleOf(isVisible, blocks) == front + last;
    assert VisibleOf(isVisible, blocks)[c] !in blocks[n] && VisibleOf(isVisible, blocks)[c] !in last;
  }

  /** Somebody listed from `a` on and before `b` leads to the value at `b`. */
  ghost predicate HeldBack<T(!new)>(g: Graph<T>, out: seq<T>, a: nat, b: nat) {
    exists c :: a <= c < b && c < |out| && b < |out| && Reaches(g, out[c], out[b])
  }

  /** The value at `a`, or one before it on a cycle with it, compares at most equal to the value at `b`. */
  ghost predicate GoesFirst<T(!new)>(g: Graph<T>, cmp: (T, T) -> int, out: seq<T>, a: nat, b: nat) {
    exists c :: 0 <= c <= a && a < |out| && b < |out| && Mutual(g, out[c], out[a]) && cmp(out[c], out[b]) <= 0
  }

  /** Why one value is listed before another: by the comparator, unless the other one has to wait for a visible value that
      is not listed earlier. Values that are not visible never make a difference. */
  lemma ListedBefore<T(!new)>(g: Graph<T>, cmp: (T, T) -> int, isVisible: T -> bool, blocks: seq<seq<T>>, a: nat, b: nat)
    requires WellFormed(g) && TotalPreorder(cmp) && OrderedBlocks(g, cmp, isVisible, blocks)
    requires a < b < |VisibleOf(isVisible, blocks)|
    ensures HeldBack(g, VisibleOf(isVisible, blocks), a, b) || GoesFirst(g, cmp, VisibleOf(isVisible, blocks), a, b)
  {
    hide VisibleOf, Condensation, Topological, Greedy, HasVisible, LeastVisible, Ready;
    var out := VisibleOf(isVisible, blocks);
    var i := ListedIn(isVisible, blocks, a);
    var j := ListedIn(isVisible, blocks, b);
    CondensationFacts(g, cmp, blocks);
    assert HasVisible(isVisible, blocks[i]) by { VisibleMember(isVisible, blocks[i], out[a]); }
    if i == j {
      SortedWithin(cmp, isVisible, blocks, i, a, b);
      ReachesSelf(g, out[a]);
    } else {
      if j < i { VisibleSorted(isVisible, blocks, b, a, j, i); }
      if Ready(g, blocks, i, blocks[j]) {
        FirstOfBlock(g, cmp, isVisible, blocks, i, j, a, b);
      } else {
        var k := WaitsForVisible(g, cmp, isVisible, blocks, i, j);
        var c := HolderAt(isVisible, blocks, i, k, j, a, b);
        assert Reaches(g, out[c], out[b]);
      }
    }
  }

  lemma CondensationFacts<T(!new)>(g: Graph<T>, cmp: (T, T) -> int, blocks: seq<seq<T>>)
    requires Condensation(g, cmp, blocks)
    ensures Disjoint(blocks) && forall i :: 0 <= i < |blocks| ==> Sorted(cmp, blocks[i])
  {
  }

  lemma VisibleMember<T(!new)>(isVisible: T -> bool, block: seq<T>, v: T)
    requires v in block && isVisible(v)
    ensures HasVisible(isVisible, block)
  {
  }

  lemma HolderAt<T(!new)>(isVisible: T -> bool, blocks: seq<seq<T>>, i: nat, k: nat, j: nat, a: nat, b: nat) returns (c: nat)
    requires Disjoint(blocks) && i <= k < j < |blocks| && HasVisible(isVisible, blocks[k])
    requires a < b < |VisibleOf(isVisible, blocks)|
    requires VisibleOf(isVisible, blocks)[a] in blocks[i] && VisibleOf(isVisible, blocks)[b] in blocks[j]
    ensures a <= c < b && VisibleOf(isVisible, blocks)[c] in blocks[k]
  {
    hide VisibleOf;
    if k == i {
      c := a;
    } else {
      var w :| w in blocks[k] && isVisible(w);
      c := PositionOf(isVisible, blocks, w, k);
      VisibleSorted(isVisible, blocks, a, c, i, k);
      VisibleSorted(isVisible, blocks, c, b, k, j);
    }
  }

  lemma FirstOfBlock<T(!new)>(g: Graph<T>, cmp: (T, T) -> int, isVisible: T -> bool, blocks: seq<seq<T>>, i: nat, j: nat, a: nat, b: nat)
    requires TotalPreorder(cmp) && OrderedBlocks(g, cmp, isVisible, blocks)
    requires i < j < |blocks| && Ready(g, blocks, i, blocks[j]) && a < b < |VisibleOf(isVisible, blocks)|
    requires var out := VisibleOf(isVisible, blocks); out[a] in blocks[i] && isVisible(out[a]) && out[b] in blocks[j] && isVisible(out[b])
    ensures GoesFirst(g, cmp, VisibleOf(isVisible, blocks), a, b)
  {
    hide VisibleOf, Topological, Greedy, Ready;
    var out := VisibleOf(isVisible, blocks);
    CondensationFacts(g, cmp, blocks);
    RepresentativeIsLeast(cmp, isVisible, blocks[i]);
    VisibleMember(isVisible, blocks[i], out[a]);
    var u := RepresentativeOf(isVisible, blocks[i]).value;
    NextIsLeast(g, cmp, isVisible, blocks, i, j);
    assert Mutual(g, u, out[a]);
    var c := PositionOf(isVisible, blocks, u, i);
    if c > a {
      // The least value is listed behind `a`, so the one at `a` compares at most equal to it.
      SortedWithin(cmp, isVisible, blocks, i, a, c);
      Transitive(cmp, out[a], u, out[b]);
      ReachesSelf(g, out[a]);
      assert Mutual(g, out[a], out[a]);
    }
  }

  lemma {:induction false} LeavesByEdge<T(!new)>(g: Graph<T>, u: T, v: T)
    requires Reaches(g, u, v) && u != v
    ensures exists w :: Edge(g, u, w)
  {
    var p :| IsPath(g, p) && p[0] == u && p[|p| - 1] == v;
    assert Step(g, p, 1);
  }

  /** When no edge starts at a visible value the listing is simply sorted, whatever invisible values there are. */
  lemma SortedWithoutVisibleEdges<T(!new)>(g: Graph<T>, cmp: (T, T) -> int, isVisible: T -> bool, blocks: seq<seq<T>>)
    requires WellFormed(g) && TotalPreorder(cmp) && OrderedBlocks(g, cmp, isVisible, blocks)
    requires forall u, v :: Edge(g, u, v) ==> !isVisible(u)
    ensures Sorted(cmp, VisibleOf(isVisible, blocks))
  {
    hide OrderedBlocks, VisibleOf, WellFormed, TotalPreorder, Reaches;
    var out := VisibleOf(isVisible, blocks);
    GreedyRespectsReachability(g, cmp, isVisible, blocks);
    forall a, b | 0 <= a < b < |out|
      ensures cmp(out[a], out[b]) <= 0
    {
      assert forall c :: 0 <= c < |out| ==> out[c] in out;
      ListedBefore(g, cmp, isVisible, blocks, a, b);
      if HeldBack(g, out, a, b) {
        var c :| a <= c < b && Reaches(g, out[c], out[b]);
        LeavesByEdge(g, out[c], out[b]);
      } else {
        var c :| 0 <= c <= a && Mutual(g, out[c], out[a]) && cmp(out[c], out[b]) <= 0;
        if out[c] != out[a] { LeavesByEdge(g, out[c], out[a]); }
      }
    }
  }
}
