/** What `orderDirectedGraph` promises, stated without its search, its numbering or its heap: the nodes come
    in blocks, one per cycle (or single node), and at every point the least block whose predecessors are all
    out comes next. */
module GreedyOrder {
  import opened Orders
  import opened Graphs

  datatype Representative<+T> = Representative(visible: bool, value: T)

  /** The first visible member of a block, or its first member when none is visible. */
  function RepresentativeOf<T(!new)>(isVisible: T -> bool, block: seq<T>): (r: Representative<T>)
    requires block != []
    ensures r.value in block && (r.visible <==> isVisible(r.value))
    ensures r.visible <==> exists v :: v in block && isVisible(v)
  {
    if isVisible(block[0]) then Representative(true, block[0])
    else if |block| == 1 then Representative(false, block[0])
    else
      var rest := RepresentativeOf(isVisible, block[1..]);
      assert forall v :: v in block <==> v == block[0] || v in block[1..];
      if rest.visible then rest else Representative(false, block[0])
  }

  /** Blocks without a visible member come first; otherwise representatives decide. */
  function CompareRepresentatives<T>(cmp: (T, T) -> int, left: Representative<T>, right: Representative<T>): int {
    if left.visible != right.visible then (if left.visible then 1 else -1)
    else cmp(left.value, right.value)
  }

  function CompareBlocks<T(!new)>(cmp: (T, T) -> int, isVisible: T -> bool, left: seq<T>, right: seq<T>): int
    requires left != [] && right != []
  {
    CompareRepresentatives(cmp, RepresentativeOf(isVisible, left), RepresentativeOf(isVisible, right))
  }

  function Filter<T(!new)>(keep: T -> bool, s: seq<T>): (r: seq<T>)
    ensures |r| <= |s|
    ensures forall v :: v in r <==> v in s && keep(v)
  {
    if s == [] then []
    else
      var front := Filter(keep, s[..|s| - 1]);
      assert forall v :: v in s <==> v in s[..|s| - 1] || v == s[|s| - 1];
      if keep(s[|s| - 1]) then front + [s[|s| - 1]] else front
  }

  /** The visible members of the blocks, in block order. */
  function VisibleOf<T(!new)>(isVisible: T -> bool, blocks: seq<seq<T>>): seq<T> {
    if blocks == [] then [] else VisibleOf(isVisible, blocks[..|blocks| - 1]) + Filter(isVisible, blocks[|blocks| - 1])
  }

  ghost predicate Covered<T>(blocks: seq<seq<T>>, v: T) {
    exists i :: 0 <= i < |blocks| && v in blocks[i]
  }

  /** No value lies in two blocks. */
  ghost predicate Disjoint<T(!new)>(blocks: seq<seq<T>>) {
    forall i, j, v {:trigger v in blocks[i], v in blocks[j]} ::
      0 <= i < |blocks| && 0 <= j < |blocks| && v in blocks[i] && v in blocks[j] ==> i == j
  }

  /** The blocks are the strongly connected components, each sorted. */
  ghost predicate Condensation<T(!new)>(g: Graph<T>, cmp: (T, T) -> int, blocks: seq<seq<T>>) {
    && (forall i :: 0 <= i < |blocks| ==> blocks[i] != [] && Distinct(blocks[i]) && Sorted(cmp, blocks[i]))
    && (forall v {:trigger Covered(blocks, v)} :: v in g.nodes <==> Covered(blocks, v))
    && (forall i, u, v {:trigger u in blocks[i], v in blocks[i]} {:trigger u in blocks[i], Mutual(g, u, v)} ::
         0 <= i < |blocks| && u in blocks[i] ==> (v in blocks[i] <==> v in g.nodes && Mutual(g, u, v)))
    && Disjoint(blocks)
  }

  /** No edge leads back to an earlier block. */
  ghost predicate Topological<T(!new)>(g: Graph<T>, blocks: seq<seq<T>>) {
    forall i, j, u, v :: 0 <= i < |blocks| && 0 <= j < |blocks| && u in blocks[i] && v in blocks[j] && Edge(g, u, v) ==> i <= j
  }

  /** Every edge into the block starts in the block itself or in one of the first `n` blocks. */
  ghost predicate Ready<T(!new)>(g: Graph<T>, blocks: seq<seq<T>>, n: nat, block: seq<T>) {
    forall u, v :: v in block && Edge(g, u, v) ==> u in block || exists k :: 0 <= k < n && k < |blocks| && u in blocks[k]
  }

  ghost predicate Greedy<T(!new)>(g: Graph<T>, cmp: (T, T) -> int, isVisible: T -> bool, blocks: seq<seq<T>>) {
    && (forall i :: 0 <= i < |blocks| ==> blocks[i] != [])
    && (forall i, j :: 0 <= i < j < |blocks| && Ready(g, blocks, i, blocks[j]) ==>
         CompareBlocks(cmp, isVisible, blocks[i], blocks[j]) <= 0)
  }

  ghost predicate OrderedBlocks<T(!new)>(g: Graph<T>, cmp: (T, T) -> int, isVisible: T -> bool, blocks: seq<seq<T>>) {
    Condensation(g, cmp, blocks) && Topological(g, blocks) && Greedy(g, cmp, isVisible, blocks)
  }

  // Consequences: coverage and precedence.

  lemma {:induction false} FilterDistinct<T(!new)>(keep: T -> bool, s: seq<T>)
    requires Distinct(s)
    ensures Distinct(Filter(keep, s))
  {
    if s != [] {
      FilterDistinct(keep, s[..|s| - 1]);
      assert s[|s| - 1] !in s[..|s| - 1];
    }
  }

  lemma VisibleOfStep<T(!new)>(isVisible: T -> bool, blocks: seq<seq<T>>, v: T)
    requires blocks != []
    ensures v in VisibleOf(isVisible, blocks) <==>
      v in VisibleOf(isVisible, blocks[..|blocks| - 1]) || (v in blocks[|blocks| - 1] && isVisible(v))
  {
  }

  lemma {:induction false} VisibleMembers<T(!new)>(isVisible: T -> bool, blocks: seq<seq<T>>, v: T)
    ensures v in VisibleOf(isVisible, blocks) <==> isVisible(v) && Covered(blocks, v)
  {
    if blocks != [] {
      var n := |blocks| - 1;
      VisibleOfStep(isVisible, blocks, v);
      VisibleMembers(isVisible, blocks[..n], v);
      if Covered(blocks[..n], v) {
        var i :| 0 <= i < n && v in blocks[..n][i];
        assert v in blocks[i];
      }
      if Covered(blocks, v) && v !in blocks[n] {
        var i :| 0 <= i < |blocks| && v in blocks[i];
        assert v in blocks[..n][i];
      }
    }
  }

  /** Position in the listing follows the block order. */
  lemma {:induction false} VisibleSorted<T(!new)>(isVisible: T -> bool, blocks: seq<seq<T>>, a: nat, b: nat, i: nat, j: nat)
    requires Disjoint(blocks) && a < |VisibleOf(isVisible, blocks)| && b < |VisibleOf(isVisible, blocks)|
    requires i < j < |blocks| && VisibleOf(isVisible, blocks)[a] in blocks[i] && VisibleOf(isVisible, blocks)[b] in blocks[j]
    ensures a < b
  {
    var n := |blocks| - 1;
    var out, front := VisibleOf(isVisible, blocks), VisibleOf(isVisible, blocks[..n]);
    assert out == front + Filter(isVisible, blocks[n]) && out[a] !in Filter(isVisible, blocks[n]);
    if b < |front| {
      VisibleMembers(isVisible, blocks[..n], front[b]);
      var k :| 0 <= k < n && front[b] in blocks[..n][k];
      assert front[b] in blocks[k];
      assert blocks[..n][i] == blocks[i] && blocks[..n][j] == blocks[j];
      VisibleSorted(isVisible, blocks[..n], a, b, i, j);
    }
  }

  lemma {:induction false} VisibleDistinct<T(!new)>(isVisible: T -> bool, blocks: seq<seq<T>>)
    requires Disjoint(blocks) && forall i :: 0 <= i < |blocks| ==> Distinct(blocks[i])
    ensures Distinct(VisibleOf(isVisible, blocks))
  {
    if blocks != [] {
      var n := |blocks| - 1;
      VisibleDistinct(isVisible, blocks[..n]);
      FilterDistinct(isVisible, blocks[n]);
      var front, last := VisibleOf(isVisible, blocks[..n]), Filter(isVisible, blocks[n]);
      forall a | 0 <= a < |front|
        ensures front[a] !in last
      {
        VisibleMembers(isVisible, blocks[..n], front[a]);
        var i :| 0 <= i < n && front[a] in blocks[..n][i];
        assert front[a] in blocks[i];
      }
    }
  }

  /** The contract of `orderDirectedGraph` in terms of reachability: every visible node once, and a node that
      reaches another without being reached back precedes it. */
  ghost predicate RespectsReachability<T(!new)>(g: Graph<T>, isVisible: T -> bool, out: seq<T>) {
    && Distinct(out)
    && (forall v :: v in out <==> v in g.nodes && isVisible(v))
    && (forall a, b :: 0 <= a < |out| && 0 <= b < |out| && Reaches(g, out[a], out[b]) && !Reaches(g, out[b], out[a]) ==> a < b)
  }

  lemma {:induction false} BlockOrderAlongPath<T(!new)>(g: Graph<T>, cmp: (T, T) -> int, blocks: seq<seq<T>>, p: seq<T>, i: nat, k: nat)
    requires WellFormed(g) && Condensation(g, cmp, blocks) && Topological(g, blocks)
    requires IsPath(g, p) && k < |p| && i < |blocks| && p[0] in blocks[i]
    ensures p[k] in g.nodes
    ensures forall j :: 0 <= j < |blocks| && p[k] in blocks[j] ==> i <= j
  {
    if k == 0 {
      assert Covered(blocks, p[0]);
    } else {
      BlockOrderAlongPath(g, cmp, blocks, p, i, k - 1);
      assert Step(g, p, k);
      assert Covered(blocks, p[k - 1]);
      var l :| 0 <= l < |blocks| && p[k - 1] in blocks[l];
    }
  }

  lemma GreedyRespectsReachability<T(!new)>(g: Graph<T>, cmp: (T, T) -> int, isVisible: T -> bool, blocks: seq<seq<T>>)
    requires WellFormed(g) && OrderedBlocks(g, cmp, isVisible, blocks)
    ensures RespectsReachability(g, isVisible, VisibleOf(isVisible, blocks))
  {
    var out := VisibleOf(isVisible, blocks);
    VisibleDistinct(isVisible, blocks);
    forall v
      ensures v in out <==> v in g.nodes && isVisible(v)
    {
      VisibleMembers(isVisible, blocks, v);
    }
    forall a, b | 0 <= a < |out| && 0 <= b < |out| && Reaches(g, out[a], out[b]) && !Reaches(g, out[b], out[a])
      ensures a < b
    {
      GreedyPrecedes(g, cmp, isVisible, blocks, a, b);
    }
  }

  lemma BlockOrder<T(!new)>(g: Graph<T>, cmp: (T, T) -> int, blocks: seq<seq<T>>, u: T, v: T, i: nat, j: nat)
    requires WellFormed(g) && Condensation(g, cmp, blocks) && Topological(g, blocks)
    requires i < |blocks| && j < |blocks| && u in blocks[i] && v in blocks[j]
    requires Reaches(g, u, v) && !Reaches(g, v, u)
    ensures i < j
  {
    var p :| IsPath(g, p) && p[0] == u && p[|p| - 1] == v;
    BlockOrderAlongPath(g, cmp, blocks, p, i, |p| - 1);
    assert !Mutual(g, u, v);
  }

  lemma GreedyPrecedes<T(!new)>(g: Graph<T>, cmp: (T, T) -> int, isVisible: T -> bool, blocks: seq<seq<T>>, a: nat, b: nat)
    requires WellFormed(g) && Condensation(g, cmp, blocks) && Topological(g, blocks)
    requires a < |VisibleOf(isVisible, blocks)| && b < |VisibleOf(isVisible, blocks)|
    requires var out := VisibleOf(isVisible, blocks); Reaches(g, out[a], out[b]) && !Reaches(g, out[b], out[a])
    ensures a < b
  {
    var u, v := VisibleOf(isVisible, blocks)[a], VisibleOf(isVisible, blocks)[b];
    VisibleMembers(isVisible, blocks, u);
    VisibleMembers(isVisible, blocks, v);
    var i :| 0 <= i < |blocks| && u in blocks[i];
    var j :| 0 <= j < |blocks| && v in blocks[j];
    BlockOrder(g, cmp, blocks, u, v, i, j);
    VisibleSorted(isVisible, blocks, a, b, i, j);
  }

  // Uniqueness: with a comparator that separates the nodes, the greedy order is the only one.

  lemma ReadyAtTurn<T(!new)>(g: Graph<T>, cmp: (T, T) -> int, blocks: seq<seq<T>>, i: nat)
    requires WellFormed(g) && Condensation(g, cmp, blocks) && Topological(g, blocks) && i < |blocks|
    ensures Ready(g, blocks, i, blocks[i])
  {
    forall u, v | v in blocks[i] && Edge(g, u, v) && u !in blocks[i]
      ensures exists k :: 0 <= k < i && u in blocks[k]
    {
      assert u in g.nodes && Covered(blocks, u);
      var k :| 0 <= k < |blocks| && u in blocks[k];
    }
  }

  /** With the same first `i` blocks, the block that comes next in one order occurs in the other. */
  lemma SameBlockLater<T(!new)>(g: Graph<T>, h: Graph<T>, cmp: (T, T) -> int, bs: seq<seq<T>>, cs: seq<seq<T>>, i: nat) returns (j: nat)
    requires TotalPreorder(cmp) && StrictOn(cmp, iset v | v in g.nodes) && SameRelation(g, h)
    requires Condensation(g, cmp, bs) && Condensation(h, cmp, cs)
    requires i < |bs| && i <= |cs| && bs[..i] == cs[..i]
    ensures i <= j < |cs| && cs[j] == bs[i]
  {
    var v := bs[i][0];
    assert v in bs[i] && Covered(bs, v);
    assert Covered(cs, v);
    j :| 0 <= j < |cs| && v in cs[j];
    forall k | 0 <= k < i
      ensures v !in cs[k]
    {
      assert bs[..i][k] == cs[..i][k];
    }
    forall w
      ensures w in bs[i] <==> w in cs[j]
    {
      SameRelationReaches(g, h, v, w);
      SameRelationReaches(g, h, w, v);
      assert Mutual(g, v, w) <==> Mutual(h, v, w);
    }
    SortedListingUnique(cmp, bs[i], cs[j]);
  }

  lemma ReadyInBoth<T(!new)>(g: Graph<T>, h: Graph<T>, bs: seq<seq<T>>, cs: seq<seq<T>>, i: nat, block: seq<T>)
    requires SameRelation(g, h) && i <= |bs| && i <= |cs| && bs[..i] == cs[..i] && Ready(g, bs, i, block)
    ensures Ready(h, cs, i, block)
  {
    forall u, v | v in block && Edge(h, u, v) && u !in block
      ensures exists k :: 0 <= k < i && u in cs[k]
    {
      assert Edge(g, u, v);
      var k :| 0 <= k < i && u in bs[k];
      assert bs[..i][k] == cs[..i][k];
    }
  }

  lemma SameRepresentative<T(!new)>(g: Graph<T>, cmp: (T, T) -> int, isVisible: T -> bool, bs: seq<seq<T>>, i: nat, j: nat)
    requires TotalPreorder(cmp) && StrictOn(cmp, iset v | v in g.nodes)
    requires Condensation(g, cmp, bs) && i < |bs| && j < |bs|
    requires CompareBlocks(cmp, isVisible, bs[i], bs[j]) <= 0 && CompareBlocks(cmp, isVisible, bs[j], bs[i]) <= 0
    ensures i == j
  {
    var a, b := RepresentativeOf(isVisible, bs[i]), RepresentativeOf(isVisible, bs[j]);
    assert Covered(bs, a.value) && Covered(bs, b.value);
    assert cmp(a.value, b.value) == 0;
  }

  lemma {:induction false} GreedyPrefixUnique<T(!new)>(g: Graph<T>, h: Graph<T>, cmp: (T, T) -> int, isVisible: T -> bool,
                                                       bs: seq<seq<T>>, cs: seq<seq<T>>, i: nat)
    requires WellFormed(g) && WellFormed(h) && SameRelation(g, h)
    requires TotalPreorder(cmp) && StrictOn(cmp, iset v | v in g.nodes)
    requires OrderedBlocks(g, cmp, isVisible, bs) && OrderedBlocks(h, cmp, isVisible, cs)
    requires i <= |bs|
    ensures i <= |cs| && bs[..i] == cs[..i]
  {
    if i > 0 {
      GreedyPrefixUnique(g, h, cmp, isVisible, bs, cs, i - 1);
      var n := i - 1;
      var j := SameBlockLater(g, h, cmp, bs, cs, n);
      assert StrictOn(cmp, iset v | v in h.nodes);
      var k := SameBlockLater(h, g, cmp, cs, bs, n);
      ReadyAtTurn(g, cmp, bs, n);
      ReadyInBoth(g, h, bs, cs, n, bs[n]);
      ReadyAtTurn(h, cmp, cs, n);
      ReadyInBoth(h, g, cs, bs, n, cs[n]);
      if j != n {
        assert CompareBlocks(cmp, isVisible, cs[n], cs[j]) <= 0;
        assert CompareBlocks(cmp, isVisible, bs[n], bs[k]) <= 0 || k == n;
        SameRepresentative(h, cmp, isVisible, cs, n, j);
      }
      assert bs[..i] == bs[..n] + [bs[n]] && cs[..i] == cs[..n] + [cs[n]];
    }
  }

  /** Two graphs with the same nodes and edges, inserted in any order, have the same greedy order. */
  lemma GreedyOrderUnique<T(!new)>(g: Graph<T>, h: Graph<T>, cmp: (T, T) -> int, isVisible: T -> bool, bs: seq<seq<T>>, cs: seq<seq<T>>)
    requires WellFormed(g) && WellFormed(h) && SameRelation(g, h)
    requires TotalPreorder(cmp) && StrictOn(cmp, iset v | v in g.nodes)
    requires OrderedBlocks(g, cmp, isVisible, bs) && OrderedBlocks(h, cmp, isVisible, cs)
    ensures bs == cs
  {
    GreedyPrefixUnique(g, h, cmp, isVisible, bs, cs, |bs|);
    assert StrictOn(cmp, iset v | v in h.nodes);
    GreedyPrefixUnique(h, g, cmp, isVisible, cs, bs, |cs|);
    assert bs == bs[..|bs|] && cs == cs[..|cs|];
  }

  // Without cycles and invisible nodes the greedy order is the lexicographically first valid one.

  ghost predicate NoCycles<T(!new)>(g: Graph<T>) {
    forall u, v :: u in g.nodes && v in g.nodes && Mutual(g, u, v) ==> u == v
  }

  /** `s` lists every node once, none before a node that must precede it. */
  ghost predicate ValidOrder<T(!new)>(g: Graph<T>, s: seq<T>) {
    && Distinct(s) && (forall v :: v in s <==> v in g.nodes)
    && (forall i, j :: 0 <= i < |s| && 0 <= j < |s| && Edge(g, s[i], s[j]) ==> i <= j)
  }

  ghost predicate LexicographicallyNotAfter<T(!new)>(cmp: (T, T) -> int, s: seq<T>, t: seq<T>) {
    s == t || exists k :: 0 <= k < |s| && k < |t| && s[..k] == t[..k] && cmp(s[k], t[k]) < 0
  }

  lemma SingleElement<T(!new)>(s: seq<T>)
    requires s != [] && Distinct(s) && forall x :: x in s ==> x == s[0]
    ensures s == [s[0]]
  {
    assert s == [s[0]] + s[1..];
    assert s[0] !in s[1..];
    assert forall x :: x in s[1..] ==> x in s;
    HasElement(s[1..]);
  }

  /** Without cycles every block is a single node. */
  lemma BlockIsSingle<T(!new)>(g: Graph<T>, cmp: (T, T) -> int, blocks: seq<seq<T>>, i: nat)
    requires Condensation(g, cmp, blocks) && NoCycles(g) && i < |blocks|
    ensures blocks[i] != [] && blocks[i] == [blocks[i][0]]
  {
    var b := blocks[i];
    forall x | x in b
      ensures x == b[0]
    {
      assert b[0] in b && Covered(blocks, b[0]) && Covered(blocks, x);
      assert Mutual(g, b[0], x);
    }
    SingleElement(b);
  }

  lemma {:induction false} SingleBlocks<T(!new)>(g: Graph<T>, cmp: (T, T) -> int, isVisible: T -> bool, blocks: seq<seq<T>>, n: nat)
    requires Condensation(g, cmp, blocks) && NoCycles(g) && (forall v :: isVisible(v)) && n <= |blocks|
    ensures |VisibleOf(isVisible, blocks[..n])| == n
    ensures forall i :: 0 <= i < n ==> blocks[i] == [VisibleOf(isVisible, blocks[..n])[i]]
  {
    if n > 0 {
      SingleBlocks(g, cmp, isVisible, blocks, n - 1);
      var b := blocks[n - 1];
      assert blocks[n - 1] == [b[0]] by { BlockIsSingle(g, cmp, blocks, n - 1); }
      hide Condensation, NoCycles;
      assert b[..0] == [];
      assert Filter(isVisible, b[..0]) == [];
      assert blocks[..n][..n - 1] == blocks[..n - 1] && blocks[..n][n - 1] == b;
    }
  }

  lemma ReadyAfterCommonPrefix<T(!new)>(g: Graph<T>, blocks: seq<seq<T>>, s: seq<T>, t: seq<T>, k: nat, j: nat)
    requires WellFormed(g) && ValidOrder(g, t) && |s| == |blocks| == |t| && (forall i :: 0 <= i < |s| ==> blocks[i] == [s[i]])
    requires k < |s| && s[..k] == t[..k] && j < |s| && s[j] == t[k]
    ensures Ready(g, blocks, k, blocks[j])
  {
    forall u, v | v in blocks[j] && Edge(g, u, v) && u !in blocks[j]
      ensures exists i :: 0 <= i < k && u in blocks[i]
    {
      assert v == t[k] && u in g.nodes && u in t;
      var i :| 0 <= i < |t| && t[i] == u;
      assert i < k && s[..k][i] == t[..k][i];
      assert u in blocks[i];
    }
  }

  /** Where the greedy order first differs from a valid one, it has the smaller node. */
  lemma FirstDifference<T(!new)>(g: Graph<T>, cmp: (T, T) -> int, isVisible: T -> bool, blocks: seq<seq<T>>, s: seq<T>, t: seq<T>, k: nat)
    requires WellFormed(g) && OrderedBlocks(g, cmp, isVisible, blocks) && (forall v :: isVisible(v))
    requires |s| == |blocks| == |t| && (forall i :: 0 <= i < |s| ==> blocks[i] == [s[i]])
    requires ValidOrder(g, t) && k < |s| && s[..k] == t[..k] && s[k] != t[k]
    ensures cmp(s[k], t[k]) <= 0
  {
    var j := PlaceOf(g, cmp, blocks, s, t, k);
    hide Condensation, ValidOrder, Topological, Ready;
    forall i | 0 <= i < k
      ensures s[i] != t[k]
    {
      assert s[..k][i] == t[..k][i];
      EarlierDiffers(g, t, i, k);
    }
    ReadyAfterCommonPrefix(g, blocks, s, t, k, j);
    assert CompareBlocks(cmp, isVisible, blocks[k], blocks[j]) <= 0;
  }

  lemma EarlierDiffers<T(!new)>(g: Graph<T>, t: seq<T>, i: nat, k: nat)
    requires ValidOrder(g, t) && i < k < |t|
    ensures t[i] != t[k]
  {
  }

  /** Where the greedy order has the node that the other order has at `k`. */
  lemma PlaceOf<T(!new)>(g: Graph<T>, cmp: (T, T) -> int, blocks: seq<seq<T>>, s: seq<T>, t: seq<T>, k: nat) returns (j: nat)
    requires Condensation(g, cmp, blocks) && ValidOrder(g, t) && k < |t|
    requires |s| == |blocks| && forall i :: 0 <= i < |s| ==> blocks[i] == [s[i]]
    ensures j < |s| && s[j] == t[k]
  {
    assert t[k] in t && Covered(blocks, t[k]);
    j :| 0 <= j < |blocks| && t[k] in blocks[j];
  }

  /** Of all valid orders of an acyclic graph, the result is the lexicographically first. */
  lemma GreedyIsLexicographicallyFirst<T(!new)>(g: Graph<T>, cmp: (T, T) -> int, isVisible: T -> bool, blocks: seq<seq<T>>, t: seq<T>)
    requires WellFormed(g) && NoCycles(g) && (forall v :: isVisible(v))
    requires TotalPreorder(cmp) && StrictOn(cmp, iset v | v in g.nodes)
    requires OrderedBlocks(g, cmp, isVisible, blocks) && ValidOrder(g, t)
    ensures LexicographicallyNotAfter(cmp, VisibleOf(isVisible, blocks), t)
  {
    var s := VisibleOf(isVisible, blocks);
    SinglesInOrder(g, cmp, isVisible, blocks, t);
    hide Condensation, Topological, Greedy, VisibleOf;
    if s != t {
      var k := FirstDifferenceExists(s, t);
      FirstDifference(g, cmp, isVisible, blocks, s, t, k);
      assert s[k] in s && t[k] in t;
    }
  }

  /** Without cycles the greedy listing is the blocks one by one, as long as any valid order. */
  lemma SinglesInOrder<T(!new)>(g: Graph<T>, cmp: (T, T) -> int, isVisible: T -> bool, blocks: seq<seq<T>>, t: seq<T>)
    requires WellFormed(g) && NoCycles(g) && (forall v :: isVisible(v))
    requires OrderedBlocks(g, cmp, isVisible, blocks) && ValidOrder(g, t)
    ensures var s := VisibleOf(isVisible, blocks);
      && |s| == |blocks| == |t| && (forall i :: 0 <= i < |s| ==> blocks[i] == [s[i]])
      && (forall v :: v in s <==> v in t) && (forall v :: v in s ==> v in g.nodes)
  {
    var s := VisibleOf(isVisible, blocks);
    SingleBlocks(g, cmp, isVisible, blocks, |blocks|);
    assert blocks[..|blocks|] == blocks;
    GreedyRespectsReachability(g, cmp, isVisible, blocks);
    SameListingLength(s, t);
  }

  lemma SameListingLength<T(!new)>(s: seq<T>, t: seq<T>)
    requires Distinct(s) && Distinct(t) && forall v :: v in s <==> v in t
    ensures |s| == |t|
  {
    DistinctSize(s);
    DistinctSize(t);
    assert Elements(s) == Elements(t);
  }

  lemma {:induction false} DistinctSize<T(!new)>(s: seq<T>)
    requires Distinct(s)
    ensures |Elements(s)| == |s|
  {
    if s != [] {
      DistinctSize(s[..|s| - 1]);
      assert s[|s| - 1] !in s[..|s| - 1];
      assert Elements(s) == Elements(s[..|s| - 1]) + {s[|s| - 1]};
    }
  }

  lemma {:induction false} FirstDifferenceExists<T>(s: seq<T>, t: seq<T>) returns (k: nat)
    requires |s| == |t| && s != t
    ensures k < |s| && s[..k] == t[..k] && s[k] != t[k]
  {
    k := 0;
    while s[k] == t[k]
      invariant k < |s| && s[..k] == t[..k] && s[k..] != t[k..]
      decreases |s| - k
    {
      assert s[..k + 1] == s[..k] + [s[k]] && t[..k + 1] == t[..k] + [t[k]];
      assert s[k..] == [s[k]] + s[k + 1..] && t[k..] == [t[k]] + t[k + 1..];
      k := k + 1;
    }
  }
}
