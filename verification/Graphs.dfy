/** Directed graphs as `orderDirectedGraph` receives them: nodes in insertion order, each with the
    insertion-ordered set of the nodes that must come after it. */
module Graphs {
  import opened Orders

  datatype Graph<!T(==)> = Graph(nodes: seq<T>, after: map<T, seq<T>>)

  /** Every node has a successor set, and successors are nodes. */
  ghost predicate WellFormed<T(!new)>(g: Graph<T>) {
    && Distinct(g.nodes)
    && (forall v :: v in g.nodes <==> v in g.after)
    && (forall v :: v in g.after ==> Distinct(g.after[v]))
    && (forall v, w :: v in g.after && w in g.after[v] ==> w in g.after)
  }

  ghost predicate Edge<T>(g: Graph<T>, u: T, v: T) {
    u in g.after && v in g.after[u]
  }

  ghost predicate Step<T>(g: Graph<T>, p: seq<T>, i: int)
    requires 0 < i < |p|
  {
    Edge(g, p[i - 1], p[i])
  }

  ghost predicate IsPath<T>(g: Graph<T>, p: seq<T>) {
    p != [] && forall i :: 0 < i < |p| ==> Step(g, p, i)
  }

  /** `v` can be reached from `u` through `after`; every node reaches itself. */
  ghost predicate Reaches<T(!new)>(g: Graph<T>, u: T, v: T) {
    exists p: seq<T> :: IsPath(g, p) && p[0] == u && p[|p| - 1] == v
  }

  ghost predicate Mutual<T(!new)>(g: Graph<T>, u: T, v: T) {
    Reaches(g, u, v) && Reaches(g, v, u)
  }

  /** Two graphs that differ at most in the order in which nodes and edges were inserted. */
  ghost predicate SameRelation<T(!new)>(g: Graph<T>, h: Graph<T>) {
    && (forall v :: v in g.nodes <==> v in h.nodes)
    && (forall u, v {:trigger Edge(g, u, v)} {:trigger Edge(h, u, v)} :: Edge(g, u, v) <==> Edge(h, u, v))
  }

  lemma ReachesSelf<T(!new)>(g: Graph<T>, v: T)
    ensures Reaches(g, v, v)
  {
    assert IsPath(g, [v]);
  }

  lemma ReachesEdge<T(!new)>(g: Graph<T>, u: T, v: T)
    requires Edge(g, u, v)
    ensures Reaches(g, u, v)
  {
    assert IsPath(g, [u, v]);
  }

  lemma ReachesTransitive<T(!new)>(g: Graph<T>, u: T, v: T, w: T)
    requires Reaches(g, u, v) && Reaches(g, v, w)
    ensures Reaches(g, u, w)
  {
    var p :| IsPath(g, p) && p[0] == u && p[|p| - 1] == v;
    var q :| IsPath(g, q) && q[0] == v && q[|q| - 1] == w;
    var r := p + q[1..];
    forall i | 0 < i < |r|
      ensures Step(g, r, i)
    {
      if i < |p| {
        assert Step(g, p, i);
      } else {
        assert Step(g, q, i - |p| + 1);
      }
    }
    assert IsPath(g, r) && r[0] == u && r[|r| - 1] == w;
  }

  /** A set closed under edges is never left. */
  lemma {:induction false} ClosedUnderReaches<T(!new)>(g: Graph<T>, closed: set<T>, u: T, v: T)
    requires forall x, y :: x in closed && Edge(g, x, y) ==> y in closed
    requires u in closed && Reaches(g, u, v)
    ensures v in closed
  {
    var p :| IsPath(g, p) && p[0] == u && p[|p| - 1] == v;
    ClosedAlongPath(g, closed, p, |p| - 1);
  }

  lemma {:induction false} ClosedAlongPath<T(!new)>(g: Graph<T>, closed: set<T>, p: seq<T>, i: nat)
    requires forall x, y :: x in closed && Edge(g, x, y) ==> y in closed
    requires IsPath(g, p) && p[0] in closed && i < |p|
    ensures p[i] in closed
  {
    if i > 0 {
      ClosedAlongPath(g, closed, p, i - 1);
      assert Step(g, p, i);
    }
  }

  lemma {:induction false} SameRelationReaches<T(!new)>(g: Graph<T>, h: Graph<T>, u: T, v: T)
    requires SameRelation(g, h)
    ensures Reaches(g, u, v) <==> Reaches(h, u, v)
  {
    if Reaches(g, u, v) {
      var p :| IsPath(g, p) && p[0] == u && p[|p| - 1] == v;
      forall i | 0 < i < |p| ensures Step(h, p, i) { assert Step(g, p, i); }
      assert IsPath(h, p);
    }
    if Reaches(h, u, v) {
      var p :| IsPath(h, p) && p[0] == u && p[|p| - 1] == v;
      forall i | 0 < i < |p| ensures Step(g, p, i) { assert Step(h, p, i); }
      assert IsPath(g, p);
    }
  }
}
