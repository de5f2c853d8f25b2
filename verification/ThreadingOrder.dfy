/** In which order merged references come: as the sequences say, and otherwise alphabetically. */
module ThreadingOrder {
  import opened Orders
  import opened Graphs
  import opened PriorityQueue
  import opened GreedyOrder
  import opened GreedyLaws
  import opened ThreadingMetadata
  import opened ThreadingLaws

  /** The sequences do not contradict one another: the ids can be ranked so that all of them ascend. */
  ghost predicate Agree(sequences: seq<seq<string>>, rank: string -> int) {
    forall s, i :: s in sequences && 0 < i < |s| ==> rank(s[i - 1]) < rank(s[i])
  }

  lemma EdgeIsAdjacent(values: seq<string>, evidence: seq<seq<string>>, g: Graph<string>, u: string, v: string)
    requires ReferenceGraph(values, evidence, g)
    ensures Edge(g, u, v) <==> u in values && v in values && Adjacent(evidence, u, v)
  {
  }

  lemma {:induction false} PathRises(values: seq<string>, evidence: seq<seq<string>>, g: Graph<string>, rank: string -> int, p: seq<string>, k: nat)
    requires ReferenceGraph(values, evidence, g) && Agree(evidence, rank) && IsPath(g, p) && 0 < k < |p|
    ensures rank(p[0]) < rank(p[k])
  {
    hide ReferenceGraph;
    assert Step(g, p, k);
    EdgeIsAdjacent(values, evidence, g, p[k - 1], p[k]);
    var s :| s in evidence && Follows(s, |s|, p[k - 1], p[k]);
    if k > 1 { PathRises(values, evidence, g, rank, p, k - 1); }
  }

  lemma {:induction false} SequenceReaches(values: seq<string>, evidence: seq<seq<string>>, g: Graph<string>, s: seq<string>, i: nat, j: nat)
    requires ReferenceGraph(values, evidence, g) && s in evidence && i <= j < |s| && forall k :: i <= k <= j ==> s[k] in values
    ensures Reaches(g, s[i], s[j])
    decreases j
  {
    hide ReferenceGraph, Reaches;
    if i == j {
      ReachesSelf(g, s[i]);
    } else {
      SequenceReaches(values, evidence, g, s, i, j - 1);
      assert Follows(s, |s|, s[j - 1], s[j]) && Adjacent(evidence, s[j - 1], s[j]);
      EdgeIsAdjacent(values, evidence, g, s[j - 1], s[j]);
      ReachesEdge(g, s[j - 1], s[j]);
      ReachesTransitive(g, s[i], s[j - 1], s[j]);
    }
  }

  lemma ReferencesAreValues(text: Text, observed: Observation, rows: seq<Metadata>, out: Merged, g: Graph<string>, blocks: seq<seq<string>>)
    requires MergesTo(text, observed, rows, out, g, blocks)
    ensures RespectsReachability(g, Always, out.references)
    ensures forall id :: id in out.references <==> id in ReferenceValues(observed, rows)
  {
    GreedyRespectsReachability(g, text.locale, Always, blocks);
  }

  /** Where sequences do not contradict one another the references come in their order: an id that a sequence lists before
      another one, with only references in between, comes before it. */
  lemma ReferencesFollowSequences(text: Text, observed: Observation, rows: seq<Metadata>, out: Merged, rank: string -> int,
                                  s: seq<string>, i: nat, j: nat, a: nat, b: nat)
    requires Merges(text, observed, rows, out) && Agree(out.referenceSequences, rank)
    requires s in out.referenceSequences && i < j < |s| && forall k :: i <= k <= j ==> s[k] in out.references
    requires a < |out.references| && b < |out.references| && out.references[a] == s[i] && out.references[b] == s[j]
    ensures a < b
  {
    hide OrderedBlocks, Evidence, ReferenceValues, RespectsReachability, ReferenceGraph, Agree, ParentIds, VisibleOf;
    var g, blocks :| MergesTo(text, observed, rows, out, g, blocks);
    ReferencesAreValues(text, observed, rows, out, g, blocks);
    PositionsFollow(ReferenceValues(observed, rows), out.referenceSequences, out.references, g, rank, s, i, j, a, b);
  }

  lemma PositionsFollow(values: seq<string>, evidence: seq<seq<string>>, references: seq<string>, g: Graph<string>, rank: string -> int,
                        s: seq<string>, i: nat, j: nat, a: nat, b: nat)
    requires ReferenceGraph(values, evidence, g) && RespectsReachability(g, Always, references) && Agree(evidence, rank)
    requires s in evidence && i < j < |s| && forall k :: i <= k <= j ==> s[k] in values
    requires a < |references| && b < |references| && references[a] == s[i] && references[b] == s[j]
    ensures a < b
  {
    SequenceRises(evidence, rank, s, i, j);
    hide ReferenceGraph, Reaches, RespectsReachability, Agree;
    SequenceReaches(values, evidence, g, s, i, j);
    if Reaches(g, s[j], s[i]) { RisesBack(values, evidence, g, rank, s[i], s[j]); }
    RespectsAt(g, references, a, b);
  }

  lemma {:induction false} SequenceRises(evidence: seq<seq<string>>, rank: string -> int, s: seq<string>, i: nat, j: nat)
    requires Agree(evidence, rank) && s in evidence && i < j < |s|
    ensures rank(s[i]) < rank(s[j])
    decreases j
  {
    assert rank(s[j - 1]) < rank(s[j]);
    if i < j - 1 { SequenceRises(evidence, rank, s, i, j - 1); }
  }

  lemma RespectsAt(g: Graph<string>, references: seq<string>, a: nat, b: nat)
    requires RespectsReachability(g, Always, references) && a < |references| && b < |references|
    requires Reaches(g, references[a], references[b]) && !Reaches(g, references[b], references[a])
    ensures a < b
  {
  }

  lemma RisesBack(values: seq<string>, evidence: seq<seq<string>>, g: Graph<string>, rank: string -> int, u: string, v: string)
    requires ReferenceGraph(values, evidence, g) && Agree(evidence, rank) && Reaches(g, u, v) && Reaches(g, v, u)
    ensures u == v
  {
    hide ReferenceGraph, Agree, Step;
    if u != v {
      var p :| IsPath(g, p) && p[0] == u && p[|p| - 1] == v;
      PathRises(values, evidence, g, rank, p, |p| - 1);
      var q :| IsPath(g, q) && q[0] == v && q[|q| - 1] == u;
      PathRises(values, evidence, g, rank, q, |q| - 1);
    }
  }

  /** Without a sequence that has two references next to each other they come in alphabetical order. */
  lemma UnrelatedSorted(text: Text, observed: Observation, rows: seq<Metadata>, out: Merged)
    requires SoundText(text) && Merges(text, observed, rows, out)
    requires forall s, i :: s in out.referenceSequences && 0 < i < |s| ==> s[i - 1] !in out.references || s[i] !in out.references
    ensures Sorted(text.locale, out.references)
  {
    hide OrderedBlocks, Evidence, ReferenceValues, RespectsReachability, ReferenceGraph;
    var g, blocks :| MergesTo(text, observed, rows, out, g, blocks);
    ReferencesAreValues(text, observed, rows, out, g, blocks);
    forall u, v
      ensures !Edge(g, u, v)
    {
      EdgeIsAdjacent(ReferenceValues(observed, rows), out.referenceSequences, g, u, v);
      NeverAdjacent(out.referenceSequences, out.references, u, v);
    }
    assert WellFormed(g) by { GraphWellFormed(ReferenceValues(observed, rows), out.referenceSequences, g); }
    SortedWithoutVisibleEdges(g, text.locale, Always, blocks);
  }

  lemma NeverAdjacent(evidence: seq<seq<string>>, references: seq<string>, u: string, v: string)
    requires forall s, i :: s in evidence && 0 < i < |s| ==> s[i - 1] !in references || s[i] !in references
    ensures !Adjacent(evidence, u, v) || u !in references || v !in references
  {
  }

  lemma GraphWellFormed(values: seq<string>, evidence: seq<seq<string>>, g: Graph<string>)
    requires ReferenceGraph(values, evidence, g)
    ensures WellFormed(g)
  {
  }

  /** Everything else is sorted: the parents and references together, and the sequences by their encoding; and nothing is
      listed twice. */
  lemma EdgesSorted(text: Text, observed: Observation, rows: seq<Metadata>, out: Merged)
    requires SoundText(text) && Merges(text, observed, rows, out)
    ensures Sorted(text.codeUnits, out.edges) && Distinct(out.edges) && Distinct(out.references)
    ensures forall id :: id in out.edges <==> id in out.references || KnownParent(text, observed, rows, id)
    ensures forall i, j :: 0 <= i < j < |out.referenceSequences| ==>
      text.locale(text.json(out.referenceSequences[i]), text.json(out.referenceSequences[j])) <= 0
  {
    hide OrderedBlocks, ReferenceGraph, ReferenceValues, Sorted, Distinct, ParentIds, Evidence;
    var g, blocks :| MergesTo(text, observed, rows, out, g, blocks);
    ReferencesDistinct(text, observed, rows, out, g, blocks);
    var ids := ParentIds(text, observed, rows) + out.references;
    SortSorts(text.codeUnits, Unique(ids));
    SortKeepsDistinct(text.codeUnits, Unique(ids));
    forall id
      ensures id in out.edges <==> id in out.references || KnownParent(text, observed, rows, id)
    {
      ParentIdsMembers(text, observed, rows, id);
      assert id in ids <==> id in ParentIds(text, observed, rows) || id in out.references;
    }
    SequencesSorted(text, observed, rows);
  }

  lemma ReferencesDistinct(text: Text, observed: Observation, rows: seq<Metadata>, out: Merged, g: Graph<string>, blocks: seq<seq<string>>)
    requires MergesTo(text, observed, rows, out, g, blocks)
    ensures Distinct(out.references)
  {
    ReferencesAreValues(text, observed, rows, out, g, blocks);
  }

  lemma SequencesSorted(text: Text, observed: Observation, rows: seq<Metadata>)
    requires SoundText(text)
    ensures var evidence := Evidence(text, observed, rows);
      forall i, j :: 0 <= i < j < |evidence| ==> text.locale(text.json(evidence[i]), text.json(evidence[j])) <= 0
  {
    EvidenceSorted(text, observed, rows);
    assert forall s, t :: CompareSequences(text)(s, t) == text.locale(text.json(s), text.json(t));
  }
}
