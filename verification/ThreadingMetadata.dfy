/** `mergeThreadingMetadata`: what several observations of one message say about its place in a thread,
    merged into one record. */
module ThreadingMetadata {
  import opened Orders
  import opened Graphs
  import opened PriorityQueue
  import opened GreedyOrder
  import opened DirectedGraphOrder

  datatype Metadata = Metadata(inReplyTo: Option<string>, references: seq<string>, referenceSequences: Option<seq<seq<string>>>)

  datatype Merged = Merged(inReplyTo: Option<string>, references: seq<string>, edges: seq<string>, referenceSequences: seq<seq<string>>)

  datatype Observation = Observation(inReplyTo: Option<string>, references: seq<string>, sequences: seq<seq<string>>)

  /** The string functions of the platform: `normalizeMessageIdList`, `join(" ")`, `localeCompare`, the default
      sort order and `JSON.stringify` of a list of strings. */
  datatype Text = Text(
    normalize: string -> seq<string>, join: seq<string> -> string,
    locale: (string, string) -> int, codeUnits: (string, string) -> int, json: seq<string> -> string)

  /** A normalized message id is one that normalization can produce. */
  ghost predicate Normal(text: Text, id: string) {
    exists field :: id in text.normalize(field)
  }

  /** Both orders separate strings, encodings are faithful, and joining normalized ids can be undone. */
  ghost predicate SoundText(text: Text) {
    && TotalOrder(text.locale) && TotalOrder(text.codeUnits)
    && (forall s, t :: text.json(s) == text.json(t) ==> s == t)
    && (forall ids {:trigger text.join(ids)} :: Distinct(ids) && (forall id :: id in ids ==> Normal(text, id)) ==>
         text.normalize(text.join(ids)) == ids)
  }

  function Flatten<T>(lists: seq<seq<T>>): seq<T> {
    if lists == [] then [] else Flatten(lists[..|lists| - 1]) + lists[|lists| - 1]
  }

  function ParentsIn(text: Text, inReplyTo: Option<string>): seq<string> {
    match inReplyTo case None => [] case Some(field) => text.normalize(field)
  }

  function Rows(retained: Metadata, merged: seq<Metadata>): seq<Metadata> {
    [retained] + merged
  }

  function AllParents(text: Text, observed: Observation, rows: seq<Metadata>): seq<string> {
    ParentsIn(text, observed.inReplyTo)
    + Flatten(seq(|rows|, i requires 0 <= i < |rows| => ParentsIn(text, rows[i].inReplyTo)))
  }

  /** `parents`: every id an In-Reply-To field names, sorted. */
  function ParentIds(text: Text, observed: Observation, rows: seq<Metadata>): seq<string> {
    Sort(text.codeUnits, Unique(AllParents(text, observed, rows)))
  }

  function SequencesIn(row: Metadata): seq<seq<string>> {
    match row.referenceSequences case Some(sequences) => sequences case None => [row.references]
  }

  function NonEmpty(sequence: seq<string>): bool { sequence != [] }

  function CompareSequences(text: Text): (seq<string>, seq<string>) -> int {
    (left, right) => text.locale(text.json(left), text.json(right))
  }

  function AllSequences(observed: Observation, rows: seq<Metadata>): seq<seq<string>> {
    Flatten(seq(|rows|, i requires 0 <= i < |rows| => SequencesIn(rows[i]))) + observed.sequences
  }

  function Deduplicated(sequences: seq<seq<string>>): seq<seq<string>> {
    seq(|sequences|, i requires 0 <= i < |sequences| => Unique(sequences[i]))
  }

  /** `evidence`: every reference sequence once, without repeats inside it, sorted by its encoding. */
  function Evidence(text: Text, observed: Observation, rows: seq<Metadata>): seq<seq<string>> {
    Sort(CompareSequences(text), Unique(Filter(NonEmpty, Deduplicated(AllSequences(observed, rows)))))
  }

  function ReferenceValues(observed: Observation, rows: seq<Metadata>): seq<string> {
    Unique(Flatten(seq(|rows|, i requires 0 <= i < |rows| => Unique(rows[i].references))) + Unique(observed.references))
  }

  /** Among the first `n` entries of the sequence, `u` stands right before `v`. */
  ghost predicate Follows(sequence: seq<string>, n: nat, u: string, v: string) {
    exists i :: 0 < i < n && i < |sequence| && sequence[i - 1] == u && sequence[i] == v
  }

  /** Some sequence of `evidence` has `u` right before `v`. */
  ghost predicate Adjacent(evidence: seq<seq<string>>, u: string, v: string) {
    exists sequence :: sequence in evidence && Follows(sequence, |sequence|, u, v)
  }

  ghost predicate ReferenceGraph(values: seq<string>, evidence: seq<seq<string>>, g: Graph<string>) {
    && WellFormed(g) && g.nodes == values
    && (forall u, v {:trigger Edge(g, u, v)} {:trigger Adjacent(evidence, u, v)} ::
         Edge(g, u, v) <==> u in values && v in values && Adjacent(evidence, u, v))
  }

  predicate Always(value: string) { true }

  /** What `mergeThreadingMetadata` returns, with the reference graph and its listing as witnesses. */
  ghost predicate MergesTo(text: Text, observed: Observation, rows: seq<Metadata>, out: Merged, g: Graph<string>, blocks: seq<seq<string>>) {
    var parents := ParentIds(text, observed, rows);
    && out.inReplyTo == (if parents == [] then None else Some(text.join(parents)))
    && out.referenceSequences == Evidence(text, observed, rows)
    && ReferenceGraph(ReferenceValues(observed, rows), out.referenceSequences, g)
    && OrderedBlocks(g, text.locale, Always, blocks)
    && out.references == VisibleOf(Always, blocks)
    && out.edges == Sort(text.codeUnits, Unique(parents + out.references))
  }

  /** `out` is what merging gives. */
  ghost predicate Merges(text: Text, observed: Observation, rows: seq<Metadata>, out: Merged) {
    exists g, blocks :: MergesTo(text, observed, rows, out, g, blocks)
  }

  /** Adds the adjacent pairs of one sequence to `after`, as far as both ends are known values. */
  method AddAdjacent(g: Graph<string>, sequence: seq<string>) returns (h: Graph<string>)
    requires WellFormed(g)
    ensures WellFormed(h) && h.nodes == g.nodes
    ensures forall u, v {:trigger Edge(h, u, v)} ::
      Edge(h, u, v) <==> Edge(g, u, v) || (u in g.nodes && v in g.nodes && Follows(sequence, |sequence|, u, v))
  {
    h := g;
    var index := 1;
    while index < |sequence|
      invariant WellFormed(h) && h.nodes == g.nodes && index >= 1
      invariant forall u, v {:trigger Edge(h, u, v)} ::
        Edge(h, u, v) <==> Edge(g, u, v) || (u in g.nodes && v in g.nodes && Follows(sequence, index, u, v))
    {
      var before, later := sequence[index - 1], sequence[index];
      ghost var previous := h;
      if before in h.after && later in h.after && later !in h.after[before] {
        h := Graph(h.nodes, h.after[before := h.after[before] + [later]]);
      }
      AddedPair(g, previous, h, sequence, index);
      index := index + 1;
    }
  }

  lemma AddedPair(g: Graph<string>, previous: Graph<string>, h: Graph<string>, sequence: seq<string>, index: nat)
    requires WellFormed(g) && WellFormed(previous) && previous.nodes == g.nodes && 0 < index < |sequence|
    requires forall u, v {:trigger Edge(previous, u, v)} ::
      Edge(previous, u, v) <==> Edge(g, u, v) || (u in g.nodes && v in g.nodes && Follows(sequence, index, u, v))
    requires var before, later := sequence[index - 1], sequence[index];
      h == if before in previous.after && later in previous.after && later !in previous.after[before]
        then Graph(previous.nodes, previous.after[before := previous.after[before] + [later]]) else previous
    ensures WellFormed(h) && h.nodes == g.nodes
    ensures forall u, v {:trigger Edge(h, u, v)} ::
      Edge(h, u, v) <==> Edge(g, u, v) || (u in g.nodes && v in g.nodes && Follows(sequence, index + 1, u, v))
  {
    var before, later := sequence[index - 1], sequence[index];
    forall u, v
      ensures Edge(h, u, v) <==> Edge(g, u, v) || (u in g.nodes && v in g.nodes && Follows(sequence, index + 1, u, v))
    {
      FollowsStep(sequence, index, u, v);
      assert Edge(h, u, v) <==> Edge(previous, u, v) || (u == before && v == later && u in g.nodes && v in g.nodes);
    }
  }

  lemma FollowsStep(sequence: seq<string>, index: nat, u: string, v: string)
    requires 0 < index < |sequence|
    ensures Follows(sequence, index + 1, u, v) <==> Follows(sequence, index, u, v) || (u == sequence[index - 1] && v == sequence[index])
  {
  }

  /** The references are the greedy listing of the graph of the evidence's adjacent pairs. */
  ghost predicate OrdersReferences(text: Text, values: seq<string>, evidence: seq<seq<string>>, references: seq<string>,
                                   g: Graph<string>, blocks: seq<seq<string>>) {
    && ReferenceGraph(values, evidence, g) && OrderedBlocks(g, text.locale, Always, blocks)
    && references == VisibleOf(Always, blocks) && RespectsReachability(g, Always, references)
  }

  /** `mergeReferenceSequences`: the values in an order that keeps every sequence of `evidence`, where they
      do not contradict one another. */
  method MergeReferenceSequences(text: Text, values: seq<string>, evidence: seq<seq<string>>)
    returns (references: seq<string>)
    requires TotalOrder(text.locale) && Distinct(values)
    ensures exists g, blocks :: OrdersReferences(text, values, evidence, references, g, blocks)
  {
    var graph := Graph(values, map v | v in values :: []);
    for i := 0 to |evidence|
      invariant WellFormed(graph) && graph.nodes == values
      invariant forall u, v {:trigger Edge(graph, u, v)} ::
        Edge(graph, u, v) <==> u in values && v in values && Adjacent(evidence[..i], u, v)
    {
      ghost var before := graph;
      graph := AddAdjacent(graph, evidence[i]);
      forall u, v
        ensures Edge(graph, u, v) <==> u in values && v in values && Adjacent(evidence[..i + 1], u, v)
      {
        AdjacentStep(evidence, i, u, v);
        assert Edge(graph, u, v) <==> Edge(before, u, v) || (u in values && v in values && Follows(evidence[i], |evidence[i]|, u, v));
      }
    }
    assert evidence[..|evidence|] == evidence;
    ghost var blocks;
    references, blocks := OrderDirectedGraph(graph, text.locale, Always);
    assert OrdersReferences(text, values, evidence, references, graph, blocks);
  }

  lemma AdjacentStep(evidence: seq<seq<string>>, i: nat, u: string, v: string)
    requires i < |evidence|
    ensures Adjacent(evidence[..i + 1], u, v) <==> Adjacent(evidence[..i], u, v) || Follows(evidence[i], |evidence[i]|, u, v)
  {
    assert forall s :: s in evidence[..i + 1] <==> s in evidence[..i] || s == evidence[i];
  }

  lemma ReferenceValuesDistinct(observed: Observation, rows: seq<Metadata>)
    ensures Distinct(ReferenceValues(observed, rows))
  {
  }

  /** Merges an observation into the retained record and the records of merged messages. */
  method MergeThreadingMetadata(text: Text, observed: Observation, retained: Metadata, merged: seq<Metadata>)
    returns (out: Merged)
    requires TotalOrder(text.locale)
    ensures Merges(text, observed, Rows(retained, merged), out)
  {
    hide OrderedBlocks, ReferenceGraph, RespectsReachability, ParentIds, Evidence, ReferenceValues, TotalOrder;
    var rows := Rows(retained, merged);
    var parents, evidence := ParentIds(text, observed, rows), Evidence(text, observed, rows);
    ReferenceValuesDistinct(observed, rows);
    var references := MergeReferenceSequences(text, ReferenceValues(observed, rows), evidence);
    ghost var g, blocks :| OrdersReferences(text, ReferenceValues(observed, rows), evidence, references, g, blocks);
    out := Merged(if |parents| > 0 then Some(text.join(parents)) else None, references,
                  Sort(text.codeUnits, Unique(parents + references)), evidence);
    assert MergesTo(text, observed, rows, out, g, blocks);
  }
}
