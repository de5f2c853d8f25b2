/** Merging threading metadata loses nothing, can be repeated, and does not depend on the order of arrival. */
module ThreadingLaws {
  import opened Orders
  import opened Graphs
  import opened PriorityQueue
  import opened GreedyOrder
  import opened ThreadingMetadata

  // What is known after a merge, as three sets.

  ghost predicate KnownParent(text: Text, observed: Observation, rows: seq<Metadata>, id: string) {
    id in ParentsIn(text, observed.inReplyTo) || exists row :: row in rows && id in ParentsIn(text, row.inReplyTo)
  }

  ghost predicate KnownReference(observed: Observation, rows: seq<Metadata>, id: string) {
    id in observed.references || exists row :: row in rows && id in row.references
  }

  ghost predicate Contains(sequences: seq<seq<string>>, sequence: seq<string>) {
    exists s :: s in sequences && Unique(s) == sequence
  }

  ghost predicate KnownSequence(observed: Observation, rows: seq<Metadata>, sequence: seq<string>) {
    sequence != [] && (Contains(observed.sequences, sequence) || exists row :: row in rows && Contains(SequencesIn(row), sequence))
  }

  lemma {:induction false} FlattenMembers<T(!new)>(lists: seq<seq<T>>, x: T)
    ensures x in Flatten(lists) <==> exists i :: 0 <= i < |lists| && x in lists[i]
  {
    if lists != [] {
      FlattenMembers(lists[..|lists| - 1], x);
      var front := lists[..|lists| - 1];
      if x in Flatten(front) {
        var i :| 0 <= i < |front| && x in front[i];
        assert x in lists[i];
      }
      if i :| 0 <= i < |lists| && x in lists[i] {
        if i < |front| { assert x in front[i]; }
      }
    }
  }

  lemma ParentIdsMembers(text: Text, observed: Observation, rows: seq<Metadata>, id: string)
    ensures id in AllParents(text, observed, rows) <==> KnownParent(text, observed, rows, id)
    ensures id in ParentIds(text, observed, rows) <==> KnownParent(text, observed, rows, id)
  {
    var lists := seq(|rows|, i requires 0 <= i < |rows| => ParentsIn(text, rows[i].inReplyTo));
    FlattenMembers(lists, id);
    if row :| row in rows && id in ParentsIn(text, row.inReplyTo) {
      var i :| 0 <= i < |rows| && rows[i] == row;
      assert id in lists[i];
    }
    if i :| 0 <= i < |lists| && id in lists[i] { assert rows[i] in rows; }
  }

  lemma ReferenceValuesMembers(observed: Observation, rows: seq<Metadata>, id: string)
    ensures id in ReferenceValues(observed, rows) <==> KnownReference(observed, rows, id)
  {
    var lists := seq(|rows|, i requires 0 <= i < |rows| => Unique(rows[i].references));
    FlattenMembers(lists, id);
    if row :| row in rows && id in row.references {
      var i :| 0 <= i < |rows| && rows[i] == row;
      assert id in lists[i];
    }
    if i :| 0 <= i < |lists| && id in lists[i] { assert rows[i] in rows; }
  }

  lemma AllSequencesMembers(observed: Observation, rows: seq<Metadata>, sequence: seq<string>)
    ensures Contains(AllSequences(observed, rows), sequence) <==>
      (Contains(observed.sequences, sequence) || exists row :: row in rows && Contains(SequencesIn(row), sequence))
  {
    var lists := seq(|rows|, i requires 0 <= i < |rows| => SequencesIn(rows[i]));
    var all := Flatten(lists) + observed.sequences;
    if Contains(all, sequence) {
      var s :| s in all && Unique(s) == sequence;
      FlattenMembers(lists, s);
      if s in Flatten(lists) {
        var i :| 0 <= i < |lists| && s in lists[i];
        assert rows[i] in rows && Contains(SequencesIn(rows[i]), sequence);
      }
    }
    if row :| row in rows && Contains(SequencesIn(row), sequence) {
      var s :| s in SequencesIn(row) && Unique(s) == sequence;
      var i :| 0 <= i < |rows| && rows[i] == row;
      FlattenMembers(lists, s);
      assert s in lists[i] && s in all;
    }
    if s :| s in observed.sequences && Unique(s) == sequence { assert s in all; }
  }

  lemma EvidenceMembers(text: Text, observed: Observation, rows: seq<Metadata>, sequence: seq<string>)
    ensures sequence in Evidence(text, observed, rows) <==> KnownSequence(observed, rows, sequence)
  {
    var all := AllSequences(observed, rows);
    var deduplicated := Deduplicated(all);
    AllSequencesMembers(observed, rows, sequence);
    assert sequence in deduplicated <==> Contains(all, sequence) by {
      if i :| 0 <= i < |all| && deduplicated[i] == sequence { assert all[i] in all; }
      if s :| s in all && Unique(s) == sequence {
        var i :| 0 <= i < |all| && all[i] == s;
        assert deduplicated[i] == sequence;
      }
    }
  }

  // A merge is a function of the three sets.

  ghost predicate SameKnowledge(text: Text, o: Observation, rows: seq<Metadata>, p: Observation, others: seq<Metadata>) {
    && (forall id :: KnownParent(text, o, rows, id) <==> KnownParent(text, p, others, id))
    && (forall id :: KnownReference(o, rows, id) <==> KnownReference(p, others, id))
    && (forall s :: KnownSequence(o, rows, s) <==> KnownSequence(p, others, s))
  }

  lemma SortedUnique<T(!new)>(cmp: (T, T) -> int, s: seq<T>, t: seq<T>)
    requires TotalOrder(cmp) && forall x :: x in s <==> x in t
    ensures Sort(cmp, Unique(s)) == Sort(cmp, Unique(t))
  {
    SortKeepsDistinct(cmp, Unique(s));
    SortKeepsDistinct(cmp, Unique(t));
    SortSorts(cmp, Unique(s));
    SortSorts(cmp, Unique(t));
    SortedListingUnique(cmp, Sort(cmp, Unique(s)), Sort(cmp, Unique(t)));
  }

  lemma SequenceOrderIsTotal(text: Text)
    requires SoundText(text)
    ensures TotalOrder(CompareSequences(text))
  {
    var cmp := CompareSequences(text);
    forall a, b, c | cmp(a, b) <= 0 && cmp(b, c) <= 0
      ensures cmp(a, c) <= 0
    {
      Transitive(text.locale, text.json(a), text.json(b), text.json(c));
    }
  }

  lemma SameParents(text: Text, o: Observation, rows: seq<Metadata>, p: Observation, others: seq<Metadata>)
    requires SoundText(text) && SameKnowledge(text, o, rows, p, others)
    ensures ParentIds(text, o, rows) == ParentIds(text, p, others)
  {
    forall id
      ensures id in AllParents(text, o, rows) <==> id in AllParents(text, p, others)
    {
      ParentIdsMembers(text, o, rows, id);
      ParentIdsMembers(text, p, others, id);
    }
    SortedUnique(text.codeUnits, AllParents(text, o, rows), AllParents(text, p, others));
  }

  lemma EvidenceSorted(text: Text, o: Observation, rows: seq<Metadata>)
    requires SoundText(text)
    ensures Sorted(CompareSequences(text), Evidence(text, o, rows)) && Distinct(Evidence(text, o, rows))
  {
    var deduplicated := Deduplicated(AllSequences(o, rows));
    SequenceOrderIsTotal(text);
    SortSorts(CompareSequences(text), Unique(Filter(NonEmpty, deduplicated)));
    SortKeepsDistinct(CompareSequences(text), Unique(Filter(NonEmpty, deduplicated)));
  }

  lemma SameEvidence(text: Text, o: Observation, rows: seq<Metadata>, p: Observation, others: seq<Metadata>)
    requires SoundText(text) && SameKnowledge(text, o, rows, p, others)
    ensures Evidence(text, o, rows) == Evidence(text, p, others)
  {
    forall s
      ensures s in Evidence(text, o, rows) <==> s in Evidence(text, p, others)
    {
      EvidenceMembers(text, o, rows, s);
      EvidenceMembers(text, p, others, s);
    }
    SequenceOrderIsTotal(text);
    EvidenceSorted(text, o, rows);
    EvidenceSorted(text, p, others);
    SortedListingUnique(CompareSequences(text), Evidence(text, o, rows), Evidence(text, p, others));
  }

  /** Two merges that know the same parents, references and sequences return the same record. */
  lemma MergeDetermined(text: Text, o: Observation, rows: seq<Metadata>, p: Observation, others: seq<Metadata>,
                        out: Merged, out': Merged, g: Graph<string>, h: Graph<string>, bs: seq<seq<string>>, cs: seq<seq<string>>)
    requires SoundText(text) && SameKnowledge(text, o, rows, p, others)
    requires MergesTo(text, o, rows, out, g, bs) && MergesTo(text, p, others, out', h, cs)
    ensures out == out'
  {
    hide OrderedBlocks, SoundText, SameKnowledge, ReferenceGraph, Evidence, ParentIds, ReferenceValues;
    SameParents(text, o, rows, p, others);
    SameEvidence(text, o, rows, p, others);
    SameGraph(text, o, rows, p, others, out.referenceSequences, g, h);
    GreedyOrderUnique(g, h, text.locale, Always, bs, cs);
  }

  lemma SameGraph(text: Text, o: Observation, rows: seq<Metadata>, p: Observation, others: seq<Metadata>,
                  evidence: seq<seq<string>>, g: Graph<string>, h: Graph<string>)
    requires SoundText(text) && SameKnowledge(text, o, rows, p, others)
    requires ReferenceGraph(ReferenceValues(o, rows), evidence, g) && ReferenceGraph(ReferenceValues(p, others), evidence, h)
    ensures WellFormed(g) && WellFormed(h) && SameRelation(g, h)
    ensures TotalPreorder(text.locale) && StrictOn(text.locale, iset v | v in g.nodes)
  {
    forall id
      ensures id in g.nodes <==> id in h.nodes
    {
      ReferenceValuesMembers(o, rows, id);
      ReferenceValuesMembers(p, others, id);
    }
  }

  /** The rows, retained or merged, may come in any order and any number of times. */
  lemma RowOrderIndependent(text: Text, observed: Observation, rows: seq<Metadata>, others: seq<Metadata>, out: Merged, out': Merged)
    requires SoundText(text) && forall row :: row in rows <==> row in others
    requires Merges(text, observed, rows, out) && Merges(text, observed, others, out')
    ensures out == out'
  {
    hide OrderedBlocks, MergesTo;
    var g, bs :| MergesTo(text, observed, rows, out, g, bs);
    var h, cs :| MergesTo(text, observed, others, out', h, cs);
    assert SameKnowledge(text, observed, rows, observed, others);
    MergeDetermined(text, observed, rows, observed, others, out, out', g, h, bs, cs);
  }

  // A merged record says what was known.

  function Retained(out: Merged): Metadata {
    Metadata(out.inReplyTo, out.references, Some(out.referenceSequences))
  }

  lemma ReadParents(text: Text, observed: Observation, rows: seq<Metadata>, out: Merged, g: Graph<string>, bs: seq<seq<string>>)
    requires SoundText(text) && MergesTo(text, observed, rows, out, g, bs)
    ensures ParentsIn(text, out.inReplyTo) == ParentIds(text, observed, rows)
  {
    hide OrderedBlocks, SoundText, ReferenceGraph, ParentIds, KnownParent, Normal, Evidence;
    ParentsDistinct(text, observed, rows);
    forall id | id in ParentIds(text, observed, rows)
      ensures Normal(text, id)
    {
      ParentIdsMembers(text, observed, rows, id);
      KnownParentNormal(text, observed, rows, id);
    }
    JoinRoundTrip(text, ParentIds(text, observed, rows));
  }

  lemma KnownParentNormal(text: Text, observed: Observation, rows: seq<Metadata>, id: string)
    requires KnownParent(text, observed, rows, id)
    ensures Normal(text, id)
  {
  }

  lemma ParentsDistinct(text: Text, observed: Observation, rows: seq<Metadata>)
    ensures Distinct(ParentIds(text, observed, rows))
  {
    SortKeepsDistinct(text.codeUnits, Unique(AllParents(text, observed, rows)));
  }

  lemma JoinRoundTrip(text: Text, ids: seq<string>)
    requires SoundText(text) && Distinct(ids) && forall id :: id in ids ==> Normal(text, id)
    ensures text.normalize(text.join(ids)) == ids
  {
  }

  lemma ReadReferences(text: Text, observed: Observation, rows: seq<Metadata>, out: Merged, g: Graph<string>, bs: seq<seq<string>>, id: string)
    requires MergesTo(text, observed, rows, out, g, bs)
    ensures id in out.references <==> KnownReference(observed, rows, id)
  {
    ReferenceValuesMembers(observed, rows, id);
    GreedyRespectsReachability(g, text.locale, Always, bs);
  }

  lemma ReadSequences(text: Text, observed: Observation, rows: seq<Metadata>, out: Merged, g: Graph<string>, bs: seq<seq<string>>, s: seq<string>)
    requires MergesTo(text, observed, rows, out, g, bs)
    ensures s != [] && Contains(SequencesIn(Retained(out)), s) <==> KnownSequence(observed, rows, s)
  {
    hide OrderedBlocks;
    EvidenceMembers(text, observed, rows, s);
    if KnownSequence(observed, rows, s) {
      KnownIsDistinct(observed, rows, s);
      UniqueOfDistinct(s);
    }
    if q :| q in out.referenceSequences && Unique(q) == s {
      EvidenceMembers(text, observed, rows, q);
      KnownIsDistinct(observed, rows, q);
      UniqueOfDistinct(q);
    }
  }

  lemma KnownIsDistinct(observed: Observation, rows: seq<Metadata>, s: seq<string>)
    requires KnownSequence(observed, rows, s)
    ensures Distinct(s)
  {
  }

  /** No parent, reference or reference sequence is lost, and nothing is made up. */
  lemma NothingLost(text: Text, observed: Observation, rows: seq<Metadata>, out: Merged)
    requires SoundText(text) && Merges(text, observed, rows, out)
    ensures forall id :: id in ParentsIn(text, out.inReplyTo) <==> KnownParent(text, observed, rows, id)
    ensures forall id :: id in out.references <==> KnownReference(observed, rows, id)
    ensures forall s :: s in out.referenceSequences <==> KnownSequence(observed, rows, s)
    ensures forall id :: id in out.edges <==> KnownParent(text, observed, rows, id) || KnownReference(observed, rows, id)
  {
    hide OrderedBlocks;
    var g, bs :| MergesTo(text, observed, rows, out, g, bs);
    ReadParents(text, observed, rows, out, g, bs);
    forall id
      ensures id in ParentsIn(text, out.inReplyTo) <==> KnownParent(text, observed, rows, id)
      ensures id in out.references <==> KnownReference(observed, rows, id)
    {
      ParentIdsMembers(text, observed, rows, id);
      ReadReferences(text, observed, rows, out, g, bs, id);
    }
    forall s
      ensures s in out.referenceSequences <==> KnownSequence(observed, rows, s)
    {
      EvidenceMembers(text, observed, rows, s);
    }
  }

  /** Retaining a merged record is as good as retaining everything that went into it. */
  lemma RetainedKnows(text: Text, observed: Observation, rows: seq<Metadata>, out: Merged, next: Observation)
    requires SoundText(text) && Merges(text, observed, rows, out)
    ensures forall id :: KnownParent(text, next, [Retained(out)], id) <==>
      id in ParentsIn(text, next.inReplyTo) || KnownParent(text, observed, rows, id)
    ensures forall id :: KnownReference(next, [Retained(out)], id) <==> id in next.references || KnownReference(observed, rows, id)
    ensures forall s :: KnownSequence(next, [Retained(out)], s) <==>
      (s != [] && Contains(next.sequences, s)) || KnownSequence(observed, rows, s)
  {
    hide OrderedBlocks;
    var g, bs :| MergesTo(text, observed, rows, out, g, bs);
    var row := Retained(out);
    assert forall r :: r in [row] <==> r == row;
    ReadParents(text, observed, rows, out, g, bs);
    forall id
      ensures id in ParentsIn(text, row.inReplyTo) <==> KnownParent(text, observed, rows, id)
      ensures id in row.references <==> KnownReference(observed, rows, id)
    {
      ParentIdsMembers(text, observed, rows, id);
      ReadReferences(text, observed, rows, out, g, bs, id);
    }
    forall s
      ensures s != [] && Contains(SequencesIn(row), s) <==> KnownSequence(observed, rows, s)
    {
      ReadSequences(text, observed, rows, out, g, bs, s);
    }
  }

  /** Merging the same observation into its own result returns that result. */
  lemma MergeIdempotent(text: Text, observed: Observation, rows: seq<Metadata>, out: Merged, again: Merged)
    requires SoundText(text) && Merges(text, observed, rows, out) && Merges(text, observed, Rows(Retained(out), []), again)
    ensures again == out
  {
    hide OrderedBlocks, MergesTo;
    assert Rows(Retained(out), []) == [Retained(out)];
    var g, bs :| MergesTo(text, observed, rows, out, g, bs);
    var h, cs :| MergesTo(text, observed, [Retained(out)], again, h, cs);
    RetainedKnows(text, observed, rows, out, observed);
    MergeDetermined(text, observed, [Retained(out)], observed, rows, again, out, h, g, cs, bs);
  }

  /** Observations arriving one after the other may arrive in either order. */
  lemma ObservationsCommute(text: Text, rows: seq<Metadata>, o: Observation, p: Observation, a: Merged, ab: Merged, b: Merged, ba: Merged)
    requires SoundText(text) && Merges(text, o, rows, a) && Merges(text, p, [Retained(a)], ab)
    requires Merges(text, p, rows, b) && Merges(text, o, [Retained(b)], ba)
    ensures ab == ba
  {
    hide OrderedBlocks, MergesTo;
    RetainedKnows(text, o, rows, a, p);
    RetainedKnows(text, p, rows, b, o);
    assert SameKnowledge(text, p, [Retained(a)], o, [Retained(b)]);
    var g, bs :| MergesTo(text, p, [Retained(a)], ab, g, bs);
    var h, cs :| MergesTo(text, o, [Retained(b)], ba, h, cs);
    MergeDetermined(text, p, [Retained(a)], o, [Retained(b)], ab, ba, g, h, bs, cs);
  }
}
