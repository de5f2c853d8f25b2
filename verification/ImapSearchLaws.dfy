/** What the checked UID list of a search is, in terms of the plain set of UIDs the server named. */
module ImapSearchLaws {
  import opened Orders
  import opened PriorityQueue
  import opened ImapSearch

  function Interval(low: int, high: int): (r: set<int>)
    ensures forall uid :: uid in r <==> low <= uid <= high
    decreases high - low
  {
    if low <= high then {low} + Interval(low + 1, high) else {}
  }

  function UidsOf(ranges: seq<Range>): set<int> {
    if ranges == [] then {} else UidsOf(ranges[..|ranges| - 1]) + Interval(ranges[|ranges| - 1].low, ranges[|ranges| - 1].high)
  }

  /** The UIDs one part of the answer names: everything between its two numbers, in either order. */
  function PartUids(part: Part): set<int> {
    match PartNumbers(part)
    case None => {}
    case Some((first, second)) => Interval(first, second) + Interval(second, first)
  }

  /** The plain set of UIDs of the answer. */
  function NamedUids(parts: seq<Part>): set<int> {
    if parts == [] then {} else NamedUids(parts[..|parts| - 1]) + PartUids(parts[|parts| - 1])
  }

  lemma {:induction false} InUidsOf(ranges: seq<Range>, uid: int)
    ensures uid in UidsOf(ranges) <==> exists r :: r in ranges && r.low <= uid <= r.high
  {
    if ranges != [] {
      var front, last := ranges[..|ranges| - 1], ranges[|ranges| - 1];
      InUidsOf(front, uid);
      assert forall r :: r in ranges <==> r in front || r == last;
    }
  }

  lemma {:induction false} RangesNameTheSame(parts: seq<Part>, bounds: Bounds)
    requires PartRanges(parts, bounds).Ok?
    ensures UidsOf(PartRanges(parts, bounds).value) == NamedUids(parts)
  {
    if parts != [] {
      var ranges := PartRanges(parts, bounds).value;
      RangesNameTheSame(parts[..|parts| - 1], bounds);
      assert ranges[..|ranges| - 1] == PartRanges(parts[..|parts| - 1], bounds).value;
    }
  }

  // The merged form.

  /** Ascending ranges with at least one absent UID between neighbours. */
  ghost predicate Canonical(ranges: seq<Range>) {
    && (forall i :: 0 <= i < |ranges| ==> ranges[i].low <= ranges[i].high)
    && (forall i, j :: 0 <= i < j < |ranges| ==> ranges[i].high + 1 < ranges[j].low)
  }

  ghost predicate WellFormed(ranges: seq<Range>) {
    forall i :: 0 <= i < |ranges| ==> ranges[i].low <= ranges[i].high
  }

  lemma {:induction false} MergedIsCanonical(ranges: seq<Range>)
    requires Sorted(ByLow, ranges) && WellFormed(ranges)
    ensures Canonical(Merged(ranges))
    ensures UidsOf(Merged(ranges)) == UidsOf(ranges)
    ensures ranges != [] ==> Merged(ranges) != [] && Merged(ranges)[|Merged(ranges)| - 1].low <= ranges[|ranges| - 1].low
  {
    if ranges != [] {
      var front, last := ranges[..|ranges| - 1], ranges[|ranges| - 1];
      hide Interval, UidsOf, Extend;
      assert forall i :: 0 <= i < |front| ==> front[i] == ranges[i];
      MergedIsCanonical(front);
      assert front != [] ==> ByLow(ranges[|front| - 1], ranges[|front|]) <= 0;
      ExtendCanonical(Merged(front), last);
      ExtendCovers(Merged(front), last);
      UidsStep(ranges);
    }
  }

  lemma UidsStep(ranges: seq<Range>)
    requires ranges != []
    ensures UidsOf(ranges) == UidsOf(ranges[..|ranges| - 1]) + Interval(ranges[|ranges| - 1].low, ranges[|ranges| - 1].high)
  {
  }

  lemma ExtendCanonical(merged: seq<Range>, range: Range)
    requires Canonical(merged) && range.low <= range.high
    requires merged != [] ==> merged[|merged| - 1].low <= range.low
    ensures Canonical(Extend(merged, range)) && Extend(merged, range) != []
    ensures Extend(merged, range)[|Extend(merged, range)| - 1].low <= range.low
  {
  }

  lemma ExtendCovers(merged: seq<Range>, range: Range)
    requires Canonical(merged) && range.low <= range.high
    requires merged != [] ==> merged[|merged| - 1].low <= range.low
    ensures UidsOf(Extend(merged, range)) == UidsOf(merged) + Interval(range.low, range.high)
  {
    var extended := Extend(merged, range);
    assert extended[..|extended| - 1] == if |extended| == |merged| then merged[..|merged| - 1] else merged;
  }

  lemma {:induction false} IntervalSize(low: int, high: int)
    requires low <= high + 1
    ensures |Interval(low, high)| == high - low + 1
    decreases high - low
  {
    if low <= high {
      IntervalSize(low + 1, high);
      assert Interval(low, high) == {low} + Interval(low + 1, high);
    } else {
      assert Interval(low, high) == {};
    }
  }

  lemma CanonicalFront(ranges: seq<Range>, uid: int)
    requires Canonical(ranges) && ranges != [] && uid in UidsOf(ranges[..|ranges| - 1])
    ensures uid + 1 < ranges[|ranges| - 1].low
  {
    InUidsOf(ranges[..|ranges| - 1], uid);
  }

  /** The sum over the merged ranges is the number of different UIDs. */
  lemma {:induction false} CountIsSize(ranges: seq<Range>)
    requires Canonical(ranges)
    ensures Count(ranges) == |UidsOf(ranges)|
  {
    if ranges != [] {
      var front, last := ranges[..|ranges| - 1], ranges[|ranges| - 1];
      CountIsSize(front);
      IntervalSize(last.low, last.high);
      forall uid | uid in UidsOf(front)
        ensures uid !in Interval(last.low, last.high)
      {
        CanonicalFront(ranges, uid);
      }
    }
  }

  lemma FrontsAgree(a: seq<Range>, b: seq<Range>)
    requires Canonical(a) && Canonical(b) && UidsOf(a) == UidsOf(b) && a != [] && b != [] && a[|a| - 1] == b[|b| - 1]
    ensures UidsOf(a[..|a| - 1]) == UidsOf(b[..|b| - 1])
  {
    var frontA, frontB := UidsOf(a[..|a| - 1]), UidsOf(b[..|b| - 1]);
    forall uid
      ensures uid in frontA <==> uid in frontB
    {
      if uid in frontA { CanonicalFront(a, uid); }
      if uid in frontB { CanonicalFront(b, uid); }
      assert uid in UidsOf(a) <==> uid in UidsOf(b);
    }
  }

  /** A set of UIDs has one canonical list of ranges, so the merge does not depend on how the server cut its answer. */
  lemma {:induction false} CanonicalUnique(a: seq<Range>, b: seq<Range>)
    requires Canonical(a) && Canonical(b) && UidsOf(a) == UidsOf(b)
    ensures a == b
  {
    if a == [] || b == [] {
      EmptyIffNoUids(a);
      EmptyIffNoUids(b);
    } else {
      var lastA, lastB := a[|a| - 1], b[|b| - 1];
      var frontA, frontB := a[..|a| - 1], b[..|b| - 1];
      LastReaches(a, b);
      LastReaches(b, a);
      LastStarts(a, b);
      LastStarts(b, a);
      assert lastA == lastB;
      FrontsAgree(a, b);
      hide UidsOf;
      CanonicalUnique(frontA, frontB);
      assert a == frontA + [lastA] && b == frontB + [lastB];
    }
  }

  lemma EmptyIffNoUids(ranges: seq<Range>)
    requires Canonical(ranges)
    ensures ranges == [] <==> UidsOf(ranges) == {}
  {
    if ranges != [] { assert ranges[|ranges| - 1].low in UidsOf(ranges); }
  }

  lemma LastReaches(a: seq<Range>, b: seq<Range>)
    requires Canonical(a) && Canonical(b) && UidsOf(a) == UidsOf(b) && a != [] && b != []
    ensures a[|a| - 1].high <= b[|b| - 1].high
  {
    assert a[|a| - 1].high in UidsOf(a);
    if a[|a| - 1].high in UidsOf(b[..|b| - 1]) {
      CanonicalFront(b, a[|a| - 1].high);
    }
  }

  lemma LastStarts(a: seq<Range>, b: seq<Range>)
    requires Canonical(a) && Canonical(b) && UidsOf(a) == UidsOf(b) && a != [] && b != []
    requires a[|a| - 1].high == b[|b| - 1].high
    ensures a[|a| - 1].low <= b[|b| - 1].low
  {
    var lastA, lastB := a[|a| - 1], b[|b| - 1];
    if lastB.low < lastA.low {
      assert lastA.low - 1 in Interval(lastB.low, lastB.high);
      assert lastA.low - 1 in UidsOf(a[..|a| - 1]);
      CanonicalFront(a, lastA.low - 1);
    }
  }

  // The selection.

  ghost predicate Ascending(uids: seq<int>) {
    forall i, j :: 0 <= i < j < |uids| ==> uids[i] < uids[j]
  }

  /** `selected` lists, in ascending order, the `limit` smallest elements of `uids`. */
  ghost predicate Smallest(selected: seq<int>, uids: set<int>, limit: int) {
    && Ascending(selected)
    && (forall uid :: uid in selected ==> uid in uids)
    && (forall uid, other :: uid in selected && other in uids && other !in selected ==> uid < other)
    && (|selected| < limit ==> forall uid :: uid in uids ==> uid in selected)
    && |selected| <= Larger(limit, 0)
  }

  lemma {:induction false} SelectFromAdds(selected: seq<int>, uids: set<int>, range: Range, limit: int)
    requires Smallest(selected, uids, limit)
    requires forall uid :: uid in uids ==> uid < range.low
    ensures Smallest(SelectFrom(selected, range, limit), uids + Interval(range.low, range.high), limit)
    decreases range.high - range.low
  {
    if range.low <= range.high {
      var rest := range.(low := range.low + 1);
      assert uids + Interval(range.low, range.high) == uids + {range.low} + Interval(rest.low, rest.high);
      if |selected| < limit {
        forall i | 0 <= i < |selected|
          ensures selected[i] < range.low
        {
          assert selected[i] in selected;
        }
        SelectFromAdds(selected + [range.low], uids + {range.low}, rest, limit);
      }
    } else {
      assert uids + Interval(range.low, range.high) == uids;
    }
  }

  lemma {:induction false} SelectIsSmallest(merged: seq<Range>, limit: int)
    requires Canonical(merged)
    ensures Smallest(Select(merged, limit), UidsOf(merged), limit)
  {
    if merged != [] {
      var front, last := merged[..|merged| - 1], merged[|merged| - 1];
      SelectIsSmallest(front, limit);
      forall uid | uid in UidsOf(front)
        ensures uid < last.low
      {
        CanonicalFront(merged, uid);
      }
      SelectFromAdds(Select(front, limit), UidsOf(front), last, limit);
    }
  }

  // The whole function.

  lemma MergedParts(parts: seq<Part>, bounds: Bounds)
    requires PartRanges(parts, bounds).Ok?
    ensures var merged := Merged(Sort(ByLow, PartRanges(parts, bounds).value));
      Canonical(merged) && UidsOf(merged) == NamedUids(parts)
  {
    hide PartRanges, Sort, Merged, UidsOf, Canonical, PartRange, NamedUids;
    var ranges := PartRanges(parts, bounds).value;
    var sorted := Sort(ByLow, ranges);
    SortSorts(ByLow, ranges);
    forall i | 0 <= i < |sorted|
      ensures sorted[i].low <= sorted[i].high
    {
      assert sorted[i] in sorted;
      var k :| 0 <= k < |ranges| && ranges[k] == sorted[i];
      assert PartRange(parts[k], bounds) == Ok(ranges[k]);
    }
    MergedIsCanonical(sorted);
    forall uid
      ensures uid in UidsOf(sorted) <==> uid in UidsOf(ranges)
    {
      InUidsOf(sorted, uid);
      InUidsOf(ranges, uid);
    }
    RangesNameTheSame(parts, bounds);
  }

  /** An accepted answer gives the smallest UIDs of the plain set, all within the bounds. */
  lemma AcceptedSearch(result: SearchResult, limit: int, bounds: Bounds, requireCount: bool)
    requires Searched(result, limit, bounds, requireCount).Ok?
    ensures Smallest(Searched(result, limit, bounds, requireCount).value, NamedUids(Parts(result)), limit)
    ensures forall uid :: uid in NamedUids(Parts(result)) ==> bounds.minimum <= uid <= bounds.maximum && 0 <= uid <= MAX_SAFE_INTEGER
    ensures result.ESearch? && result.count.Some? ==> result.count.value == |NamedUids(Parts(result))|
  {
    hide PartRanges, Sort, Merged, UidsOf, Canonical, NamedUids, Count, Select, Parts, Smallest;
    var merged := Merged(Sort(ByLow, PartRanges(Parts(result), bounds).value));
    MergedParts(Parts(result), bounds);
    SelectIsSmallest(merged, limit);
    CountIsSize(merged);
    forall uid | uid in NamedUids(Parts(result))
      ensures bounds.minimum <= uid <= bounds.maximum && 0 <= uid <= MAX_SAFE_INTEGER
    {
      NamedWithinBounds(Parts(result), bounds, uid);
    }
  }

  lemma NamedWithinBounds(parts: seq<Part>, bounds: Bounds, uid: int)
    requires PartRanges(parts, bounds).Ok? && uid in NamedUids(parts)
    ensures bounds.minimum <= uid <= bounds.maximum && 0 <= uid <= MAX_SAFE_INTEGER
  {
    hide PartRanges, PartRange, UidsOf, NamedUids;
    var ranges := PartRanges(parts, bounds).value;
    RangesNameTheSame(parts, bounds);
    InUidsOf(ranges, uid);
    var r :| r in ranges && r.low <= uid <= r.high;
    var k :| 0 <= k < |ranges| && ranges[k] == r;
    assert PartRange(parts[k], bounds) == Ok(r);
  }

  ghost predicate IsLeast(n: Option<int>, uids: set<int>) {
    (n.None? <==> uids == {}) && (n.Some? ==> n.value in uids && forall uid :: uid in uids ==> n.value <= uid)
  }

  ghost predicate IsGreatest(n: Option<int>, uids: set<int>) {
    (n.None? <==> uids == {}) && (n.Some? ==> n.value in uids && forall uid :: uid in uids ==> uid <= n.value)
  }

  /** The fields of the answer are true of the plain set of UIDs. */
  ghost predicate FieldsMatch(result: SearchResult, uids: set<int>) {
    result.ESearch? ==>
      && (result.count.Some? ==> result.count.value == |uids|)
      && (result.min.Some? ==> IsLeast(result.min, uids))
      && (result.max.Some? ==> IsGreatest(result.max, uids))
  }

  lemma EndsOfCanonical(merged: seq<Range>)
    requires Canonical(merged)
    ensures IsLeast(First(merged), UidsOf(merged)) && IsGreatest(Last(merged), UidsOf(merged))
  {
    if merged != [] {
      InUidsOf(merged, merged[0].low);
      InUidsOf(merged, merged[|merged| - 1].high);
      assert merged[0] in merged && merged[|merged| - 1] in merged;
      forall uid | uid in UidsOf(merged)
        ensures merged[0].low <= uid <= merged[|merged| - 1].high
      {
        InUidsOf(merged, uid);
        var r :| r in merged && r.low <= uid <= r.high;
        var k :| 0 <= k < |merged| && merged[k] == r;
      }
    }
  }

  lemma LeastIsOne(a: Option<int>, b: Option<int>, uids: set<int>)
    ensures IsLeast(a, uids) && IsLeast(b, uids) ==> a == b
    ensures IsGreatest(a, uids) && IsGreatest(b, uids) ==> a == b
  {
  }

  lemma AgreesIffMatch(result: SearchResult, merged: seq<Range>)
    requires Canonical(merged)
    ensures Agrees(result, merged) <==> FieldsMatch(result, UidsOf(merged))
  {
    hide UidsOf, Canonical, Count, First, Last, IsLeast, IsGreatest;
    if result.ESearch? {
      CountIsSize(merged);
      EndsOfCanonical(merged);
      LeastIsOne(result.min, First(merged), UidsOf(merged));
      LeastIsOne(result.max, Last(merged), UidsOf(merged));
    }
  }

  /** Exactly when an answer is accepted, and what is wrong with it otherwise. */
  lemma WhenAccepted(result: SearchResult, limit: int, bounds: Bounds, requireCount: bool)
    ensures var outcome, parts := Searched(result, limit, bounds, requireCount), Parts(result);
      && (outcome.Ok? <==> CoversEnough(result, requireCount) && PartRanges(parts, bounds).Ok? && FieldsMatch(result, NamedUids(parts)))
      && (outcome == Failed(Disagrees) <==> CoversEnough(result, requireCount) && PartRanges(parts, bounds).Ok? && !FieldsMatch(result, NamedUids(parts)))
      && (outcome == Failed(OmittedCoverage) <==> !CoversEnough(result, requireCount))
  {
    hide Parts, PartRanges, Sort, Merged, UidsOf, Canonical, NamedUids, Count, First, Last, Select, CoversEnough;
    if CoversEnough(result, requireCount) && PartRanges(Parts(result), bounds).Ok? {
      var merged := Merged(Sort(ByLow, PartRanges(Parts(result), bounds).value));
      MergedParts(Parts(result), bounds);
      AgreesIffMatch(result, merged);
    } else {
      PartFailure(Parts(result), bounds);
    }
  }

  lemma {:induction false} PartFailure(parts: seq<Part>, bounds: Bounds)
    ensures PartRanges(parts, bounds).Failed? ==> PartRanges(parts, bounds).error in {InvalidCoverage, CrossedRange}
  {
    if parts != [] {
      PartFailure(parts[..|parts| - 1], bounds);
    }
  }

  /** Two readable answers that name the same UIDs select the same ones: it does not matter in which order or in
      which pieces the server, or the client library behind it, lists them. */
  lemma SameUidsSameSelection(a: SearchResult, b: SearchResult, limit: int, bounds: Bounds, requireCount: bool)
    requires Searched(a, limit, bounds, requireCount).Ok? && Searched(b, limit, bounds, requireCount).Ok?
    requires NamedUids(Parts(a)) == NamedUids(Parts(b))
    ensures Searched(a, limit, bounds, requireCount) == Searched(b, limit, bounds, requireCount)
  {
    MergedParts(Parts(a), bounds);
    MergedParts(Parts(b), bounds);
    CanonicalUnique(Merged(Sort(ByLow, PartRanges(Parts(a), bounds).value)), Merged(Sort(ByLow, PartRanges(Parts(b), bounds).value)));
  }
}
