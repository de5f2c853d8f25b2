/** The count of `imapSearchUids` in floating point: exactly for which bounds every answer is counted right. */
module ImapSearchDoubles {
  import opened PriorityQueue
  import opened Orders
  import opened ImapSearch
  import opened ImapSearchLaws

  /** Up to here doubles hold every integer; from here to twice as much only the even ones. */
  const EXACT_TO := 0x20_0000_0000_0000

  /** The double nearest to an integer of at most `2 * EXACT_TO`; halfway between two it is the multiple of four. */
  function Nearest(n: int): int {
    if n <= EXACT_TO || n % 2 == 0 then n
    else if n % 4 == 1 then n - 1
    else n + 1
  }

  /** The count as the reduction computes it: each of its three operations rounds. */
  function DoubleCount(merged: seq<Range>): int {
    if merged == [] then 0
    else
      var range := merged[|merged| - 1];
      Nearest(Nearest(Nearest(DoubleCount(merged[..|merged| - 1]) + range.high) - range.low) + 1)
  }

  /** While the `i`-th range is added, the total so far plus the upper end of the range. */
  function RunningSum(merged: seq<Range>, i: nat): int
    requires i < |merged|
  {
    Count(merged[..i]) + merged[i].high
  }

  ghost predicate Between(merged: seq<Range>, low: int, high: int) {
    forall k :: 0 <= k < |merged| ==> low <= merged[k].low && merged[k].high <= high
  }

  lemma UidsBetween(merged: seq<Range>, low: int, high: int)
    requires Canonical(merged) && Between(merged, low, high)
    ensures UidsOf(merged) <= Interval(low, high)
  {
    forall uid | uid in UidsOf(merged)
      ensures uid in Interval(low, high)
    {
      InUidsOf(merged, uid);
      var r :| r in merged && r.low <= uid <= r.high;
    }
  }

  /** The first partial sum is the end of the first range; later ones leave out at least one UID in front of the range. */
  lemma RunningSumBound(merged: seq<Range>, i: nat, low: int, high: int)
    requires Canonical(merged) && i < |merged| && Between(merged, low, high) && 0 <= low
    ensures 0 <= RunningSum(merged, i)
    ensures i == 0 ==> RunningSum(merged, i) <= high
    ensures i > 0 ==> RunningSum(merged, i) <= 2 * high - low - 1 && low + 2 <= high
  {
    if i > 0 {
      FrontSize(merged, i, low);
      assert merged[0].low <= merged[0].high < merged[i].low - 1;
    } else {
      assert Count(merged[..0]) == 0;
    }
  }

  lemma FrontSize(merged: seq<Range>, i: nat, low: int)
    requires Canonical(merged) && 0 < i < |merged| && forall k :: 0 <= k < |merged| ==> low <= merged[k].low
    ensures 0 <= Count(merged[..i]) <= merged[i].low - 1 - low
  {
    hide UidsOf, Interval, Count;
    var front := merged[..i];
    assert merged[0].low <= merged[0].high < merged[i].low - 1;
    CountIsSize(front);
    UidsBetween(front, low, merged[i].low - 2);
    IntervalSize(low, merged[i].low - 2);
    SubsetSize(UidsOf(front), Interval(low, merged[i].low - 2));
  }

  /** No partial sum exceeds twice the largest UID, so 32-bit UIDs are counted exactly in doubles. */
  lemma CountStaysExact(merged: seq<Range>, i: nat, maximum: int)
    requires Canonical(merged) && i < |merged|
    requires forall k :: 0 <= k < |merged| ==> 0 <= merged[k].low && merged[k].high <= maximum
    ensures 0 <= RunningSum(merged, i) <= 2 * maximum
  {
    RunningSumBound(merged, i, 0, maximum);
  }

  /** As long as no partial sum passes the limit the count in doubles is the number of different UIDs. */
  lemma {:induction false} SmallSumsAreExact(merged: seq<Range>)
    requires Canonical(merged) && Between(merged, 0, MAX_SAFE_INTEGER)
    requires forall i :: 0 <= i < |merged| ==> RunningSum(merged, i) <= EXACT_TO
    ensures DoubleCount(merged) == Count(merged)
  {
    if merged != [] {
      var n := |merged| - 1;
      var front := merged[..n];
      forall i | 0 <= i < n
        ensures RunningSum(front, i) == RunningSum(merged, i)
      {
        assert front[..i] == merged[..i];
      }
      SmallSumsAreExact(front);
      if n > 0 { FrontSize(merged, n, 0); }
      assert RunningSum(merged, n) <= EXACT_TO && merged[n].high <= MAX_SAFE_INTEGER;
    }
  }

  /** Within these bounds every list of ranges is counted right. */
  ghost predicate CountedRight(low: int, high: int) {
    forall merged {:trigger DoubleCount(merged)} :: Canonical(merged) && Between(merged, low, high) ==> DoubleCount(merged) == |UidsOf(merged)|
  }

  /** The condition on the bounds, which a caller can check: no room for two ranges, or for a sum beyond the limit. */
  predicate Fits(low: int, high: int) {
    high < low + 2 || 2 * high - low - 1 <= EXACT_TO
  }

  lemma FittingBoundsCount(low: int, high: int, merged: seq<Range>)
    requires 0 <= low && high <= MAX_SAFE_INTEGER && Fits(low, high) && Canonical(merged) && Between(merged, low, high)
    ensures DoubleCount(merged) == |UidsOf(merged)|
  {
    forall i | 0 <= i < |merged|
      ensures RunningSum(merged, i) <= EXACT_TO
    {
      RunningSumBound(merged, i, low, high);
    }
    SmallSumsAreExact(merged);
    CountIsSize(merged);
  }

  /** Two ranges whose sum is odd and beyond the limit: all UIDs but one or two, and the last one. */
  function Miscounted(low: int, high: int): seq<Range>
    requires low + 2 <= high
  {
    if low % 2 == 0 then [Range(low, high - 2), Range(high, high)] else [Range(low + 1, high - 2), Range(high, high)]
  }

  /** Where the first of the two ranges starts: at the first even UID. */
  function FirstEven(low: int): (start: int)
    ensures start % 2 == 0 && low <= start <= low + 1
  {
    if low % 2 == 0 then low else low + 1
  }

  lemma MiscountedRanges(low: int, high: int)
    requires 0 <= low && low + 3 <= high <= MAX_SAFE_INTEGER
    ensures Canonical(Miscounted(low, high)) && Between(Miscounted(low, high), low, high)
    ensures Miscounted(low, high) == [Range(FirstEven(low), high - 2), Range(high, high)]
  {
  }

  lemma OddSum(low: int, high: int)
    requires 2 * high - low - 1 > EXACT_TO
    ensures var sum := high - 2 - FirstEven(low) + 1 + high; sum % 2 == 1 && EXACT_TO < sum
  {
    assert high - 2 - FirstEven(low) + 1 + high == 2 * (high - FirstEven(low) / 2 - 1) + 1;
  }

  /** An odd sum beyond the limit is rounded, and stays wrong. */
  lemma OddSumIsMissed(size: int, high: int)
    requires 0 <= size < high <= MAX_SAFE_INTEGER && (size + high) % 2 == 1 && EXACT_TO < size + high
    ensures Nearest(Nearest(Nearest(size + high) - high) + 1) != size + 1
  {
    assert Nearest(size + high) == size + high - 1 || Nearest(size + high) == size + high + 1;
  }

  lemma PairIsMissed(pair: seq<Range>, size: int, high: int)
    requires Canonical(pair) && 0 <= size < high <= MAX_SAFE_INTEGER && (size + high) % 2 == 1 && EXACT_TO < size + high
    requires Count(pair) == size + 1 && DoubleCount(pair) == Nearest(Nearest(Nearest(size + high) - high) + 1)
    ensures DoubleCount(pair) != |UidsOf(pair)|
  {
    hide *;
    OddSumIsMissed(size, high);
    CountIsSize(pair);
  }

  lemma MiscountedIsWrong(low: int, high: int)
    requires 0 <= low && high <= MAX_SAFE_INTEGER && !Fits(low, high)
    ensures low + 3 <= high
    ensures Canonical(Miscounted(low, high)) && Between(Miscounted(low, high), low, high)
    ensures DoubleCount(Miscounted(low, high)) != |UidsOf(Miscounted(low, high))|
  {
    hide Nearest, DoubleCount, Count, UidsOf, Canonical, Miscounted, Between, FirstEven;
    MiscountedRanges(low, high);
    OddSum(low, high);
    TwoRanges(Range(FirstEven(low), high - 2), Range(high, high));
    PairIsMissed([Range(FirstEven(low), high - 2), Range(high, high)], high - 2 - FirstEven(low) + 1, high);
  }

  lemma TwoRanges(first: Range, last: Range)
    requires 0 <= first.low <= first.high <= MAX_SAFE_INTEGER
    ensures var size := first.high - first.low + 1;
      && Count([first, last]) == size + last.high - last.low + 1
      && DoubleCount([first, last]) == Nearest(Nearest(Nearest(size + last.high) - last.low) + 1)
  {
    assert [first, last][..1] == [first] && [first][..0] == [];
    assert Count([first]) == first.high - first.low + 1;
    assert DoubleCount([first]) == Nearest(Nearest(Nearest(0 + first.high) - first.low) + 1);
  }

  /** Every answer within the bounds is counted right in doubles if and only if they leave no room for two ranges, or
      twice the upper one less the lower one and one stays within 2^53. */
  lemma CountedRightIff(low: int, high: int)
    requires 0 <= low && high <= MAX_SAFE_INTEGER
    ensures CountedRight(low, high) <==> Fits(low, high)
  {
    if Fits(low, high) {
      forall merged | Canonical(merged) && Between(merged, low, high)
        ensures DoubleCount(merged) == |UidsOf(merged)|
      {
        FittingBoundsCount(low, high, merged);
      }
    } else {
      MiscountedIsWrong(low, high);
    }
  }

  /** For UIDs of 32 bits, the default bounds, the count is always right. */
  lemma ThirtyTwoBitsCount()
    ensures CountedRight(1, 0xffff_ffff)
  {
    CountedRightIff(1, 0xffff_ffff);
  }

  /** With the largest bounds the code admits, `1:2` and the last UID are counted as two. */
  lemma LargestBoundsMiscount()
    ensures var merged := [Range(1, 2), Range(MAX_SAFE_INTEGER, MAX_SAFE_INTEGER)];
      Canonical(merged) && Count(merged) == 3 && DoubleCount(merged) == 2
  {
    var first, last := Range(1, 2), Range(MAX_SAFE_INTEGER, MAX_SAFE_INTEGER);
    TwoRanges(first, last);
    assert Nearest(2 + MAX_SAFE_INTEGER) == MAX_SAFE_INTEGER + 1;
  }
}
