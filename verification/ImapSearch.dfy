/** `imapSearchUids`: turns the UIDs of an IMAP SEARCH or ESEARCH answer into a checked, bounded, ascending list. */
module ImapSearch {
  import opened Orders
  import opened PriorityQueue

  /** Either a plain list of UIDs or the fields of an ESEARCH response. */
  datatype SearchResult =
    | UidList(uids: seq<int>)
    | ESearch(partial: bool, count: Option<int>, all: string, min: Option<int>, max: Option<int>)

  datatype Bounds = Bounds(minimum: int, maximum: int)

  datatype Range = Range(low: int, high: int)

  datatype SearchError = OmittedCoverage | InvalidCoverage | CrossedRange | Disagrees

  datatype Outcome<+T> = Ok(value: T) | Failed(error: SearchError)

  const MAX_SAFE_INTEGER := 0x1F_FFFF_FFFF_FFFF

  /** Where the shortest decimal text of a number turns to an exponent. */
  const EXPONENT_FROM := 1_000_000_000_000_000_000_000

  predicate IsSafe(n: int) {
    -MAX_SAFE_INTEGER <= n <= MAX_SAFE_INTEGER
  }

  // One part of the UID set: digits, or digits, a colon and digits.

  predicate AllDigits(s: string) {
    forall i :: 0 <= i < |s| ==> '0' <= s[i] <= '9'
  }

  predicate IsDigits(s: string) {
    s != "" && AllDigits(s)
  }

  function Decimal(s: string): (n: nat)
    requires AllDigits(s)
  {
    if s == "" then 0 else 10 * Decimal(s[..|s| - 1]) + (s[|s| - 1] as int - '0' as int)
  }

  /** The index of the first `mark` at or behind `from`, or the length. */
  function IndexOf(s: string, mark: char, from: nat): (i: nat)
    requires from <= |s|
    ensures from <= i <= |s| && (i < |s| ==> s[i] == mark)
    ensures forall k :: from <= k < i ==> s[k] != mark
    decreases |s| - from
  {
    if from == |s| || s[from] == mark then from else IndexOf(s, mark, from + 1)
  }

  /** `text.split(mark)`. */
  function Split(s: string, mark: char): seq<string>
    decreases |s|
  {
    var i := IndexOf(s, mark, 0);
    if i == |s| then [s] else [s[..i]] + Split(s[i + 1..], mark)
  }

  datatype Part = Number(value: int) | Text(text: string)

  function PartNumbers(part: Part): (r: Option<(int, int)>)
    ensures r.Some? ==> r.value.0 >= 0 && r.value.1 >= 0
  {
    match part
    case Number(n) => if 0 <= n < EXPONENT_FROM then Some((n, n)) else None
    case Text(text) =>
      var colon := IndexOf(text, ':', 0);
      if colon == |text| then
        (if IsDigits(text) then Some((Decimal(text), Decimal(text))) else None)
      else if IsDigits(text[..colon]) && IsDigits(text[colon + 1..]) then
        Some((Decimal(text[..colon]), Decimal(text[colon + 1..])))
      else None
  }

  function PartRange(part: Part, bounds: Bounds): (r: Outcome<Range>)
    ensures r.Ok? ==> 0 <= r.value.low <= r.value.high <= MAX_SAFE_INTEGER
    ensures r.Ok? ==> bounds.minimum <= r.value.low && r.value.high <= bounds.maximum
  {
    match PartNumbers(part)
    case None => Failed(InvalidCoverage)
    case Some((first, second)) =>
      var low, high := if first < second then first else second, if first < second then second else first;
      if !IsSafe(low) || !IsSafe(high) || low < bounds.minimum || high > bounds.maximum then Failed(CrossedRange)
      else Ok(Range(low, high))
  }

  function Parts(result: SearchResult): seq<Part> {
    match result
    case UidList(uids) => seq(|uids|, i requires 0 <= i < |uids| => Number(uids[i]))
    case ESearch(_, _, all, _, _) =>
      if all == "" then [] else var texts := Split(all, ','); seq(|texts|, i requires 0 <= i < |texts| => Text(texts[i]))
  }

  /** The ranges of all parts, or the failure of the first part that has one. */
  function PartRanges(parts: seq<Part>, bounds: Bounds): (r: Outcome<seq<Range>>)
    ensures r.Ok? ==> |r.value| == |parts| && forall i :: 0 <= i < |parts| ==> PartRange(parts[i], bounds) == Ok(r.value[i])
    ensures r.Failed? ==> exists i :: 0 <= i < |parts| && PartRange(parts[i], bounds).Failed?
  {
    if parts == [] then Ok([])
    else
      var n := |parts| - 1;
      match PartRanges(parts[..n], bounds)
      case Failed(error) => Failed(error)
      case Ok(ranges) =>
        match PartRange(parts[n], bounds)
        case Failed(error) => Failed(error)
        case Ok(range) => Ok(ranges + [range])
  }

  function ByLow(a: Range, b: Range): int {
    a.low - b.low
  }

  function Larger(a: int, b: int): int {
    if a < b then b else a
  }

  function Extend(merged: seq<Range>, range: Range): seq<Range> {
    if merged != [] && range.low <= merged[|merged| - 1].high + 1 then
      merged[|merged| - 1 := merged[|merged| - 1].(high := Larger(merged[|merged| - 1].high, range.high))]
    else merged + [range]
  }

  function Merged(ranges: seq<Range>): seq<Range> {
    if ranges == [] then [] else Extend(Merged(ranges[..|ranges| - 1]), ranges[|ranges| - 1])
  }

  function Count(merged: seq<Range>): int {
    if merged == [] then 0
    else Count(merged[..|merged| - 1]) + merged[|merged| - 1].high - merged[|merged| - 1].low + 1
  }

  /** The first UIDs of one range, up to a total of `limit` with those already selected. */
  function SelectFrom(selected: seq<int>, range: Range, limit: int): (r: seq<int>)
    decreases range.high - range.low
  {
    if range.low <= range.high && |selected| < limit then SelectFrom(selected + [range.low], range.(low := range.low + 1), limit)
    else selected
  }

  function Select(merged: seq<Range>, limit: int): seq<int> {
    if merged == [] then [] else SelectFrom(Select(merged[..|merged| - 1], limit), merged[|merged| - 1], limit)
  }

  predicate CoversEnough(result: SearchResult, requireCount: bool) {
    result.UidList? || (!result.partial && (requireCount ==> result.count.Some?) && (result.count.Some? ==> 0 <= result.count.value <= MAX_SAFE_INTEGER))
  }

  function First(merged: seq<Range>): Option<int> {
    if merged == [] then None else Some(merged[0].low)
  }

  function Last(merged: seq<Range>): Option<int> {
    if merged == [] then None else Some(merged[|merged| - 1].high)
  }

  predicate Agrees(result: SearchResult, merged: seq<Range>) {
    result.UidList? || ((result.count.Some? ==> result.count == Some(Count(merged)))
                        && (result.min.Some? ==> result.min == First(merged)) && (result.max.Some? ==> result.max == Last(merged)))
  }

  function Searched(result: SearchResult, limit: int, bounds: Bounds, requireCount: bool): Outcome<seq<int>> {
    if !CoversEnough(result, requireCount) then Failed(OmittedCoverage)
    else
      match PartRanges(Parts(result), bounds)
      case Failed(error) => Failed(error)
      case Ok(ranges) =>
        var merged := Merged(Sort(ByLow, ranges));
        if Agrees(result, merged) then Ok(Select(merged, limit)) else Failed(Disagrees)
  }

  // The loops.

  method MergeRanges(ranges: seq<Range>) returns (merged: seq<Range>)
    ensures merged == Merged(ranges)
  {
    merged := [];
    for i := 0 to |ranges|
      invariant merged == Merged(ranges[..i])
    {
      assert ranges[..i + 1][..i] == ranges[..i];
      var range := ranges[i];
      if merged != [] && range.low <= merged[|merged| - 1].high + 1 {
        var previous := merged[|merged| - 1];
        merged := merged[|merged| - 1 := previous.(high := Larger(previous.high, range.high))];
      } else {
        merged := merged + [range];
      }
    }
    assert ranges[..|ranges|] == ranges;
  }

  method SelectUids(merged: seq<Range>, limit: int) returns (selected: seq<int>)
    ensures selected == Select(merged, limit)
  {
    selected := [];
    var i := 0;
    while i < |merged|
      invariant 0 <= i <= |merged|
      invariant selected == Select(merged[..i], limit)
    {
      var range := merged[i];
      assert merged[..i + 1][..i] == merged[..i];
      ghost var before := selected;
      var uid := range.low;
      while uid <= range.high && |selected| < limit
        invariant SelectFrom(selected, Range(uid, range.high), limit) == SelectFrom(before, range, limit)
        decreases range.high - uid
      {
        selected := selected + [uid];
        uid := uid + 1;
      }
      i := i + 1;
      if |selected| == limit {
        SelectFull(merged, i, limit);
        return;
      }
    }
    assert merged[..|merged|] == merged;
  }

  /** Once the limit is reached the remaining ranges add nothing. */
  lemma {:induction false} SelectFull(merged: seq<Range>, i: nat, limit: int)
    requires i <= |merged| && |Select(merged[..i], limit)| == limit
    ensures Select(merged, limit) == Select(merged[..i], limit)
  {
    if i < |merged| {
      assert merged[..|merged| - 1][..i] == merged[..i];
      SelectFull(merged[..|merged| - 1], i, limit);
    } else {
      assert merged[..i] == merged;
    }
  }

  method ImapSearchUids(result: SearchResult, limit: int, bounds: Bounds, requireCount: bool) returns (outcome: Outcome<seq<int>>)
    ensures outcome == Searched(result, limit, bounds, requireCount)
  {
    if !CoversEnough(result, requireCount) {
      return Failed(OmittedCoverage);
    }
    var ranges := PartRanges(Parts(result), bounds);
    if ranges.Failed? {
      return Failed(ranges.error);
    }
    var merged := MergeRanges(Sort(ByLow, ranges.value));
    if !Agrees(result, merged) {
      return Failed(Disagrees);
    }
    var selected := SelectUids(merged, limit);
    outcome := Ok(selected);
  }
}
