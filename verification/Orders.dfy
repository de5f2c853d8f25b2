/** Comparators in the style of JavaScript's `(left, right) => number`, and the two library
    operations on arrays the mail code leans on: a stable sort and `[...new Set(values)]`. */
module Orders {

  /** Marks three values for which transitivity is wanted; see `Transitive`. */
  ghost predicate Chain<T>(a: T, b: T, c: T) { true }

  /** A consistent comparator: a total preorder whose sign flips with its arguments. */
  ghost predicate TotalPreorder<T(!new)>(cmp: (T, T) -> int) {
    && (forall a, b :: cmp(a, b) <= 0 <==> cmp(b, a) >= 0)
    && (forall a, b, c {:trigger Chain(a, b, c)} :: cmp(a, b) <= 0 && cmp(b, c) <= 0 ==> cmp(a, c) <= 0)
  }

  lemma Transitive<T(!new)>(cmp: (T, T) -> int, a: T, b: T, c: T)
    requires TotalPreorder(cmp) && cmp(a, b) <= 0 && cmp(b, c) <= 0
    ensures cmp(a, c) <= 0
  {
    assert Chain(a, b, c);
  }

  /** No two different values of `values` compare as equal. */
  ghost predicate StrictOn<T(!new)>(cmp: (T, T) -> int, values: iset<T>) {
    forall a, b :: a in values && b in values && cmp(a, b) == 0 ==> a == b
  }

  /** What the code asks of `localeCompare`: a total order on distinct strings. */
  ghost predicate TotalOrder<T(!new)>(cmp: (T, T) -> int) {
    && TotalPreorder(cmp)
    && (forall a, b :: cmp(a, b) == 0 ==> a == b)
  }

  ghost predicate Sorted<T(!new)>(cmp: (T, T) -> int, s: seq<T>) {
    forall i, j :: 0 <= i < j < |s| ==> cmp(s[i], s[j]) <= 0
  }

  ghost predicate Distinct<T>(s: seq<T>) {
    forall i, j :: 0 <= i < j < |s| ==> s[i] != s[j]
  }

  ghost function Elements<T(!new)>(s: seq<T>): (e: set<T>)
    ensures forall x :: x in e <==> x in s
  {
    set x | x in s
  }

  /** Inserts `x` behind every element that does not compare greater, which keeps a sort stable. */
  function Insert<T(!new)>(cmp: (T, T) -> int, s: seq<T>, x: T): (r: seq<T>)
    ensures multiset(r) == multiset(s) + multiset{x}
    ensures |r| == |s| + 1
    ensures forall y :: y in r <==> y == x || y in s
  {
    if s == [] then [x]
    else if cmp(s[|s| - 1], x) <= 0 then s + [x]
    else
      assert s == s[..|s| - 1] + [s[|s| - 1]];
      Insert(cmp, s[..|s| - 1], x) + [s[|s| - 1]]
  }

  lemma {:induction false} InsertSorted<T(!new)>(cmp: (T, T) -> int, s: seq<T>, x: T)
    requires TotalPreorder(cmp) && Sorted(cmp, s)
    ensures Sorted(cmp, Insert(cmp, s, x))
  {
    if s != [] {
      var last := s[|s| - 1];
      if cmp(last, x) <= 0 {
        forall i | 0 <= i < |s|
          ensures cmp(s[i], x) <= 0
        {
          if i < |s| - 1 { Transitive(cmp, s[i], last, x); }
        }
      } else {
        InsertSorted(cmp, s[..|s| - 1], x);
        var r := Insert(cmp, s[..|s| - 1], x);
        forall i | 0 <= i < |r|
          ensures cmp(r[i], last) <= 0
        {
          assert r[i] in r;
          if r[i] != x {
            var k :| 0 <= k < |s| - 1 && s[k] == r[i];
          }
        }
      }
    }
  }

  /** `Array.prototype.sort` with a comparator. */
  function Sort<T(!new)>(cmp: (T, T) -> int, s: seq<T>): (r: seq<T>)
    ensures multiset(r) == multiset(s)
    ensures |r| == |s|
    ensures forall y :: y in r <==> y in s
  {
    if s == [] then []
    else
      assert s == s[..|s| - 1] + [s[|s| - 1]];
      Insert(cmp, Sort(cmp, s[..|s| - 1]), s[|s| - 1])
  }

  lemma {:induction false} SortSorts<T(!new)>(cmp: (T, T) -> int, s: seq<T>)
    requires TotalPreorder(cmp)
    ensures Sorted(cmp, Sort(cmp, s))
  {
    if s != [] {
      SortSorts(cmp, s[..|s| - 1]);
      InsertSorted(cmp, Sort(cmp, s[..|s| - 1]), s[|s| - 1]);
    }
  }

  /** `[...new Set(values)]`: the distinct values in order of first appearance. */
  function Unique<T(==,!new)>(values: seq<T>): (r: seq<T>)
    ensures Distinct(r)
    ensures forall x :: x in r <==> x in values
    ensures |r| <= |values|
  {
    if values == [] then []
    else
      var r := Unique(values[..|values| - 1]);
      var last := values[|values| - 1];
      assert forall x :: x in values <==> x in values[..|values| - 1] || x == last;
      if last in r then r else r + [last]
  }

  /** A list without repeats is its own set. */
  lemma {:induction false} UniqueOfDistinct<T(!new)>(values: seq<T>)
    requires Distinct(values)
    ensures Unique(values) == values
  {
    if values != [] {
      UniqueOfDistinct(values[..|values| - 1]);
      assert values == values[..|values| - 1] + [values[|values| - 1]];
    }
  }

  lemma {:induction false} DistinctCounts<T>(s: seq<T>)
    requires Distinct(s)
    ensures forall x :: x in s ==> multiset(s)[x] == 1
  {
    if s != [] {
      DistinctCounts(s[..|s| - 1]);
      assert s == s[..|s| - 1] + [s[|s| - 1]];
      var last := s[|s| - 1];
      assert last !in s[..|s| - 1];
      forall x | x in s
        ensures multiset(s)[x] == 1
      {
        if x == last {
          assert x !in multiset(s[..|s| - 1]);
        } else {
          assert x in s[..|s| - 1];
        }
      }
    }
  }

  lemma {:induction false} CountsDistinct<T>(s: seq<T>)
    requires forall x :: x in s ==> multiset(s)[x] == 1
    ensures Distinct(s)
  {
    forall i, j | 0 <= i < j < |s|
      ensures s[i] != s[j]
    {
      assert s == s[..j] + [s[j]] + s[j + 1..];
      assert s[j] in s;
      assert s[j] !in multiset(s[..j]);
      assert s[..j][i] in s[..j];
    }
  }

  lemma SortKeepsDistinct<T(!new)>(cmp: (T, T) -> int, s: seq<T>)
    requires Distinct(s)
    ensures Distinct(Sort(cmp, s))
  {
    DistinctCounts(s);
    CountsDistinct(Sort(cmp, s));
  }

  lemma HeadIsLeast<T(!new)>(cmp: (T, T) -> int, s: seq<T>, x: T)
    requires TotalPreorder(cmp) && Sorted(cmp, s) && x in s
    ensures cmp(s[0], x) <= 0
  {
    assert cmp(s[0], s[0]) <= 0;
    var i :| 0 <= i < |s| && s[i] == x;
  }

  lemma {:induction false} SubsetSize<T>(a: set<T>, b: set<T>)
    requires a <= b
    ensures |a| <= |b|
  {
    assert b == a + (b - a);
  }

  lemma HasElement<T>(s: seq<T>)
    ensures s == [] || exists x :: x in s
  {
    if s != [] { assert s[0] in s; }
  }

  /** With a comparator that separates the elements, a set of values has one sorted listing. */
  lemma {:induction false} SortedListingUnique<T(!new)>(cmp: (T, T) -> int, s: seq<T>, t: seq<T>)
    requires TotalPreorder(cmp) && StrictOn(cmp, iset x | x in s)
    requires Distinct(s) && Distinct(t) && Sorted(cmp, s) && Sorted(cmp, t)
    requires forall x :: x in s <==> x in t
    ensures s == t
  {
    if s == [] {
      HasElement(t);
    } else {
      assert s[0] in t;
      assert t[0] in s;
      HeadIsLeast(cmp, s, t[0]);
      HeadIsLeast(cmp, t, s[0]);
      forall x
        ensures x in s[1..] <==> x in t[1..]
      {
        assert x in s <==> x == s[0] || x in s[1..];
        assert x in t <==> x == t[0] || x in t[1..];
      }
      SortedListingUnique(cmp, s[1..], t[1..]);
      assert s == [s[0]] + s[1..] && t == [t[0]] + t[1..];
    }
  }
}
