/** The binary min-heap that feeds Kahn's algorithm (`MinPriorityQueue`). */
module PriorityQueue {
  import opened Orders

  datatype Option<+T> = None | Some(value: T)

  function Parent(i: nat): nat
    requires i > 0
  {
    (i - 1) / 2
  }

  /** Every entry except possibly the one at `hole` is no smaller than its parent. */
  ghost predicate HeapExcept<T(!new)>(cmp: (T, T) -> int, s: seq<T>, hole: int) {
    forall i {:trigger Parent(i)} :: 0 < i < |s| && i != hole ==> cmp(s[Parent(i)], s[i]) <= 0
  }

  ghost predicate Heap<T(!new)>(cmp: (T, T) -> int, s: seq<T>) {
    HeapExcept(cmp, s, -1)
  }

  /** Every entry except possibly the children of `hole` is no smaller than its parent. */
  ghost predicate HeapAbove<T(!new)>(cmp: (T, T) -> int, s: seq<T>, hole: nat) {
    forall i {:trigger Parent(i)} :: 0 < i < |s| && Parent(i) != hole ==> cmp(s[Parent(i)], s[i]) <= 0
  }

  /** Grandchildren reached through `hole` are no smaller than the parent of `hole`. */
  ghost predicate Bridged<T(!new)>(cmp: (T, T) -> int, s: seq<T>, hole: nat) {
    forall i {:trigger Parent(i)} :: 0 < i < |s| && Parent(i) == hole && hole > 0 ==> cmp(s[Parent(hole)], s[i]) <= 0
  }

  lemma {:induction false} RootIsLeast<T(!new)>(cmp: (T, T) -> int, s: seq<T>, i: nat)
    requires TotalPreorder(cmp) && Heap(cmp, s) && i < |s|
    ensures cmp(s[0], s[i]) <= 0
  {
    if i == 0 {
      assert cmp(s[0], s[0]) <= 0;
    } else {
      RootIsLeast(cmp, s, Parent(i));
      Transitive(cmp, s[0], s[Parent(i)], s[i]);
    }
  }

  lemma RootIsLeastOfAll<T(!new)>(cmp: (T, T) -> int, s: seq<T>)
    requires TotalPreorder(cmp) && Heap(cmp, s)
    ensures forall x :: x in s ==> cmp(s[0], x) <= 0
  {
    forall x | x in s
      ensures cmp(s[0], x) <= 0
    {
      var i :| 0 <= i < |s| && s[i] == x;
      RootIsLeast(cmp, s, i);
    }
  }

  /** Moving the last entry to the root removes one occurrence of the old root. */
  lemma RootReplaced<T>(s: seq<T>)
    requires s != []
    ensures |s| == 1 ==> multiset(s) == multiset{s[0]}
    ensures |s| > 1 ==> multiset(s[..|s| - 1][0 := s[|s| - 1]]) + multiset{s[0]} == multiset(s)
  {
    var last := s[|s| - 1];
    assert s == s[..|s| - 1] + [last];
    if |s| > 1 {
      assert s == [s[0]] + s[1..|s| - 1] + [last];
      assert s[..|s| - 1][0 := last] == [last] + s[1..|s| - 1];
    }
  }

  /** Writing `x` into the hole instead of `y` trades one occurrence for the other. */
  lemma SwapAt<T>(s: seq<T>, i: nat, j: nat, x: T)
    requires i < |s| && j < |s| && i != j
    ensures multiset(s[i := s[j]][j := x]) == multiset(s[i := x])
  {
    var t := s[i := x];
    var u := s[i := s[j]][j := x];
    assert u == t[i := t[j]][j := t[i]];
    assert multiset(u) == multiset(t);
  }

  class MinPriorityQueue<T(!new)> {
    const compare: (T, T) -> int
    var values: seq<T>

    ghost predicate Valid()
      reads this
    {
      TotalPreorder(compare) && Heap(compare, values)
    }

    constructor (compare: (T, T) -> int)
      requires TotalPreorder(compare)
      ensures Valid() && values == [] && this.compare == compare
    {
      this.compare := compare;
      values := [];
    }

    /** Adds one occurrence of `value` and nothing else. */
    method Push(value: T)
      requires Valid()
      modifies this`values
      ensures Valid()
      ensures multiset(values) == old(multiset(values)) + multiset{value}
    {
      var index := |values|;
      values := values + [value];
      ghost var bag := multiset(values);
      assert values[index := value] == values;
      while index > 0
        invariant index < |values|
        invariant multiset(values[index := value]) == bag
        invariant HeapExcept(compare, values[index := value], index)
        invariant Bridged(compare, values[index := value], index)
      {
        var parent := (index - 1) / 2;
        var parentValue := values[parent];
        if compare(parentValue, value) <= 0 { break; }
        ghost var before := values[index := value];
        SwapAt(values, index, parent, value);
        values := values[index := parentValue];
        ghost var after := values[parent := value];
        SiftUpStep(compare, before, after, index, value);
        index := parent;
      }
      values := values[index := value];
    }

    /** Removes and returns a least element, or returns nothing from an empty queue. */
    method Pop() returns (least: Option<T>)
      requires Valid()
      modifies this`values
      ensures Valid()
      ensures least.None? <==> old(values) == []
      ensures least.None? ==> values == []
      ensures least.Some? ==> least.value in old(values)
      ensures least.Some? ==> multiset(values) + multiset{least.value} == old(multiset(values))
      ensures least.Some? ==> forall x :: x in old(values) ==> compare(least.value, x) <= 0
    {
      if values == [] { return None; }
      var first := values[0];
      var last := values[|values| - 1];
      RootIsLeastOfAll(compare, values);
      RootReplaced(values);
      values := values[..|values| - 1];
      least := Some(first);
      if values == [] { return; }
      ghost var shortened := values;
      assert HeapAbove(compare, values[0 := last], 0);
      SiftDown(last);
      assert multiset(values) == multiset(shortened[0 := last]);
    }

    /** The descent of `Pop`: moves a hole from the root to where `last` belongs. */
    method SiftDown(last: T)
      requires TotalPreorder(compare) && values != [] && HeapAbove(compare, values[0 := last], 0)
      modifies this`values
      ensures Valid()
      ensures multiset(values) == multiset(old(values)[0 := last])
    {
      hide HeapAbove, Heap, HeapExcept, TotalPreorder;
      ghost var bag := multiset(values[0 := last]);
      var index := 0;
      while true
        invariant index < |values|
        invariant multiset(values[index := last]) == bag
        invariant HeapAbove(compare, values[index := last], index)
        invariant Bridged(compare, values[index := last], index)
        decreases |values| - index
      {
        var left := index * 2 + 1;
        if left >= |values| {
          SiftDownStop(compare, values[index := last], index);
          break;
        }
        var right := left + 1;
        var child := if right < |values| && compare(values[right], values[left]) < 0 then right else left;
        SmallerChild(compare, values[index := last], index, child);
        if compare(last, values[child]) <= 0 {
          SiftDownEnough(compare, values[index := last], index, child);
          break;
        }
        SwapAt(values, index, child, last);
        SiftDownStep(compare, values[index := last], values[index := values[child]][child := last], index, child, last);
        values := values[index := values[child]];
        index := child;
      }
      values := values[index := last];
    }
  }

  lemma SiftUpStep<T(!new)>(cmp: (T, T) -> int, before: seq<T>, after: seq<T>, index: nat, value: T)
    requires TotalPreorder(cmp)
    requires 0 < index < |before| == |after| && before[index] == value
    requires after == before[index := before[Parent(index)]][Parent(index) := value]
    requires cmp(before[Parent(index)], value) > 0
    requires HeapExcept(cmp, before, index) && Bridged(cmp, before, index)
    ensures HeapExcept(cmp, after, Parent(index)) && Bridged(cmp, after, Parent(index))
  {
    var parent := Parent(index);
    forall i | 0 < i < |after| && i != parent
      ensures cmp(after[Parent(i)], after[i]) <= 0
    {
      if i == index {
      } else if Parent(i) == index {
        assert cmp(before[parent], before[i]) <= 0;
      } else if Parent(i) == parent {
        assert cmp(before[parent], before[i]) <= 0;
        Transitive(cmp, value, before[parent], before[i]);
      } else {
        assert cmp(before[Parent(i)], before[i]) <= 0;
      }
    }
    forall i | 0 < i < |after| && Parent(i) == parent && parent > 0
      ensures cmp(after[Parent(parent)], after[i]) <= 0
    {
      assert cmp(before[Parent(parent)], before[parent]) <= 0;
      if i != index {
        Transitive(cmp, before[Parent(parent)], before[parent], before[i]);
      }
    }
  }

  lemma SmallerChild<T(!new)>(cmp: (T, T) -> int, s: seq<T>, index: nat, child: nat)
    requires TotalPreorder(cmp) && 2 * index + 1 < |s|
    requires child == if 2 * index + 2 < |s| && cmp(s[2 * index + 2], s[2 * index + 1]) < 0 then 2 * index + 2 else 2 * index + 1
    ensures Parent(child) == index
    ensures forall i {:trigger Parent(i)} :: 0 < i < |s| && Parent(i) == index ==> cmp(s[child], s[i]) <= 0
  {
    assert cmp(s[child], s[child]) <= 0;
    forall i | 0 < i < |s| && Parent(i) == index
      ensures cmp(s[child], s[i]) <= 0
    {
      assert i == 2 * index + 1 || i == 2 * index + 2;
    }
  }

  lemma SiftDownStop<T(!new)>(cmp: (T, T) -> int, s: seq<T>, index: nat)
    requires HeapAbove(cmp, s, index) && 2 * index + 1 >= |s|
    ensures Heap(cmp, s)
  {
    forall i | 0 < i < |s|
      ensures cmp(s[Parent(i)], s[i]) <= 0
    {
      assert Parent(i) != index;
    }
  }

  lemma SiftDownEnough<T(!new)>(cmp: (T, T) -> int, s: seq<T>, index: nat, child: nat)
    requires TotalPreorder(cmp) && HeapAbove(cmp, s, index) && index < |s| && child < |s|
    requires forall i {:trigger Parent(i)} :: 0 < i < |s| && Parent(i) == index ==> cmp(s[child], s[i]) <= 0
    requires cmp(s[index], s[child]) <= 0
    ensures Heap(cmp, s)
  {
    forall i | 0 < i < |s|
      ensures cmp(s[Parent(i)], s[i]) <= 0
    {
      if Parent(i) == index { Transitive(cmp, s[index], s[child], s[i]); }
    }
  }

  lemma SiftDownStep<T(!new)>(cmp: (T, T) -> int, before: seq<T>, after: seq<T>, index: nat, child: nat, last: T)
    requires TotalPreorder(cmp)
    requires index < child < |before| == |after| && Parent(child) == index && before[index] == last
    requires after == before[index := before[child]][child := last]
    requires forall i :: 0 < i < |before| && Parent(i) == index ==> cmp(before[child], before[i]) <= 0
    requires cmp(last, before[child]) > 0
    requires HeapAbove(cmp, before, index) && Bridged(cmp, before, index)
    ensures HeapAbove(cmp, after, child) && Bridged(cmp, after, child)
  {
    forall i | 0 < i < |after| && Parent(i) != child
      ensures cmp(after[Parent(i)], after[i]) <= 0
    {
      if Parent(i) == index {
        assert cmp(before[child], before[i]) <= 0;
      } else if i == index {
        assert cmp(before[Parent(index)], before[child]) <= 0;
      } else {
        assert cmp(before[Parent(i)], before[i]) <= 0;
      }
    }
    forall i | 0 < i < |after| && Parent(i) == child
      ensures cmp(after[Parent(child)], after[i]) <= 0
    {
      assert cmp(before[Parent(i)], before[i]) <= 0;
    }
  }
}
