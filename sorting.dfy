/**
 * `Array.prototype.sort(cmp)`, which JavaScript requires to be stable.
 * A comparator answers a number; `cmp(a, b) <= 0` means `a` may stay in
 * front of `b`. The stable result of sorting is specified by insertion
 * sort as a function, and the in-place method is proved to compute it.
 */
module Sorting {
  import opened Seqs

  /** The comparator is consistent: total and transitive on "may precede". */
  ghost predicate Comparator<T(!new)>(cmp: (T, T) -> int) {
    && (forall a, b :: cmp(a, b) <= 0 || cmp(b, a) <= 0)
    && (forall a, b, c :: cmp(a, b) <= 0 && cmp(b, c) <= 0 ==> cmp(a, c) <= 0)
  }

  /** Every element may precede every later one. */
  ghost predicate Sorted<T>(s: seq<T>, cmp: (T, T) -> int) {
    forall i, j :: 0 <= i < j < |s| ==> cmp(s[i], s[j]) <= 0
  }

  /** Places `x` after every element that may precede it (the stable position). */
  function Insert<T>(s: seq<T>, x: T, cmp: (T, T) -> int): (r: seq<T>)
    ensures |r| == |s| + 1
  {
    if s == [] then [x]
    else if cmp(s[|s| - 1], x) <= 0 then s + [x]
    else Insert(s[..|s| - 1], x, cmp) + [s[|s| - 1]]
  }

  function InsertionSort<T>(s: seq<T>, cmp: (T, T) -> int): (r: seq<T>)
    ensures |r| == |s|
  {
    if s == [] then [] else Insert(InsertionSort(s[..|s| - 1], cmp), s[|s| - 1], cmp)
  }

  lemma {:induction false} InsertPermutation<T>(s: seq<T>, x: T, cmp: (T, T) -> int)
    ensures multiset(Insert(s, x, cmp)) == multiset(s) + multiset{x}
  {
    if s != [] && cmp(s[|s| - 1], x) > 0 {
      InsertPermutation(s[..|s| - 1], x, cmp);
      assert s == s[..|s| - 1] + [s[|s| - 1]];
    }
  }

  /** Appending an element every element may precede keeps a sequence sorted. */
  lemma SortedAppend<T>(s: seq<T>, x: T, cmp: (T, T) -> int)
    requires Sorted(s, cmp)
    requires forall i :: 0 <= i < |s| ==> cmp(s[i], x) <= 0
    ensures Sorted(s + [x], cmp)
  {
    var r := s + [x];
    forall i, j | 0 <= i < j < |r| ensures cmp(r[i], r[j]) <= 0 {
      assert r[i] == s[i];
    }
  }

  lemma SortedInit<T>(s: seq<T>, cmp: (T, T) -> int)
    requires Sorted(s, cmp) && s != []
    ensures Sorted(s[..|s| - 1], cmp)
  {
    var init := s[..|s| - 1];
    forall i, j | 0 <= i < j < |init| ensures cmp(init[i], init[j]) <= 0 {
      assert init[i] == s[i] && init[j] == s[j];
    }
  }

  /** If `x` and everything in `s` may precede `b`, so may everything after inserting. */
  lemma {:induction false} InsertBelow<T>(s: seq<T>, x: T, b: T, cmp: (T, T) -> int)
    requires forall i :: 0 <= i < |s| ==> cmp(s[i], b) <= 0
    requires cmp(x, b) <= 0
    ensures forall i :: 0 <= i < |Insert(s, x, cmp)| ==> cmp(Insert(s, x, cmp)[i], b) <= 0
  {
    if s != [] && cmp(s[|s| - 1], x) > 0 {
      var init := s[..|s| - 1];
      InsertBelow(init, x, b, cmp);
      var r := Insert(init, x, cmp) + [s[|s| - 1]];
      assert Insert(s, x, cmp) == r;
      forall i | 0 <= i < |r| ensures cmp(r[i], b) <= 0 {
        if i < |r| - 1 {
          assert r[i] == Insert(init, x, cmp)[i];
        }
      }
    }
  }

  lemma {:induction false} InsertSorted<T(!new)>(s: seq<T>, x: T, cmp: (T, T) -> int)
    requires Comparator(cmp)
    requires Sorted(s, cmp)
    ensures Sorted(Insert(s, x, cmp), cmp)
  {
    if s == [] {
    } else if cmp(s[|s| - 1], x) <= 0 {
      var last := s[|s| - 1];
      forall i | 0 <= i < |s| ensures cmp(s[i], x) <= 0 {
        if i < |s| - 1 {
          assert cmp(s[i], last) <= 0;
        }
      }
      SortedAppend(s, x, cmp);
    } else {
      var init, last := s[..|s| - 1], s[|s| - 1];
      SortedInit(s, cmp);
      InsertSorted(init, x, cmp);
      assert cmp(x, last) <= 0;
      forall i | 0 <= i < |init| ensures cmp(init[i], last) <= 0 {
        assert init[i] == s[i];
      }
      InsertBelow(init, x, last, cmp);
      SortedAppend(Insert(init, x, cmp), last, cmp);
    }
  }

  /** Sorting rearranges: the result is a permutation of the input. */
  lemma {:induction false} SortPermutation<T>(s: seq<T>, cmp: (T, T) -> int)
    ensures multiset(InsertionSort(s, cmp)) == multiset(s)
  {
    if s != [] {
      var init, last := s[..|s| - 1], s[|s| - 1];
      calc {
        multiset(InsertionSort(s, cmp));
        multiset(Insert(InsertionSort(init, cmp), last, cmp));
        { InsertPermutation(InsertionSort(init, cmp), last, cmp); }
        multiset(InsertionSort(init, cmp)) + multiset{last};
        { SortPermutation(init, cmp); }
        multiset(init) + multiset{last};
        multiset(init + [last]);
        { assert s == init + [last]; }
        multiset(s);
      }
    }
  }

  /** Sorting with a consistent comparator orders every pair of the result. */
  lemma {:induction false} SortSorted<T(!new)>(s: seq<T>, cmp: (T, T) -> int)
    requires Comparator(cmp)
    ensures Sorted(InsertionSort(s, cmp), cmp)
  {
    if s != [] {
      SortSorted(s[..|s| - 1], cmp);
      InsertSorted(InsertionSort(s[..|s| - 1], cmp), s[|s| - 1], cmp);
    }
  }

  lemma FilterSingle<T>(x: T, p: T -> bool)
    ensures Filter([x], p) == if p(x) then [x] else []
  {
    assert [x][1..] == [];
  }

  /** Elements selected by `tie` may precede each other either way round. */
  ghost predicate TiesInterchangeable<T(!new)>(cmp: (T, T) -> int, tie: T -> bool) {
    forall a, b :: tie(a) && tie(b) ==> cmp(a, b) <= 0
  }

  /** Two elements the comparator puts strictly in order cannot both be ties. */
  lemma TieExclusive<T(!new)>(x: T, last: T, cmp: (T, T) -> int, tie: T -> bool)
    requires TiesInterchangeable(cmp, tie)
    requires cmp(last, x) > 0
    ensures Filter([x], tie) + Filter([last], tie) == Filter([last], tie) + Filter([x], tie)
  {
    FilterSingle(x, tie);
    FilterSingle(last, tie);
    if tie(x) && tie(last) {
      assert false;
    }
  }

  lemma {:induction false} InsertStable<T(!new)>(s: seq<T>, x: T, cmp: (T, T) -> int, tie: T -> bool)
    requires TiesInterchangeable(cmp, tie)
    ensures Filter(Insert(s, x, cmp), tie) == Filter(s, tie) + Filter([x], tie)
  {
    if s == [] {
    } else if cmp(s[|s| - 1], x) <= 0 {
      FilterAppend(s, [x], tie);
    } else {
      var init, last := s[..|s| - 1], s[|s| - 1];
      InsertStable(init, x, cmp, tie);
      FilterAppend(Insert(init, x, cmp), [last], tie);
      assert s == init + [last];
      FilterAppend(init, [last], tie);
      TieExclusive(x, last, cmp, tie);
      calc {
        Filter(Insert(s, x, cmp), tie);
        { assert Insert(s, x, cmp) == Insert(init, x, cmp) + [last]; }
        Filter(Insert(init, x, cmp) + [last], tie);
        Filter(Insert(init, x, cmp), tie) + Filter([last], tie);
        Filter(init, tie) + (Filter([x], tie) + Filter([last], tie));
        Filter(init, tie) + (Filter([last], tie) + Filter([x], tie));
        Filter(s, tie) + Filter([x], tie);
      }
    }
  }

  lemma {:induction false} SortStableTies<T(!new)>(s: seq<T>, cmp: (T, T) -> int, tie: T -> bool)
    requires TiesInterchangeable(cmp, tie)
    ensures Filter(InsertionSort(s, cmp), tie) == Filter(s, tie)
  {
    if s != [] {
      var init, last := s[..|s| - 1], s[|s| - 1];
      SortStableTies(init, cmp, tie);
      InsertStable(InsertionSort(init, cmp), last, cmp, tie);
      assert s == init + [last];
      FilterAppend(init, [last], tie);
      calc {
        Filter(InsertionSort(s, cmp), tie);
        Filter(Insert(InsertionSort(init, cmp), last, cmp), tie);
        Filter(InsertionSort(init, cmp), tie) + Filter([last], tie);
        Filter(init, tie) + Filter([last], tie);
      }
    }
  }

  /**
   * Stability: the elements that tie with any given `k` come out in the
   * order they went in.
   */
  lemma SortStable<T(!new)>(s: seq<T>, cmp: (T, T) -> int, k: T, tie: T -> bool)
    requires Comparator(cmp)
    requires forall y :: tie(y) == (cmp(y, k) <= 0 && cmp(k, y) <= 0)
    ensures Filter(InsertionSort(s, cmp), tie) == Filter(s, tie)
  {
    forall a, b | tie(a) && tie(b) ensures cmp(a, b) <= 0 {
      assert cmp(a, k) <= 0 && cmp(k, b) <= 0;
    }
    SortStableTies(s, cmp, tie);
  }

  /**
   * Where `Insert` puts `x`: after the last element that may precede it, with
   * every later element (each of which must follow `x`) shifted one place on.
   */
  lemma {:induction false} InsertAt<T>(s: seq<T>, j: int, x: T, cmp: (T, T) -> int)
    requires 0 <= j <= |s|
    requires j == 0 || cmp(s[j - 1], x) <= 0
    requires forall k :: j <= k < |s| ==> cmp(s[k], x) > 0
    ensures Insert(s, x, cmp) == s[..j] + [x] + s[j..]
    decreases |s|
  {
    if j < |s| {
      var init, last := s[..|s| - 1], s[|s| - 1];
      assert cmp(last, x) > 0;
      assert Insert(s, x, cmp) == Insert(init, x, cmp) + [last];
      assert j == 0 || init[j - 1] == s[j - 1];
      forall k | j <= k < |init| ensures cmp(init[k], x) > 0 {
        assert init[k] == s[k];
      }
      InsertAt(init, j, x, cmp);
      assert init[..j] == s[..j];
      assert s[j..] == init[j..] + [last];
      calc {
        Insert(s, x, cmp);
        Insert(init, x, cmp) + [last];
        init[..j] + [x] + init[j..] + [last];
        s[..j] + [x] + (init[j..] + [last]);
        s[..j] + [x] + s[j..];
      }
    } else {
      assert s[..j] == s;
    }
  }

  /**
   * The shifting loop of one insertion pass: moves every element of `a[..i]`
   * that must follow `x`, from the right, one place on, and returns the gap.
   */
  method ShiftGreater<T>(a: array<T>, i: int, x: T, cmp: (T, T) -> int, ghost sorted: seq<T>) returns (j: int)
    requires 0 <= i < a.Length && sorted == a[..i]
    modifies a
    ensures 0 <= j <= i
    ensures j == 0 || cmp(sorted[j - 1], x) <= 0
    ensures forall k :: j <= k < i ==> cmp(sorted[k], x) > 0
    ensures forall k :: 0 <= k < j ==> a[k] == sorted[k]
    ensures forall k :: j < k <= i ==> a[k] == sorted[k - 1]
    ensures forall k :: i < k < a.Length ==> a[k] == old(a[k])
  {
    j := i;
    while j > 0 && cmp(a[j - 1], x) > 0
      invariant 0 <= j <= i
      invariant forall k :: j <= k < i ==> cmp(sorted[k], x) > 0
      invariant forall k :: 0 <= k < j ==> a[k] == sorted[k]
      invariant forall k :: j < k <= i ==> a[k] == sorted[k - 1]
      invariant forall k :: i < k < a.Length ==> a[k] == old(a[k])
    {
      a[j] := a[j - 1];
      j := j - 1;
    }
  }

  /** The array after one insertion pass, read back as a sequence. */
  lemma Assemble<T>(r: seq<T>, sorted: seq<T>, x: T, j: int, rest: seq<T>)
    requires 0 <= j <= |sorted| && |r| == |sorted| + 1 + |rest|
    requires forall k :: 0 <= k < j ==> r[k] == sorted[k]
    requires r[j] == x
    requires forall k :: j < k <= |sorted| ==> r[k] == sorted[k - 1]
    requires forall k :: |sorted| < k < |r| ==> r[k] == rest[k - |sorted| - 1]
    ensures r == sorted[..j] + [x] + sorted[j..] + rest
  {
    var t := sorted[..j] + [x] + sorted[j..] + rest;
    forall k | 0 <= k < |r| ensures r[k] == t[k] {
      if k < j {
        assert t[k] == sorted[k];
      } else if k == j {
      } else if k <= |sorted| {
        assert t[k] == sorted[k - 1];
      } else {
        assert t[k] == rest[k - |sorted| - 1];
      }
    }
  }

  /** Shifts `a[i]` left into the sorted prefix `a[..i]`, as one pass of insertion sort. */
  method InsertInPlace<T>(a: array<T>, i: int, cmp: (T, T) -> int)
    requires 0 <= i < a.Length
    modifies a
    ensures a[..] == Insert(old(a[..])[..i], old(a[..])[i], cmp) + old(a[..])[i + 1..]
  {
    ghost var orig := a[..];
    ghost var sorted := orig[..i];
    var x := a[i];
    var j := ShiftGreater(a, i, x, cmp, sorted);
    InsertAt(sorted, j, x, cmp);
    a[j] := x;
    Assemble(a[..], sorted, x, j, orig[i + 1..]);
  }

  /** Sorts `a` in place by insertion; the result is the stable sort of its old contents. */
  method SortInPlace<T>(a: array<T>, cmp: (T, T) -> int)
    modifies a
    ensures a[..] == InsertionSort(old(a[..]), cmp)
  {
    ghost var orig := a[..];
    var i := 0;
    while i < a.Length
      invariant 0 <= i <= a.Length
      invariant a[..] == InsertionSort(orig[..i], cmp) + orig[i..]
    {
      ghost var before := a[..];
      ghost var done := InsertionSort(orig[..i], cmp);
      assert before[..i] == done && before[i] == orig[i] && before[i + 1..] == orig[i + 1..];
      assert orig[..i + 1][..i] == orig[..i];
      InsertInPlace(a, i, cmp);
      i := i + 1;
    }
    assert orig[..a.Length] == orig;
  }
}
