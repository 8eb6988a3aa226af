/** The ordering and lookup toolkit of citybike/algorithms.py: merge sort,
    insertion sort, binary search and linear search. Every algorithm compares
    elements through a key projection `key` (the identity by default in the
    source); keys are integers here. */
module Algorithms {
  import opened Common

  /** The only failure the toolkit raises by itself: `linear_search` reads a
      name that is not defined where it is used. */
  datatype Error = NameError(name: string)

  // ---------------------------------------------------------------------------
  // Ordering vocabulary
  // ---------------------------------------------------------------------------

  /** `s` is non-decreasing by `key`. */
  predicate SortedBy<T>(s: seq<T>, key: T -> int) {
    forall i, j :: 0 <= i < j < |s| ==> key(s[i]) <= key(s[j])
  }

  /** The elements of `s` whose key is `k`, in the order they have in `s`. */
  function WithKey<T>(s: seq<T>, key: T -> int, k: int): seq<T>
    decreases |s|
  {
    if s == [] then []
    else (if key(s[0]) == k then [s[0]] else []) + WithKey(s[1..], key, k)
  }

  /** `r` lists every group of equal-keyed elements of `s` in the order the
      group has in `s`: the defining property of a stable sort. */
  ghost predicate Stable<T>(r: seq<T>, s: seq<T>, key: T -> int) {
    forall k :: WithKey(r, key, k) == WithKey(s, key, k)
  }

  /** `a` occurs in `b` in order, not necessarily contiguously. */
  ghost predicate Subsequence<T>(a: seq<T>, b: seq<T>)
    decreases |b|
  {
    if a == [] then true
    else if b == [] then false
    else (a[0] == b[0] && Subsequence(a[1..], b[1..])) || Subsequence(a, b[1..])
  }

  lemma {:induction false} SubsequenceReflexive<T>(s: seq<T>)
    ensures Subsequence(s, s)
    decreases |s|
  {
    if s != [] {
      SubsequenceReflexive(s[1..]);
    }
  }

  lemma {:induction false} WithKeyAppend<T>(a: seq<T>, b: seq<T>, key: T -> int, k: int)
    ensures WithKey(a + b, key, k) == WithKey(a, key, k) + WithKey(b, key, k)
    decreases |a|
  {
    if a == [] {
      assert a + b == b;
    } else {
      var ab := a + b;
      assert ab[0] == a[0];
      assert ab[1..] == a[1..] + b;
      WithKeyAppend(a[1..], b, key, k);
      var head: seq<T> := if key(a[0]) == k then [a[0]] else [];
      assert WithKey(ab, key, k) == head + WithKey(a[1..] + b, key, k);
      assert WithKey(a, key, k) == head + WithKey(a[1..], key, k);
    }
  }

  /** Cutting a sequence in two splits each of its key groups in two. */
  lemma WithKeySplit<T>(s: seq<T>, m: nat, key: T -> int, k: int)
    requires m <= |s|
    ensures WithKey(s, key, k) == WithKey(s[..m], key, k) + WithKey(s[m..], key, k)
  {
    assert s == s[..m] + s[m..];
    WithKeyAppend(s[..m], s[m..], key, k);
  }

  /** In a sorted sequence no key below the first element's key occurs. */
  lemma {:induction false} SortedHeadBelow<T>(s: seq<T>, key: T -> int, k: int)
    requires SortedBy(s, key) && WithKey(s, key, k) != []
    ensures key(s[0]) <= k
    decreases |s|
  {
    if key(s[0]) != k {
      assert WithKey(s[1..], key, k) != [];
      assert SortedBy(s[1..], key);
      SortedHeadBelow(s[1..], key, k);
    }
  }

  /** In a sorted sequence whose first key is above `k`, no key `k` occurs. */
  lemma {:induction false} SortedAboveAbsent<T>(s: seq<T>, key: T -> int, k: int)
    requires SortedBy(s, key) && s != [] && key(s[0]) > k
    ensures WithKey(s, key, k) == []
    decreases |s|
  {
    assert WithKey(s, key, k) == WithKey(s[1..], key, k);
    if |s| > 1 {
      assert SortedBy(s[1..], key) && key(s[1..][0]) > k;
      SortedAboveAbsent(s[1..], key, k);
    }
  }

  lemma SortedCons<T>(x: T, s: seq<T>, key: T -> int)
    requires SortedBy(s, key)
    requires forall y :: y in s ==> key(x) <= key(y)
    ensures SortedBy([x] + s, key)
  {
    forall i, j | 0 <= i < j < |[x] + s|
      ensures key(([x] + s)[i]) <= key(([x] + s)[j])
    {
      assert ([x] + s)[j] == s[j - 1];
      if i > 0 {
        assert ([x] + s)[i] == s[i - 1];
      }
    }
  }

  lemma SortedSnoc<T>(s: seq<T>, x: T, key: T -> int)
    requires SortedBy(s, key)
    requires forall y :: y in s ==> key(y) <= key(x)
    ensures SortedBy(s + [x], key)
  {
    forall i, j | 0 <= i < j < |s + [x]|
      ensures key((s + [x])[i]) <= key((s + [x])[j])
    {
      assert (s + [x])[i] == s[i];
      if j < |s| {
        assert (s + [x])[j] == s[j];
      } else {
        assert s[i] in s;
      }
    }
  }

  lemma HeadKeyPresent<T>(s: seq<T>, key: T -> int)
    ensures s != [] ==> WithKey(s, key, key(s[0])) != []
  {
  }

  /** Two sorted sequences with the same groups of equal-keyed elements are
      equal: a stable sort of a sequence is uniquely determined. */
  lemma {:induction false} SortedStableUnique<T>(a: seq<T>, b: seq<T>, key: T -> int)
    requires SortedBy(a, key) && SortedBy(b, key)
    requires Stable(a, b, key)
    ensures a == b
    decreases |a|
  {
    if a == [] {
      HeadKeyPresent(b, key);
    } else {
      var k := key(a[0]);
      assert WithKey(a, key, k) == [a[0]] + WithKey(a[1..], key, k);
      assert WithKey(b, key, k) != [];
      assert b != [];
      var kb := key(b[0]);
      assert WithKey(b, key, kb) == [b[0]] + WithKey(b[1..], key, kb);
      SortedHeadBelow(a, key, kb);
      SortedHeadBelow(b, key, k);
      assert a[0] == WithKey(a, key, k)[0] == WithKey(b, key, k)[0] == b[0];
      forall j
        ensures WithKey(a[1..], key, j) == WithKey(b[1..], key, j)
      {
        var head: seq<T> := if k == j then [a[0]] else [];
        assert WithKey(a, key, j) == head + WithKey(a[1..], key, j);
        assert WithKey(b, key, j) == head + WithKey(b[1..], key, j);
        assert WithKey(a[1..], key, j) == WithKey(a, key, j)[|head|..];
        assert WithKey(b[1..], key, j) == WithKey(b, key, j)[|head|..];
      }
      assert SortedBy(a[1..], key) && SortedBy(b[1..], key);
      SortedStableUnique(a[1..], b[1..], key);
      assert a == [a[0]] + a[1..];
      assert b == [b[0]] + b[1..];
    }
  }

  // ---------------------------------------------------------------------------
  // Merge sort
  // ---------------------------------------------------------------------------

  /** What `_merge` computes: repeatedly take the smaller head, the left one
      on a tie, then append what is left of either input. */
  function Merged<T>(left: seq<T>, right: seq<T>, key: T -> int): seq<T>
    decreases |left| + |right|
  {
    if left == [] then right
    else if right == [] then left
    else if key(left[0]) <= key(right[0]) then [left[0]] + Merged(left[1..], right, key)
    else [right[0]] + Merged(left, right[1..], key)
  }

  /** One step of the walk: the merge of the remaining suffixes starts with
      the smaller head, the left one on a tie. */
  lemma MergedStep<T>(left: seq<T>, right: seq<T>, i: nat, j: nat, key: T -> int)
    requires i < |left| && j < |right|
    ensures key(left[i]) <= key(right[j]) ==>
              Merged(left[i..], right[j..], key) == [left[i]] + Merged(left[i + 1..], right[j..], key)
    ensures key(left[i]) > key(right[j]) ==>
              Merged(left[i..], right[j..], key) == [right[j]] + Merged(left[i..], right[j + 1..], key)
  {
    var l, r := left[i..], right[j..];
    assert l[0] == left[i] && r[0] == right[j];
    assert l[1..] == left[i + 1..] && r[1..] == right[j + 1..];
  }

  /** `_merge`: the two-pointer walk that appends to `result`. */
  method Merge<T>(left: seq<T>, right: seq<T>, key: T -> int) returns (result: seq<T>)
    ensures result == Merged(left, right, key)
  {
    result := [];
    var i, j := 0, 0;
    while i < |left| && j < |right|
      invariant 0 <= i <= |left| && 0 <= j <= |right|
      invariant result + Merged(left[i..], right[j..], key) == Merged(left, right, key)
      decreases |left| - i + |right| - j
    {
      MergedStep(left, right, i, j, key);
      if key(left[i]) <= key(right[j]) {
        ghost var rest := Merged(left[i + 1..], right[j..], key);
        assert result + ([left[i]] + rest) == (result + [left[i]]) + rest;
        result := result + [left[i]];
        i := i + 1;
      } else {
        ghost var rest := Merged(left[i..], right[j + 1..], key);
        assert result + ([right[j]] + rest) == (result + [right[j]]) + rest;
        result := result + [right[j]];
        j := j + 1;
      }
    }
    assert Merged(left[i..], right[j..], key) == left[i..] + right[j..];
    result := result + left[i..];
    result := result + right[j..];
  }

  /** Dropping the first element removes exactly it from the multiset. */
  lemma MultisetFirst<T>(s: seq<T>)
    requires s != []
    ensures multiset(s) == multiset{s[0]} + multiset(s[1..])
  {
    assert s == [s[0]] + s[1..];
  }

  lemma {:induction false} MergedPermutation<T>(left: seq<T>, right: seq<T>, key: T -> int)
    ensures |Merged(left, right, key)| == |left| + |right|
    ensures multiset(Merged(left, right, key)) == multiset(left) + multiset(right)
    decreases |left| + |right|
  {
    if left != [] && right != [] {
      if key(left[0]) <= key(right[0]) {
        var rest := Merged(left[1..], right, key);
        assert Merged(left, right, key) == [left[0]] + rest;
        MergedPermutation(left[1..], right, key);
        MultisetFirst(left);
      } else {
        var rest := Merged(left, right[1..], key);
        assert Merged(left, right, key) == [right[0]] + rest;
        MergedPermutation(left, right[1..], key);
        MultisetFirst(right);
      }
    }
  }

  lemma {:induction false} MergedSorted<T>(left: seq<T>, right: seq<T>, key: T -> int)
    requires SortedBy(left, key) && SortedBy(right, key)
    ensures SortedBy(Merged(left, right, key), key)
    decreases |left| + |right|
  {
    if left != [] && right != [] {
      if key(left[0]) <= key(right[0]) {
        var rest := Merged(left[1..], right, key);
        assert SortedBy(left[1..], key);
        MergedSorted(left[1..], right, key);
        MergedPermutation(left[1..], right, key);
        forall y | y in rest
          ensures key(left[0]) <= key(y)
        {
          assert y in multiset(rest);
          if y in left[1..] {
            var n :| 0 <= n < |left[1..]| && left[1..][n] == y;
            assert y == left[n + 1];
          } else {
            assert y in multiset(right);
            var n :| 0 <= n < |right| && right[n] == y;
          }
        }
        SortedCons(left[0], rest, key);
      } else {
        var rest := Merged(left, right[1..], key);
        assert SortedBy(right[1..], key);
        MergedSorted(left, right[1..], key);
        MergedPermutation(left, right[1..], key);
        forall y | y in rest
          ensures key(right[0]) <= key(y)
        {
          assert y in multiset(rest);
          if y in right[1..] {
            var n :| 0 <= n < |right[1..]| && right[1..][n] == y;
            assert y == right[n + 1];
          } else {
            assert y in multiset(left);
            var n :| 0 <= n < |left| && left[n] == y;
          }
        }
        SortedCons(right[0], rest, key);
      }
    }
  }

  /** The tie-break `<=` takes the left element first, so the equal-keyed
      elements of the left input come before those of the right input. */
  lemma {:induction false} MergedWithKey<T>(left: seq<T>, right: seq<T>, key: T -> int, k: int)
    requires SortedBy(left, key)
    ensures WithKey(Merged(left, right, key), key, k) == WithKey(left, key, k) + WithKey(right, key, k)
    decreases |left| + |right|
  {
    if left == [] || right == [] {
    } else if key(left[0]) <= key(right[0]) {
      var rest := Merged(left[1..], right, key);
      assert Merged(left, right, key) == [left[0]] + rest;
      assert SortedBy(left[1..], key);
      MergedWithKey(left[1..], right, key, k);
      WithKeyAppend([left[0]], rest, key, k);
      WithKeyAppend([left[0]], left[1..], key, k);
      assert [left[0]] + left[1..] == left;
    } else {
      var rest := Merged(left, right[1..], key);
      assert Merged(left, right, key) == [right[0]] + rest;
      MergedWithKey(left, right[1..], key, k);
      WithKeyAppend([right[0]], rest, key, k);
      WithKeyAppend([right[0]], right[1..], key, k);
      assert [right[0]] + right[1..] == right;
      if key(right[0]) == k {
        SortedAboveAbsent(left, key, k);
      } else {
        assert WithKey([right[0]], key, k) == [];
      }
    }
  }

  /** Each input keeps its own order inside the merged list. */
  lemma {:induction false} MergedKeepsOrder<T>(left: seq<T>, right: seq<T>, key: T -> int)
    ensures Subsequence(left, Merged(left, right, key))
    ensures Subsequence(right, Merged(left, right, key))
    decreases |left| + |right|
  {
    if left == [] {
      SubsequenceReflexive(right);
    } else if right == [] {
      SubsequenceReflexive(left);
    } else if key(left[0]) <= key(right[0]) {
      var rest := Merged(left[1..], right, key);
      MergedKeepsOrder(left[1..], right, key);
      assert ([left[0]] + rest)[1..] == rest;
    } else {
      var rest := Merged(left, right[1..], key);
      MergedKeepsOrder(left, right[1..], key);
      assert ([right[0]] + rest)[1..] == rest;
    }
  }

  /** What `merge_sort` computes: a copy for length at most one, otherwise
      the merge of the sorted halves split at `len // 2`. */
  function MergeSorted<T>(s: seq<T>, key: T -> int): seq<T>
    decreases |s|
  {
    if |s| <= 1 then s
    else Merged(MergeSorted(s[..|s| / 2], key), MergeSorted(s[|s| / 2..], key), key)
  }

  /** `merge_sort`. Sequences are values, so the caller's `data` is never
      modified. */
  method MergeSort<T>(data: seq<T>, key: T -> int) returns (r: seq<T>)
    ensures r == MergeSorted(data, key)
    ensures |data| <= 1 ==> r == data
    decreases |data|
  {
    if |data| <= 1 {
      return data;
    }
    var mid := |data| / 2;
    var left := MergeSort(data[..mid], key);
    var right := MergeSort(data[mid..], key);
    r := Merge(left, right, key);
  }

  /** Cutting a sequence in two splits its multiset in two. */
  lemma MultisetSplit<T>(s: seq<T>, m: nat)
    requires m <= |s|
    ensures multiset(s) == multiset(s[..m]) + multiset(s[m..])
  {
    assert s == s[..m] + s[m..];
  }

  /** Dropping the last element removes exactly it from the multiset. */
  lemma MultisetLast<T>(s: seq<T>)
    requires s != []
    ensures multiset(s) == multiset(s[..|s| - 1]) + multiset{s[|s| - 1]}
  {
    assert s == s[..|s| - 1] + [s[|s| - 1]];
  }

  lemma {:induction false} MergeSortedPermutation<T>(s: seq<T>, key: T -> int)
    ensures |MergeSorted(s, key)| == |s|
    ensures multiset(MergeSorted(s, key)) == multiset(s)
    decreases |s|
  {
    if |s| > 1 {
      var mid := |s| / 2;
      var front, back := s[..mid], s[mid..];
      var left, right := MergeSorted(front, key), MergeSorted(back, key);
      assert MergeSorted(s, key) == Merged(left, right, key);
      MergeSortedPermutation(front, key);
      MergeSortedPermutation(back, key);
      MergedPermutation(left, right, key);
      MultisetSplit(s, mid);
    }
  }

  lemma {:induction false} MergeSortedSorted<T>(s: seq<T>, key: T -> int)
    ensures SortedBy(MergeSorted(s, key), key)
    decreases |s|
  {
    if |s| > 1 {
      var mid := |s| / 2;
      MergeSortedSorted(s[..mid], key);
      MergeSortedSorted(s[mid..], key);
      MergedSorted(MergeSorted(s[..mid], key), MergeSorted(s[mid..], key), key);
    }
  }

  lemma {:induction false} MergeSortedStable<T>(s: seq<T>, key: T -> int)
    ensures Stable(MergeSorted(s, key), s, key)
    decreases |s|
  {
    if |s| > 1 {
      var mid := |s| / 2;
      var left, right := MergeSorted(s[..mid], key), MergeSorted(s[mid..], key);
      MergeSortedStable(s[..mid], key);
      MergeSortedStable(s[mid..], key);
      MergeSortedSorted(s[..mid], key);
      forall k
        ensures WithKey(MergeSorted(s, key), key, k) == WithKey(s, key, k)
      {
        MergedWithKey(left, right, key, k);
        WithKeySplit(s, mid, key, k);
      }
    }
  }

  /** Merge sort leaves an already sorted sequence as it is. */
  lemma MergeSortedOfSorted<T>(s: seq<T>, key: T -> int)
    requires SortedBy(s, key)
    ensures MergeSorted(s, key) == s
  {
    MergeSortedSorted(s, key);
    MergeSortedStable(s, key);
    SortedStableUnique(MergeSorted(s, key), s, key);
  }

  // ---------------------------------------------------------------------------
  // Insertion sort
  // ---------------------------------------------------------------------------

  /** Insert `x` after the longest prefix of `s` whose last key is not above
      `key(x)`: the elements shifted right are exactly the trailing ones with
      a strictly greater key. */
  function Inserted<T>(s: seq<T>, x: T, key: T -> int): seq<T>
    decreases |s|
  {
    if s == [] || key(s[|s| - 1]) <= key(x) then s + [x]
    else Inserted(s[..|s| - 1], x, key) + [s[|s| - 1]]
  }

  /** What `insertion_sort` computes: after step i the prefix of length i + 1
      is the previous prefix with element i inserted. */
  function InsertionSorted<T>(s: seq<T>, key: T -> int): seq<T>
    decreases |s|
  {
    if s == [] then []
    else Inserted(InsertionSorted(s[..|s| - 1], key), s[|s| - 1], key)
  }

  /** Inserting `x` into `p` places it after the longest suffix of `p`
      whose keys are all above `key(x)`. */
  lemma {:induction false} InsertedAt<T>(p: seq<T>, m: nat, x: T, key: T -> int)
    requires m <= |p|
    requires m == 0 || key(p[m - 1]) <= key(x)
    requires forall t :: m <= t < |p| ==> key(p[t]) > key(x)
    ensures Inserted(p, x, key) == p[..m] + [x] + p[m..]
    decreases |p|
  {
    if m == |p| {
      assert p[..m] == p && p[m..] == [];
    } else {
      var init, last := p[..|p| - 1], p[|p| - 1];
      InsertedAt(init, m, x, key);
      assert init[..m] == p[..m];
      assert init[m..] + [last] == p[m..];
    }
  }

  /** A sequence that agrees with `p` before `m`, holds `x` at `m` and agrees
      with `p` shifted by one after `m` is `p` with `x` spliced in at `m`. */
  lemma SplicedAt<T>(s: seq<T>, p: seq<T>, m: nat, x: T)
    requires m <= |p| && |s| == |p| + 1
    requires forall t :: 0 <= t < m ==> s[t] == p[t]
    requires s[m] == x
    requires forall t :: m < t < |s| ==> s[t] == p[t - 1]
    ensures s == p[..m] + [x] + p[m..]
  {
    var spliced := p[..m] + [x] + p[m..];
    forall t | m < t < |s|
      ensures s[t] == spliced[t]
    {
      assert spliced[t] == p[m..][t - m - 1];
    }
  }

  method ShiftInsert<T>(a: array<T>, i: nat, key: T -> int)
    requires i < a.Length
    modifies a
    ensures a[..i + 1] == Inserted(old(a[..i]), old(a[i]), key)
    ensures a[i + 1..] == old(a[i + 1..])
  {
    var current := a[i];
    ghost var prefix := a[..i];
    var j := i - 1;
    while j >= 0 && key(a[j]) > key(current)
      invariant -1 <= j < i
      invariant forall t :: 0 <= t <= j ==> a[t] == prefix[t]
      invariant forall t :: j + 2 <= t <= i ==> a[t] == prefix[t - 1]
      invariant forall t :: i < t < a.Length ==> a[t] == old(a[t])
      invariant forall t :: j < t < i ==> key(prefix[t]) > key(current)
      decreases j
    {
      a[j + 1] := a[j];
      j := j - 1;
    }
    a[j + 1] := current;
    InsertedAt(prefix, j + 1, current, key);
    SplicedAt(a[..i + 1], prefix, j + 1, current);
  }

  /** `insertion_sort`: copy `data` into `a`, then insert each element in
      place into the sorted prefix before it. */
  method InsertionSort<T>(data: seq<T>, key: T -> int) returns (r: seq<T>)
    ensures r == InsertionSorted(data, key)
  {
    var a := new T[|data|](n requires 0 <= n < |data| => data[n]);
    assert a[..] == data;
    if a.Length > 0 {
      assert a[..1] == [data[0]] == InsertionSorted(data[..1], key);
    }
    var i := 1;
    while i < a.Length
      invariant a.Length == |data|
      invariant 1 <= i
      invariant a.Length > 0 ==> i <= a.Length && a[..i] == InsertionSorted(data[..i], key)
      invariant a.Length > 0 ==> a[i..] == data[i..]
      invariant a.Length == 0 ==> a[..] == data
    {
      assert a[i] == data[i];
      assert a[i + 1..] == data[i + 1..];
      ShiftInsert(a, i, key);
      assert data[..i + 1][..i] == data[..i];
      i := i + 1;
    }
    r := a[..];
    if a.Length > 0 {
      assert a[..] == a[..i];
      assert data[..i] == data;
    }
  }

  lemma {:induction false} InsertedPermutation<T>(s: seq<T>, x: T, key: T -> int)
    ensures |Inserted(s, x, key)| == |s| + 1
    ensures multiset(Inserted(s, x, key)) == multiset(s) + multiset{x}
    decreases |s|
  {
    if s != [] && key(s[|s| - 1]) > key(x) {
      InsertedPermutation(s[..|s| - 1], x, key);
      MultisetLast(s);
    }
  }

  lemma {:induction false} InsertedSorted<T>(s: seq<T>, x: T, key: T -> int)
    requires SortedBy(s, key)
    ensures SortedBy(Inserted(s, x, key), key)
    decreases |s|
  {
    if s == [] {
    } else if key(s[|s| - 1]) <= key(x) {
      forall y | y in s
        ensures key(y) <= key(x)
      {
        var n :| 0 <= n < |s| && s[n] == y;
      }
      SortedSnoc(s, x, key);
    } else {
      var init, last := s[..|s| - 1], s[|s| - 1];
      assert SortedBy(init, key);
      InsertedSorted(init, x, key);
      InsertedPermutation(init, x, key);
      forall y | y in Inserted(init, x, key)
        ensures key(y) <= key(last)
      {
        assert y in multiset(Inserted(init, x, key));
        if y != x {
          assert y in multiset(init);
          var n :| 0 <= n < |init| && init[n] == y;
          assert y == s[n];
        }
      }
      SortedSnoc(Inserted(init, x, key), last, key);
    }
  }

  /** The shift test is strict, so `x` is never moved past an element with
      the same key: it joins its key group at the end. */
  lemma {:induction false} InsertedWithKey<T>(s: seq<T>, x: T, key: T -> int, k: int)
    ensures WithKey(Inserted(s, x, key), key, k) == WithKey(s, key, k) + WithKey([x], key, k)
    decreases |s|
  {
    if s == [] || key(s[|s| - 1]) <= key(x) {
      WithKeyAppend(s, [x], key, k);
    } else {
      var init, last := s[..|s| - 1], s[|s| - 1];
      InsertedWithKey(init, x, key, k);
      WithKeyAppend(Inserted(init, x, key), [last], key, k);
      WithKeySplit(s, |s| - 1, key, k);
      assert s[|s| - 1..] == [last];
      assert WithKey([x], key, k) == [] || WithKey([last], key, k) == [];
    }
  }

  lemma {:induction false} InsertionSortedPermutation<T>(s: seq<T>, key: T -> int)
    ensures |InsertionSorted(s, key)| == |s|
    ensures multiset(InsertionSorted(s, key)) == multiset(s)
    decreases |s|
  {
    if s != [] {
      var init, last := s[..|s| - 1], s[|s| - 1];
      InsertionSortedPermutation(init, key);
      InsertedPermutation(InsertionSorted(init, key), last, key);
      MultisetLast(s);
    }
  }

  lemma {:induction false} InsertionSortedSorted<T>(s: seq<T>, key: T -> int)
    ensures SortedBy(InsertionSorted(s, key), key)
    decreases |s|
  {
    if s != [] {
      var init, last := s[..|s| - 1], s[|s| - 1];
      InsertionSortedSorted(init, key);
      InsertedSorted(InsertionSorted(init, key), last, key);
    }
  }

  lemma {:induction false} InsertionSortedStable<T>(s: seq<T>, key: T -> int)
    ensures Stable(InsertionSorted(s, key), s, key)
    decreases |s|
  {
    if s != [] {
      var init, last := s[..|s| - 1], s[|s| - 1];
      InsertionSortedStable(init, key);
      assert s[|s| - 1..] == [last];
      forall k
        ensures WithKey(InsertionSorted(s, key), key, k) == WithKey(s, key, k)
      {
        InsertedWithKey(InsertionSorted(init, key), last, key, k);
        WithKeySplit(s, |s| - 1, key, k);
      }
    }
  }

  /** Insertion sort leaves an already sorted sequence as it is. */
  lemma InsertionSortedOfSorted<T>(s: seq<T>, key: T -> int)
    requires SortedBy(s, key)
    ensures InsertionSorted(s, key) == s
  {
    InsertionSortedSorted(s, key);
    InsertionSortedStable(s, key);
    SortedStableUnique(InsertionSorted(s, key), s, key);
  }

  /** The two sorts return the same sequence on every input. */
  lemma SortsAgree<T>(s: seq<T>, key: T -> int)
    ensures InsertionSorted(s, key) == MergeSorted(s, key)
  {
    InsertionSortedSorted(s, key);
    InsertionSortedStable(s, key);
    MergeSortedSorted(s, key);
    MergeSortedStable(s, key);
    SortedStableUnique(InsertionSorted(s, key), MergeSorted(s, key), key);
  }

  // ---------------------------------------------------------------------------
  // Searching
  // ---------------------------------------------------------------------------

  /** `binary_search`. Sortedness is the caller's obligation and is not
      checked: on any input a returned index holds the target key, and on
      sorted input `None` means the key does not occur. */
  method BinarySearch<T>(sortedData: seq<T>, target: int, key: T -> int) returns (r: Option<nat>)
    ensures r.Some? ==> r.value < |sortedData| && key(sortedData[r.value]) == target
    ensures SortedBy(sortedData, key) && r.None? ==>
              forall n :: 0 <= n < |sortedData| ==> key(sortedData[n]) != target
  {
    var low, high := 0, |sortedData| - 1;
    while low <= high
      invariant 0 <= low <= high + 1 <= |sortedData|
      invariant SortedBy(sortedData, key) ==>
                  forall n :: 0 <= n < |sortedData| && key(sortedData[n]) == target ==> low <= n <= high
      decreases high - low
    {
      var mid := (low + high) / 2;
      var midVal := key(sortedData[mid]);
      if midVal == target {
        return Some(mid);
      } else if midVal < target {
        low := mid + 1;
      } else {
        high := mid - 1;
      }
    }
    return None;
  }

  /** `linear_search` as written: the bisection body indexes `sorted_data`,
      a name that does not exist in the function, so the first loop
      iteration raises; only the empty list, which skips the loop, returns. */
  method LinearSearch<T>(data: seq<T>, target: int, key: T -> int) returns (r: Result<Option<nat>, Error>)
    ensures data == [] ==> r == Success(None)
    ensures data != [] ==> r == Failure(NameError("sorted_data"))
  {
    var low, high := 0, |data| - 1;
    // The loop never completes an iteration, so it is written as an `if`.
    if low <= high {
      return Failure(NameError("sorted_data"));
    }
    return Success(None);
  }

  /** The sequential first-match scan that the name and comment of
      `linear_search` describe. */
  function FirstIndexOf<T>(data: seq<T>, target: int, key: T -> int): (r: Option<nat>)
    ensures r.Some? ==> r.value < |data| && key(data[r.value]) == target
    ensures r.Some? ==> forall n :: 0 <= n < r.value ==> key(data[n]) != target
    ensures r.None? ==> forall n :: 0 <= n < |data| ==> key(data[n]) != target
    decreases |data|
  {
    if data == [] then None
    else if key(data[0]) == target then Some(0)
    else match FirstIndexOf(data[1..], target, key)
      case None => None
      case Some(n) => Some(n + 1)
  }

  /** On [5, 3, 3, 7] the intended scan finds the first 3 at index 1, where
      `LinearSearch` raises. */
  lemma LinearSearchExample()
    ensures FirstIndexOf([5, 3, 3, 7], 3, (x: int) => x) == Some(1)
  {
    var s := [5, 3, 3, 7];
    assert s[1..] == [3, 3, 7];
  }
}
