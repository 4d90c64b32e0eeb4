/** Stable top-down merge sort over a sequence of records, ordered by an
    integer key chosen by the caller (the `key_column` of the source's
    MergeSort class becomes a selector function `key`). */
module StableSort {

  /** The keys of `s` never decrease from left to right. */
  predicate SortedBy<T>(s: seq<T>, key: T -> int)
  {
    forall i, j :: 0 <= i < j < |s| ==> key(s[i]) <= key(s[j])
  }

  /** The records of `s` whose key is `k`, in their order in `s`.
      A sort is stable exactly when it leaves this sub-sequence unchanged
      for every key. */
  function WithKey<T>(s: seq<T>, key: T -> int, k: int): seq<T>
  {
    if s == [] then []
    else (if key(s[0]) == k then [s[0]] else []) + WithKey(s[1..], key, k)
  }

  /** Merging takes the left head whenever its key is `<=` the right head's:
      on a tie the left record goes first. */
  function Merged<T>(left: seq<T>, right: seq<T>, key: T -> int): (r: seq<T>)
    ensures |r| == |left| + |right|
    decreases |left| + |right|
  {
    if left == [] then right
    else if right == [] then left
    else if key(left[0]) <= key(right[0]) then [left[0]] + Merged(left[1..], right, key)
    else [right[0]] + Merged(left, right[1..], key)
  }

  /** The result of the recursive sort: split at `|s| / 2`, sort both halves,
      merge. Sequences of length at most one are returned as they are. */
  function MergeSorted<T>(s: seq<T>, key: T -> int): seq<T>
    decreases |s|
  {
    if |s| <= 1 then s
    else
      var mid := |s| / 2;
      Merged(MergeSorted(s[..mid], key), MergeSorted(s[mid..], key), key)
  }

  /** The merge loop: walk both inputs with indices `i` and `j`, append the
      smaller-or-equal head, then append what is left of either input. */
  method Merge<T>(left: seq<T>, right: seq<T>, key: T -> int) returns (sortedList: seq<T>)
    ensures sortedList == Merged(left, right, key)
  {
    sortedList := [];
    var i, j := 0, 0;
    while i < |left| && j < |right|
      invariant 0 <= i <= |left| && 0 <= j <= |right|
      invariant sortedList + Merged(left[i..], right[j..], key) == Merged(left, right, key)
      decreases |left| - i + |right| - j
    {
      ghost var done := sortedList;
      assert left[i..] == [left[i]] + left[i + 1..];
      assert right[j..] == [right[j]] + right[j + 1..];
      if key(left[i]) <= key(right[j]) {
        ghost var rest := Merged(left[i + 1..], right[j..], key);
        assert Merged(left[i..], right[j..], key) == [left[i]] + rest;
        sortedList := sortedList + [left[i]];
        i := i + 1;
        assert done + ([left[i - 1]] + rest) == sortedList + rest;
      } else {
        ghost var rest := Merged(left[i..], right[j + 1..], key);
        assert Merged(left[i..], right[j..], key) == [right[j]] + rest;
        sortedList := sortedList + [right[j]];
        j := j + 1;
        assert done + ([right[j - 1]] + rest) == sortedList + rest;
      }
    }
    if i == |left| {
      assert left[i..] == [] && Merged(left[i..], right[j..], key) == right[j..];
    } else {
      assert right[j..] == [] && Merged(left[i..], right[j..], key) == left[i..];
    }
    sortedList := sortedList + left[i..];
    sortedList := sortedList + right[j..];
  }

  /** The recursive sort. Its result is sorted by key, is a permutation of
      the input, keeps the input order among records with equal keys, and
      is the input itself when the input has at most one record. */
  method MergeSort<T>(arr: seq<T>, key: T -> int) returns (r: seq<T>)
    ensures r == MergeSorted(arr, key)
    ensures |r| == |arr| && multiset(r) == multiset(arr)
    ensures SortedBy(r, key)
    ensures forall k :: WithKey(r, key, k) == WithKey(arr, key, k)
    ensures |arr| <= 1 ==> r == arr
    decreases |arr|
  {
    if |arr| <= 1 {
      return arr;
    }
    var mid := |arr| / 2;
    var leftSorted := MergeSort(arr[..mid], key);
    var rightSorted := MergeSort(arr[mid..], key);
    r := Merge(leftSorted, rightSorted, key);
    MergeSortedPermutation(arr, key);
    MergeSortedSorted(arr, key);
    MergeSortedStable(arr, key);
  }

  // ---------------------------------------------------------------------
  // Properties of the merge

  lemma {:induction false} WithKeyAppend<T>(a: seq<T>, b: seq<T>, key: T -> int, k: int)
    ensures WithKey(a + b, key, k) == WithKey(a, key, k) + WithKey(b, key, k)
  {
    if a == [] {
      assert a + b == b;
    } else {
      var head := if key(a[0]) == k then [a[0]] else [];
      assert (a + b)[0] == a[0] && (a + b)[1..] == a[1..] + b;
      assert WithKey(a + b, key, k) == head + WithKey(a[1..] + b, key, k);
      WithKeyAppend(a[1..], b, key, k);
      assert head + (WithKey(a[1..], key, k) + WithKey(b, key, k))
          == (head + WithKey(a[1..], key, k)) + WithKey(b, key, k);
    }
  }

  /** A sorted sequence whose first key exceeds `k` has no record with key `k`. */
  lemma {:induction false} WithKeyAbove<T>(s: seq<T>, key: T -> int, k: int)
    requires SortedBy(s, key)
    requires s != [] ==> k < key(s[0])
    ensures WithKey(s, key, k) == []
  {
    if s != [] {
      assert SortedBy(s[1..], key);
      assert s[1..] != [] ==> s[1..][0] == s[1];
      WithKeyAbove(s[1..], key, k);
    }
  }

  /** Merging neither drops nor duplicates a record. */
  lemma {:induction false} MergedPermutation<T>(left: seq<T>, right: seq<T>, key: T -> int)
    ensures multiset(Merged(left, right, key)) == multiset(left) + multiset(right)
    decreases |left| + |right|
  {
    if left == [] || right == [] {
    } else if key(left[0]) <= key(right[0]) {
      var x, tail := left[0], left[1..];
      assert [x] + tail == left;
      MergedLeftHead(x, tail, right, key);
      MergedPermutation(tail, right, key);
      MultisetCons(x, tail);
      MultisetCons(x, Merged(tail, right, key));
    } else {
      var y, tail := right[0], right[1..];
      assert [y] + tail == right;
      MergedRightHead(left, y, tail, key);
      MergedPermutation(left, tail, key);
      MultisetCons(y, tail);
      MultisetCons(y, Merged(left, tail, key));
    }
  }

  lemma MultisetCons<T>(x: T, s: seq<T>)
    ensures multiset([x] + s) == multiset{x} + multiset(s)
  {
  }

  /** Every key of `s` is at least `b`. */
  predicate KeysAtLeast<T>(s: seq<T>, key: T -> int, b: int)
  {
    forall m :: 0 <= m < |s| ==> b <= key(s[m])
  }

  lemma {:induction false} MergedKeysAtLeast<T>(left: seq<T>, right: seq<T>, key: T -> int, b: int)
    requires KeysAtLeast(left, key, b) && KeysAtLeast(right, key, b)
    ensures KeysAtLeast(Merged(left, right, key), key, b)
    decreases |left| + |right|
  {
    if left == [] || right == [] {
    } else if key(left[0]) <= key(right[0]) {
      MergedKeysAtLeast(left[1..], right, key, b);
    } else {
      MergedKeysAtLeast(left, right[1..], key, b);
    }
  }

  /** Merging two sorted sequences yields a sorted sequence. */
  lemma {:induction false} MergedSorted<T>(left: seq<T>, right: seq<T>, key: T -> int)
    requires SortedBy(left, key) && SortedBy(right, key)
    ensures SortedBy(Merged(left, right, key), key)
    decreases |left| + |right|
  {
    if left == [] || right == [] {
    } else if key(left[0]) <= key(right[0]) {
      MergedSorted(left[1..], right, key);
      MergedKeysAtLeast(left[1..], right, key, key(left[0]));
    } else {
      MergedSorted(left, right[1..], key);
      MergedKeysAtLeast(left, right[1..], key, key(right[0]));
    }
  }

  /** Merging keeps, for every key, the records of the left input before
      those of the right one: ties go to the left. */
  lemma {:induction false} MergedWithKey<T>(left: seq<T>, right: seq<T>, key: T -> int, k: int)
    requires SortedBy(left, key)
    ensures WithKey(Merged(left, right, key), key, k) == WithKey(left, key, k) + WithKey(right, key, k)
    decreases |left| + |right|, 1
  {
    if left == [] {
      assert [] + WithKey(right, key, k) == WithKey(right, key, k);
    } else if right == [] {
      assert WithKey(left, key, k) + [] == WithKey(left, key, k);
    } else if key(left[0]) <= key(right[0]) {
      SortedTail(left, key);
      assert [left[0]] + left[1..] == left;
      MergedWithKeyLeftHead(left[0], left[1..], right, key, k);
    } else {
      assert [right[0]] + right[1..] == right;
      MergedWithKeyRightHead(left, right[0], right[1..], key, k);
    }
  }

  /** The step of MergedWithKey where the left head `x` is taken. */
  lemma {:induction false} MergedWithKeyLeftHead<T>(x: T, tail: seq<T>, right: seq<T>, key: T -> int, k: int)
    requires SortedBy(tail, key) && right != [] && key(x) <= key(right[0])
    ensures WithKey(Merged([x] + tail, right, key), key, k) == WithKey([x] + tail, key, k) + WithKey(right, key, k)
    decreases |tail| + 1 + |right|, 0
  {
    MergedLeftHead(x, tail, right, key);
    WithKeyCons(x, Merged(tail, right, key), key, k);
    MergedWithKey(tail, right, key, k);
    WithKeyCons(x, tail, key, k);
    ConcatAssoc(if key(x) == k then [x] else [], WithKey(tail, key, k), WithKey(right, key, k));
  }

  lemma MergedLeftHead<T>(x: T, tail: seq<T>, right: seq<T>, key: T -> int)
    requires right != [] && key(x) <= key(right[0])
    ensures Merged([x] + tail, right, key) == [x] + Merged(tail, right, key)
  {
    assert ([x] + tail)[0] == x && ([x] + tail)[1..] == tail;
  }

  lemma ConcatAssoc<T>(a: seq<T>, b: seq<T>, c: seq<T>)
    ensures a + (b + c) == (a + b) + c
  {
  }

  lemma SortedTail<T>(s: seq<T>, key: T -> int)
    requires s != [] && SortedBy(s, key)
    ensures SortedBy(s[1..], key)
  {
  }

  /** The step of MergedWithKey where the right head `y` is taken: its key
      is below every key of the sorted left input, so no left record shares
      it. */
  lemma {:induction false} MergedWithKeyRightHead<T>(left: seq<T>, y: T, tail: seq<T>, key: T -> int, k: int)
    requires SortedBy(left, key) && left != [] && key(y) < key(left[0])
    ensures WithKey(Merged(left, [y] + tail, key), key, k) == WithKey(left, key, k) + WithKey([y] + tail, key, k)
    decreases |left| + |tail| + 1, 0
  {
    MergedRightHead(left, y, tail, key);
    WithKeyCons(y, Merged(left, tail, key), key, k);
    MergedWithKey(left, tail, key, k);
    WithKeyCons(y, tail, key, k);
    var a, b := WithKey(left, key, k), WithKey(tail, key, k);
    if key(y) == k {
      WithKeyAbove(left, key, k);
      assert [] + b == b;
    } else {
      assert [] + (a + b) == a + b && [] + b == b;
    }
  }

  lemma MergedRightHead<T>(left: seq<T>, y: T, tail: seq<T>, key: T -> int)
    requires left != [] && key(y) < key(left[0])
    ensures Merged(left, [y] + tail, key) == [y] + Merged(left, tail, key)
  {
    assert ([y] + tail)[0] == y && ([y] + tail)[1..] == tail;
  }

  lemma WithKeyCons<T>(x: T, s: seq<T>, key: T -> int, k: int)
    ensures WithKey([x] + s, key, k) == (if key(x) == k then [x] else []) + WithKey(s, key, k)
  {
    assert ([x] + s)[0] == x && ([x] + s)[1..] == s;
  }

  // ---------------------------------------------------------------------
  // Properties of the sort

  lemma {:induction false} MergeSortedPermutation<T>(s: seq<T>, key: T -> int)
    ensures |MergeSorted(s, key)| == |s|
    ensures multiset(MergeSorted(s, key)) == multiset(s)
    decreases |s|
  {
    if |s| > 1 {
      var mid := |s| / 2;
      var front, back := s[..mid], s[mid..];
      var left, right := MergeSorted(front, key), MergeSorted(back, key);
      assert MergeSorted(s, key) == Merged(left, right, key);
      MergeSortedPermutation(front, key);
      MergeSortedPermutation(back, key);
      MergedPermutation(left, right, key);
      MultisetSplit(s, mid);
    }
  }

  lemma MultisetSplit<T>(s: seq<T>, mid: int)
    requires 0 <= mid <= |s|
    ensures multiset(s) == multiset(s[..mid]) + multiset(s[mid..])
  {
    assert s == s[..mid] + s[mid..];
  }

  lemma {:induction false} MergeSortedSorted<T>(s: seq<T>, key: T -> int)
    ensures SortedBy(MergeSorted(s, key), key)
    decreases |s|
  {
    if |s| > 1 {
      var mid := |s| / 2;
      MergeSortedSorted(s[..mid], key);
      MergeSortedSorted(s[mid..], key);
      MergedSorted(MergeSorted(s[..mid], key), MergeSorted(s[mid..], key), key);
    }
  }

  /** Stability: for every key, the records carrying it appear in the
      output in the same order as in the input. */
  lemma {:induction false} MergeSortedStable<T>(s: seq<T>, key: T -> int)
    ensures forall k :: WithKey(MergeSorted(s, key), key, k) == WithKey(s, key, k)
    decreases |s|
  {
    if |s| > 1 {
      var mid := |s| / 2;
      MergeSortedStable(s[..mid], key);
      MergeSortedStable(s[mid..], key);
      MergeSortedSorted(s[..mid], key);
      forall k ensures WithKey(MergeSorted(s, key), key, k) == WithKey(s, key, k) {
        MergedWithKey(MergeSorted(s[..mid], key), MergeSorted(s[mid..], key), key, k);
        assert s == s[..mid] + s[mid..];
        WithKeyAppend(s[..mid], s[mid..], key, k);
      }
    }
  }

  /** A stable sort has only one possible result: two sorted sequences that
      agree on the order of the records of every key are equal. Hence any
      stable sort (Python's list.sort included) agrees with MergeSorted. */
  lemma {:induction false} StableSortUnique<T>(a: seq<T>, b: seq<T>, key: T -> int)
    requires SortedBy(a, key) && SortedBy(b, key)
    requires forall k :: WithKey(a, key, k) == WithKey(b, key, k)
    ensures a == b
    decreases |a| + |b|
  {
    if a == [] || b == [] {
      if a != [] {
        WithKeyHead(a, key);
        assert false;
      } else if b != [] {
        WithKeyHead(b, key);
        assert false;
      }
    } else {
      var ka, kb := key(a[0]), key(b[0]);
      WithKeyHead(a, key);
      WithKeyHead(b, key);
      if ka < kb {
        WithKeyAbove(b, key, ka);
        assert false;
      } else if kb < ka {
        WithKeyAbove(a, key, kb);
        assert false;
      }
      assert a[0] == b[0];
      forall k ensures WithKey(a[1..], key, k) == WithKey(b[1..], key, k) {
        assert WithKey(a, key, k) == WithKey(b, key, k);
        if k == ka {
          assert [a[0]] + WithKey(a[1..], key, k) == [b[0]] + WithKey(b[1..], key, k);
          assert WithKey(a[1..], key, k) == ([a[0]] + WithKey(a[1..], key, k))[1..];
        } else {
          assert WithKey(a, key, k) == WithKey(a[1..], key, k);
          assert WithKey(b, key, k) == WithKey(b[1..], key, k);
        }
      }
      assert SortedBy(a[1..], key) && SortedBy(b[1..], key);
      StableSortUnique(a[1..], b[1..], key);
      assert a == [a[0]] + a[1..] && b == [b[0]] + b[1..];
    }
  }

  /** The records with the first key of `s` start with the first record. */
  lemma WithKeyHead<T>(s: seq<T>, key: T -> int)
    requires s != []
    ensures WithKey(s, key, key(s[0])) == [s[0]] + WithKey(s[1..], key, key(s[0]))
  {
  }

  /** Sorting an already sorted sequence returns it unchanged. */
  lemma MergeSortedIdempotent<T>(s: seq<T>, key: T -> int)
    requires SortedBy(s, key)
    ensures MergeSorted(s, key) == s
  {
    MergeSortedSorted(s, key);
    MergeSortedStable(s, key);
    StableSortUnique(MergeSorted(s, key), s, key);
  }

  /** Records with keys 2, 1, 2 (tagged A, B, C) come out as B, A, C: the
      two records with key 2 keep their order. */
  lemma SortExample(s: seq<(int, char)>, key: ((int, char)) -> int)
    requires s == [(2, 'A'), (1, 'B'), (2, 'C')] && forall r :: key(r) == r.0
    ensures MergeSorted(s, key) == [(1, 'B'), (2, 'A'), (2, 'C')]
  {
    assert s[..1] == [(2, 'A')] && s[1..] == [(1, 'B'), (2, 'C')];
    var back := s[1..];
    assert back[..1] == [(1, 'B')] && back[1..] == [(2, 'C')];
    assert MergeSorted(back, key) == Merged([(1, 'B')], [(2, 'C')], key);
    assert Merged([(1, 'B')], [(2, 'C')], key) == [(1, 'B'), (2, 'C')] by {
      assert Merged([], [(2, 'C')], key) == [(2, 'C')];
    }
    assert MergeSorted(s, key) == Merged([(2, 'A')], [(1, 'B'), (2, 'C')], key);
    assert Merged([(2, 'A')], [(2, 'C')], key) == [(2, 'A'), (2, 'C')] by {
      assert Merged([], [(2, 'C')], key) == [(2, 'C')];
    }
    assert Merged([(2, 'A')], [(1, 'B'), (2, 'C')], key) == [(1, 'B')] + Merged([(2, 'A')], [(2, 'C')], key) by {
      assert [(1, 'B'), (2, 'C')][1..] == [(2, 'C')];
    }
  }
}
