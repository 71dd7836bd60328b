/**
 * Top-down merge sort of `arr[l..r]` (inclusive bounds), with zero, one or
 * two companion arrays moved along with the keys.
 *
 * The three C variants (`merge`/`mergeSort`, `merge_with_idx`/
 * `mergeSort_with_idx`, `merge_with_idx2`/`mergeSort_with_idx2`) run the same
 * code and differ only in how many companion arrays they copy, so the
 * algorithm is written once over `Entry` sequences and the variants are thin
 * wrappers that zip and unzip the parallel arrays.
 */
module MergeSort {
  import opened SortSpec

  /**
   * The merge of `a[i..]` and `b[j..]`, indexed by the two read positions as
   * the loops of `Merge` are.
   */
  ghost function MergeFrom<P>(a: seq<Entry<P>>, b: seq<Entry<P>>, i: int, j: int): seq<Entry<P>>
    requires 0 <= i <= |a| && 0 <= j <= |b|
    decreases |a| - i + |b| - j
  {
    if i == |a| then b[j..]
    else if j == |b| then a[i..]
    else if a[i].key <= b[j].key then [a[i]] + MergeFrom(a, b, i + 1, j)
    else [b[j]] + MergeFrom(a, b, i, j + 1)
  }

  lemma {:induction false} MergeFromRuns<P>(a: seq<Entry<P>>, b: seq<Entry<P>>, i: int, j: int)
    requires 0 <= i <= |a| && 0 <= j <= |b|
    ensures MergeFrom(a, b, i, j) == MergeRuns(a[i..], b[j..])
    decreases |a| - i + |b| - j
  {
    if i < |a| && j < |b| {
      assert a[i..][0] == a[i] && a[i..][1..] == a[i + 1..];
      assert b[j..][0] == b[j] && b[j..][1..] == b[j + 1..];
      if a[i].key <= b[j].key {
        MergeFromRuns(a, b, i + 1, j);
      } else {
        MergeFromRuns(a, b, i, j + 1);
      }
    }
  }

  /** What `Merge` establishes once the merged runs are written back over `[l, r]`. */
  lemma MergedRange<P>(res: seq<Entry<P>>, arr: seq<Entry<P>>, l: int, m: int, r: int)
    requires 0 <= l <= m + 1 <= r + 1 <= |arr| == |res|
    requires res[..l] == arr[..l] && res[r + 1..] == arr[r + 1..]
    requires res[l..r + 1] == MergeFrom(arr[l..m + 1], arr[m + 1..r + 1], 0, 0)
    ensures multiset(res[l..r + 1]) == multiset(arr[l..r + 1])
    ensures Sorted(arr[l..m + 1]) && Sorted(arr[m + 1..r + 1]) ==>
              StableSortedRange(res, arr, l, r + 1)
  {
    var left, right := arr[l..m + 1], arr[m + 1..r + 1];
    MergeFromRuns(left, right, 0, 0);
    assert left[0..] == left && right[0..] == right;
    assert left + right == arr[l..r + 1];
    MergeRunsMultiset(left, right);
    if Sorted(left) && Sorted(right) {
      MergeRunsSorted(left, right);
      MergeRunsStable(left, right);
    }
  }

  /** Once either run is used up, the rest of the merge is the remaining elements in order. */
  lemma MergeFromExhausted<P>(a: seq<Entry<P>>, b: seq<Entry<P>>, i: int, j: int)
    requires 0 <= i <= |a| && 0 <= j <= |b| && (i == |a| || j == |b|)
    ensures MergeFrom(a, b, i, j) == a[i..] + b[j..]
  {
    if i == |a| {
      assert a[i..] == [];
    } else {
      assert b[j..] == [];
    }
  }

  /** Moving the head of the pending output to the end of the written part. */
  lemma AppendHead<P>(out: seq<Entry<P>>, x: Entry<P>, rest: seq<Entry<P>>)
    ensures (out + [x]) + rest == out + ([x] + rest)
  {
  }

  /**
   * The loops of `Merge`: while both runs have elements left the smaller head
   * is written next (the left one on a tie); then whatever remains of either
   * run is copied. The written elements are collected in `out`.
   */
  method MergeLoops<P>(left: seq<Entry<P>>, right: seq<Entry<P>>) returns (out: seq<Entry<P>>)
    ensures |out| == |left| + |right| && out == MergeFrom(left, right, 0, 0)
  {
    out := [];
    var i, j := 0, 0;
    while i < |left| && j < |right|
      invariant 0 <= i <= |left| && 0 <= j <= |right| && |out| == i + j
      invariant out + MergeFrom(left, right, i, j) == MergeFrom(left, right, 0, 0)
      decreases |left| + |right| - i - j
    {
      out, i, j := MergeHead(left, right, out, i, j);
    }
    MergeFromExhausted(left, right, i, j);
    out := CopyRest(out, left, i);
    out := CopyRest(out, right, j);
  }

  /** One pass of the first loop of `Merge`: the smaller head moves to `out`, the left one on ties. */
  method MergeHead<P>(left: seq<Entry<P>>, right: seq<Entry<P>>, out: seq<Entry<P>>, i: int, j: int)
    returns (out': seq<Entry<P>>, i': int, j': int)
    requires 0 <= i < |left| && 0 <= j < |right| && |out| == i + j
    requires out + MergeFrom(left, right, i, j) == MergeFrom(left, right, 0, 0)
    ensures i <= i' <= |left| && j <= j' <= |right| && i' + j' == i + j + 1 && |out'| == i' + j'
    ensures out' + MergeFrom(left, right, i', j') == MergeFrom(left, right, 0, 0)
  {
    if left[i].key <= right[j].key {
      assert MergeFrom(left, right, i, j) == [left[i]] + MergeFrom(left, right, i + 1, j);
      AppendHead(out, left[i], MergeFrom(left, right, i + 1, j));
      out', i', j' := out + [left[i]], i + 1, j;
    } else {
      assert MergeFrom(left, right, i, j) == [right[j]] + MergeFrom(left, right, i, j + 1);
      AppendHead(out, right[j], MergeFrom(left, right, i, j + 1));
      out', i', j' := out + [right[j]], i, j + 1;
    }
  }

  /** One of the copy loops of `Merge`: the rest of `run` from position `k` on is written after `out`. */
  method CopyRest<P>(out: seq<Entry<P>>, run: seq<Entry<P>>, k: int) returns (res: seq<Entry<P>>)
    requires 0 <= k <= |run|
    ensures res == out + run[k..]
  {
    res := out;
    var q := k;
    while q < |run|
      invariant k <= q <= |run| && res == out + run[k..q]
    {
      assert run[k..q + 1] == run[k..q] + [run[q]];
      res := res + [run[q]];
      q := q + 1;
    }
    assert run[k..q] == run[k..];
  }

  /**
   * Merges the adjacent runs `arr[l..m]` and `arr[m+1..r]`: both are copied
   * out and their merge is written back over positions `l..r`.
   */
  method Merge<P>(arr: seq<Entry<P>>, l: int, m: int, r: int) returns (res: seq<Entry<P>>)
    requires 0 <= l <= m + 1 <= r + 1 <= |arr|
    ensures |res| == |arr|
    ensures res[..l] == arr[..l] && res[r + 1..] == arr[r + 1..]
    ensures multiset(res[l..r + 1]) == multiset(arr[l..r + 1])
    ensures Sorted(arr[l..m + 1]) && Sorted(arr[m + 1..r + 1]) ==>
              StableSortedRange(res, arr, l, r + 1)
  {
    var left := arr[l..m + 1];
    var right := arr[m + 1..r + 1];
    var out := MergeLoops(left, right);
    MergeFromRuns(left, right, 0, 0);

    res := arr[..l] + out + arr[r + 1..];
    assert res[l..r + 1] == out;
    assert res[..l] == arr[..l];
    assert res[r + 1..] == arr[r + 1..];
    MergedRange(res, arr, l, m, r);
  }

  /**
   * Sorts `arr[l..r]` by sorting both halves around `m = l + (r - l) / 2` and
   * merging them; a range with `l >= r` is left alone.
   */
  method MergeSort<P>(arr: seq<Entry<P>>, l: int, r: int) returns (res: seq<Entry<P>>)
    requires l < r ==> 0 <= l && r < |arr|
    ensures |res| == |arr|
    ensures l >= r ==> res == arr
    ensures 0 <= l <= r < |arr| ==> StableSortedRange(res, arr, l, r + 1)
    decreases r - l
  {
    res := arr;
    if l < r {
      // r - l > 0, so Dafny's division agrees with C's here
      var m := l + (r - l) / 2;
      var a1 := MergeSort(arr, l, m);
      var a2 := MergeSort(a1, m + 1, r);
      SortedHalves(arr, a1, a2, l, m, r);
      res := Merge(a2, l, m, r);
      SameRunsTrans(res[l..r + 1], a2[l..r + 1], arr[l..r + 1]);
    }
  }

  /**
   * After both recursive calls the two halves are sorted, the range is a
   * stable rearrangement of the input's, and nothing outside it moved.
   */
  lemma SortedHalves<P>(arr: seq<Entry<P>>, a1: seq<Entry<P>>, a2: seq<Entry<P>>, l: int, m: int, r: int)
    requires 0 <= l <= m < r < |arr|
    requires StableSortedRange(a1, arr, l, m + 1) && StableSortedRange(a2, a1, m + 1, r + 1)
    ensures |a2| == |arr| && a2[..l] == arr[..l] && a2[r + 1..] == arr[r + 1..]
    ensures Sorted(a2[l..m + 1]) && Sorted(a2[m + 1..r + 1])
    ensures SameRuns(a2[l..r + 1], arr[l..r + 1])
  {
    assert a2[l..m + 1] == a1[l..m + 1] by {
      assert a2[..m + 1] == a1[..m + 1];
      assert a2[l..m + 1] == a2[..m + 1][l..];
      assert a1[l..m + 1] == a1[..m + 1][l..];
    }
    assert a1[m + 1..r + 1] == arr[m + 1..r + 1] by {
      assert a1[m + 1..] == arr[m + 1..];
      assert a1[m + 1..r + 1] == a1[m + 1..][..r - m];
      assert arr[m + 1..r + 1] == arr[m + 1..][..r - m];
    }
    assert a2[..l] == arr[..l] by {
      assert a2[..l] == a2[..m + 1][..l];
      assert a1[..l] == a1[..m + 1][..l];
    }
    assert a2[r + 1..] == arr[r + 1..] by {
      assert a1[r + 1..] == a1[m + 1..][r - m..];
      assert arr[r + 1..] == arr[m + 1..][r - m..];
    }
    assert a2[l..r + 1] == a2[l..m + 1] + a2[m + 1..r + 1];
    assert arr[l..r + 1] == arr[l..m + 1] + arr[m + 1..r + 1];
    SameRunsConcat(a2[l..m + 1], a2[m + 1..r + 1], arr[l..m + 1], arr[m + 1..r + 1]);
  }

  /** `mergeSort`: sorts the plain key array `arr[l..r]`. */
  method MergeSortKeys(arr: seq<int>, l: int, r: int) returns (res: seq<int>)
    requires l < r ==> 0 <= l && r < |arr|
    ensures |res| == |arr|
    ensures l >= r ==> res == arr
    ensures 0 <= l <= r < |arr| ==> SortedIntRange(res, arr, l, r + 1)
  {
    var s := MergeSort(Plain(arr), l, r);
    res := Keys(s);
    if l >= r {
      assert Keys(Plain(arr)) == arr;
    }
    if 0 <= l <= r < |arr| {
      PlainStableRange(s, arr, l, r + 1);
    }
  }

  /**
   * `mergeSort_with_idx`: sorts `arr[l..r]` and applies the same stable
   * permutation to `arr_idx`.
   */
  method MergeSortWithIdx(arr: seq<int>, idx: seq<int>, l: int, r: int)
    returns (arr': seq<int>, idx': seq<int>)
    requires |idx| == |arr|
    requires l < r ==> 0 <= l && r < |arr|
    ensures |arr'| == |arr| && |idx'| == |idx|
    ensures l >= r ==> arr' == arr && idx' == idx
    ensures 0 <= l <= r < |arr| ==> StableSortedRange(Zip(arr', idx'), Zip(arr, idx), l, r + 1)
  {
    var s := MergeSort(Zip(arr, idx), l, r);
    arr', idx' := Keys(s), Payloads(s);
    assert Zip(arr', idx') == s;
  }

  /**
   * `mergeSort_with_idx2`: sorts `arr[l..r]` and applies the same stable
   * permutation to both `arr_idx1` and `arr_idx2`.
   */
  method MergeSortWithIdx2(arr: seq<int>, idx1: seq<int>, idx2: seq<int>, l: int, r: int)
    returns (arr': seq<int>, idx1': seq<int>, idx2': seq<int>)
    requires |idx1| == |arr| && |idx2| == |arr|
    requires l < r ==> 0 <= l && r < |arr|
    ensures |arr'| == |arr| && |idx1'| == |arr| && |idx2'| == |arr|
    ensures l >= r ==> arr' == arr && idx1' == idx1 && idx2' == idx2
    ensures 0 <= l <= r < |arr| ==>
              StableSortedRange(Zip2(arr', idx1', idx2'), Zip2(arr, idx1, idx2), l, r + 1)
  {
    var s := MergeSort(Zip2(arr, idx1, idx2), l, r);
    arr' := Keys(s);
    idx1' := seq(|s|, i requires 0 <= i < |s| => s[i].payload.0);
    idx2' := seq(|s|, i requires 0 <= i < |s| => s[i].payload.1);
    assert Zip2(arr', idx1', idx2') == s;
    if l >= r {
      assert arr' == arr && idx1' == idx1 && idx2' == idx2;
    }
  }
}
