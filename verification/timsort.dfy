/**
 * The iterative timsort of the sorting library: runs of `RUN` elements are
 * insertion-sorted, then merged pairwise with doubling width, exactly as in
 * the bottom-up merge sort. Both phases are stable.
 *
 * The routine is handed a range `[l, r]` but indexes the array from 0, so it
 * sorts `arr[0 .. r-l]` instead of `arr[l .. r]`. `TimSortKeys` and
 * `TimSortWithIdx` keep that behaviour; `TimSortRangeKeys` and
 * `TimSortRangeWithIdx` sort the range they are given.
 */
module TimSort {
  import opened SortSpec
  import MergeSort

  /** Width of the runs that are insertion-sorted before merging starts. */
  const RUN: int := 32

  function Min(a: int, b: int): (m: int)
    ensures m <= a && m <= b && (m == a || m == b)
  {
    if a < b then a else b
  }

  // ---------------------------------------------------------------------------
  // Insertion sort
  // ---------------------------------------------------------------------------

  /** Inserting `x` behind the keys up to its own and before the larger ones keeps the order. */
  lemma InsertSorted<P>(pre: seq<Entry<P>>, x: Entry<P>, p: int)
    requires Sorted(pre) && 0 <= p <= |pre|
    requires forall q :: p <= q < |pre| ==> pre[q].key > x.key
    requires p > 0 ==> pre[p - 1].key <= x.key
    ensures Sorted(pre[..p] + [x] + pre[p..])
  {
    var ins := pre[..p] + [x] + pre[p..];
    assert forall q :: 0 <= q < |ins| ==> ins[q] == (if q < p then pre[q] else if q == p then x else pre[q - 1]);
  }

  /** Inserting `x` before entries that all have larger keys does not reorder any key's entries. */
  lemma InsertStable<P>(pre: seq<Entry<P>>, x: Entry<P>, p: int)
    requires 0 <= p <= |pre|
    requires forall q :: p <= q < |pre| ==> pre[q].key > x.key
    ensures SameRuns(pre[..p] + [x] + pre[p..], pre + [x])
  {
    var ins := pre[..p] + [x] + pre[p..];
    forall k
      ensures Filter(ins, k) == Filter(pre + [x], k)
    {
      FilterConcat(pre[..p] + [x], pre[p..], k);
      FilterConcat(pre[..p], [x], k);
      FilterConcat(pre[..p], pre[p..], k);
      FilterConcat(pre, [x], k);
      assert pre[..p] + pre[p..] == pre;
      if k == x.key {
        FilterAbsent(pre[p..], k);
      } else {
        assert [x][1..] == [];
        assert Filter([x], k) == [];
      }
    }
  }

  /**
   * Inserting `x` into the sorted `pre` in front of the entries with a larger
   * key, and after all entries with an equal one, keeps the order and is a
   * stable rearrangement of `pre + [x]`.
   */
  lemma InsertStep<P>(pre: seq<Entry<P>>, x: Entry<P>, p: int)
    requires Sorted(pre) && 0 <= p <= |pre|
    requires forall q :: p <= q < |pre| ==> pre[q].key > x.key
    requires p > 0 ==> pre[p - 1].key <= x.key
    ensures Sorted(pre[..p] + [x] + pre[p..])
    ensures SameRuns(pre[..p] + [x] + pre[p..], pre + [x])
  {
    InsertSorted(pre, x, p);
    InsertStable(pre, x, p);
  }

  /**
   * One step of the outer loop of `insertionSort`: the entry at `i` is taken
   * out, every entry before it with a larger key moves one place up, and the
   * entry is written into the gap at `p`.
   */
  method InsertAt<P>(t: seq<Entry<P>>, left: int, i: int) returns (t': seq<Entry<P>>, p: int)
    requires 0 <= left < i < |t|
    ensures left <= p <= i
    ensures t' == t[..p] + [t[i]] + t[p..i] + t[i + 1..]
    ensures forall q :: p <= q < i ==> t[q].key > t[i].key
    ensures p > left ==> t[p - 1].key <= t[i].key
  {
    var temp := t[i];
    var j := i - 1;
    t' := t;
    while j >= left && t'[j].key > temp.key
      invariant left - 1 <= j <= i - 1 && |t'| == |t|
      invariant forall q :: 0 <= q <= j ==> t'[q] == t[q]
      invariant forall q :: j + 2 <= q <= i ==> t'[q] == t[q - 1]
      invariant forall q :: i < q < |t| ==> t'[q] == t[q]
      invariant forall q :: j < q < i ==> t[q].key > temp.key
    {
      t' := t'[j + 1 := t'[j]];
      j := j - 1;
    }
    ShiftedInsert(t, t', j, i);
    t' := t'[j + 1 := temp];
    p := j + 1;
  }

  /** After shifting `t[j+1..i]` up by one, writing `t[i]` at `j + 1` inserts it there. */
  lemma ShiftedInsert<P>(t: seq<Entry<P>>, u: seq<Entry<P>>, j: int, i: int)
    requires -1 <= j < i < |t| == |u|
    requires forall q :: 0 <= q <= j ==> u[q] == t[q]
    requires forall q :: j + 2 <= q <= i ==> u[q] == t[q - 1]
    requires forall q :: i < q < |t| ==> u[q] == t[q]
    ensures u[j + 1 := t[i]] == t[..j + 1] + [t[i]] + t[j + 1..i] + t[i + 1..]
  {
    var v, w := u[j + 1 := t[i]], t[..j + 1] + [t[i]] + t[j + 1..i] + t[i + 1..];
    forall q | 0 <= q < |v|
      ensures v[q] == w[q]
    {
      if q <= j {
        assert w[q] == t[q];
      } else if q == j + 1 {
        assert w[q] == t[i];
      } else if q <= i {
        assert w[q] == t[q - 1];
      } else {
        assert w[q] == t[q];
      }
    }
  }

  /** Where `InsertAt` leaves the sorted prefix of the range. */
  lemma InsertedRange<P>(t: seq<Entry<P>>, t': seq<Entry<P>>, arr: seq<Entry<P>>, left: int, i: int, p: int)
    requires 0 <= left <= p <= i < |t| == |arr|
    requires t' == t[..p] + [t[i]] + t[p..i] + t[i + 1..]
    requires t[..left] == arr[..left] && t[i..] == arr[i..]
    requires Sorted(t[left..i]) && SameRuns(t[left..i], arr[left..i])
    requires forall q :: p <= q < i ==> t[q].key > t[i].key
    requires p > left ==> t[p - 1].key <= t[i].key
    ensures |t'| == |arr| && t'[..left] == arr[..left] && t'[i + 1..] == arr[i + 1..]
    ensures Sorted(t'[left..i + 1]) && SameRuns(t'[left..i + 1], arr[left..i + 1])
  {
    var pre := t[left..i];
    var x := t[i];
    assert pre[..p - left] == t[left..p] && pre[p - left..] == t[p..i];
    InsertStep(pre, x, p - left);
    InsertedSlice(t, t', left, i, p);
    assert t'[..left] == t[..left];
    assert t'[i + 1..] == t[i + 1..] by {
      assert t[i + 1..] == t[i..][1..] && arr[i + 1..] == arr[i..][1..];
    }
    assert x == arr[i] by {
      assert t[i..][0] == arr[i..][0];
    }
    assert arr[left..i + 1] == arr[left..i] + [x];
    SameRunsConcat(pre, [x], arr[left..i], [x]);
    SameRunsTrans(t'[left..i + 1], pre + [x], arr[left..i + 1]);
  }

  /** Moving `t[i]` down to `p` leaves `[left, i]` holding `t[left..p]`, then `t[i]`, then `t[p..i]`. */
  lemma InsertedSlice<T>(t: seq<T>, t': seq<T>, left: int, i: int, p: int)
    requires 0 <= left <= p <= i < |t|
    requires t' == t[..p] + [t[i]] + t[p..i] + t[i + 1..]
    ensures t'[left..i + 1] == t[left..p] + [t[i]] + t[p..i]
  {
    var u := t[left..p] + [t[i]] + t[p..i];
    forall k | 0 <= k < i + 1 - left
      ensures t'[left..i + 1][k] == u[k]
    {
      if k < p - left {
        assert t'[left + k] == t[left + k];
      } else if k > p - left {
        assert t'[left + k] == t[left + k - 1];
      }
    }
  }

  /**
   * `insertionSort`: sorts `arr[left..right]` by inserting each entry into
   * the sorted prefix before it. An entry only moves past larger keys, so the
   * sort is stable.
   */
  method InsertionSort<P>(arr: seq<Entry<P>>, left: int, right: int) returns (res: seq<Entry<P>>)
    requires left < right ==> 0 <= left && right < |arr|
    ensures |res| == |arr|
    ensures left >= right ==> res == arr
    ensures 0 <= left <= right < |arr| ==> StableSortedRange(res, arr, left, right + 1)
  {
    res := arr;
    if left >= right {
      if 0 <= left == right < |arr| {
        SameRunsRefl(arr[left..right + 1]);
      }
      return;
    }
    var i := left + 1;
    assert res[left..i] == [arr[left]];
    SameRunsRefl(arr[left..i]);
    while i <= right
      invariant left + 1 <= i <= right + 1 && |res| == |arr|
      invariant res[..left] == arr[..left] && res[i..] == arr[i..]
      invariant Sorted(res[left..i]) && SameRuns(res[left..i], arr[left..i])
    {
      var t, p := InsertAt(res, left, i);
      InsertedRange(res, t, arr, left, i, p);
      res := t;
      i := i + 1;
    }
    assert res[right + 1..] == arr[right + 1..];
  }

  // ---------------------------------------------------------------------------
  // Blocks
  // ---------------------------------------------------------------------------

  /** Block `b` of width `w` of the `n` entries starting at `base`. */
  function Block<P>(t: seq<Entry<P>>, base: int, n: int, w: int, b: int): seq<Entry<P>>
    requires 0 <= base && base + n <= |t| && 0 < w && 0 <= b * w <= n
  {
    t[base + b * w .. base + Min(b * w + w, n)]
  }

  /** Every block of width `w` of the range `[base, base + n)` is sorted. */
  ghost predicate BlocksSorted<P>(t: seq<Entry<P>>, base: int, n: int, w: int, from: int)
    requires 0 <= base && base + n <= |t| && 0 < w
  {
    forall b :: from <= b && 0 <= b * w < n ==> Sorted(Block(t, base, n, w, b))
  }

  /** The entries of `arr` from `base` on are a stable rearrangement of `orig`'s, and nothing else moved. */
  ghost predicate Rearranged<P>(t: seq<Entry<P>>, orig: seq<Entry<P>>, base: int, n: int)
    requires 0 <= base && 0 <= n && base + n <= |orig|
  {
    && |t| == |orig|
    && t[..base] == orig[..base]
    && t[base + n..] == orig[base + n..]
    && SameRuns(t[base..base + n], orig[base..base + n])
  }

  /** Sorting a piece `[lo, hi)` of the range keeps the whole range a stable rearrangement. */
  lemma RearrangedStep<P>(t': seq<Entry<P>>, t: seq<Entry<P>>, orig: seq<Entry<P>>, base: int, n: int, lo: int, hi: int)
    requires 0 <= base <= lo <= hi <= base + n <= |orig|
    requires Rearranged(t, orig, base, n)
    requires StableSortedRange(t', t, lo, hi)
    ensures Rearranged(t', orig, base, n)
  {
    SameRunsSplice(t', t, lo, hi, base, base + n);
    assert t'[..base] == t[..base] by {
      assert t'[..base] == t'[..lo][..base] && t[..base] == t[..lo][..base];
    }
    assert t'[base + n..] == t[base + n..] by {
      assert t'[base + n..] == t'[hi..][base + n - hi..] && t[base + n..] == t[hi..][base + n - hi..];
    }
  }

  /** A block that ends before `lo` or starts at or after `hi` is untouched by sorting `[lo, hi)`. */
  lemma BlockUnchanged<P>(t': seq<Entry<P>>, t: seq<Entry<P>>, base: int, n: int, w: int, b: int, lo: int, hi: int)
    requires 0 <= base && base + n <= |t| == |t'| && 0 < w && 0 <= b * w <= n && 0 <= lo <= hi <= |t|
    requires t'[..lo] == t[..lo] && t'[hi..] == t[hi..]
    requires base + Min(b * w + w, n) <= lo || hi <= base + b * w
    ensures Block(t', base, n, w, b) == Block(t, base, n, w, b)
  {
    var x, y := base + b * w, base + Min(b * w + w, n);
    SliceOutside(t', t, x, y, lo, hi);
  }

  /** A slice that ends before `lo` or starts at or after `hi` is the same in two sequences that differ only in `[lo, hi)`. */
  lemma SliceOutside<T>(t': seq<T>, t: seq<T>, x: int, y: int, lo: int, hi: int)
    requires 0 <= x <= y <= |t| == |t'| && 0 <= lo <= hi <= |t|
    requires t'[..lo] == t[..lo] && t'[hi..] == t[hi..]
    requires y <= lo || hi <= x
    ensures t'[x..y] == t[x..y]
  {
    forall k | x <= k < y
      ensures t'[k] == t[k]
    {
      if y <= lo {
        assert t'[..lo][k] == t[..lo][k];
      } else {
        assert t'[hi..][k - hi] == t[hi..][k - hi];
      }
    }
  }

  /** Arithmetic on block numbers when the width doubles. */
  lemma DoubleWidth(c: int, w: int)
    requires w > 0
    ensures (2 * c) * w == c * (2 * w)
    ensures (2 * c + 1) * w == c * (2 * w) + w
    ensures (2 * c + 2) * w == (c + 1) * (2 * w)
  {
  }

  lemma MulMono(c: int, b: int, w: int)
    requires 0 < w && c <= b
    ensures c * w <= b * w
  {
    assert (b - c) * w >= 0;
  }

  /** Block numbers in order have their starts in order. */
  lemma BlockOrder(b: int, c: int, w: int)
    requires w > 0 && b < c
    ensures b * w + w <= c * w
  {
    assert (c - b) * w >= w by {
      assert c - b >= 1;
    }
  }

  // ---------------------------------------------------------------------------
  // The two phases
  // ---------------------------------------------------------------------------

  /**
   * The first phase: every run `[i, min(i + RUN - 1, n - 1)]` of the range
   * starting at `base` is insertion-sorted.
   */
  method SortRuns<P>(arr: seq<Entry<P>>, base: int, n: int) returns (res: seq<Entry<P>>)
    requires 0 <= base && 0 <= n && base + n <= |arr|
    ensures Rearranged(res, arr, base, n)
    ensures BlocksSorted(res, base, n, RUN, 0)
  {
    res := arr;
    SameRunsRefl(arr[base..base + n]);
    var i := 0;
    ghost var c := 0;
    while i < n
      invariant 0 <= c && i == c * RUN && i - RUN < n
      invariant Rearranged(res, arr, base, n)
      invariant forall b :: 0 <= b < c && b * RUN < n ==> Sorted(Block(res, base, n, RUN, b))
    {
      res := SortRun(res, arr, base, n, i, c);
      i := i + RUN;
      c := c + 1;
    }
  }

  /** One pass of the loop of `SortRuns`: the run starting at `i`, block `c`, is sorted and the earlier blocks stay sorted. */
  method SortRun<P>(res: seq<Entry<P>>, arr: seq<Entry<P>>, base: int, n: int, i: int, ghost c: int) returns (t: seq<Entry<P>>)
    requires 0 <= base && 0 <= n && base + n <= |arr|
    requires 0 <= c && i == c * RUN && i < n
    requires Rearranged(res, arr, base, n)
    requires forall b :: 0 <= b < c && b * RUN < n ==> Sorted(Block(res, base, n, RUN, b))
    ensures Rearranged(t, arr, base, n)
    ensures forall b :: 0 <= b < c + 1 && b * RUN < n ==> Sorted(Block(t, base, n, RUN, b))
  {
    var hi := Min(i + RUN - 1, n - 1);
    t := InsertionSort(res, base + i, base + hi);
    RearrangedStep(t, res, arr, base, n, base + i, base + hi + 1);
    forall b | 0 <= b < c && b * RUN < n
      ensures Sorted(Block(t, base, n, RUN, b))
    {
      BlockOrder(b, c, RUN);
      BlockUnchanged(t, res, base, n, RUN, b, base + i, base + hi + 1);
    }
    assert Block(t, base, n, RUN, c) == t[base + i..base + hi + 1];
  }

  /**
   * Merging block `c` of width `2 * size` at `[lo, hi)` leaves the blocks
   * before it and the halves-width blocks after it as they were.
   */
  lemma OtherBlocksKept<P>(t: seq<Entry<P>>, res: seq<Entry<P>>, base: int, n: int, size: int, c: int, lo: int, hi: int)
    requires 0 <= base && 0 < size && base + n <= |res| == |t| && 0 <= c
    requires lo == base + c * (2 * size) && lo <= hi <= base + n && hi <= base + c * (2 * size) + 2 * size
    requires t[..lo] == res[..lo] && t[hi..] == res[hi..]
    requires forall b :: 0 <= b < c && b * (2 * size) < n ==> Sorted(Block(res, base, n, 2 * size, b))
    requires forall b :: 2 * c + 2 <= b && b * size < n ==> Sorted(Block(res, base, n, size, b))
    ensures forall b :: 0 <= b < c && b * (2 * size) < n ==> Sorted(Block(t, base, n, 2 * size, b))
    ensures forall b :: 2 * c + 2 <= b && b * size < n ==> Sorted(Block(t, base, n, size, b))
  {
    forall b | 0 <= b < c && b * (2 * size) < n
      ensures Sorted(Block(t, base, n, 2 * size, b))
    {
      EarlierBlockKept(t, res, base, n, size, c, lo, hi, b);
    }
    forall b | 2 * c + 2 <= b && b * size < n
      ensures Sorted(Block(t, base, n, size, b))
    {
      LaterBlockKept(t, res, base, n, size, c, lo, hi, b);
    }
  }

  /** A merged block before `c` ends before `lo`, so merging block `c` keeps it. */
  lemma EarlierBlockKept<P>(t: seq<Entry<P>>, res: seq<Entry<P>>, base: int, n: int, size: int, c: int, lo: int, hi: int, b: int)
    requires 0 <= base && 0 < size && base + n <= |res| == |t|
    requires lo == base + c * (2 * size) && 0 <= lo <= hi <= base + n
    requires t[..lo] == res[..lo] && t[hi..] == res[hi..]
    requires 0 <= b < c && 0 <= b * (2 * size) < n && Sorted(Block(res, base, n, 2 * size, b))
    ensures Sorted(Block(t, base, n, 2 * size, b))
  {
    BlockOrder(b, c, 2 * size);
    BlockUnchanged(t, res, base, n, 2 * size, b, lo, hi);
  }

  /** A half-width block after the two being merged starts at or after `hi`, so merging keeps it. */
  lemma LaterBlockKept<P>(t: seq<Entry<P>>, res: seq<Entry<P>>, base: int, n: int, size: int, c: int, lo: int, hi: int, b: int)
    requires 0 <= base && 0 < size && base + n <= |res| == |t| && 0 <= c
    requires lo <= hi <= base + n && hi <= base + c * (2 * size) + 2 * size && 0 <= lo
    requires t[..lo] == res[..lo] && t[hi..] == res[hi..]
    requires 2 * c + 2 <= b && b * size < n && Sorted(Block(res, base, n, size, b))
    ensures Sorted(Block(t, base, n, size, b))
  {
    DoubleWidth(c, size);
    BlockOrder(2 * c + 1, b, size);
    BlockUnchanged(t, res, base, n, size, b, lo, hi);
  }

  /**
   * The body of the inner loop of the second phase for `left == c * 2 * size`:
   * `arr[left..mid]` and `arr[mid+1..right]` are merged when `mid < right`.
   */
  method MergeBlocks<P>(res: seq<Entry<P>>, ghost arr: seq<Entry<P>>, base: int, n: int, size: int, left: int, ghost c: int)
    returns (t: seq<Entry<P>>)
    requires 0 <= base && 0 < size && base + n <= |arr|
    requires 0 <= c && left == c * (2 * size) && 0 <= left < n
    requires Rearranged(res, arr, base, n)
    requires forall b :: 0 <= b < c && b * (2 * size) < n ==> Sorted(Block(res, base, n, 2 * size, b))
    requires forall b :: 2 * c <= b && b * size < n ==> Sorted(Block(res, base, n, size, b))
    ensures Rearranged(t, arr, base, n)
    ensures forall b :: 0 <= b < c + 1 && b * (2 * size) < n ==> Sorted(Block(t, base, n, 2 * size, b))
    ensures forall b :: 2 * (c + 1) <= b && b * size < n ==> Sorted(Block(t, base, n, size, b))
  {
    var mid := left + size - 1;
    var right := Min(left + 2 * size - 1, n - 1);
    DoubleWidth(c, size);
    t := res;
    if mid < right {
      HalvesSorted(res, base, n, size, c);
      t := MergeSort.Merge(res, base + left, base + mid, base + right);
      PairMerged(t, res, arr, base, n, size, c);
    } else {
      LoneBlock(res, base, n, size, c);
    }
  }

  /** Merging the two halves of block `c` sorts it and keeps the other blocks and the rearrangement. */
  lemma PairMerged<P>(t: seq<Entry<P>>, res: seq<Entry<P>>, arr: seq<Entry<P>>, base: int, n: int, size: int, c: int)
    requires 0 <= base && 0 < size && base + n <= |arr| && 0 <= c
    requires c * (2 * size) + size - 1 < Min(c * (2 * size) + 2 * size - 1, n - 1)
    requires Rearranged(res, arr, base, n)
    requires StableSortedRange(t, res, base + c * (2 * size), base + Min(c * (2 * size) + 2 * size - 1, n - 1) + 1)
    requires forall b :: 0 <= b < c && b * (2 * size) < n ==> Sorted(Block(res, base, n, 2 * size, b))
    requires forall b :: 2 * c <= b && b * size < n ==> Sorted(Block(res, base, n, size, b))
    ensures Rearranged(t, arr, base, n)
    ensures forall b :: 0 <= b < c + 1 && b * (2 * size) < n ==> Sorted(Block(t, base, n, 2 * size, b))
    ensures forall b :: 2 * (c + 1) <= b && b * size < n ==> Sorted(Block(t, base, n, size, b))
  {
    DoubleWidth(c, size);
    var lo, hi := base + c * (2 * size), base + Min(c * (2 * size) + 2 * size - 1, n - 1) + 1;
    RearrangedStep(t, res, arr, base, n, lo, hi);
    OtherBlocksKept(t, res, base, n, size, c, lo, hi);
    assert Block(t, base, n, 2 * size, c) == t[lo..hi];
  }

  /** When block `c` of width `2 * size` has a second half, its two halves are the blocks `2c` and `2c + 1` of width `size`. */
  lemma HalvesSorted<P>(res: seq<Entry<P>>, base: int, n: int, size: int, c: int)
    requires 0 <= base && 0 < size && base + n <= |res| && 0 <= c && c * (2 * size) + size - 1 < n - 1
    requires forall b :: 2 * c <= b && b * size < n ==> Sorted(Block(res, base, n, size, b))
    ensures var left := c * (2 * size);
            var right := Min(left + 2 * size - 1, n - 1);
            && Sorted(res[base + left..base + left + size])
            && Sorted(res[base + left + size..base + right + 1])
  {
    DoubleWidth(c, size);
    var left := c * (2 * size);
    var right := Min(left + 2 * size - 1, n - 1);
    assert Block(res, base, n, size, 2 * c) == res[base + left..base + left + size];
    assert Block(res, base, n, size, 2 * c + 1) == res[base + left + size..base + right + 1];
  }

  /**
   * When block `c` of width `2 * size` has no second half, it is block `2c`
   * of width `size`, already sorted, and no block of width `size` follows.
   */
  lemma LoneBlock<P>(res: seq<Entry<P>>, base: int, n: int, size: int, c: int)
    requires 0 <= base && 0 < size && base + n <= |res| && 0 <= c && 0 <= c * (2 * size) < n
    requires c * (2 * size) + size - 1 >= Min(c * (2 * size) + 2 * size - 1, n - 1)
    requires forall b :: 2 * c <= b && b * size < n ==> Sorted(Block(res, base, n, size, b))
    ensures Sorted(Block(res, base, n, 2 * size, c))
    ensures forall b :: 2 * (c + 1) <= b && b * size < n ==> Sorted(Block(res, base, n, size, b))
  {
    DoubleWidth(c, size);
    assert Block(res, base, n, 2 * size, c) == Block(res, base, n, size, 2 * c);
    forall b | 2 * c + 2 <= b && b * size < n
      ensures false
    {
      BlockOrder(2 * c + 1, b, size);
    }
  }

  /**
   * One pass of the second phase: blocks `2c` and `2c + 1` of width `size`
   * are merged into block `c` of width `2 * size`, for every `c`.
   */
  method MergePass<P>(arr: seq<Entry<P>>, base: int, n: int, size: int) returns (res: seq<Entry<P>>)
    requires 0 <= base && 0 < size < n && base + n <= |arr|
    requires BlocksSorted(arr, base, n, size, 0)
    ensures Rearranged(res, arr, base, n)
    ensures BlocksSorted(res, base, n, 2 * size, 0)
  {
    res := arr;
    SameRunsRefl(arr[base..base + n]);
    var left := 0;
    ghost var c := 0;
    while left < n
      invariant 0 <= c && left == c * (2 * size) && left - 2 * size < n
      invariant Rearranged(res, arr, base, n)
      invariant forall b :: 0 <= b < c && b * (2 * size) < n ==> Sorted(Block(res, base, n, 2 * size, b))
      invariant forall b :: 2 * c <= b && b * size < n ==> Sorted(Block(res, base, n, size, b))
    {
      res := MergeBlocks(res, arr, base, n, size, left, c);
      DoubleWidth(c, size);
      left := left + 2 * size;
      c := c + 1;
    }
    forall b | 0 <= b && b * (2 * size) < n
      ensures Sorted(Block(res, base, n, 2 * size, b))
    {
      if b >= c {
        MulMono(c, b, 2 * size);
        assert false;
      }
    }
  }

  /**
   * `timSort` on the `n` entries starting at `base`: the runs are sorted, then
   * merged with width `RUN`, `2 * RUN`, ... until one block covers the range.
   */
  method TimSortFrom<P>(arr: seq<Entry<P>>, base: int, n: int) returns (res: seq<Entry<P>>)
    requires 0 <= base && base + n <= |arr|
    ensures n <= 0 ==> res == arr
    ensures 0 <= n ==> StableSortedRange(res, arr, base, base + n)
  {
    if n <= 0 {
      res := arr;
      if n == 0 {
        SameRunsRefl(arr[base..base]);
      }
      return;
    }
    res := SortRuns(arr, base, n);
    var size := RUN;
    while size < n
      invariant 0 < size && Rearranged(res, arr, base, n)
      invariant BlocksSorted(res, base, n, size, 0)
      decreases n - size
    {
      var t := MergePass(res, base, n, size);
      SameRunsTrans(t[base..base + n], res[base..base + n], arr[base..base + n]);
      res := t;
      size := 2 * size;
    }
    assert Block(res, base, n, size, 0) == res[base..base + n];
  }

  // ---------------------------------------------------------------------------
  // The library entry points
  // ---------------------------------------------------------------------------

  /**
   * `timSort(arr, l, r)` as written: `n = r - l + 1` entries are sorted, but
   * counted from index 0 rather than from `l`.
   */
  method TimSortKeys(arr: seq<int>, l: int, r: int) returns (res: seq<int>)
    requires l <= r ==> 0 <= l && r < |arr|
    ensures |res| == |arr|
    ensures l > r ==> res == arr
    ensures l <= r ==> SortedIntRange(res, arr, 0, r - l + 1)
  {
    var s := TimSortFrom(Plain(arr), 0, r - l + 1);
    res := Keys(s);
    if l > r {
      assert Keys(Plain(arr)) == arr;
    } else {
      PlainStableRange(s, arr, 0, r - l + 1);
    }
  }

  /** `timSort_with_idx(arr, arr_idx, l, r)` as written: the same range from 0, carrying `arr_idx` along. */
  method TimSortWithIdx(arr: seq<int>, idx: seq<int>, l: int, r: int) returns (arr': seq<int>, idx': seq<int>)
    requires |idx| == |arr|
    requires l <= r ==> 0 <= l && r < |arr|
    ensures |arr'| == |arr| && |idx'| == |idx|
    ensures l > r ==> arr' == arr && idx' == idx
    ensures l <= r ==> StableSortedRange(Zip(arr', idx'), Zip(arr, idx), 0, r - l + 1)
  {
    var s := TimSortFrom(Zip(arr, idx), 0, r - l + 1);
    arr', idx' := Keys(s), Payloads(s);
    assert Zip(arr', idx') == s;
  }

  /** `timSort` with the range counted from `l`: sorts `arr[l..r]`. */
  method TimSortRangeKeys(arr: seq<int>, l: int, r: int) returns (res: seq<int>)
    requires l <= r ==> 0 <= l && r < |arr|
    ensures |res| == |arr|
    ensures l > r ==> res == arr
    ensures l <= r ==> SortedIntRange(res, arr, l, r + 1)
  {
    if l > r {
      return arr;
    }
    var s := TimSortFrom(Plain(arr), l, r - l + 1);
    res := Keys(s);
    PlainStableRange(s, arr, l, r + 1);
  }

  /** `timSort_with_idx` with the range counted from `l`: stably sorts `arr[l..r]`, carrying `arr_idx` along. */
  method TimSortRangeWithIdx(arr: seq<int>, idx: seq<int>, l: int, r: int) returns (arr': seq<int>, idx': seq<int>)
    requires |idx| == |arr|
    requires l <= r ==> 0 <= l && r < |arr|
    ensures |arr'| == |arr| && |idx'| == |idx|
    ensures l > r ==> arr' == arr && idx' == idx
    ensures l <= r ==> StableSortedRange(Zip(arr', idx'), Zip(arr, idx), l, r + 1)
  {
    if l > r {
      return arr, idx;
    }
    var s := TimSortFrom(Zip(arr, idx), l, r - l + 1);
    arr', idx' := Keys(s), Payloads(s);
    assert Zip(arr', idx') == s;
  }

  /**
   * Sorting the range `[1, 2]` of `[3, 2, 1]` with `timSort` as written
   * sorts positions 0 and 1 instead and leaves the range out of order.
   */
  method TimSortOffsetWitness() returns (res: seq<int>)
    ensures res == [2, 3, 1]
    ensures !SortedInts(res[1..3])
  {
    res := TimSortKeys([3, 2, 1], 1, 2);
    SortedPrefixOfThree(res);
  }

  /** The only result of sorting positions 0 and 1 of `[3, 2, 1]`. */
  lemma SortedPrefixOfThree(res: seq<int>)
    requires SortedIntRange(res, [3, 2, 1], 0, 2)
    ensures res == [2, 3, 1]
    ensures !SortedInts(res[1..3])
  {
    var arr := [3, 2, 1];
    assert arr[0..2] == [3, 2];
    SortedPair(res[0..2], 2, 3);
    assert res[0] == 2 && res[1] == 3 by {
      assert res[0..2][0] == res[0] && res[0..2][1] == res[1];
    }
    assert res[2] == 1 by {
      assert res[2..] == arr[2..] == [1];
      assert res[2..][0] == res[2];
    }
    ThreeListed(res, 2, 3, 1);
    assert res[1..3][0] == 3 && res[1..3][1] == 1;
  }

  /** A sorted pair holding `a < b`, in either order, is `[a, b]`. */
  lemma SortedPair(s: seq<int>, a: int, b: int)
    requires a < b && |s| == 2 && SortedInts(s)
    requires multiset(s) == multiset([b, a]) || multiset(s) == multiset([a, b])
    ensures s == [a, b]
  {
    assert multiset([b, a]) == multiset([a, b]);
    assert s[0] in multiset(s) && s[1] in multiset(s);
    assert s == [s[0], s[1]];
  }

  lemma ThreeListed(s: seq<int>, x: int, y: int, z: int)
    requires |s| == 3 && s[0] == x && s[1] == y && s[2] == z
    ensures s == [x, y, z]
  {
  }

  /** The range-respecting sort puts the same range in order. */
  method TimSortRangeWitness() returns (res: seq<int>)
    ensures res == [3, 1, 2]
  {
    res := TimSortRangeKeys([3, 2, 1], 1, 2);
    SortedSuffixOfThree(res);
  }

  /** The only result of sorting positions 1 and 2 of `[3, 2, 1]`. */
  lemma SortedSuffixOfThree(res: seq<int>)
    requires SortedIntRange(res, [3, 2, 1], 1, 3)
    ensures res == [3, 1, 2]
  {
    var arr := [3, 2, 1];
    assert arr[1..3] == [2, 1];
    SortedPair(res[1..3], 1, 2);
    assert res[1] == 1 && res[2] == 2 by {
      assert res[1..3][0] == res[1] && res[1..3][1] == res[2];
    }
    assert res[0] == 3 by {
      assert res[..1] == arr[..1] == [3];
      assert res[..1][0] == res[0];
    }
    ThreeListed(res, 3, 1, 2);
  }
}
