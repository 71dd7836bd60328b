/**
 * The quicksorts of the sorting library. `Partition` is Lomuto's scheme with
 * the last entry as pivot; `QuickSort` recurses on both sides; `QuickSortIter`
 * keeps the pending ranges on an explicit stack of `h - l + 1` slots. The
 * sorts are not stable, so their contracts state a sorted permutation.
 */
module QuickSort {
  import opened SortSpec

  /** `swap`: exchanges two positions. */
  function Swap<T>(s: seq<T>, x: int, y: int): (r: seq<T>)
    requires 0 <= x < |s| && 0 <= y < |s|
    ensures |r| == |s| && r[x] == s[y] && r[y] == s[x]
    ensures forall q :: 0 <= q < |s| && q != x && q != y ==> r[q] == s[q]
  {
    s[x := s[y]][y := s[x]]
  }

  /** Swapping two positions inside a range keeps the range's contents. */
  lemma SwapSlice<T>(s: seq<T>, x: int, y: int, lo: int, hi: int)
    requires 0 <= lo <= x < hi <= |s| && lo <= y < hi
    ensures multiset(Swap(s, x, y)[lo..hi]) == multiset(s[lo..hi])
  {
    var t := s[lo..hi];
    assert Swap(s, x, y)[lo..hi] == t[x - lo := t[y - lo]][y - lo := t[x - lo]];
  }

  /**
   * What the loop of `partition` keeps after scanning `[l, j)`: the entries
   * at or below the pivot `arr[h]` fill `[l, i]`, the larger ones `(i, j)`,
   * and only `[l, h)` has been rearranged.
   */
  ghost predicate ScanState<P>(res: seq<Entry<P>>, arr: seq<Entry<P>>, l: int, h: int, i: int, j: int)
    requires 0 <= l <= h < |arr|
  {
    && l <= j <= h && l - 1 <= i < j
    && |res| == |arr| && res[h] == arr[h]
    && (forall q :: 0 <= q < |arr| && !(l <= q <= h) ==> res[q] == arr[q])
    && multiset(res[l..h + 1]) == multiset(arr[l..h + 1])
    && (forall q :: l <= q <= i ==> res[q].key <= arr[h].key)
    && (forall q :: i < q < j ==> res[q].key > arr[h].key)
  }

  /** An entry above the pivot stays where it is and joins the upper part. */
  lemma ScanKeep<P>(res: seq<Entry<P>>, arr: seq<Entry<P>>, l: int, h: int, i: int, j: int)
    requires 0 <= l <= h < |arr| && ScanState(res, arr, l, h, i, j)
    requires j < h && res[j].key > arr[h].key
    ensures ScanState(res, arr, l, h, i, j + 1)
  {
  }

  /** An entry at or below the pivot is swapped to the end of the lower part. */
  lemma ScanTake<P>(res: seq<Entry<P>>, arr: seq<Entry<P>>, l: int, h: int, i: int, j: int)
    requires 0 <= l <= h < |arr| && ScanState(res, arr, l, h, i, j)
    requires j < h && res[j].key <= arr[h].key
    ensures ScanState(Swap(res, i + 1, j), arr, l, h, i + 1, j + 1)
  {
    var res' := Swap(res, i + 1, j);
    SwapSlice(res, i + 1, j, l, h + 1);
    assert res'[i + 1] == res[j];
    assert i + 1 < j ==> res'[j] == res[i + 1] && res[i + 1].key > arr[h].key;
    assert forall q :: 0 <= q < |arr| && q != i + 1 && q != j ==> res'[q] == res[q];
  }

  /**
   * The loop of `partition`: scanning `j` over `[l, h)`, every entry with a
   * key at or below the pivot `arr[h]` is swapped to the end of the prefix
   * `[l, i]`.
   */
  method PartitionScan<P>(arr: seq<Entry<P>>, l: int, h: int) returns (res: seq<Entry<P>>, i: int)
    requires 0 <= l <= h < |arr|
    ensures |res| == |arr| && l - 1 <= i < h && res[h] == arr[h]
    ensures forall q :: 0 <= q < |arr| && !(l <= q <= h) ==> res[q] == arr[q]
    ensures multiset(res[l..h + 1]) == multiset(arr[l..h + 1])
    ensures forall q :: l <= q <= i ==> res[q].key <= arr[h].key
    ensures forall q :: i < q < h ==> res[q].key > arr[h].key
    ensures ScanState(res, arr, l, h, i, h)
  {
    i := l - 1;
    res := arr;
    var j := l;
    while j <= h - 1
      invariant ScanState(res, arr, l, h, i, j)
    {
      res, i := ScanOne(res, arr, l, h, i, j);
      j := j + 1;
    }
  }

  /** One pass of the loop of `partition`: position `j` is compared with the pivot and swapped down if it is no larger. */
  method ScanOne<P>(res: seq<Entry<P>>, arr: seq<Entry<P>>, l: int, h: int, i: int, j: int)
    returns (res': seq<Entry<P>>, i': int)
    requires 0 <= l <= h < |arr| && ScanState(res, arr, l, h, i, j) && j < h
    ensures ScanState(res', arr, l, h, i', j + 1)
    ensures res[j].key <= arr[h].key ==> i' == i + 1 && res' == Swap(res, i + 1, j)
    ensures res[j].key > arr[h].key ==> i' == i && res' == res
  {
    if res[j].key <= arr[h].key {
      ScanTake(res, arr, l, h, i, j);
      res', i' := Swap(res, i + 1, j), i + 1;
    } else {
      ScanKeep(res, arr, l, h, i, j);
      res', i' := res, i;
    }
  }

  /**
   * `partition`: the pivot `arr[h]` ends at `p`, with every key at or below it
   * in `[l, p)` and every larger key in `(p, h]`; nothing outside `[l, h]`
   * moves.
   */
  method Partition<P>(arr: seq<Entry<P>>, l: int, h: int) returns (res: seq<Entry<P>>, p: int)
    requires 0 <= l <= h < |arr|
    ensures |res| == |arr| && l <= p <= h
    ensures forall q :: 0 <= q < |arr| && !(l <= q <= h) ==> res[q] == arr[q]
    ensures multiset(res[l..h + 1]) == multiset(arr[l..h + 1])
    ensures res[p] == arr[h]
    ensures forall q :: l <= q < p ==> res[q].key <= arr[h].key
    ensures forall q :: p < q <= h ==> res[q].key > arr[h].key
  {
    var t, i := PartitionScan(arr, l, h);
    PivotSwap(t, arr, l, h, i);
    res := Swap(t, i + 1, h);
    p := i + 1;
  }

  /** Swapping the pivot to just past the lower part puts it between the two parts. */
  lemma PivotSwap<P>(t: seq<Entry<P>>, arr: seq<Entry<P>>, l: int, h: int, i: int)
    requires 0 <= l <= h < |arr| && ScanState(t, arr, l, h, i, h)
    ensures var res := Swap(t, i + 1, h);
      && (forall q :: 0 <= q < |arr| && !(l <= q <= h) ==> res[q] == arr[q])
      && multiset(res[l..h + 1]) == multiset(arr[l..h + 1])
      && res[i + 1] == arr[h]
      && (forall q :: l <= q < i + 1 ==> res[q].key <= arr[h].key)
      && (forall q :: i + 1 < q <= h ==> res[q].key > arr[h].key)
  {
    var res := Swap(t, i + 1, h);
    SwapSlice(t, i + 1, h, l, h + 1);
    assert i + 1 < h ==> res[h] == t[i + 1] && t[i + 1].key > arr[h].key;
    assert forall q :: 0 <= q < |arr| && q != i + 1 && q != h ==> res[q] == t[q];
  }

  // ---------------------------------------------------------------------------
  // Facts shared by both quicksorts
  // ---------------------------------------------------------------------------

  /** Bounds on keys carry over to any permutation. */
  lemma KeysBelow<P>(a: seq<Entry<P>>, b: seq<Entry<P>>, x: int)
    requires multiset(a) == multiset(b)
    requires forall q :: 0 <= q < |b| ==> b[q].key <= x
    ensures forall q :: 0 <= q < |a| ==> a[q].key <= x
  {
    forall q | 0 <= q < |a|
      ensures a[q].key <= x
    {
      assert a[q] in multiset(b);
    }
  }

  lemma KeysAbove<P>(a: seq<Entry<P>>, b: seq<Entry<P>>, x: int)
    requires multiset(a) == multiset(b)
    requires forall q :: 0 <= q < |b| ==> b[q].key > x
    ensures forall q :: 0 <= q < |a| ==> a[q].key > x
  {
    forall q | 0 <= q < |a|
      ensures a[q].key > x
    {
      assert a[q] in multiset(b);
    }
  }

  /** Replacing `[lo, hi)` by a permutation of it permutes any enclosing range. */
  lemma MultisetSplice<T>(res: seq<T>, arr: seq<T>, lo: int, hi: int, c: int, d: int)
    requires 0 <= c <= lo <= hi <= d <= |arr| == |res|
    requires forall q :: 0 <= q < |arr| && !(lo <= q < hi) ==> res[q] == arr[q]
    requires multiset(res[lo..hi]) == multiset(arr[lo..hi])
    ensures multiset(res[c..d]) == multiset(arr[c..d])
  {
    assert res[c..lo] == arr[c..lo];
    assert res[hi..d] == arr[hi..d];
    assert res[c..d] == res[c..lo] + res[lo..hi] + res[hi..d];
    assert arr[c..d] == arr[c..lo] + arr[lo..hi] + arr[hi..d];
  }

  /** Two entries of a sorted sequence are in order. */
  lemma SortedAt<P>(t: seq<Entry<P>>, x: int, y: int)
    requires Sorted(t) && 0 <= x < y < |t|
    ensures t[x].key <= t[y].key
  {
  }

  /** A range holding two sorted sides around a pivot that separates them is sorted. */
  lemma JoinAroundPivot<P>(s: seq<Entry<P>>, l: int, p: int, h: int)
    requires 0 <= l <= p <= h < |s|
    requires Sorted(s[l..p]) && Sorted(s[p + 1..h + 1])
    requires forall q :: l <= q < p ==> s[q].key <= s[p].key
    requires forall q :: p < q <= h ==> s[q].key > s[p].key
    ensures Sorted(s[l..h + 1])
  {
    var r := s[l..h + 1];
    forall x, y | 0 <= x < y < |r|
      ensures r[x].key <= r[y].key
    {
      var i, j := l + x, l + y;
      assert r[x] == s[i] && r[y] == s[j];
      if j < p {
        SortedAt(s[l..p], i - l, j - l);
      } else if i > p {
        SortedAt(s[p + 1..h + 1], i - p - 1, j - p - 1);
      } else {
        assert i < p ==> s[i].key <= s[p].key;
        assert p < j ==> s[p].key < s[j].key;
      }
    }
  }

  // ---------------------------------------------------------------------------
  // Recursive quicksort
  // ---------------------------------------------------------------------------

  /** Equal prefix and suffix: every position outside `[lo, hi)` is unchanged. */
  lemma KeepOutside<T>(res: seq<T>, arr: seq<T>, lo: int, hi: int)
    requires 0 <= lo <= hi <= |arr| == |res|
    requires res[..lo] == arr[..lo] && res[hi..] == arr[hi..]
    ensures forall q :: 0 <= q < |arr| && !(lo <= q < hi) ==> res[q] == arr[q]
  {
    forall q | 0 <= q < |arr| && !(lo <= q < hi)
      ensures res[q] == arr[q]
    {
      if q < lo {
        assert res[..lo][q] == arr[..lo][q];
      } else {
        assert res[hi..][q - hi] == arr[hi..][q - hi];
      }
    }
  }

  /** After sorting each side on its own, the keys still sit on the right side of the pivot key `x`. */
  lemma SortedSides<P>(a1: seq<Entry<P>>, a2: seq<Entry<P>>, a3: seq<Entry<P>>, l: int, pi: int, h: int, x: int)
    requires 0 <= l <= pi <= h < |a1|
    requires forall q :: l <= q < pi ==> a1[q].key <= x
    requires forall q :: pi < q <= h ==> a1[q].key > x
    requires PermSortedRange(a2, a1, l, pi) && PermSortedRange(a3, a2, pi + 1, h + 1)
    ensures Sorted(a3[l..pi]) && Sorted(a3[pi + 1..h + 1])
    ensures forall q :: l <= q < pi ==> a3[q].key <= x
    ensures forall q :: pi < q <= h ==> a3[q].key > x
  {
    assert a3[l..pi] == a2[l..pi] by {
      KeepOutside(a3, a2, pi + 1, h + 1);
    }
    assert a2[pi + 1..h + 1] == a1[pi + 1..h + 1] by {
      KeepOutside(a2, a1, l, pi);
    }
    forall q | l <= q < pi
      ensures a3[q].key <= x
    {
      BelowAll(a1, a3, l, pi - 1, q, x);
    }
    forall q | pi < q <= h
      ensures a3[q].key > x
    {
      AboveAll(a1, a3, pi + 1, h, q, x + 1);
    }
  }

  /** Sorting `[l, pi)` and then `(pi, h]` permutes `[l, h]`, leaves the pivot and everything outside in place. */
  lemma SortedBothSides<P>(a1: seq<Entry<P>>, a2: seq<Entry<P>>, a3: seq<Entry<P>>, l: int, pi: int, h: int)
    requires 0 <= l <= pi <= h < |a1| == |a2| == |a3|
    requires a2[..l] == a1[..l] && a2[pi..] == a1[pi..] && multiset(a2[l..pi]) == multiset(a1[l..pi])
    requires a3[..pi + 1] == a2[..pi + 1] && a3[h + 1..] == a2[h + 1..]
    requires multiset(a3[pi + 1..h + 1]) == multiset(a2[pi + 1..h + 1])
    ensures |a3| == |a1| && a3[pi] == a1[pi]
    ensures forall q :: 0 <= q < |a1| && !(l <= q <= h) ==> a3[q] == a1[q]
    ensures multiset(a3[l..h + 1]) == multiset(a1[l..h + 1])
  {
    KeepOutside(a2, a1, l, pi);
    KeepOutside(a3, a2, pi + 1, h + 1);
    assert a3[pi] == a2[pi] == a1[pi];
    SidesPermute(a1, a2, a3, l, pi, h);
  }

  /** Permuting `[l, pi)` and then `(pi, h]` permutes `[l, h]`. */
  lemma SidesPermute<P>(a1: seq<Entry<P>>, a2: seq<Entry<P>>, a3: seq<Entry<P>>, l: int, pi: int, h: int)
    requires 0 <= l <= pi <= h < |a1| == |a2| == |a3|
    requires forall q :: 0 <= q < |a1| && !(l <= q < pi) ==> a2[q] == a1[q]
    requires forall q :: 0 <= q < |a2| && !(pi + 1 <= q < h + 1) ==> a3[q] == a2[q]
    requires multiset(a2[l..pi]) == multiset(a1[l..pi])
    requires multiset(a3[pi + 1..h + 1]) == multiset(a2[pi + 1..h + 1])
    ensures multiset(a3[l..h + 1]) == multiset(a1[l..h + 1])
  {
    MultisetSplice(a2, a1, l, pi, l, h + 1);
    MultisetSplice(a3, a2, pi + 1, h + 1, l, h + 1);
  }

  /** Sorting both sides of a partitioned range sorts the range. */
  lemma SortedAroundPivot<P>(arr: seq<Entry<P>>, a1: seq<Entry<P>>, a2: seq<Entry<P>>, a3: seq<Entry<P>>,
                             l: int, pi: int, h: int)
    requires 0 <= l <= pi <= h < |arr| == |a1|
    requires forall q :: 0 <= q < |arr| && !(l <= q <= h) ==> a1[q] == arr[q]
    requires multiset(a1[l..h + 1]) == multiset(arr[l..h + 1])
    requires a1[pi] == arr[h]
    requires forall q :: l <= q < pi ==> a1[q].key <= arr[h].key
    requires forall q :: pi < q <= h ==> a1[q].key > arr[h].key
    requires PermSortedRange(a2, a1, l, pi)
    requires PermSortedRange(a3, a2, pi + 1, h + 1)
    ensures PermSortedRange(a3, arr, l, h + 1)
  {
    SortedBothSides(a1, a2, a3, l, pi, h);
    assert Sorted(a3[l..h + 1]) by {
      SortedSides(a1, a2, a3, l, pi, h, arr[h].key);
      JoinAroundPivot(a3, l, pi, h);
    }
    assert a3[..l] == arr[..l];
    assert a3[h + 1..] == arr[h + 1..];
  }

  /** `quickSort`: partitions `arr[l..h]` and sorts both sides of the pivot. */
  method QuickSort<P>(arr: seq<Entry<P>>, l: int, h: int) returns (res: seq<Entry<P>>)
    requires l < h ==> 0 <= l && h < |arr|
    ensures |res| == |arr|
    ensures l >= h ==> res == arr
    ensures 0 <= l <= h + 1 <= |arr| ==> PermSortedRange(res, arr, l, h + 1)
    decreases h - l
  {
    res := arr;
    if l < h {
      var a1, pi := Partition(arr, l, h);
      var a2 := QuickSort(a1, l, pi - 1);
      var a3 := QuickSort(a2, pi + 1, h);
      SortedAroundPivot(arr, a1, a2, a3, l, pi, h);
      res := a3;
    }
  }

  /** `quickSort`: sorts the plain key array `arr[l..h]`. */
  method QuickSortKeys(arr: seq<int>, l: int, h: int) returns (res: seq<int>)
    requires l < h ==> 0 <= l && h < |arr|
    ensures |res| == |arr|
    ensures l >= h ==> res == arr
    ensures 0 <= l <= h < |arr| ==> SortedIntRange(res, arr, l, h + 1)
  {
    var s := QuickSort(Plain(arr), l, h);
    res := Keys(s);
    if l >= h {
      assert Keys(Plain(arr)) == arr;
    }
    if 0 <= l <= h < |arr| {
      PlainPermRange(s, arr, l, h + 1);
    }
  }

  // ---------------------------------------------------------------------------
  // Iterative quicksort
  // ---------------------------------------------------------------------------

  /**
   * The stack holds pairs `l, h` of pending ranges, pushed in order. `InSame`
   * says that positions `i` and `j` lie in one pending range.
   */
  predicate InSame(stack: seq<int>, i: int, j: int)
    decreases |stack|
  {
    |stack| >= 2 &&
    ((stack[|stack| - 2] <= i && j <= stack[|stack| - 1]) || InSame(stack[..|stack| - 2], i, j))
  }

  /** The number of positions in pending ranges. */
  function Pending(stack: seq<int>): int
    decreases |stack|
  {
    if |stack| < 2 then 0
    else Pending(stack[..|stack| - 2]) + (stack[|stack| - 1] - stack[|stack| - 2] + 1)
  }

  /** Strictly ascending stack contents, so the pending ranges lie left to right and do not overlap. */
  lemma {:induction false} PendingBounds(stack: seq<int>)
    requires StrictlySortedInts(stack) && |stack| % 2 == 0
    ensures Pending(stack) >= 0
    ensures forall i, j :: InSame(stack, i, j) ==> j <= stack[|stack| - 1]
    decreases |stack|
  {
    if |stack| >= 2 {
      var rest := stack[..|stack| - 2];
      PendingBounds(rest);
      forall i, j | InSame(stack, i, j)
        ensures j <= stack[|stack| - 1]
      {
        if !(stack[|stack| - 2] <= i && j <= stack[|stack| - 1]) {
          assert InSame(rest, i, j);
          assert rest[|rest| - 1] == stack[|stack| - 3];
        }
      }
    }
  }

  /** A strictly ascending sequence of values in `[lo, hi]` has at most `hi - lo + 1` of them. */
  lemma {:induction false} StrictlyAscendingFits(s: seq<int>, lo: int, hi: int)
    requires StrictlySortedInts(s) && lo <= hi + 1
    requires forall q :: 0 <= q < |s| ==> lo <= s[q] <= hi
    ensures |s| <= hi - lo + 1
    decreases |s|
  {
    if |s| > 1 {
      assert forall q :: 0 <= q < |s| - 1 ==> s[1..][q] == s[q + 1] && s[0] < s[q + 1] <= hi;
      StrictlyAscendingFits(s[1..], s[0] + 1, hi);
    }
  }

  /**
   * Everything the loop of `QuickSortIter` keeps: entries outside
   * `[l0, h0]` untouched, the range permuted, the stack ascending inside
   * `[l0, h0]` with ranges of two or more positions, and every two positions
   * in order unless one pending range still holds both.
   */
  ghost predicate IterState<P>(t: seq<Entry<P>>, arr: seq<Entry<P>>, l0: int, h0: int, stack: seq<int>)
    requires 0 <= l0 <= h0 < |arr|
  {
    && |t| == |arr|
    && (forall q :: 0 <= q < |arr| && !(l0 <= q <= h0) ==> t[q] == arr[q])
    && multiset(t[l0..h0 + 1]) == multiset(arr[l0..h0 + 1])
    && |stack| % 2 == 0
    && StrictlySortedInts(stack)
    && (forall q :: 0 <= q < |stack| ==> l0 <= stack[q] <= h0)
    && (forall i, j :: l0 <= i < j <= h0 && !InSame(stack, i, j) ==> t[i].key <= t[j].key)
  }

  /** Pushing `[a, b]` when `b > a`, as both pushes of the loop do. */
  function PushIf(stack: seq<int>, a: int, b: int): (r: seq<int>)
    ensures forall i, j :: InSame(r, i, j) <==> (b > a && a <= i && j <= b) || InSame(stack, i, j)
  {
    var r := if b > a then stack + [a, b] else stack;
    assert b > a ==> r[..|r| - 2] == stack;
    r
  }

  /** Popping `[a, b]` and pushing the sides of `p` keeps the stack ascending inside `[l0, h0]`. */
  lemma StackStep(stack: seq<int>, l0: int, h0: int, a: int, b: int, p: int)
    requires |stack| >= 2 && |stack| % 2 == 0 && StrictlySortedInts(stack)
    requires forall q :: 0 <= q < |stack| ==> l0 <= stack[q] <= h0
    requires a == stack[|stack| - 2] && b == stack[|stack| - 1] && a <= p <= b
    ensures var rest := stack[..|stack| - 2];
            var stack' := PushIf(PushIf(rest, a, p - 1), p + 1, b);
            && |stack'| % 2 == 0 && StrictlySortedInts(stack')
            && (forall q :: 0 <= q < |stack'| ==> l0 <= stack'[q] <= h0)
            && (forall i, j :: InSame(stack, i, j) <==> (a <= i && j <= b) || InSame(rest, i, j))
            && (forall i, j :: InSame(rest, i, j) ==> j < a)
  {
    var rest := stack[..|stack| - 2];
    assert StrictlySortedInts(rest) && (|rest| > 0 ==> rest[|rest| - 1] < a) by {
      assert forall q :: 0 <= q < |rest| ==> rest[q] == stack[q];
    }
    PushesAscending(rest, l0, h0, a, b, p);
    assert forall i, j :: InSame(rest, i, j) ==> j < a by {
      PendingBounds(rest);
    }
  }

  /** Pushing a pair `x < y` above everything on an ascending stack keeps it ascending. */
  lemma PushPair(s: seq<int>, l0: int, h0: int, x: int, y: int)
    requires StrictlySortedInts(s) && (|s| > 0 ==> s[|s| - 1] < x)
    requires forall q :: 0 <= q < |s| ==> l0 <= s[q] <= h0
    requires l0 <= x < y <= h0
    ensures StrictlySortedInts(s + [x, y])
    ensures forall q :: 0 <= q < |s| + 2 ==> l0 <= (s + [x, y])[q] <= h0
  {
    var t := s + [x, y];
    forall i, j | 0 <= i < j < |t|
      ensures t[i] < t[j]
    {
      if i < |s| && j >= |s| {
        assert s[i] <= s[|s| - 1];
      }
    }
  }

  /** Pushing the sides of `p` inside `[a, b]` onto stack contents below `a` keeps them ascending inside `[l0, h0]`. */
  lemma PushesAscending(rest: seq<int>, l0: int, h0: int, a: int, b: int, p: int)
    requires |rest| % 2 == 0 && StrictlySortedInts(rest)
    requires forall q :: 0 <= q < |rest| ==> l0 <= rest[q] <= h0
    requires |rest| > 0 ==> rest[|rest| - 1] < a
    requires l0 <= a <= p <= b <= h0
    ensures var stack' := PushIf(PushIf(rest, a, p - 1), p + 1, b);
            && |stack'| % 2 == 0 && StrictlySortedInts(stack')
            && (forall q :: 0 <= q < |stack'| ==> l0 <= stack'[q] <= h0)
  {
    PushAbove(rest, l0, h0, a, p - 1);
    PushAbove(PushIf(rest, a, p - 1), l0, h0, p + 1, b);
  }

  /** Pushing `[x, y]` when `y > x` onto stack contents below `x` keeps them ascending, and nothing on top exceeds `y`. */
  lemma PushAbove(s: seq<int>, l0: int, h0: int, x: int, y: int)
    requires |s| % 2 == 0 && StrictlySortedInts(s)
    requires forall q :: 0 <= q < |s| ==> l0 <= s[q] <= h0
    requires |s| > 0 ==> s[|s| - 1] < x
    requires l0 <= x <= y + 1 && y <= h0
    ensures var r := PushIf(s, x, y);
            && |r| % 2 == 0 && StrictlySortedInts(r)
            && (forall q :: 0 <= q < |r| ==> l0 <= r[q] <= h0)
            && (|r| > 0 ==> r[|r| - 1] <= y)
  {
    if y > x {
      assert PushIf(s, x, y) == s + [x, y];
      PushPair(s, l0, h0, x, y);
    } else {
      assert PushIf(s, x, y) == s;
    }
  }

  /** An entry of a permutation of `t[a..b]` is at most a bound of all of them. */
  lemma BelowAll<P>(t: seq<Entry<P>>, t': seq<Entry<P>>, a: int, b: int, i: int, y: int)
    requires 0 <= a <= i <= b < |t| == |t'|
    requires multiset(t'[a..b + 1]) == multiset(t[a..b + 1])
    requires forall q :: a <= q <= b ==> t[q].key <= y
    ensures t'[i].key <= y
  {
    var s := t[a..b + 1];
    assert t'[i] in multiset(s) by {
      assert t'[a..b + 1][i - a] == t'[i];
    }
    var k :| 0 <= k < |s| && s[k] == t'[i];
    assert s[k] == t[a + k];
  }

  /** An entry of a permutation of `t[a..b]` is at least a bound of all of them. */
  lemma AboveAll<P>(t: seq<Entry<P>>, t': seq<Entry<P>>, a: int, b: int, j: int, y: int)
    requires 0 <= a <= j <= b < |t| == |t'|
    requires multiset(t'[a..b + 1]) == multiset(t[a..b + 1])
    requires forall q :: a <= q <= b ==> y <= t[q].key
    ensures y <= t'[j].key
  {
    var s := t[a..b + 1];
    assert t'[j] in multiset(s) by {
      assert t'[a..b + 1][j - a] == t'[j];
    }
    var k :| 0 <= k < |s| && s[k] == t'[j];
    assert s[k] == t[a + k];
  }

  /** The ordering part of `IterStep`. */
  lemma OrderAfterStep<P>(t: seq<Entry<P>>, t': seq<Entry<P>>, l0: int, h0: int,
                          stack: seq<int>, stack': seq<int>, rest: seq<int>, a: int, b: int, p: int)
    requires 0 <= l0 <= a <= p <= b <= h0 < |t| == |t'|
    requires forall i, j :: l0 <= i < j <= h0 && !InSame(stack, i, j) ==> t[i].key <= t[j].key
    requires forall i, j :: InSame(stack, i, j) <==> (a <= i && j <= b) || InSame(rest, i, j)
    requires forall i, j :: InSame(rest, i, j) ==> j < a
    requires forall i, j :: InSame(stack', i, j) <==> (p - 1 > a && a <= i && j <= p - 1) || (p + 1 < b && p + 1 <= i && j <= b) || InSame(rest, i, j)
    requires forall q :: 0 <= q < |t| && !(a <= q <= b) ==> t'[q] == t[q]
    requires multiset(t'[a..b + 1]) == multiset(t[a..b + 1])
    requires forall q :: a <= q < p ==> t'[q].key <= t'[p].key
    requires forall q :: p < q <= b ==> t'[q].key > t'[p].key
    ensures forall i, j :: l0 <= i < j <= h0 && !InSame(stack', i, j) ==> t'[i].key <= t'[j].key
  {
    forall i, j | l0 <= i < j <= h0 && !InSame(stack', i, j)
      ensures t'[i].key <= t'[j].key
    {
      if a <= i && j <= b {
        assert i <= p <= j;
      } else if a <= i <= b {
        assert forall q :: a <= q <= b ==> !InSame(stack, q, j);
        BelowAll(t, t', a, b, i, t[j].key);
      } else if a <= j <= b {
        assert forall q :: a <= q <= b ==> !InSame(stack, i, q);
        AboveAll(t, t', a, b, j, t[i].key);
      } else {
        assert !InSame(stack, i, j);
      }
    }
  }

  /** One pass of the loop: the top range `[a, b]` is partitioned and its two sides pushed if they hold two or more positions. */
  lemma IterStep<P>(t: seq<Entry<P>>, t': seq<Entry<P>>, arr: seq<Entry<P>>, l0: int, h0: int,
                    stack: seq<int>, a: int, b: int, p: int)
    requires 0 <= l0 <= h0 < |arr| && |stack| >= 2
    requires IterState(t, arr, l0, h0, stack)
    requires a == stack[|stack| - 2] && b == stack[|stack| - 1] && a <= p <= b
    requires |t'| == |t|
    requires forall q :: 0 <= q < |t| && !(a <= q <= b) ==> t'[q] == t[q]
    requires multiset(t'[a..b + 1]) == multiset(t[a..b + 1])
    requires forall q :: a <= q < p ==> t'[q].key <= t'[p].key
    requires forall q :: p < q <= b ==> t'[q].key > t'[p].key
    ensures IterState(t', arr, l0, h0, PushIf(PushIf(stack[..|stack| - 2], a, p - 1), p + 1, b))
  {
    var rest := stack[..|stack| - 2];
    var stack' := PushIf(PushIf(rest, a, p - 1), p + 1, b);
    assert l0 <= a && b <= h0;
    RangeStep(t, t', arr, l0, h0, a, b);
    StackStep(stack, l0, h0, a, b, p);
    OrderAfterStep(t, t', l0, h0, stack, stack', rest, a, b, p);
  }

  /** Permuting `[a, b]` inside `[l0, h0]` keeps `[l0, h0]` a permutation of the input and everything outside it. */
  lemma RangeStep<P>(t: seq<Entry<P>>, t': seq<Entry<P>>, arr: seq<Entry<P>>, l0: int, h0: int, a: int, b: int)
    requires 0 <= l0 <= a <= b <= h0 < |arr| == |t| == |t'|
    requires forall q :: 0 <= q < |arr| && !(l0 <= q <= h0) ==> t[q] == arr[q]
    requires multiset(t[l0..h0 + 1]) == multiset(arr[l0..h0 + 1])
    requires forall q :: 0 <= q < |t| && !(a <= q <= b) ==> t'[q] == t[q]
    requires multiset(t'[a..b + 1]) == multiset(t[a..b + 1])
    ensures forall q :: 0 <= q < |arr| && !(l0 <= q <= h0) ==> t'[q] == arr[q]
    ensures multiset(t'[l0..h0 + 1]) == multiset(arr[l0..h0 + 1])
  {
    MultisetSplice(t', t, a, b + 1, l0, h0 + 1);
  }

  /** The pivot leaves the pending ranges: one pass removes at least one pending position. */
  lemma PendingDrops(rest: seq<int>, l: int, h: int, p: int)
    requires l <= p <= h
    ensures Pending(PushIf(PushIf(rest, l, p - 1), p + 1, h)) < Pending(rest + [l, h])
  {
    assert (rest + [l, h])[..|rest|] == rest;
    if p - 1 > l {
      assert (rest + [l, p - 1])[..|rest|] == rest;
    }
    if p + 1 < h {
      var mid := PushIf(rest, l, p - 1);
      assert (mid + [p + 1, h])[..|mid|] == mid;
    }
  }

  /**
   * The loop of the iterative quicksort, from the initial push of `[l0, h0]`
   * until the stack is empty. `peak` is the largest number of stack slots
   * ever in use: it never exceeds the `h0 - l0 + 1` slots the stack array
   * has, so every push after the first two stays inside it.
   */
  method IterLoop<P>(arr: seq<Entry<P>>, l0: int, h0: int) returns (res: seq<Entry<P>>, peak: int)
    requires 0 <= l0 < h0 < |arr|
    ensures PermSortedRange(res, arr, l0, h0 + 1)
    ensures 2 <= peak <= h0 - l0 + 1
  {
    var stack := [l0, h0];
    peak := 2;
    res := arr;
    PendingBounds(stack);
    while |stack| > 0
      invariant IterState(res, arr, l0, h0, stack)
      invariant |stack| <= peak <= h0 - l0 + 1 && 2 <= peak
      invariant Pending(stack) >= 0
      decreases Pending(stack)
    {
      var h := stack[|stack| - 1];
      var l := stack[|stack| - 2];
      var rest := stack[..|stack| - 2];
      assert stack == rest + [l, h];
      var t, p := Partition(res, l, h);
      IterStep(res, t, arr, l0, h0, stack, l, h, p);
      stack := PushIf(PushIf(rest, l, p - 1), p + 1, h);
      res := t;
      StrictlyAscendingFits(stack, l0, h0);
      if |stack| > peak {
        peak := |stack|;
      }
      PendingBounds(stack);
      PendingDrops(rest, l, h, p);
    }
    IterDone(res, arr, l0, h0);
  }

  /** With no range pending, the state of the loop is the sorted, permuted range. */
  lemma IterDone<P>(res: seq<Entry<P>>, arr: seq<Entry<P>>, l0: int, h0: int)
    requires 0 <= l0 <= h0 < |arr| && IterState(res, arr, l0, h0, [])
    ensures PermSortedRange(res, arr, l0, h0 + 1)
  {
    assert res[..l0] == arr[..l0];
    assert res[h0 + 1..] == arr[h0 + 1..];
    assert Sorted(res[l0..h0 + 1]);
  }

  /**
   * The iterative quicksort as written: the stack array has `h - l + 1`
   * slots and the first two pushes happen unconditionally, so a range of
   * fewer than two entries writes past the end of the stack (`overflow`).
   * The model stops there and returns the input unchanged.
   */
  method QuickSortIter<P>(arr: seq<Entry<P>>, l: int, h: int) returns (res: seq<Entry<P>>, overflow: bool)
    requires l <= h ==> 0 <= l && h < |arr|
    ensures overflow <==> h - l + 1 < 2
    ensures overflow ==> res == arr
    ensures !overflow ==> PermSortedRange(res, arr, l, h + 1)
  {
    if h - l + 1 < 2 {
      return arr, true;
    }
    var peak;
    res, peak := IterLoop(arr, l, h);
    overflow := false;
  }

  /**
   * The iterative quicksort with the guard `l < h` of the recursive one: a
   * range of one entry, or none, is left alone, and nothing overflows.
   */
  method QuickSortIterGuarded<P>(arr: seq<Entry<P>>, l: int, h: int) returns (res: seq<Entry<P>>)
    requires l < h ==> 0 <= l && h < |arr|
    ensures |res| == |arr|
    ensures l >= h ==> res == arr
    ensures 0 <= l <= h + 1 <= |arr| ==> PermSortedRange(res, arr, l, h + 1)
  {
    if l >= h {
      return arr;
    }
    var peak;
    res, peak := IterLoop(arr, l, h);
  }

  /** `quickSort_with_idx` as written: sorts `arr[l..h]` and permutes `arr_idx` alike. */
  method QuickSortWithIdx(arr: seq<int>, idx: seq<int>, l: int, h: int)
    returns (arr': seq<int>, idx': seq<int>, overflow: bool)
    requires |idx| == |arr|
    requires l <= h ==> 0 <= l && h < |arr|
    ensures overflow <==> l >= h
    ensures |arr'| == |arr| && |idx'| == |idx|
    ensures overflow ==> arr' == arr && idx' == idx
    ensures !overflow ==> PermSortedRange(Zip(arr', idx'), Zip(arr, idx), l, h + 1)
  {
    var s;
    s, overflow := QuickSortIter(Zip(arr, idx), l, h);
    arr', idx' := Keys(s), Payloads(s);
    assert Zip(arr', idx') == s;
  }

  /** `quickSort_with_idx2` as written: sorts `arr[l..h]` and permutes both companions alike. */
  method QuickSortWithIdx2(arr: seq<int>, idx1: seq<int>, idx2: seq<int>, l: int, h: int)
    returns (arr': seq<int>, idx1': seq<int>, idx2': seq<int>, overflow: bool)
    requires |idx1| == |arr| && |idx2| == |arr|
    requires l <= h ==> 0 <= l && h < |arr|
    ensures overflow <==> l >= h
    ensures |arr'| == |arr| && |idx1'| == |arr| && |idx2'| == |arr|
    ensures overflow ==> arr' == arr && idx1' == idx1 && idx2' == idx2
    ensures !overflow ==> PermSortedRange(Zip2(arr', idx1', idx2'), Zip2(arr, idx1, idx2), l, h + 1)
  {
    var s;
    s, overflow := QuickSortIter(Zip2(arr, idx1, idx2), l, h);
    arr' := Keys(s);
    idx1' := seq(|s|, i requires 0 <= i < |s| => s[i].payload.0);
    idx2' := seq(|s|, i requires 0 <= i < |s| => s[i].payload.1);
    assert Zip2(arr', idx1', idx2') == s;
    if overflow {
      assert arr' == arr && idx1' == idx1 && idx2' == idx2;
    }
  }

  /** `quickSort_with_idx` with the guard `l < h`. */
  method QuickSortWithIdxGuarded(arr: seq<int>, idx: seq<int>, l: int, h: int)
    returns (arr': seq<int>, idx': seq<int>)
    requires |idx| == |arr|
    requires l < h ==> 0 <= l && h < |arr|
    ensures |arr'| == |arr| && |idx'| == |idx|
    ensures l >= h ==> arr' == arr && idx' == idx
    ensures 0 <= l <= h < |arr| ==> PermSortedRange(Zip(arr', idx'), Zip(arr, idx), l, h + 1)
  {
    var s := QuickSortIterGuarded(Zip(arr, idx), l, h);
    arr', idx' := Keys(s), Payloads(s);
    assert Zip(arr', idx') == s;
  }

  /** A one-entry range, which the recursive quicksort accepts, overflows the stack of the iterative one. */
  method QuickSortOneEntryWitness() returns (overflow: bool, guarded: seq<int>)
    ensures overflow
    ensures guarded == [7]
  {
    var a, i;
    a, i, overflow := QuickSortWithIdx([7], [0], 0, 0);
    var gi;
    guarded, gi := QuickSortWithIdxGuarded([7], [0], 0, 0);
  }
}
