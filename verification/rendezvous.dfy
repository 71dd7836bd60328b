/**
 * The rank-local halves of the bucket rendezvous in
 * `src/core/algorithm/bucket.c`.
 *
 * `map_idxlist_to_RD_decomp` assigns every index of a rank's list to a
 * bucket, stably sorts the list by bucket while recording each index's
 * original position, counts the indices per bucket and sends each bucket
 * its slice of the sorted list. `map_RD_decomp_to_idxlist` joins, inside a
 * bucket, the indices the source side sent with those the destination side
 * sent, sends each source rank back the destination rank of each of its
 * indices and sorts the answer by rank.
 */
module Rendezvous {
  import opened Seqs
  import opened SortSpec
  import MergeSort
  import Buckets

  // ---------------------------------------------------------------------------
  // Runs of a list sorted by bucket
  // ---------------------------------------------------------------------------

  /** How many elements of `s` are smaller than `b`. */
  function Below(s: seq<int>, b: int): nat
  {
    if |s| == 0 then 0 else Below(s[..|s| - 1], b) + (if s[|s| - 1] < b then 1 else 0)
  }

  lemma {:induction false} BelowNext(s: seq<int>, b: int)
    ensures Below(s, b + 1) == Below(s, b) + Count(s, b)
    decreases |s|
  {
    if |s| > 0 {
      BelowNext(s[..|s| - 1], b);
    }
  }

  lemma {:induction false} BelowZero(s: seq<int>)
    requires forall i :: 0 <= i < |s| ==> 0 <= s[i]
    ensures Below(s, 0) == 0
    decreases |s|
  {
    if |s| > 0 {
      BelowZero(s[..|s| - 1]);
    }
  }

  /** In a sorted list the elements below `b` are exactly a prefix. */
  lemma {:induction false} SortedBelow(s: seq<int>, b: int)
    requires SortedInts(s)
    ensures Below(s, b) <= |s|
    ensures forall i :: 0 <= i < |s| ==> (i < Below(s, b) <==> s[i] < b)
    decreases |s|
  {
    if |s| > 0 {
      SortedBelow(s[..|s| - 1], b);
    }
  }

  /** Laying out the per-bucket counts, bucket `b` starts after every smaller bucket. */
  lemma {:induction false} OffsetBelow(s: seq<int>, counts: seq<int>, b: int)
    requires 0 <= b <= |counts| && forall c :: 0 <= c < |counts| ==> counts[c] == Count(s, c)
    requires forall i :: 0 <= i < |s| ==> 0 <= s[i]
    ensures Offset(counts, b) == Below(s, b)
    decreases b
  {
    if b == 0 {
      BelowZero(s);
    } else {
      OffsetBelow(s, counts, b - 1);
      assert counts[..b][..b - 1] == counts[..b - 1];
      BelowNext(s, b - 1);
    }
  }

  /** The entries with key `k` form the slice `[lo, hi)`, so filtering them out gives that slice. */
  lemma {:induction false} FilterRange<P>(s: seq<Entry<P>>, k: int, lo: int, hi: int)
    requires 0 <= lo <= hi <= |s|
    requires forall i :: 0 <= i < |s| ==> (s[i].key == k <==> lo <= i < hi)
    ensures Filter(s, k) == s[lo..hi]
    decreases |s|
  {
    if |s| > 0 {
      if lo == 0 && hi > 0 {
        FilterRange(s[1..], k, 0, hi - 1);
        assert s[lo..hi] == [s[0]] + s[1..][0..hi - 1];
      } else if lo == 0 {
        FilterRange(s[1..], k, 0, 0);
      } else {
        FilterRange(s[1..], k, lo - 1, hi - 1);
        assert s[lo..hi] == s[1..][lo - 1..hi - 1];
      }
    }
  }

  /**
   * In entries sorted by bucket, with `counts[c]` entries in bucket `c`,
   * bucket `b`'s entries are the `counts[b]` entries at bucket `b`'s offset.
   */
  lemma BucketRun<P>(s: seq<Entry<P>>, counts: seq<int>, b: int)
    requires Sorted(s) && 0 <= b < |counts|
    requires forall i :: 0 <= i < |s| ==> 0 <= s[i].key < |counts|
    requires forall c :: 0 <= c < |counts| ==> counts[c] == Count(Keys(s), c)
    ensures 0 <= Offset(counts, b) <= Offset(counts, b) + counts[b] <= |s|
    ensures Filter(s, b) == s[Offset(counts, b)..Offset(counts, b) + counts[b]]
  {
    var k := Keys(s);
    SortedKeys(s);
    OffsetBelow(k, counts, b);
    OffsetBelow(k, counts, b + 1);
    assert counts[..b + 1][..b] == counts[..b];
    BelowNext(k, b);
    SortedBelow(k, b);
    SortedBelow(k, b + 1);
    FilterRange(s, b, Below(k, b), Below(k, b + 1));
  }

  // ---------------------------------------------------------------------------
  // The local step of `map_idxlist_to_RD_decomp`
  // ---------------------------------------------------------------------------

  /** Every index keyed by its bucket, carrying the index and its position in the list. */
  function Tagged(list: seq<int>, size: int, nranks: int): (t: seq<Entry<(int, int)>>)
    requires size != 0
    ensures |t| == |list|
    ensures forall i :: 0 <= i < |list| ==> t[i] == Entry(Buckets.AssignBucket(list[i], size, nranks), (list[i], i))
  {
    seq(|list|, i requires 0 <= i < |list| => Entry(Buckets.AssignBucket(list[i], size, nranks), (list[i], i)))
  }

  function IndexOf(e: Entry<(int, int)>): int
  {
    e.payload.0
  }

  function PositionOf(e: Entry<(int, int)>): int
  {
    e.payload.1
  }

  /** The indices of `list` that belong to bucket `b`, in list order. */
  function Members(list: seq<int>, size: int, nranks: int, b: int): seq<int>
    requires size != 0
  {
    MapSeq(IndexOf, Filter(Tagged(list, size, nranks), b))
  }

  /** `Filter` keeps every entry with the key. */
  lemma {:induction false} FilterKeeps<P>(s: seq<Entry<P>>, k: int, i: int)
    requires 0 <= i < |s| && s[i].key == k
    ensures s[i] in Filter(s, k)
    decreases |s|
  {
    if i > 0 {
      FilterKeeps(s[1..], k, i - 1);
    }
  }

  /** An index is a member of bucket `b` exactly when the list holds it and it belongs to `b`. */
  lemma MembersIn(list: seq<int>, size: int, nranks: int, b: int, x: int)
    requires size != 0
    ensures x in Members(list, size, nranks, b) <==> x in list && Buckets.AssignBucket(x, size, nranks) == b
  {
    var t := Tagged(list, size, nranks);
    var f := Filter(t, b);
    if x in Members(list, size, nranks, b) {
      var k :| 0 <= k < |f| && IndexOf(f[k]) == x;
      FilterMember(t, b, f[k]);
    }
    if x in list && Buckets.AssignBucket(x, size, nranks) == b {
      var i :| 0 <= i < |list| && list[i] == x;
      FilterKeeps(t, b, i);
      var k :| 0 <= k < |f| && f[k] == t[i];
      assert MapSeq(IndexOf, f)[k] == x;
    }
  }

  /** What one rank holds after the local part of `map_idxlist_to_RD_decomp`. */
  datatype LocalPlan = LocalPlan(
    buckets: seq<int>,      // bucket of each sorted entry
    sortedIdx: seq<int>,    // the list, sorted by bucket
    local: seq<int>,        // where each sorted entry stood in the list
    sizeRanks: seq<int>,    // how many indices go to each bucket
    msgs: seq<seq<int>>)    // the slice sent to each bucket

  /**
   * What the local step of `map_idxlist_to_RD_decomp` leaves on a rank
   * with list `list`: the buckets sorted, every sorted entry pointing back
   * at its position in the list (the positions a permutation of
   * `0 .. |list|-1`), and the message to each bucket holding exactly the
   * rank's indices of that bucket, in list order, the messages tiling the
   * sorted list.
   */
  ghost predicate Planned(p: LocalPlan, list: seq<int>, size: int, nranks: int)
  {
    && size != 0
    && |p.buckets| == |list| && |p.sortedIdx| == |list| && |p.local| == |list|
    && |p.sizeRanks| == nranks && |p.msgs| == nranks
    && SortedInts(p.buckets)
    && (forall k :: 0 <= k < |list| ==>
          && 0 <= p.local[k] < |list|
          && p.sortedIdx[k] == list[p.local[k]]
          && p.buckets[k] == Buckets.AssignBucket(p.sortedIdx[k], size, nranks))
    && multiset(p.local) == multiset(seq(|list|, i => i))
    && (forall b :: 0 <= b < nranks ==>
          p.sizeRanks[b] == |p.msgs[b]| && p.msgs[b] == Members(list, size, nranks, b))
    && Concat(p.msgs) == p.sortedIdx
  }

  /**
   * The local step: bucket assignment (for a negative stride), the stable
   * three-way sort of (bucket, index, position) when the list is not
   * empty, the per-bucket counts and the slices sent to the buckets.
   */
  method LocalStep(list: seq<int>, size: int, nranks: int) returns (p: LocalPlan)
    requires 0 < size && 0 < nranks
    requires forall i :: 0 <= i < |list| ==> -size < list[i]
    ensures Planned(p, list, size, nranks)
  {
    var buckets, sortedIdx, local := SortByBucket(list, size, nranks);
    ghost var s := Zip2(buckets, sortedIdx, local);
    SortedEntries(list, size, nranks, s);
    assert MapSeq(PositionOf, s) == local;
    var sizeRanks := Buckets.NumIndicesToSend(buckets, nranks);
    CountsOfSorted(buckets, nranks, sizeRanks);
    var msgs := Buckets.SendSlices(sortedIdx, sizeRanks);
    p := LocalPlan(buckets, sortedIdx, local, sizeRanks, msgs);
    assert sortedIdx[..Sum(sizeRanks)] == sortedIdx;
    assert sortedIdx == MapSeq(IndexOf, s) && Keys(s) == buckets;
    SlicesAreMembers(list, size, nranks, s, sizeRanks);
  }

  /**
   * Lines 55-73: assign each index to its bucket and, when the list is not
   * empty, merge sort the buckets with the indices and the positions
   * `0 .. n-1` carried along.
   */
  method SortByBucket(list: seq<int>, size: int, nranks: int)
    returns (buckets: seq<int>, sortedIdx: seq<int>, local: seq<int>)
    requires 0 < size && 0 < nranks
    requires forall i :: 0 <= i < |list| ==> -size < list[i]
    ensures |buckets| == |list| && |sortedIdx| == |list| && |local| == |list|
    ensures Buckets.InBuckets(buckets, nranks)
    ensures Sorted(Zip2(buckets, sortedIdx, local))
    ensures SameRuns(Zip2(buckets, sortedIdx, local), Tagged(list, size, nranks))
    ensures multiset(Zip2(buckets, sortedIdx, local)) == multiset(Tagged(list, size, nranks))
  {
    var n := |list|;
    var iota := seq(n, i => i);
    buckets := Buckets.AssignBuckets(list, size, nranks);
    InBucketsAssigned(list, size, nranks, buckets);
    sortedIdx, local := list, iota;
    ghost var t := Tagged(list, size, nranks);
    assert Zip2(buckets, list, iota) == t;
    if n > 0 {
      ghost var b0 := buckets;
      buckets, sortedIdx, local := MergeSort.MergeSortWithIdx2(buckets, list, iota, 0, n - 1);
      assert Zip2(buckets, sortedIdx, local)[0..n] == Zip2(buckets, sortedIdx, local);
      assert t[0..n] == t;
      SameRunsMultiset(Zip2(buckets, sortedIdx, local), t);
      assert multiset(buckets) == multiset(b0) by {
        MultisetKeys(Zip2(buckets, sortedIdx, local), t);
        assert Keys(Zip2(buckets, sortedIdx, local)) == buckets && Keys(t) == b0;
      }
      assert Buckets.InBuckets(buckets, nranks) by {
        forall k | 0 <= k < n
          ensures 0 <= buckets[k] < nranks
        {
          assert buckets[k] in multiset(b0);
        }
      }
    }
    SameRunsMultiset(Zip2(buckets, sortedIdx, local), t);
  }

  /** The counts of a list sorted by bucket are the number of indices in each bucket. */
  lemma CountsOfSorted(buckets: seq<int>, nranks: int, sizeRanks: seq<int>)
    requires SortedInts(buckets) && |sizeRanks| == nranks
    requires forall b :: 0 <= b < nranks ==> sizeRanks[b] >= 0
    requires Buckets.Grouped(buckets) ==> forall b :: 0 <= b < nranks ==> sizeRanks[b] == multiset(buckets)[b]
    requires Buckets.Grouped(buckets) ==> Sum(sizeRanks) == |buckets|
    ensures NonNegative(sizeRanks) && Sum(sizeRanks) == |buckets|
    ensures forall b :: 0 <= b < nranks ==> sizeRanks[b] == Count(buckets, b)
  {
    Buckets.SortedGrouped(buckets);
    forall b | 0 <= b < nranks
      ensures sizeRanks[b] == Count(buckets, b)
    {
      CountMultiset(buckets, b);
    }
  }

  lemma SlicesAreMembers(list: seq<int>, size: int, nranks: int, s: seq<Entry<(int, int)>>, sizeRanks: seq<int>)
    requires 0 < size && 0 <= nranks == |sizeRanks|
    requires Sorted(s) && SameRuns(s, Tagged(list, size, nranks))
    requires Buckets.InBuckets(Keys(s), nranks)
    requires forall c :: 0 <= c < nranks ==> sizeRanks[c] == Count(Keys(s), c)
    ensures forall b :: 0 <= b < nranks ==>
              && 0 <= Offset(sizeRanks, b) <= Offset(sizeRanks, b) + sizeRanks[b] <= |s|
              && MapSeq(IndexOf, s)[Offset(sizeRanks, b)..Offset(sizeRanks, b) + sizeRanks[b]] == Members(list, size, nranks, b)
  {
    forall b | 0 <= b < nranks
      ensures 0 <= Offset(sizeRanks, b) <= Offset(sizeRanks, b) + sizeRanks[b] <= |s|
      ensures MapSeq(IndexOf, s)[Offset(sizeRanks, b)..Offset(sizeRanks, b) + sizeRanks[b]] == Members(list, size, nranks, b)
    {
      SliceIsMembers(list, size, nranks, s, sizeRanks, b);
    }
  }

  /** Bucket `b`'s run of the sorted entries carries the list's members of `b`. */
  lemma SliceIsMembers(list: seq<int>, size: int, nranks: int, s: seq<Entry<(int, int)>>, sizeRanks: seq<int>, b: int)
    requires 0 < size && 0 <= b < nranks == |sizeRanks|
    requires Sorted(s) && SameRuns(s, Tagged(list, size, nranks))
    requires forall i :: 0 <= i < |s| ==> 0 <= s[i].key < nranks
    requires forall c :: 0 <= c < nranks ==> sizeRanks[c] == Count(Keys(s), c)
    ensures 0 <= Offset(sizeRanks, b) <= Offset(sizeRanks, b) + sizeRanks[b] <= |s|
    ensures MapSeq(IndexOf, s)[Offset(sizeRanks, b)..Offset(sizeRanks, b) + sizeRanks[b]] == Members(list, size, nranks, b)
  {
    BucketRun(s, sizeRanks, b);
    var o := Offset(sizeRanks, b);
    assert MapSeq(IndexOf, s)[o..o + sizeRanks[b]] == MapSeq(IndexOf, s[o..o + sizeRanks[b]]);
  }

  /** A list whose indices exceed `-size` has every bucket in range. */
  lemma InBucketsAssigned(list: seq<int>, size: int, nranks: int, buckets: seq<int>)
    requires 0 < size && 0 < nranks && |buckets| == |list|
    requires forall i :: 0 <= i < |list| ==> -size < list[i]
    requires forall i :: 0 <= i < |list| ==> buckets[i] == Buckets.AssignBucket(list[i], size, nranks)
    ensures Buckets.InBuckets(buckets, nranks)
  {
    forall i | 0 <= i < |list|
      ensures 0 <= buckets[i] < nranks
    {
      if list[i] < 0 {
        assert buckets[i] == 0;
      }
    }
  }

  /** The facts a sort of the tagged list gives about each position. */
  lemma SortedEntries(list: seq<int>, size: int, nranks: int, s: seq<Entry<(int, int)>>)
    requires 0 < size && multiset(s) == multiset(Tagged(list, size, nranks))
    ensures |s| == |list|
    ensures forall k :: 0 <= k < |s| ==>
              && 0 <= PositionOf(s[k]) < |list|
              && IndexOf(s[k]) == list[PositionOf(s[k])]
              && s[k].key == Buckets.AssignBucket(IndexOf(s[k]), size, nranks)
    ensures multiset(MapSeq(PositionOf, s)) == multiset(seq(|list|, i => i))
  {
    var t := Tagged(list, size, nranks);
    assert |s| == |multiset(s)| == |multiset(t)| == |t|;
    forall k | 0 <= k < |s|
      ensures 0 <= PositionOf(s[k]) < |list| && IndexOf(s[k]) == list[PositionOf(s[k])]
      ensures s[k].key == Buckets.AssignBucket(IndexOf(s[k]), size, nranks)
    {
      assert s[k] in multiset(t);
      var i :| 0 <= i < |t| && t[i] == s[k];
    }
    MultisetMap(PositionOf, s, t);
    assert MapSeq(PositionOf, t) == seq(|list|, i => i);
  }

  // ---------------------------------------------------------------------------
  // The local steps of `map_RD_decomp_to_idxlist`
  // ---------------------------------------------------------------------------

  /**
   * The value paired with the last occurrence of `x` among `keys`, or
   * `None` when `x` does not occur.
   */
  function LastMatch(keys: seq<int>, vals: seq<int>, x: int): (r: Option<int>)
    requires |keys| == |vals|
    ensures r.Some? <==> x in keys
    ensures r.Some? ==> exists j :: 0 <= j < |keys| && keys[j] == x && vals[j] == r.value && x !in keys[j + 1..]
    decreases |keys|
  {
    var n := |keys|;
    if n == 0 then None
    else if keys[n - 1] == x then
      assert keys[n..] == [];
      Some(vals[n - 1])
    else
      var r := LastMatch(keys[..n - 1], vals[..n - 1], x);
      assert x in keys[..n - 1] ==> x in keys;
      assert x in keys ==> x in keys[..n - 1] by {
        if x in keys {
          var j :| 0 <= j < n && keys[j] == x;
          assert keys[..n - 1][j] == x;
        }
      }
      if r.Some? then
        var j :| 0 <= j < n - 1 && keys[..n - 1][j] == x && vals[..n - 1][j] == r.value && x !in keys[..n - 1][j + 1..];
        assert keys[j + 1..] == keys[..n - 1][j + 1..] + [keys[n - 1]];
        r
      else r
  }

  /**
   * Lines 123-127: for every index the source side sent to the bucket, the
   * rank the destination side recorded for the last equal index, or `None`
   * when the destination side sent no equal index (the array entry stays
   * unset).
   */
  method Join(srcIdx: seq<int>, dstIdx: seq<int>, dstRanks: seq<int>) returns (joined: seq<Option<int>>)
    requires |dstIdx| == |dstRanks|
    ensures |joined| == |srcIdx|
    ensures forall i :: 0 <= i < |srcIdx| ==> joined[i] == LastMatch(dstIdx, dstRanks, srcIdx[i])
  {
    joined := [];
    var i := 0;
    while i < |srcIdx|
      invariant 0 <= i <= |srcIdx| && |joined| == i
      invariant forall k :: 0 <= k < i ==> joined[k] == LastMatch(dstIdx, dstRanks, srcIdx[k])
    {
      var found: Option<int> := None;
      var j := 0;
      while j < |dstIdx|
        invariant 0 <= j <= |dstIdx|
        invariant found == LastMatch(dstIdx[..j], dstRanks[..j], srcIdx[i])
      {
        assert dstIdx[..j + 1][..j] == dstIdx[..j] && dstRanks[..j + 1][..j] == dstRanks[..j];
        if dstIdx[j] == srcIdx[i] {
          found := Some(dstRanks[j]);
        }
        j := j + 1;
      }
      assert dstIdx[..j] == dstIdx && dstRanks[..j] == dstRanks;
      joined := joined + [found];
      i := i + 1;
    }
  }

  /** The ranks of a join in which every index found a match, or `None`. */
  function Matched(joined: seq<Option<int>>): (r: Option<seq<int>>)
    ensures r.Some? <==> forall i :: 0 <= i < |joined| ==> joined[i].Some?
    ensures r.Some? ==> |r.value| == |joined| && forall i :: 0 <= i < |joined| ==> joined[i] == Some(r.value[i])
  {
    if forall i :: 0 <= i < |joined| ==> joined[i].Some? then
      Some(seq(|joined|, i requires 0 <= i < |joined| => joined[i].value))
    else None
  }

  /**
   * Line 155: when the list is not empty, the received ranks are stably
   * sorted with the positions carried along.
   */
  method SortByRank(rankExch: seq<int>, local: seq<int>) returns (ranks: seq<int>, positions: seq<int>)
    requires |rankExch| == |local|
    ensures |ranks| == |local| && |positions| == |local|
    ensures Sorted(Zip(ranks, positions)) && SameRuns(Zip(ranks, positions), Zip(rankExch, local))
    ensures multiset(Zip(ranks, positions)) == multiset(Zip(rankExch, local))
  {
    var n := |local|;
    ranks, positions := rankExch, local;
    if n > 0 {
      ranks, positions := MergeSort.MergeSortWithIdx(rankExch, local, 0, n - 1);
      assert Zip(ranks, positions)[0..n] == Zip(ranks, positions) && Zip(rankExch, local)[0..n] == Zip(rankExch, local);
    }
    SameRunsMultiset(Zip(ranks, positions), Zip(rankExch, local));
  }
}
