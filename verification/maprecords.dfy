/**
 * The legacy `new_map` of `src/map.c`: the bucket size every rank
 * allocates, and the grouping of a rank's peer ranks (`rank_exch`, sorted
 * by the rendezvous) into one exchange record per peer.
 *
 * A record (`t_map_exch_per_rank`) names the peer, the number of elements
 * exchanged with it and, for each of them, its position in the rank's
 * index list. Records are built from maximal runs of equal peer ranks, so
 * that the records' positions, one record after the other, are the rank's
 * `idxlist_local` again.
 */
module MapRecords {
  import opened Seqs

  // ---------------------------------------------------------------------------
  // Bucket size
  // ---------------------------------------------------------------------------

  /** The largest value of `s`, or 0 when every value is smaller or `s` is empty. */
  function MaxOf(s: seq<int>): (m: int)
    ensures m >= 0 && forall i :: 0 <= i < |s| ==> s[i] <= m
    ensures m == 0 || exists i :: 0 <= i < |s| && s[i] == m
  {
    if |s| == 0 then 0
    else
      var m0 := MaxOf(s[..|s| - 1]);
      assert forall i :: 0 <= i < |s| - 1 ==> s[..|s| - 1][i] == s[i];
      if s[|s| - 1] > m0 then s[|s| - 1] else m0
  }

  /**
   * Lines 27-30: the rank's largest index, starting from 0. The loop keeps
   * the running maximum; the result is the independent `MaxOf`.
   */
  method LocalMax(list: seq<int>) returns (m: int)
    ensures m == MaxOf(list)
  {
    m := 0;
    var i := 0;
    while i < |list|
      invariant 0 <= i <= |list| && m == MaxOf(list[..i])
    {
      assert list[..i + 1][..i] == list[..i];
      if list[i] > m {
        m := list[i];
      }
      i := i + 1;
    }
    assert list[..i] == list;
  }

  /**
   * The bucket size of rank `rank` in a world of `w` ranks when the largest
   * index anywhere is `maxIdx`, as lines 33-35 compute it: the last rank
   * adds the remainder of the already divided size, not of `maxIdx + 1`.
   */
  function LegacyBucketSize(maxIdx: int, w: int, rank: int): int
    requires 0 <= maxIdx && 0 < w
  {
    var q := (maxIdx + 1) / w;
    if rank == w - 1 then q + q % w else q
  }

  /**
   * The bucket size the last rank evidently means to get: the quotient
   * plus the remainder of `maxIdx + 1`, so that the buckets of all ranks
   * together have room for every index `0..maxIdx`.
   */
  function BucketSize(maxIdx: int, w: int, rank: int): int
    requires 0 <= maxIdx && 0 < w
  {
    var q := (maxIdx + 1) / w;
    if rank == w - 1 then q + (maxIdx + 1) % w else q
  }

  /** The bucket sizes of all ranks, rank 0 first. */
  function AllSizes(sizeOf: int -> int, w: nat): (s: seq<int>)
    ensures |s| == w && forall r :: 0 <= r < w ==> s[r] == sizeOf(r)
  {
    seq(w, r => sizeOf(r))
  }

  /** `n` equal values add up to `n` times the value. */
  lemma {:induction false} SumConst(s: seq<int>, v: int)
    requires forall i :: 0 <= i < |s| ==> s[i] == v
    ensures Sum(s) == v * |s|
    decreases |s|
  {
    if |s| > 0 {
      SumConst(s[..|s| - 1], v);
      assert v * |s| == v * (|s| - 1) + v;
    }
  }

  /** Sizes equal to `q` on every rank but the last, which has `last`, add up to `(w - 1) * q + last`. */
  lemma SumWithLast(sizes: seq<int>, q: int, last: int)
    requires 0 < |sizes| && sizes[|sizes| - 1] == last
    requires forall r :: 0 <= r < |sizes| - 1 ==> sizes[r] == q
    ensures Sum(sizes) == q * (|sizes| - 1) + last
  {
    SumConst(sizes[..|sizes| - 1], q);
  }

  /** The corrected bucket sizes cover exactly the indices `0..maxIdx`. */
  lemma BucketSizesCover(maxIdx: int, w: nat)
    requires 0 <= maxIdx && 0 < w
    ensures Sum(AllSizes(r => BucketSize(maxIdx, w, r), w)) == maxIdx + 1
  {
    var q := (maxIdx + 1) / w;
    var sizes := AllSizes(r => BucketSize(maxIdx, w, r), w);
    SumWithLast(sizes, q, q + (maxIdx + 1) % w);
    assert q * (w - 1) + q == q * w;
  }

  /**
   * The sizes as written fall short: with largest index 5 on 4 ranks the
   * buckets have room for 5 indices, not for the 6 indices `0..5`.
   */
  lemma LegacyBucketSizesShort()
    ensures Sum(AllSizes(r => LegacyBucketSize(5, 4, r), 4)) == 5
    ensures Sum(AllSizes(r => BucketSize(5, 4, r), 4)) == 6
  {
    var legacy := AllSizes(r => LegacyBucketSize(5, 4, r), 4);
    SumWithLast(legacy, 1, 2);
    BucketSizesCover(5, 4);
  }

  /**
   * Lines 23-53 on rank `rank`: the source and the destination bucket sizes
   * are both computed from the largest index of the source lists, so they
   * always agree and the bucket size is always set (`None` would stand for
   * the branch at line 48 that leaves it unset). The size is the one
   * lines 33-35 compute, remainder of the divided size included.
   */
  method NewMapBucketSize(srcLists: seq<seq<int>>, dstLists: seq<seq<int>>, rank: int) returns (bucketSize: Option<int>)
    requires 0 < |srcLists| == |dstLists| && 0 <= rank < |srcLists|
    ensures bucketSize.Some?
    ensures bucketSize.value == LegacyBucketSize(MaxOf(AllMax(srcLists)), |srcLists|, rank)
  {
    var w := |srcLists|;
    var srcMax := GlobalMax(srcLists);
    var srcSize := LegacyBucketSize(srcMax, w, rank);
    var dstMax := GlobalMax(srcLists);
    var dstSize := LegacyBucketSize(dstMax, w, rank);
    if srcSize != dstSize {
      bucketSize := None;
    } else {
      bucketSize := Some(srcSize);
    }
  }

  /** Every rank's largest index. */
  function AllMax(lists: seq<seq<int>>): (m: seq<int>)
    ensures |m| == |lists| && forall r :: 0 <= r < |lists| ==> m[r] == MaxOf(lists[r])
  {
    seq(|lists|, r requires 0 <= r < |lists| => MaxOf(lists[r]))
  }

  /** Lines 27-31: every rank's local maximum, then their maximum over the world (`MPI_MAX`). */
  method GlobalMax(lists: seq<seq<int>>) returns (m: int)
    ensures m == MaxOf(AllMax(lists))
    ensures m >= 0 && forall r, i :: 0 <= r < |lists| && 0 <= i < |lists[r]| ==> lists[r][i] <= m
  {
    var locals: seq<int> := [];
    var r := 0;
    while r < |lists|
      invariant 0 <= r <= |lists| && locals == AllMax(lists)[..r]
    {
      var lm := LocalMax(lists[r]);
      locals := locals + [lm];
      r := r + 1;
    }
    assert locals == AllMax(lists);
    m := MaxOf(locals);
    forall r, i | 0 <= r < |lists| && 0 <= i < |lists[r]|
      ensures lists[r][i] <= m
    {
      assert lists[r][i] <= locals[r];
    }
  }

  // ---------------------------------------------------------------------------
  // Exchange records
  // ---------------------------------------------------------------------------

  /** `t_map_exch_per_rank` of `src/map.h` without its staging buffer. */
  datatype ExchPerRank = ExchPerRank(exchRank: int, bufferSize: int, bufferIdx: seq<int>)

  /**
   * What `new_map` builds: every record is non-empty and lists as many
   * positions as its size says, and neighbouring records have different
   * peers.
   */
  predicate WellGrouped(recs: seq<ExchPerRank>)
  {
    && (forall k :: 0 <= k < |recs| ==> 1 <= recs[k].bufferSize == |recs[k].bufferIdx|)
    && (forall k :: 0 < k < |recs| ==> recs[k - 1].exchRank != recs[k].exchRank)
  }

  /** The peer of every element, record after record. */
  function Peers(recs: seq<ExchPerRank>): seq<int>
  {
    if |recs| == 0 then [] else Peers(recs[..|recs| - 1]) + Repeat(recs[|recs| - 1].exchRank, recs[|recs| - 1].bufferSize)
  }

  /** The position of every element, record after record. */
  function Positions(recs: seq<ExchPerRank>): seq<int>
  {
    if |recs| == 0 then [] else Positions(recs[..|recs| - 1]) + recs[|recs| - 1].bufferIdx
  }

  /** The number of maximal runs of equal values in `s`. */
  function Runs(s: seq<int>): nat
  {
    if |s| == 0 then 0
    else Runs(s[..|s| - 1]) + (if |s| == 1 || s[|s| - 1] != s[|s| - 2] then 1 else 0)
  }

  /** Appending a run of `v` to a sequence that does not end in `v` adds one run. */
  lemma {:induction false} RunsRepeat(a: seq<int>, v: int, n: int)
    requires 1 <= n && (|a| == 0 || a[|a| - 1] != v)
    ensures Runs(a + Repeat(v, n)) == Runs(a) + 1
    decreases n
  {
    var s := a + Repeat(v, n);
    assert s[..|s| - 1] == a + Repeat(v, n - 1);
    if n == 1 {
      assert a + Repeat(v, 0) == a;
    } else {
      RunsRepeat(a, v, n - 1);
    }
  }

  lemma {:induction false} PeersLength(recs: seq<ExchPerRank>)
    requires WellGrouped(recs)
    ensures |Peers(recs)| == |Positions(recs)|
    ensures |recs| > 0 ==> |Peers(recs)| > 0 && Peers(recs)[|Peers(recs)| - 1] == recs[|recs| - 1].exchRank
    decreases |recs|
  {
    if |recs| > 0 {
      PeersLength(recs[..|recs| - 1]);
    }
  }

  /** A well-grouped list has one record per run of its peers. */
  lemma {:induction false} RecordsAreRuns(recs: seq<ExchPerRank>)
    requires WellGrouped(recs)
    ensures |recs| == Runs(Peers(recs))
    decreases |recs|
  {
    var n := |recs|;
    if n > 0 {
      var init := recs[..n - 1];
      RecordsAreRuns(init);
      PeersLength(init);
      RunsRepeat(Peers(init), recs[n - 1].exchRank, recs[n - 1].bufferSize);
    }
  }

  /**
   * The last record of a well-grouped list is the last maximal run of its
   * peers: the run is exactly as long as the record, and the peer before
   * it, if any, differs.
   */
  lemma LastRun(recs: seq<ExchPerRank>)
    requires WellGrouped(recs) && |recs| > 0
    ensures var p, last := Peers(recs), recs[|recs| - 1];
            && |p| >= last.bufferSize
            && Peers(recs[..|recs| - 1]) == p[..|p| - last.bufferSize]
            && (forall j :: |p| - last.bufferSize <= j < |p| ==> p[j] == last.exchRank)
            && (|recs| == 1 ==> |p| == last.bufferSize)
            && (|recs| > 1 ==> |p| > last.bufferSize && p[|p| - last.bufferSize - 1] != last.exchRank)
  {
    var init := recs[..|recs| - 1];
    PeersLength(init);
  }

  /**
   * Peers and positions determine a well-grouped list: `new_map`'s records
   * are the only well-grouped records that spell out `rank_exch` and
   * `idxlist_local`.
   */
  lemma {:induction false} GroupedUnique(a: seq<ExchPerRank>, b: seq<ExchPerRank>)
    requires WellGrouped(a) && WellGrouped(b)
    requires Peers(a) == Peers(b) && Positions(a) == Positions(b)
    ensures a == b
    decreases |a|
  {
    if |a| == 0 || |b| == 0 {
      PeersLength(a);
      PeersLength(b);
    } else {
      var la, lb := a[|a| - 1], b[|b| - 1];
      var ia, ib := a[..|a| - 1], b[..|b| - 1];
      LastRunsAgree(a, b);
      LastRun(a);
      var p := Peers(a);
      assert Peers(ia) == p[..|p| - la.bufferSize] == Peers(ib);
      var q := Positions(a);
      assert Positions(ia) == q[..|q| - la.bufferSize] == Positions(ib);
      assert la.bufferIdx == q[|q| - la.bufferSize..] == lb.bufferIdx;
      GroupedUnique(ia, ib);
      assert a == ia + [la] && b == ib + [lb];
    }
  }

  /** Two well-grouped lists with the same peers end in records of the same peer and size. */
  lemma LastRunsAgree(a: seq<ExchPerRank>, b: seq<ExchPerRank>)
    requires WellGrouped(a) && WellGrouped(b) && |a| > 0 && |b| > 0 && Peers(a) == Peers(b)
    ensures a[|a| - 1].exchRank == b[|b| - 1].exchRank && a[|a| - 1].bufferSize == b[|b| - 1].bufferSize
  {
    var la, lb := a[|a| - 1], b[|b| - 1];
    LastRun(a);
    LastRun(b);
    var p := Peers(a);
    assert p[|p| - 1] == la.exchRank;
    if la.bufferSize < lb.bufferSize {
      assert false;
    } else if lb.bufferSize < la.bufferSize {
      assert false;
    }
  }

  /**
   * Lines 99-108 (and 142-151 for the receive side): the number of records,
   * 0 for an empty list and otherwise one plus the number of positions
   * whose value differs from the start of the current run.
   */
  method CountRecords(rankExch: seq<int>) returns (count: int)
    ensures count == Runs(rankExch)
  {
    if |rankExch| == 0 {
      return 0;
    }
    count := 1;
    var offset, i := 0, 0;
    while i < |rankExch|
      invariant 0 <= offset <= i <= |rankExch| && (0 < i ==> offset < i)
      invariant forall j :: offset <= j < i ==> rankExch[j] == rankExch[offset]
      invariant count == (if i == 0 then 1 else Runs(rankExch[..i]))
    {
      assert rankExch[..i + 1][..i] == rankExch[..i];
      if rankExch[i] != rankExch[offset] {
        count := count + 1;
        offset := i;
      }
      i := i + 1;
    }
    assert rankExch[..i] == rankExch;
  }

  /** The run boundary state of `GroupRecords` after position `i`. */
  ghost predicate GroupState(rankExch: seq<int>, local: seq<int>, recs: seq<ExchPerRank>, offset: int, i: int)
  {
    && |rankExch| == |local| && 0 <= offset < i <= |rankExch|
    && (forall j :: offset <= j < i ==> rankExch[j] == rankExch[offset])
    && WellGrouped(recs)
    && Peers(recs) == rankExch[..offset] && Positions(recs) == local[..offset]
    && (|recs| > 0 ==> recs[|recs| - 1].exchRank != rankExch[offset])
  }

  /** The current run `offset..i` as a record. */
  function RunRecord(rankExch: seq<int>, local: seq<int>, offset: int, i: int): ExchPerRank
    requires 0 <= offset < i <= |rankExch| == |local|
  {
    ExchPerRank(rankExch[offset], i - offset, local[offset..i])
  }

  /** Closing the current run appends its record and keeps the records well grouped. */
  lemma CloseRun(rankExch: seq<int>, local: seq<int>, recs: seq<ExchPerRank>, offset: int, i: int)
    requires GroupState(rankExch, local, recs, offset, i)
    ensures WellGrouped(recs + [RunRecord(rankExch, local, offset, i)])
    ensures Peers(recs + [RunRecord(rankExch, local, offset, i)]) == rankExch[..i]
    ensures Positions(recs + [RunRecord(rankExch, local, offset, i)]) == local[..i]
  {
    var next := recs + [RunRecord(rankExch, local, offset, i)];
    assert next[..|next| - 1] == recs;
    assert Repeat(rankExch[offset], i - offset) == rankExch[offset..i];
    assert rankExch[..i] == rankExch[..offset] + rankExch[offset..i];
    assert local[..i] == local[..offset] + local[offset..i];
  }

  /** A peer equal to the current run's extends the run. */
  lemma ExtendRun(rankExch: seq<int>, local: seq<int>, recs: seq<ExchPerRank>, offset: int, i: int)
    requires GroupState(rankExch, local, recs, offset, i) && i < |rankExch| && rankExch[i] == rankExch[offset]
    ensures GroupState(rankExch, local, recs, offset, i + 1)
  {
  }

  /** A peer different from the current run's closes the run and starts a new one at `i`. */
  lemma StartRun(rankExch: seq<int>, local: seq<int>, recs: seq<ExchPerRank>, offset: int, i: int)
    requires GroupState(rankExch, local, recs, offset, i) && i < |rankExch| && rankExch[i] != rankExch[offset]
    ensures GroupState(rankExch, local, recs + [RunRecord(rankExch, local, offset, i)], i, i + 1)
  {
    CloseRun(rankExch, local, recs, offset, i);
  }

  /**
   * Lines 110-139 (and 153-182 for the receive side): one record per
   * maximal run of equal peers in `rankExch`, carrying the positions of
   * that run. The records are well grouped and spell out both inputs again,
   * which by `GroupedUnique` determines them.
   */
  method GroupRecords(rankExch: seq<int>, local: seq<int>) returns (recs: seq<ExchPerRank>)
    requires |rankExch| == |local|
    ensures WellGrouped(recs)
    ensures Peers(recs) == rankExch && Positions(recs) == local
    ensures |recs| == Runs(rankExch)
  {
    recs := [];
    if |rankExch| == 0 {
      return;
    }
    var offset, i := 0, 1;
    while i < |rankExch|
      invariant GroupState(rankExch, local, recs, offset, i)
    {
      if rankExch[i] != rankExch[offset] {
        StartRun(rankExch, local, recs, offset, i);
        recs := recs + [RunRecord(rankExch, local, offset, i)];
        offset := i;
      } else {
        ExtendRun(rankExch, local, recs, offset, i);
      }
      i := i + 1;
    }
    CloseLastRun(rankExch, local, recs, offset);
    recs := recs + [RunRecord(rankExch, local, offset, i)];
  }

  /** Closing the run still open at the end gives the records of the whole input. */
  lemma CloseLastRun(rankExch: seq<int>, local: seq<int>, recs: seq<ExchPerRank>, offset: int)
    requires GroupState(rankExch, local, recs, offset, |rankExch|)
    ensures WellGrouped(recs + [RunRecord(rankExch, local, offset, |rankExch|)])
    ensures Peers(recs + [RunRecord(rankExch, local, offset, |rankExch|)]) == rankExch
    ensures Positions(recs + [RunRecord(rankExch, local, offset, |rankExch|)]) == local
    ensures |recs + [RunRecord(rankExch, local, offset, |rankExch|)]| == Runs(rankExch)
  {
    var n := |rankExch|;
    CloseRun(rankExch, local, recs, offset, n);
    assert rankExch[..n] == rankExch;
    assert local[..n] == local;
    RecordsAreRuns(recs + [RunRecord(rankExch, local, offset, n)]);
  }

  /** The send and the receive records of `t_map`. */
  datatype ExchMap = ExchMap(send: seq<ExchPerRank>, recv: seq<ExchPerRank>)

  /**
   * Lines 98-182: the send records group the source side's peers and
   * positions, the receive records the destination side's, by the same
   * procedure.
   */
  method NewMapRecords(srcRankExch: seq<int>, srcLocal: seq<int>, dstRankExch: seq<int>, dstLocal: seq<int>)
    returns (m: ExchMap)
    requires |srcRankExch| == |srcLocal| && |dstRankExch| == |dstLocal|
    ensures WellGrouped(m.send) && Peers(m.send) == srcRankExch && Positions(m.send) == srcLocal
    ensures WellGrouped(m.recv) && Peers(m.recv) == dstRankExch && Positions(m.recv) == dstLocal
    ensures |m.send| == Runs(srcRankExch) && |m.recv| == Runs(dstRankExch)
  {
    var sendCount := CountRecords(srcRankExch);
    var send := GroupRecords(srcRankExch, srcLocal);
    assert |send| == sendCount;
    var recvCount := CountRecords(dstRankExch);
    var recv := GroupRecords(dstRankExch, dstLocal);
    assert |recv| == recvCount;
    m := ExchMap(send, recv);
  }

  /**
   * `rank_exch` arrives sorted from the rendezvous, so the records' peers
   * strictly increase: each peer has exactly one record.
   */
  lemma {:induction false} SortedPeersIncrease(recs: seq<ExchPerRank>)
    requires WellGrouped(recs)
    requires forall i, j :: 0 <= i <= j < |Peers(recs)| ==> Peers(recs)[i] <= Peers(recs)[j]
    ensures forall k :: 0 < k < |recs| ==> recs[k - 1].exchRank < recs[k].exchRank
    decreases |recs|
  {
    var n := |recs|;
    if n > 1 {
      var init := recs[..n - 1];
      PeersLength(init);
      var p := Peers(recs);
      assert Peers(init) == p[..|Peers(init)|];
      SortedPeersIncrease(init);
      var last := |Peers(init)|;
      assert p[last - 1] == recs[n - 2].exchRank && p[last] == recs[n - 1].exchRank;
    }
  }

  /** The records expected for the peers `{2, 2, 3, 3, 3, 5}` with positions `0..5`. */
  const ScenarioRecords: seq<ExchPerRank> := [ExchPerRank(2, 2, [0, 1]), ExchPerRank(3, 3, [2, 3, 4]), ExchPerRank(5, 1, [5])]

  lemma ScenarioPeers()
    ensures WellGrouped(ScenarioRecords) && Peers(ScenarioRecords) == [2, 2, 3, 3, 3, 5]
  {
    var e := ScenarioRecords;
    assert e[..2][..1] == e[..1] && e[..1][..0] == [];
    assert Repeat(2, 2) == [2, 2] && Repeat(3, 3) == [3, 3, 3] && Repeat(5, 1) == [5];
    assert Peers(e[..1]) == [2, 2];
    assert Peers(e[..2]) == [2, 2, 3, 3, 3];
  }

  lemma ScenarioPositions()
    ensures Positions(ScenarioRecords) == [0, 1, 2, 3, 4, 5]
  {
    var e := ScenarioRecords;
    assert e[..2][..1] == e[..1] && e[..1][..0] == [];
    assert Positions(e[..1]) == [0, 1];
    assert Positions(e[..2]) == [0, 1, 2, 3, 4];
  }

  /** Lines 98-139 on the peers `{2, 2, 3, 3, 3, 5}` with positions `0..5`. */
  method GroupScenario() returns (recs: seq<ExchPerRank>)
    ensures recs == [ExchPerRank(2, 2, [0, 1]), ExchPerRank(3, 3, [2, 3, 4]), ExchPerRank(5, 1, [5])]
  {
    recs := GroupRecords([2, 2, 3, 3, 3, 5], [0, 1, 2, 3, 4, 5]);
    ScenarioPeers();
    ScenarioPositions();
    GroupedUnique(recs, ScenarioRecords);
  }
}
