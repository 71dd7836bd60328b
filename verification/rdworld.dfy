/**
 * The bucket rendezvous of `src/core/algorithm/bucket.c` run on a whole
 * world of ranks, with every collective replaced by its net effect.
 *
 * Each rank `r` holds a list of global indices. `map_idxlist_to_RD_decomp`
 * turns the lists into buckets: bucket `b` (kept by rank `b`) receives every
 * rank's indices of that bucket together with the rank that sent them.
 * `map_RD_decomp_to_idxlist` runs the same thing for a source and a
 * destination decomposition, finds for every source index the destination
 * rank holding it and sends that rank back to the source rank, which sorts
 * its indices by destination rank.
 */
module RendezvousWorld {
  import opened Seqs
  import opened SortSpec
  import Buckets
  import opened Rendezvous
  import Tags

  // ---------------------------------------------------------------------------
  // Who holds what
  // ---------------------------------------------------------------------------

  /** The last rank whose list holds `x`, if any rank holds it. */
  function Owner(lists: seq<seq<int>>, x: int): (r: Option<int>)
    ensures r.Some? <==> exists q :: 0 <= q < |lists| && x in lists[q]
    ensures r.Some? ==> && 0 <= r.value < |lists| && x in lists[r.value]
                        && forall q :: r.value < q < |lists| ==> x !in lists[q]
    decreases |lists|
  {
    var n := |lists|;
    if n == 0 then None
    else if x in lists[n - 1] then Some(n - 1)
    else
      var r := Owner(lists[..n - 1], x);
      assert forall q :: 0 <= q < n - 1 ==> lists[..n - 1][q] == lists[q];
      r
  }

  /** The owning rank as a plain number, `-1` for an index nobody holds. */
  function OwnerRank(lists: seq<seq<int>>, x: int): int
  {
    match Owner(lists, x)
    case Some(r) => r
    case None => -1
  }

  function OwnerFn(lists: seq<seq<int>>): int -> int
  {
    x => OwnerRank(lists, x)
  }

  /** Rank `r`'s indices of bucket `b`, for every rank. */
  function Parts(lists: seq<seq<int>>, size: int, nranks: int, b: int): (p: seq<seq<int>>)
    requires size != 0
    ensures |p| == |lists| && forall r :: 0 <= r < |lists| ==> p[r] == Members(lists[r], size, nranks, b)
  {
    seq(|lists|, r requires 0 <= r < |lists| => Members(lists[r], size, nranks, b))
  }

  /** For every rank, the rank repeated once per index it has in bucket `b`. */
  function RankRuns(lists: seq<seq<int>>, size: int, nranks: int, b: int): (p: seq<seq<int>>)
    requires size != 0
    ensures |p| == |lists| && forall r :: 0 <= r < |lists| ==> p[r] == Repeat(r, |Members(lists[r], size, nranks, b)|)
  {
    seq(|lists|, r requires 0 <= r < |lists| => Repeat(r, |Members(lists[r], size, nranks, b)|))
  }

  /** How many indices each rank sends to each bucket. */
  function Counts(lists: seq<seq<int>>, size: int, nranks: nat): (w: seq<seq<int>>)
    requires size != 0
    ensures |w| == |lists|
    ensures forall r :: 0 <= r < |lists| ==> |w[r]| == nranks
    ensures forall r, b :: 0 <= r < |lists| && 0 <= b < nranks ==> w[r][b] == |Members(lists[r], size, nranks, b)|
  {
    seq(|lists|, r requires 0 <= r < |lists| => seq(nranks, b => |Members(lists[r], size, nranks, b)|))
  }

  lemma {:induction false} ConcatLengths<A, B>(a: seq<seq<A>>, b: seq<seq<B>>)
    requires |a| == |b| && forall i :: 0 <= i < |a| ==> |a[i]| == |b[i]|
    ensures |Concat(a)| == |Concat(b)|
    decreases |a|
  {
    if |a| > 0 {
      ConcatLengths(a[..|a| - 1], b[..|b| - 1]);
    }
  }

  // ---------------------------------------------------------------------------
  // The join finds the owner
  // ---------------------------------------------------------------------------

  /** A match in the later block wins over any match in the earlier one. */
  lemma {:induction false} LastMatchAppend(k1: seq<int>, v1: seq<int>, k2: seq<int>, v2: seq<int>, x: int)
    requires |k1| == |v1| && |k2| == |v2|
    ensures LastMatch(k1 + k2, v1 + v2, x) == if x in k2 then LastMatch(k2, v2, x) else LastMatch(k1, v1, x)
    decreases |k2|
  {
    var m := |k2|;
    if m == 0 {
      assert k1 + k2 == k1 && v1 + v2 == v1;
    } else {
      var k, v := k1 + k2, v1 + v2;
      assert k[|k| - 1] == k2[m - 1] && v[|v| - 1] == v2[m - 1];
      assert k[..|k| - 1] == k1 + k2[..m - 1] && v[..|v| - 1] == v1 + v2[..m - 1];
      LastMatchStep(k, v, x);
      LastMatchStep(k2, v2, x);
      if k2[m - 1] != x {
        LastMatchAppend(k1, v1, k2[..m - 1], v2[..m - 1], x);
        InWithoutLast(k2, x);
      } else {
        assert x in k2;
      }
    }
  }

  /** A value other than the last element occurs in a sequence exactly when it occurs before the end. */
  lemma InWithoutLast(s: seq<int>, x: int)
    requires |s| > 0 && s[|s| - 1] != x
    ensures x in s <==> x in s[..|s| - 1]
  {
    assert s == s[..|s| - 1] + [s[|s| - 1]];
  }

  /** The join looks at the last pair first: it decides if its key matches, else the rest decides. */
  lemma LastMatchStep(keys: seq<int>, vals: seq<int>, x: int)
    requires |keys| == |vals| > 0
    ensures LastMatch(keys, vals, x) == if keys[|keys| - 1] == x then Some(vals[|vals| - 1])
                                        else LastMatch(keys[..|keys| - 1], vals[..|vals| - 1], x)
  {
  }

  /** Within a block sent by one rank, every match names that rank. */
  lemma LastMatchRepeat(keys: seq<int>, r: int, x: int)
    requires x in keys
    ensures LastMatch(keys, Repeat(r, |keys|), x) == Some(r)
  {
  }

  /**
   * Joining the first `n` blocks, each tagged with its rank, finds the last
   * of those ranks whose list holds `x`, when block `r` holds `x` exactly
   * when rank `r`'s list does.
   */
  lemma {:induction false} JoinBlocksPrefix(blocks: seq<seq<int>>, runs: seq<seq<int>>, lists: seq<seq<int>>, x: int, n: int)
    requires |blocks| == |runs| == |lists| && 0 <= n <= |lists|
    requires forall r :: 0 <= r < |lists| ==> runs[r] == Repeat(r, |blocks[r]|)
    requires forall r :: 0 <= r < |lists| ==> (x in blocks[r] <==> x in lists[r])
    ensures |Concat(blocks[..n])| == |Concat(runs[..n])|
    ensures LastMatch(Concat(blocks[..n]), Concat(runs[..n]), x) == Owner(lists[..n], x)
    decreases n
  {
    ConcatLengths(blocks[..n], runs[..n]);
    if n > 0 {
      JoinBlocksPrefix(blocks, runs, lists, x, n - 1);
      ConcatPrefix(blocks, n);
      ConcatPrefix(runs, n);
      ConcatLengths(blocks[..n - 1], runs[..n - 1]);
      JoinStep(Concat(blocks[..n - 1]), Concat(runs[..n - 1]), blocks[n - 1], n - 1, x, x in lists[n - 1]);
      OwnerPrefix(lists, n, x);
    }
  }

  /**
   * Joining against the first `n` ranks' contributions to bucket `b` finds,
   * for an index of bucket `b`, the last of those ranks that holds it.
   */
  lemma JoinOwnerPrefix(lists: seq<seq<int>>, size: int, nranks: int, b: int, x: int, n: int)
    requires size != 0 && Buckets.AssignBucket(x, size, nranks) == b && 0 <= n <= |lists|
    ensures |Concat(Parts(lists, size, nranks, b)[..n])| == |Concat(RankRuns(lists, size, nranks, b)[..n])|
    ensures LastMatch(Concat(Parts(lists, size, nranks, b)[..n]), Concat(RankRuns(lists, size, nranks, b)[..n]), x)
            == Owner(lists[..n], x)
  {
    var p, q := Parts(lists, size, nranks, b), RankRuns(lists, size, nranks, b);
    forall r | 0 <= r < |lists|
      ensures x in p[r] <==> x in lists[r]
    {
      MembersIn(lists[r], size, nranks, b, x);
    }
    JoinBlocksPrefix(p, q, lists, x, n);
  }

  /** The join over one more block: a match in the block names its rank, otherwise the earlier verdict stands. */
  lemma JoinStep(keys: seq<int>, vals: seq<int>, block: seq<int>, r: int, x: int, inBlock: bool)
    requires |keys| == |vals| && (x in block <==> inBlock)
    ensures LastMatch(keys + block, vals + Repeat(r, |block|), x) == if inBlock then Some(r) else LastMatch(keys, vals, x)
  {
    LastMatchAppend(keys, vals, block, Repeat(r, |block|), x);
    if inBlock {
      LastMatchRepeat(block, r, x);
    }
  }

  /** The owner among the first `n` ranks: rank `n - 1` if it holds `x`, else the owner among the first `n - 1`. */
  lemma OwnerPrefix(lists: seq<seq<int>>, n: int, x: int)
    requires 0 < n <= |lists|
    ensures Owner(lists[..n], x) == if x in lists[n - 1] then Some(n - 1) else Owner(lists[..n - 1], x)
  {
    assert lists[..n][..n - 1] == lists[..n - 1];
  }

  /**
   * The join of bucket `b` names, for each of its indices, the last
   * destination rank that holds the index, or nothing when no destination
   * rank holds it.
   */
  lemma JoinOwner(lists: seq<seq<int>>, size: int, nranks: int, b: int, x: int)
    requires size != 0 && Buckets.AssignBucket(x, size, nranks) == b
    ensures |Concat(Parts(lists, size, nranks, b))| == |Concat(RankRuns(lists, size, nranks, b))|
    ensures LastMatch(Concat(Parts(lists, size, nranks, b)), Concat(RankRuns(lists, size, nranks, b)), x) == Owner(lists, x)
  {
    JoinOwnerPrefix(lists, size, nranks, b, x, |lists|);
    assert Parts(lists, size, nranks, b)[..|lists|] == Parts(lists, size, nranks, b);
    assert RankRuns(lists, size, nranks, b)[..|lists|] == RankRuns(lists, size, nranks, b);
    assert lists[..|lists|] == lists;
  }

  // ---------------------------------------------------------------------------
  // map_idxlist_to_RD_decomp on the whole world
  // ---------------------------------------------------------------------------

  /** What bucket `b` keeps: its senders, their message sizes, the indices and their ranks. */
  datatype Bucket = Bucket(senders: seq<int>, msgSizes: seq<int>, idx: seq<int>, ranks: seq<int>)

  /** Bucket `b` holds every rank's indices of `b`, rank after rank. */
  ghost predicate Holds(bk: Bucket, lists: seq<seq<int>>, size: int, nranks: nat, b: int)
  {
    && size != 0 && 0 <= b < nranks
    && bk.idx == Concat(Parts(lists, size, nranks, b))
  }

  /**
   * Bucket `b` as the source side fills it: it holds its indices, its
   * senders are the ranks with indices in `b`, ascending, and each sent
   * as many indices as it has there.
   */
  ghost predicate Gathered(bk: Bucket, lists: seq<seq<int>>, size: int, nranks: nat, b: int)
  {
    && Holds(bk, lists, size, nranks, b)
    && bk.senders == Buckets.Senders(Counts(lists, size, nranks), b)
    && bk.msgSizes == Buckets.MsgSizes(Counts(lists, size, nranks), bk.senders, b)
  }

  /**
   * Bucket `b` as the destination side uses it: it holds its indices, with
   * the rank that sent each index recorded beside it.
   */
  ghost predicate Ranked(bk: Bucket, lists: seq<seq<int>>, size: int, nranks: nat, b: int)
  {
    && Holds(bk, lists, size, nranks, b)
    && bk.ranks == Concat(RankRuns(lists, size, nranks, b))
  }

  /**
   * `map_idxlist_to_RD_decomp` on every rank of a world of `|lists|` ranks
   * with one bucket per rank: the local step on each rank, then, per
   * bucket, the senders (`get_receivers_bucket`), the message sizes
   * (`get_n_indices_from_each_process`), the ranks (`bucket_idxlist_procs`)
   * and the indices (`bucket_idxlist_elements`).
   */
  method MapToBuckets(lists: seq<seq<int>>, size: int) returns (plans: seq<LocalPlan>, buckets: seq<Bucket>)
    requires 0 < size && 0 < |lists|
    requires forall r :: 0 <= r < |lists| ==> forall i :: 0 <= i < |lists[r]| ==> -size < lists[r][i]
    ensures |plans| == |lists| && |buckets| == |lists|
    ensures forall r :: 0 <= r < |lists| ==> Planned(plans[r], lists[r], size, |lists|)
    ensures forall b :: 0 <= b < |lists| ==> Gathered(buckets[b], lists, size, |lists|, b)
    ensures forall b :: 0 <= b < |lists| ==> Ranked(buckets[b], lists, size, |lists|, b)
  {
    var w := |lists|;
    plans := LocalSteps(lists, size);
    var sizeWorld := seq(w, q requires 0 <= q < w => plans[q].sizeRanks);
    var msgWorld := seq(w, q requires 0 <= q < w => plans[q].msgs);
    PlannedCounts(plans, lists, size, sizeWorld, msgWorld);
    buckets := seq(w, b requires 0 <= b < w => Assemble(sizeWorld, msgWorld, b));
    forall b | 0 <= b < w
      ensures Gathered(buckets[b], lists, size, w, b) && Ranked(buckets[b], lists, size, w, b)
    {
      AssembleFilled(lists, size, msgWorld, b);
    }
  }

  /** The local step on every rank. */
  method LocalSteps(lists: seq<seq<int>>, size: int) returns (plans: seq<LocalPlan>)
    requires 0 < size && 0 < |lists|
    requires forall r :: 0 <= r < |lists| ==> forall i :: 0 <= i < |lists[r]| ==> -size < lists[r][i]
    ensures |plans| == |lists|
    ensures forall r :: 0 <= r < |lists| ==> Planned(plans[r], lists[r], size, |lists|)
  {
    plans := [];
    var r := 0;
    while r < |lists|
      invariant 0 <= r <= |lists| && |plans| == r
      invariant forall q :: 0 <= q < r ==> Planned(plans[q], lists[q], size, |lists|)
    {
      var p := LocalStep(lists[r], size, |lists|);
      plans := plans + [p];
      r := r + 1;
    }
  }

  /** The counts and messages of the planned ranks are the world's counts and members. */
  lemma PlannedCounts(plans: seq<LocalPlan>, lists: seq<seq<int>>, size: int,
                      sizeWorld: seq<seq<int>>, msgWorld: seq<seq<seq<int>>>)
    requires 0 < size && |plans| == |lists| == |sizeWorld| == |msgWorld|
    requires forall r :: 0 <= r < |lists| ==> Planned(plans[r], lists[r], size, |lists|)
    requires forall r :: 0 <= r < |lists| ==> sizeWorld[r] == plans[r].sizeRanks && msgWorld[r] == plans[r].msgs
    ensures sizeWorld == Counts(lists, size, |lists|)
    ensures forall r :: 0 <= r < |lists| ==> |msgWorld[r]| == |lists|
    ensures forall r, b :: 0 <= r < |lists| && 0 <= b < |lists| ==> msgWorld[r][b] == Members(lists[r], size, |lists|, b)
  {
    forall r | 0 <= r < |lists|
      ensures sizeWorld[r] == Counts(lists, size, |lists|)[r]
    {
      assert Planned(plans[r], lists[r], size, |lists|);
    }
  }

  /** One bucket, assembled from what every rank sends it. */
  function Assemble(sizeWorld: seq<seq<int>>, msgWorld: seq<seq<seq<int>>>, b: int): Bucket
    requires Buckets.HasColumn(sizeWorld, b) && |msgWorld| == |sizeWorld|
    requires forall r :: 0 <= r < |msgWorld| ==> b < |msgWorld[r]|
  {
    var senders := Buckets.Senders(sizeWorld, b);
    var msgSizes := Buckets.MsgSizes(sizeWorld, senders, b);
    Bucket(senders, msgSizes, Buckets.BucketElements(msgWorld, senders, b), Buckets.BucketRanks(senders, msgSizes))
  }

  /** Assembling bucket `b` from the world's counts and messages fills it. */
  lemma AssembleFilled(lists: seq<seq<int>>, size: int, msgWorld: seq<seq<seq<int>>>, b: int)
    requires 0 < size && 0 <= b < |lists| && |msgWorld| == |lists|
    requires forall r :: 0 <= r < |lists| ==> |msgWorld[r]| == |lists|
    requires forall r, c :: 0 <= r < |lists| && 0 <= c < |lists| ==> msgWorld[r][c] == Members(lists[r], size, |lists|, c)
    ensures Gathered(Assemble(Counts(lists, size, |lists|), msgWorld, b), lists, size, |lists|, b)
    ensures Ranked(Assemble(Counts(lists, size, |lists|), msgWorld, b), lists, size, |lists|, b)
  {
    RanksOfBucket(lists, size, b);
    ElementsOfBucket(lists, size, msgWorld, b);
  }

  /** `bucket_idxlist_procs` records each rank once per index it sends. */
  lemma RanksOfBucket(lists: seq<seq<int>>, size: int, b: int)
    requires 0 < size && 0 <= b < |lists|
    ensures var sizeWorld := Counts(lists, size, |lists|);
            var senders := Buckets.Senders(sizeWorld, b);
            Buckets.BucketRanks(senders, Buckets.MsgSizes(sizeWorld, senders, b)) == Concat(RankRuns(lists, size, |lists|, b))
  {
    var sizeWorld := Counts(lists, size, |lists|);
    Buckets.BucketRanksFromWorld(sizeWorld, b);
    assert Buckets.RankParts(sizeWorld, b) == RankRuns(lists, size, |lists|, b);
  }

  /** `bucket_idxlist_elements` stores each rank's members of the bucket, rank after rank. */
  lemma ElementsOfBucket(lists: seq<seq<int>>, size: int, msgWorld: seq<seq<seq<int>>>, b: int)
    requires 0 < size && 0 <= b < |lists| && |msgWorld| == |lists|
    requires forall r :: 0 <= r < |lists| ==> |msgWorld[r]| == |lists|
    requires forall r, c :: 0 <= r < |lists| && 0 <= c < |lists| ==> msgWorld[r][c] == Members(lists[r], size, |lists|, c)
    ensures Buckets.BucketElements(msgWorld, Buckets.Senders(Counts(lists, size, |lists|), b), b) == Concat(Parts(lists, size, |lists|, b))
  {
    Buckets.BucketElementsFromWorld(msgWorld, Counts(lists, size, |lists|), b);
    assert Buckets.MessagesTo(msgWorld, b) == Parts(lists, size, |lists|, b);
  }

  // ---------------------------------------------------------------------------
  // Slices of a gathered sequence
  // ---------------------------------------------------------------------------

  /** The sender parts one after the other are as long as the message sizes add up to. */
  lemma {:induction false} GatherLength(parts: seq<seq<int>>, senders: seq<int>, sizes: seq<int>)
    requires forall i :: 0 <= i < |senders| ==> 0 <= senders[i] < |parts|
    requires |sizes| == |senders| && forall i :: 0 <= i < |senders| ==> sizes[i] == |parts[senders[i]]|
    ensures |Buckets.Gather(parts, senders)| == Sum(sizes)
    decreases |senders|
  {
    var n := |senders|;
    if n > 0 {
      GatherLength(parts, senders[..n - 1], sizes[..n - 1]);
    }
  }

  /**
   * Cutting the gathered parts at the offsets of the message sizes gives
   * back each sender's part.
   */
  lemma {:induction false} GatherSlice(parts: seq<seq<int>>, senders: seq<int>, sizes: seq<int>, k: int)
    requires forall i :: 0 <= i < |senders| ==> 0 <= senders[i] < |parts|
    requires |sizes| == |senders| && forall i :: 0 <= i < |senders| ==> sizes[i] == |parts[senders[i]]|
    requires 0 <= k < |senders|
    ensures 0 <= Offset(sizes, k) <= Offset(sizes, k) + sizes[k] <= |Buckets.Gather(parts, senders)|
    ensures Buckets.Gather(parts, senders)[Offset(sizes, k)..Offset(sizes, k) + sizes[k]] == parts[senders[k]]
    decreases |senders|
  {
    var n := |senders|;
    var init, sizesInit := senders[..n - 1], sizes[..n - 1];
    var g := Buckets.Gather(parts, init);
    assert Buckets.Gather(parts, senders) == g + parts[senders[n - 1]];
    GatherLength(parts, init, sizesInit);
    assert sizes[..n - 1] == sizesInit;
    if k == n - 1 {
      assert Offset(sizes, k) == Sum(sizesInit);
    } else {
      GatherSlice(parts, init, sizesInit, k);
      assert sizesInit[..k] == sizes[..k];
    }
  }

  /** An element of a concatenation comes from one of the parts. */
  lemma {:induction false} ConcatMember(parts: seq<seq<int>>, x: int)
    requires x in Concat(parts)
    ensures exists r :: 0 <= r < |parts| && x in parts[r]
    decreases |parts|
  {
    var n := |parts|;
    if x !in parts[n - 1] {
      ConcatMember(parts[..n - 1], x);
      var r :| 0 <= r < n - 1 && x in parts[..n - 1][r];
      assert parts[r] == parts[..n - 1][r];
    }
  }

  /** Every element of every part is in the concatenation. */
  lemma {:induction false} ConcatHas(parts: seq<seq<int>>, r: int, x: int)
    requires 0 <= r < |parts| && x in parts[r]
    ensures x in Concat(parts)
    decreases |parts|
  {
    var n := |parts|;
    if r < n - 1 {
      ConcatHas(parts[..n - 1], r, x);
    }
  }

  // ---------------------------------------------------------------------------
  // map_RD_decomp_to_idxlist on the whole world
  // ---------------------------------------------------------------------------

  /** Every index of every source rank is held by some destination rank. */
  ghost predicate Covered(src: seq<seq<int>>, dst: seq<seq<int>>)
  {
    forall r, i :: 0 <= r < |src| && 0 <= i < |src[r]| ==> Owner(dst, src[r][i]).Some?
  }

  /**
   * What bucket `b` sends back: to its `k`-th sender, the owning
   * destination rank of each index that sender sent the bucket, in the
   * order the sender sent them.
   */
  ghost predicate Replied(replies: seq<seq<int>>, bk: Bucket, src: seq<seq<int>>, dst: seq<seq<int>>, size: int, b: int)
  {
    && size != 0 && |replies| == |bk.senders|
    && forall k :: 0 <= k < |replies| ==>
         0 <= bk.senders[k] < |src| && replies[k] == OwnerParts(src, dst, size, b)[bk.senders[k]]
  }

  /** An index of a bucket belongs to that bucket and to the list of the rank that sent it. */
  lemma InBucket(lists: seq<seq<int>>, size: int, b: int, x: int)
    requires size != 0 && x in Concat(Parts(lists, size, |lists|, b))
    ensures Buckets.AssignBucket(x, size, |lists|) == b
    ensures exists r :: 0 <= r < |lists| && x in lists[r]
  {
    var p := Parts(lists, size, |lists|, b);
    ConcatMember(p, x);
    var r :| 0 <= r < |p| && x in p[r];
    MembersIn(lists[r], size, |lists|, b, r);
    MembersIn(lists[r], size, |lists|, b, x);
  }

  /**
   * The join of bucket `b` names the owning destination rank of each of
   * the bucket's source indices.
   */
  lemma JoinedOwners(src: seq<seq<int>>, dst: seq<seq<int>>, size: int, b: int, srcBk: Bucket, dstBk: Bucket,
                     joined: seq<Option<int>>)
    requires |src| == |dst| && Holds(srcBk, src, size, |src|, b) && Ranked(dstBk, dst, size, |dst|, b)
    requires |dstBk.idx| == |dstBk.ranks| && |joined| == |srcBk.idx|
    requires forall i :: 0 <= i < |srcBk.idx| ==> joined[i] == LastMatch(dstBk.idx, dstBk.ranks, srcBk.idx[i])
    ensures forall i :: 0 <= i < |srcBk.idx| ==> joined[i] == Owner(dst, srcBk.idx[i])
  {
    forall i | 0 <= i < |srcBk.idx|
      ensures joined[i] == Owner(dst, srcBk.idx[i])
    {
      var x := srcBk.idx[i];
      InBucket(src, size, b, x);
      JoinOwner(dst, size, |dst|, b, x);
    }
  }

  /** A source index of bucket `b` with no owner is an uncovered source index. */
  lemma UnownedIndex(src: seq<seq<int>>, dst: seq<seq<int>>, size: int, b: int, srcBk: Bucket, i: int)
    requires Holds(srcBk, src, size, |src|, b) && 0 <= i < |srcBk.idx| && Owner(dst, srcBk.idx[i]).None?
    ensures !Covered(src, dst)
  {
    var x := srcBk.idx[i];
    InBucket(src, size, b, x);
    var r :| 0 <= r < |src| && x in src[r];
    var j :| 0 <= j < |src[r]| && src[r][j] == x;
  }

  /** When every index of bucket `b` has an owner, every source index of bucket `b` has one. */
  lemma OwnedBucket(src: seq<seq<int>>, dst: seq<seq<int>>, size: int, b: int, srcBk: Bucket)
    requires Holds(srcBk, src, size, |src|, b)
    requires forall i :: 0 <= i < |srcBk.idx| ==> Owner(dst, srcBk.idx[i]).Some?
    ensures forall r, i :: 0 <= r < |src| && 0 <= i < |src[r]| && Buckets.AssignBucket(src[r][i], size, |src|) == b
              ==> Owner(dst, src[r][i]).Some?
  {
    forall r, i | 0 <= r < |src| && 0 <= i < |src[r]| && Buckets.AssignBucket(src[r][i], size, |src|) == b
      ensures Owner(dst, src[r][i]).Some?
    {
      var x := src[r][i];
      MembersIn(src[r], size, |src|, b, x);
      ConcatHas(Parts(src, size, |src|, b), r, x);
    }
  }

  /**
   * Lines 135-141: the bucket cuts the owners of its indices into one
   * message per sender, as long as that sender's message was; each sender
   * gets back the owners of exactly the indices it sent.
   */
  lemma RepliesOwners(src: seq<seq<int>>, dst: seq<seq<int>>, size: int, b: int, srcBk: Bucket,
                      owners: seq<int>, replies: seq<seq<int>>)
    requires size != 0
    requires forall i :: 0 <= i < |srcBk.senders| ==> 0 <= srcBk.senders[i] < |src|
    requires |srcBk.msgSizes| == |srcBk.senders|
    requires forall i :: 0 <= i < |srcBk.senders| ==> srcBk.msgSizes[i] == |OwnerParts(src, dst, size, b)[srcBk.senders[i]]|
    requires Buckets.Gather(OwnerParts(src, dst, size, b), srcBk.senders) == owners
    requires |replies| == |srcBk.msgSizes|
    requires forall k :: 0 <= k < |replies| ==>
               && 0 <= Offset(srcBk.msgSizes, k) <= Offset(srcBk.msgSizes, k) + srcBk.msgSizes[k] <= |owners|
               && replies[k] == owners[Offset(srcBk.msgSizes, k)..Offset(srcBk.msgSizes, k) + srcBk.msgSizes[k]]
    ensures Replied(replies, srcBk, src, dst, size, b)
  {
    var q := OwnerParts(src, dst, size, b);
    SlicesOfGather(q, srcBk.senders, srcBk.msgSizes, owners, replies);
  }

  /** Messages cut from gathered parts at the offsets of the part sizes are the parts. */
  lemma SlicesOfGather(parts: seq<seq<int>>, senders: seq<int>, sizes: seq<int>, gathered: seq<int>, msgs: seq<seq<int>>)
    requires forall i :: 0 <= i < |senders| ==> 0 <= senders[i] < |parts|
    requires |sizes| == |senders| && forall i :: 0 <= i < |senders| ==> sizes[i] == |parts[senders[i]]|
    requires Buckets.Gather(parts, senders) == gathered
    requires |msgs| == |sizes|
    requires forall k :: 0 <= k < |msgs| ==>
               && 0 <= Offset(sizes, k) <= Offset(sizes, k) + sizes[k] <= |gathered|
               && msgs[k] == gathered[Offset(sizes, k)..Offset(sizes, k) + sizes[k]]
    ensures forall k :: 0 <= k < |msgs| ==> msgs[k] == parts[senders[k]]
  {
    forall k | 0 <= k < |msgs|
      ensures msgs[k] == parts[senders[k]]
    {
      GatherSlice(parts, senders, sizes, k);
    }
  }

  /** For every rank, the owners of its members of bucket `b`. */
  function OwnerParts(src: seq<seq<int>>, dst: seq<seq<int>>, size: int, b: int): (q: seq<seq<int>>)
    requires size != 0
    ensures |q| == |src| && forall r :: 0 <= r < |src| ==> q[r] == MapSeq(OwnerFn(dst), Members(src[r], size, |src|, b))
  {
    seq(|src|, r requires 0 <= r < |src| => MapSeq(OwnerFn(dst), Members(src[r], size, |src|, b)))
  }

  /** The owners of a bucket's indices are the senders' owner parts, one after the other. */
  lemma GatheredOwners(src: seq<seq<int>>, dst: seq<seq<int>>, size: int, b: int, srcBk: Bucket, owners: seq<int>)
    requires Gathered(srcBk, src, size, |src|, b)
    requires |owners| == |srcBk.idx| && forall i :: 0 <= i < |owners| ==> Owner(dst, srcBk.idx[i]) == Some(owners[i])
    ensures forall i :: 0 <= i < |srcBk.senders| ==> 0 <= srcBk.senders[i] < |src|
    ensures |srcBk.msgSizes| == |srcBk.senders|
    ensures forall i :: 0 <= i < |srcBk.senders| ==> srcBk.msgSizes[i] == |OwnerParts(src, dst, size, b)[srcBk.senders[i]]|
    ensures Buckets.Gather(OwnerParts(src, dst, size, b), srcBk.senders) == owners
  {
    var w := |src|;
    var f := OwnerFn(dst);
    var p := Parts(src, size, w, b);
    var q := OwnerParts(src, dst, size, b);
    assert owners == MapSeq(f, srcBk.idx);
    MapConcat(f, p);
    assert q == seq(|p|, i requires 0 <= i < |p| => MapSeq(f, p[i]));
    var counts := Counts(src, size, w);
    Buckets.GatherSenders(q, counts, b);
  }

  /**
   * The receive matching at line 146: the message from bucket `c` that rank
   * `r` receives is the one whose tag names `r` as its destination.
   */
  method MatchSlot(senders: seq<int>, c: int, r: int, w: int) returns (k: int)
    requires exists j :: 0 <= j < |senders| && Tags.Tag(c, senders[j], w) == Tags.Tag(c, r, w)
    ensures 0 <= k < |senders| && Tags.Tag(c, senders[k], w) == Tags.Tag(c, r, w)
  {
    ghost var j :| 0 <= j < |senders| && Tags.Tag(c, senders[j], w) == Tags.Tag(c, r, w);
    k := 0;
    while Tags.Tag(c, senders[k], w) != Tags.Tag(c, r, w)
      invariant 0 <= k <= j
      decreases j - k
    {
      k := k + 1;
    }
  }

  /**
   * Lines 143-151 for one source rank: for every bucket it sent indices to,
   * in bucket order, the rank receives the bucket's reply to it. The result
   * is the owner of each of its indices in bucket-sorted order.
   */
  method Receive(src: seq<seq<int>>, dst: seq<seq<int>>, size: int, r: int, plan: LocalPlan,
                 srcBuckets: seq<Bucket>, replies: seq<seq<seq<int>>>) returns (rankExch: seq<int>)
    requires 0 <= r < |src| && |srcBuckets| == |src| && |replies| == |src|
    requires Planned(plan, src[r], size, |src|)
    requires forall c :: 0 <= c < |src| ==> Gathered(srcBuckets[c], src, size, |src|, c)
    requires forall c :: 0 <= c < |src| ==> Replied(replies[c], srcBuckets[c], src, dst, size, c)
    ensures rankExch == MapSeq(OwnerFn(dst), plan.sortedIdx)
  {
    var w := |src|;
    var f := OwnerFn(dst);
    rankExch := [];
    var c := 0;
    while c < w
      invariant 0 <= c <= w
      invariant rankExch == MapSeq(f, Concat(plan.msgs[..c]))
    {
      assert plan.msgs[..c + 1] == plan.msgs[..c] + [plan.msgs[c]];
      ConcatAppend(plan.msgs[..c], [plan.msgs[c]]);
      assert Concat([plan.msgs[c]]) == plan.msgs[c] by {
        assert [plan.msgs[c]][..0] == [];
      }
      MapSeqAppend(f, Concat(plan.msgs[..c]), plan.msgs[c]);
      if plan.sizeRanks[c] > 0 {
        SentToBucket(src, size, r, plan, srcBuckets[c], c);
        var k := MatchSlot(srcBuckets[c].senders, c, r, w);
        Tags.TagDetermines(c, srcBuckets[c].senders[k], c, r, w);
        assert replies[c][k] == MapSeq(f, plan.msgs[c]);
        rankExch := rankExch + replies[c][k];
      }
      c := c + 1;
    }
    assert plan.msgs[..w] == plan.msgs;
  }

  /** Rank `r` sent bucket `c` a message, so it is among the bucket's senders. */
  lemma SentToBucket(src: seq<seq<int>>, size: int, r: int, plan: LocalPlan, bk: Bucket, c: int)
    requires 0 <= r < |src| && Planned(plan, src[r], size, |src|) && Gathered(bk, src, size, |src|, c)
    requires plan.sizeRanks[c] > 0
    ensures r in bk.senders
  {
    assert Counts(src, size, |src|)[r][c] > 0;
  }

  /**
   * Lines 123-141 at bucket `b`: the join, then the reply to each sender.
   * The join fails (`None`) when a source index of the bucket has no
   * destination rank; otherwise every source index of the bucket has one.
   */
  method ReplyBucket(src: seq<seq<int>>, dst: seq<seq<int>>, size: int, b: int, srcBk: Bucket, dstBk: Bucket)
    returns (replies: Option<seq<seq<int>>>)
    requires |src| == |dst| && Gathered(srcBk, src, size, |src|, b) && Ranked(dstBk, dst, size, |dst|, b)
    ensures replies.None? ==> !Covered(src, dst)
    ensures replies.Some? ==> Replied(replies.value, srcBk, src, dst, size, b)
    ensures replies.Some? ==>
              forall r, i :: 0 <= r < |src| && 0 <= i < |src[r]| && Buckets.AssignBucket(src[r][i], size, |src|) == b
                ==> Owner(dst, src[r][i]).Some?
  {
    var owners := OwnersOf(src, dst, size, b, srcBk, dstBk);
    if owners.None? {
      return None;
    }
    GatheredOwners(src, dst, size, b, srcBk, owners.value);
    var rep := ReplyOwners(src, dst, size, b, srcBk, owners.value);
    return Some(rep);
  }

  /**
   * Lines 129-141 at bucket `b`: once the owners of the bucket's indices
   * are gathered, each sender gets back, in its slice, the owners of the
   * indices it sent.
   */
  method ReplyOwners(src: seq<seq<int>>, dst: seq<seq<int>>, size: int, b: int, srcBk: Bucket, owners: seq<int>)
    returns (replies: seq<seq<int>>)
    requires size != 0
    requires forall i :: 0 <= i < |srcBk.senders| ==> 0 <= srcBk.senders[i] < |src|
    requires |srcBk.msgSizes| == |srcBk.senders|
    requires forall i :: 0 <= i < |srcBk.senders| ==> srcBk.msgSizes[i] == |OwnerParts(src, dst, size, b)[srcBk.senders[i]]|
    requires Buckets.Gather(OwnerParts(src, dst, size, b), srcBk.senders) == owners
    ensures Replied(replies, srcBk, src, dst, size, b)
  {
    GatherLength(OwnerParts(src, dst, size, b), srcBk.senders, srcBk.msgSizes);
    replies := Buckets.SendSlices(owners, srcBk.msgSizes);
    RepliesOwners(src, dst, size, b, srcBk, owners, replies);
  }

  /**
   * Lines 123-127 at bucket `b`: the owner of every source index of the
   * bucket, or `None` when one of them has no destination rank.
   */
  method OwnersOf(src: seq<seq<int>>, dst: seq<seq<int>>, size: int, b: int, srcBk: Bucket, dstBk: Bucket)
    returns (owners: Option<seq<int>>)
    requires |src| == |dst| && Holds(srcBk, src, size, |src|, b) && Ranked(dstBk, dst, size, |dst|, b)
    ensures owners.None? ==> !Covered(src, dst)
    ensures owners.Some? ==>
              |owners.value| == |srcBk.idx| && forall i :: 0 <= i < |srcBk.idx| ==> Owner(dst, srcBk.idx[i]) == Some(owners.value[i])
    ensures owners.Some? ==>
              forall r, i :: 0 <= r < |src| && 0 <= i < |src[r]| && Buckets.AssignBucket(src[r][i], size, |src|) == b
                ==> Owner(dst, src[r][i]).Some?
  {
    ConcatLengths(Parts(dst, size, |dst|, b), RankRuns(dst, size, |dst|, b));
    var joined := Join(srcBk.idx, dstBk.idx, dstBk.ranks);
    JoinedOwners(src, dst, size, b, srcBk, dstBk, joined);
    JoinVerdict(src, dst, size, b, srcBk, joined);
    owners := Matched(joined);
  }

  /** A join that names every owner either has a gap, so some source index is uncovered, or covers the bucket. */
  lemma JoinVerdict(src: seq<seq<int>>, dst: seq<seq<int>>, size: int, b: int, srcBk: Bucket, joined: seq<Option<int>>)
    requires Holds(srcBk, src, size, |src|, b) && |joined| == |srcBk.idx|
    requires forall i :: 0 <= i < |srcBk.idx| ==> joined[i] == Owner(dst, srcBk.idx[i])
    ensures Matched(joined).None? ==> !Covered(src, dst)
    ensures Matched(joined).Some? ==>
              |Matched(joined).value| == |srcBk.idx|
              && forall i :: 0 <= i < |srcBk.idx| ==> Owner(dst, srcBk.idx[i]) == Some(Matched(joined).value[i])
    ensures Matched(joined).Some? ==>
              forall r, i :: 0 <= r < |src| && 0 <= i < |src[r]| && Buckets.AssignBucket(src[r][i], size, |src|) == b
                ==> Owner(dst, src[r][i]).Some?
  {
    if Matched(joined).None? {
      var i :| 0 <= i < |joined| && joined[i].None?;
      UnownedIndex(src, dst, size, b, srcBk, i);
    } else {
      OwnedBucket(src, dst, size, b, srcBk);
    }
  }

  /** What a source rank ends with: the destination ranks, each beside a position in its list. */
  datatype Route = Route(ranks: seq<int>, positions: seq<int>)

  /**
   * The result `map_RD_decomp_to_idxlist` promises a source rank: the
   * destination ranks ascending, the positions a permutation of the list's
   * positions, and the destination rank beside each position the owner of
   * the index there.
   */
  ghost predicate RoutesTo(route: Route, list: seq<int>, dst: seq<seq<int>>)
  {
    && |route.ranks| == |list| && |route.positions| == |list|
    && Sorted(Zip(route.ranks, route.positions))
    && multiset(route.positions) == multiset(seq(|list|, i => i))
    && forall k :: 0 <= k < |list| ==>
         0 <= route.positions[k] < |list| && Owner(dst, list[route.positions[k]]) == Some(route.ranks[k])
  }

  /** `RoutesTo`, and positions with the same destination rank keep their bucket order. */
  ghost predicate Routed(route: Route, list: seq<int>, plan: LocalPlan, dst: seq<seq<int>>)
  {
    && RoutesTo(route, list, dst)
    && |plan.sortedIdx| == |plan.local|
    && SameRuns(Zip(route.ranks, route.positions), Zip(MapSeq(OwnerFn(dst), plan.sortedIdx), plan.local))
  }

  function PayloadOf(e: Entry<int>): int
  {
    e.payload
  }

  /** Sorting the owners of the bucket-sorted list by rank routes the rank's indices. */
  lemma RouteOf(list: seq<int>, plan: LocalPlan, dst: seq<seq<int>>, size: int, nranks: int,
                rankExch: seq<int>, ranks: seq<int>, positions: seq<int>)
    requires Planned(plan, list, size, nranks)
    requires forall i :: 0 <= i < |list| ==> Owner(dst, list[i]).Some?
    requires rankExch == MapSeq(OwnerFn(dst), plan.sortedIdx)
    requires |ranks| == |list| && |positions| == |list|
    requires Sorted(Zip(ranks, positions)) && SameRuns(Zip(ranks, positions), Zip(rankExch, plan.local))
    requires multiset(Zip(ranks, positions)) == multiset(Zip(rankExch, plan.local))
    ensures Routed(Route(ranks, positions), list, plan, dst)
  {
    RouteOwners(list, plan, dst, size, nranks, rankExch, ranks, positions);
    RoutePositions(plan, rankExch, ranks, positions);
  }

  /** Each rank beside a position is the owner of the index there, as it was before sorting. */
  lemma RouteOwners(list: seq<int>, plan: LocalPlan, dst: seq<seq<int>>, size: int, nranks: int,
                    rankExch: seq<int>, ranks: seq<int>, positions: seq<int>)
    requires Planned(plan, list, size, nranks)
    requires forall i :: 0 <= i < |list| ==> Owner(dst, list[i]).Some?
    requires rankExch == MapSeq(OwnerFn(dst), plan.sortedIdx)
    requires |ranks| == |list| && |positions| == |list|
    requires multiset(Zip(ranks, positions)) == multiset(Zip(rankExch, plan.local))
    ensures forall k :: 0 <= k < |list| ==>
              0 <= positions[k] < |list| && Owner(dst, list[positions[k]]) == Some(ranks[k])
  {
    var z, z0 := Zip(ranks, positions), Zip(rankExch, plan.local);
    forall k | 0 <= k < |list|
      ensures 0 <= positions[k] < |list| && Owner(dst, list[positions[k]]) == Some(ranks[k])
    {
      assert z[k] in multiset(z0);
      var j :| 0 <= j < |z0| && z0[j] == z[k];
      assert Owner(dst, plan.sortedIdx[j]).Some?;
    }
  }

  /** Sorting the (rank, position) pairs permutes the positions. */
  lemma RoutePositions(plan: LocalPlan, rankExch: seq<int>, ranks: seq<int>, positions: seq<int>)
    requires |ranks| == |positions| == |rankExch| == |plan.local|
    requires multiset(Zip(ranks, positions)) == multiset(Zip(rankExch, plan.local))
    ensures multiset(positions) == multiset(plan.local)
  {
    var z, z0 := Zip(ranks, positions), Zip(rankExch, plan.local);
    MultisetMap(PayloadOf, z, z0);
    assert MapSeq(PayloadOf, z) == positions && MapSeq(PayloadOf, z0) == plan.local;
  }

  /** An index above `-size` lies in one of the buckets. */
  lemma SomeBucket(x: int, size: int, w: int)
    requires 0 < size && 0 < w && -size < x
    ensures 0 <= Buckets.AssignBucket(x, size, w) < w
  {
  }

  /**
   * `map_RD_decomp_to_idxlist` on every rank, after `map_idxlist_to_RD_decomp`
   * has filled the source and destination buckets: every bucket joins and
   * replies, every source rank collects its replies and sorts them. When
   * some source index is held by no destination rank the C code sends an
   * unset value; the model returns `None` exactly then.
   */
  method MapBack(src: seq<seq<int>>, dst: seq<seq<int>>, size: int, srcPlans: seq<LocalPlan>,
                 srcBuckets: seq<Bucket>, dstBuckets: seq<Bucket>) returns (routes: Option<seq<Route>>)
    requires 0 < size && 0 < |src| == |dst| == |srcPlans| == |srcBuckets| == |dstBuckets|
    requires forall r :: 0 <= r < |src| ==> forall i :: 0 <= i < |src[r]| ==> -size < src[r][i]
    requires forall r :: 0 <= r < |src| ==> Planned(srcPlans[r], src[r], size, |src|)
    requires forall b :: 0 <= b < |src| ==> Gathered(srcBuckets[b], src, size, |src|, b)
    requires forall b :: 0 <= b < |src| ==> Ranked(dstBuckets[b], dst, size, |dst|, b)
    ensures routes.Some? <==> Covered(src, dst)
    ensures routes.Some? ==>
              |routes.value| == |src| && forall r :: 0 <= r < |src| ==> Routed(routes.value[r], src[r], srcPlans[r], dst)
  {
    var replies := ReplyAll(src, dst, size, srcBuckets, dstBuckets);
    if replies.None? {
      return None;
    }
    var out := CollectRoutes(src, dst, size, srcPlans, srcBuckets, replies.value);
    routes := Some(out);
  }

  /**
   * Lines 123-141 for every bucket in turn. It fails as soon as a bucket
   * meets a source index held by no destination rank; otherwise every
   * source index has an owner and every bucket has replied.
   */
  method ReplyAll(src: seq<seq<int>>, dst: seq<seq<int>>, size: int, srcBuckets: seq<Bucket>, dstBuckets: seq<Bucket>)
    returns (replies: Option<seq<seq<seq<int>>>>)
    requires 0 < size && 0 < |src| == |dst| == |srcBuckets| == |dstBuckets|
    requires forall r :: 0 <= r < |src| ==> forall i :: 0 <= i < |src[r]| ==> -size < src[r][i]
    requires forall b :: 0 <= b < |src| ==> Gathered(srcBuckets[b], src, size, |src|, b)
    requires forall b :: 0 <= b < |src| ==> Ranked(dstBuckets[b], dst, size, |dst|, b)
    ensures replies.None? ==> !Covered(src, dst)
    ensures replies.Some? ==> Covered(src, dst) && |replies.value| == |src|
    ensures replies.Some? ==>
              forall c :: 0 <= c < |src| ==> Replied(replies.value[c], srcBuckets[c], src, dst, size, c)
  {
    var w := |src|;
    var acc: seq<seq<seq<int>>> := [];
    var b := 0;
    while b < w
      invariant 0 <= b <= w && |acc| == b
      invariant forall c :: 0 <= c < b ==> Replied(acc[c], srcBuckets[c], src, dst, size, c)
      invariant forall r, i :: 0 <= r < w && 0 <= i < |src[r]| && Buckets.AssignBucket(src[r][i], size, w) < b
                  ==> Owner(dst, src[r][i]).Some?
    {
      var rep := ReplyBucket(src, dst, size, b, srcBuckets[b], dstBuckets[b]);
      if rep.None? {
        return None;
      }
      var next := acc + [rep.value];
      forall c | 0 <= c <= b
        ensures Replied(next[c], srcBuckets[c], src, dst, size, c)
      {
        if c < b {
          assert next[c] == acc[c];
        }
      }
      acc := next;
      b := b + 1;
    }
    forall r, i | 0 <= r < w && 0 <= i < |src[r]|
      ensures Owner(dst, src[r][i]).Some?
    {
      SomeBucket(src[r][i], size, w);
    }
    replies := Some(acc);
  }

  /**
   * Lines 143-160 on every source rank: collect the replies and sort them
   * by destination rank.
   */
  method CollectRoutes(src: seq<seq<int>>, dst: seq<seq<int>>, size: int, srcPlans: seq<LocalPlan>,
                       srcBuckets: seq<Bucket>, replies: seq<seq<seq<int>>>) returns (routes: seq<Route>)
    requires 0 < |src| == |srcPlans| == |srcBuckets| == |replies|
    requires Covered(src, dst)
    requires forall r :: 0 <= r < |src| ==> Planned(srcPlans[r], src[r], size, |src|)
    requires forall c :: 0 <= c < |src| ==> Gathered(srcBuckets[c], src, size, |src|, c)
    requires forall c :: 0 <= c < |src| ==> Replied(replies[c], srcBuckets[c], src, dst, size, c)
    ensures |routes| == |src| && forall r :: 0 <= r < |src| ==> Routed(routes[r], src[r], srcPlans[r], dst)
  {
    var w := |src|;
    routes := [];
    var r := 0;
    while r < w
      invariant 0 <= r <= w && |routes| == r
      invariant forall q :: 0 <= q < r ==> Routed(routes[q], src[q], srcPlans[q], dst)
    {
      var route := CollectRoute(src, dst, size, srcPlans, srcBuckets, replies, r);
      routes := routes + [route];
      r := r + 1;
    }
  }

  /** Lines 143-160 on source rank `r`: its replies, sorted by destination rank. */
  method CollectRoute(src: seq<seq<int>>, dst: seq<seq<int>>, size: int, srcPlans: seq<LocalPlan>,
                      srcBuckets: seq<Bucket>, replies: seq<seq<seq<int>>>, r: int) returns (route: Route)
    requires 0 < |src| == |srcPlans| == |srcBuckets| == |replies| && 0 <= r < |src|
    requires Covered(src, dst)
    requires Planned(srcPlans[r], src[r], size, |src|)
    requires forall c :: 0 <= c < |src| ==> Gathered(srcBuckets[c], src, size, |src|, c)
    requires forall c :: 0 <= c < |src| ==> Replied(replies[c], srcBuckets[c], src, dst, size, c)
    ensures Routed(route, src[r], srcPlans[r], dst)
  {
    var rankExch := Receive(src, dst, size, r, srcPlans[r], srcBuckets, replies);
    var ranks, positions := SortByRank(rankExch, srcPlans[r].local);
    RouteOf(src[r], srcPlans[r], dst, size, |src|, rankExch, ranks, positions);
    route := Route(ranks, positions);
  }

  /**
   * The whole rendezvous: buckets filled from the source and from the
   * destination lists, then mapped back. Every source rank learns, for
   * each of its indices, the destination rank that holds it, with the
   * result sorted by destination rank; it fails exactly when some source
   * index is held by no destination rank.
   */
  method RouteIndices(src: seq<seq<int>>, dst: seq<seq<int>>, size: int) returns (routes: Option<seq<Route>>)
    requires 0 < size && 0 < |src| == |dst|
    requires forall r :: 0 <= r < |src| ==> forall i :: 0 <= i < |src[r]| ==> -size < src[r][i]
    requires forall r :: 0 <= r < |dst| ==> forall i :: 0 <= i < |dst[r]| ==> -size < dst[r][i]
    ensures routes.Some? <==> Covered(src, dst)
    ensures routes.Some? ==> |routes.value| == |src| && forall r :: 0 <= r < |src| ==> RoutesTo(routes.value[r], src[r], dst)
  {
    var srcPlans, srcBuckets := MapToBuckets(src, size);
    var dstPlans, dstBuckets := MapToBuckets(dst, size);
    routes := MapBack(src, dst, size, srcPlans, srcBuckets, dstBuckets);
  }
}
