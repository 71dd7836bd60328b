/**
 * The local and collective steps of the bucket rendezvous (`src/backend.c`,
 * `src/bucket.c`): which bucket each global index belongs to, how many
 * indices a process sends to each bucket, and what a bucket learns about its
 * senders. MPI messages are replaced by their net effect: a collective is a
 * function over the sequence of per-rank values ("the world").
 */
module Buckets {
  import opened Seqs
  import opened SortSpec
  import MergeSort

  function Abs(x: int): nat
  {
    if x < 0 then -x else x
  }

  /** C's integer `/`: the quotient truncated toward zero. */
  function CDiv(a: int, b: int): (q: int)
    requires b != 0
    ensures Abs(a - q * b) < Abs(b)
    ensures a - q * b == 0 || (a - q * b < 0 <==> a < 0)
    ensures 0 <= a && 0 < b ==> q == a / b
  {
    if (a >= 0) == (b > 0) then Abs(a) / Abs(b) else -(Abs(a) / Abs(b))
  }

  lemma QuotientBounds(idx: int, size: int, q: int, nbuckets: int)
    requires size != 0 && (0 <= idx && 0 < size ==> q == idx / size)
    ensures 0 <= idx && 0 < size ==> 0 <= q && q * size <= idx < (q + 1) * size
    ensures 0 <= idx && 0 < size && 0 < nbuckets <= q ==> (nbuckets - 1) * size <= idx
  {
    if 0 <= idx && 0 < size {
      assert idx == q * size + idx % size;
      assert (q + 1) * size == q * size + size;
      if 0 < nbuckets <= q {
        ScaleLe(nbuckets - 1, q, size);
      }
    }
  }

  /**
   * Bucket `b` of `nbuckets` buckets of `size` indices owns `[b*size, (b+1)*size)`;
   * the last bucket also owns everything above.
   */
  predicate Owns(b: int, idx: int, size: int, nbuckets: int)
  {
    0 <= b < nbuckets && b * size <= idx && (b == nbuckets - 1 || idx < (b + 1) * size)
  }

  /** Every index has at most one owner. */
  lemma OwnerUnique(b1: int, b2: int, idx: int, size: int, nbuckets: int)
    requires 0 < size && Owns(b1, idx, size, nbuckets) && Owns(b2, idx, size, nbuckets)
    ensures b1 == b2
  {
    if b1 < b2 {
      ScaleLe(b1 + 1, b2, size);
    } else if b2 < b1 {
      ScaleLe(b2 + 1, b1, size);
    }
  }

  lemma ScaleLe(a: int, b: int, size: int)
    requires a <= b && 0 < size
    ensures a * size <= b * size
  {
  }

  /**
   * The bucket of one index: `idx / size` with C's truncating division,
   * clamped to the last bucket. A non-negative index goes to the bucket that
   * owns it; C's truncation also sends `-size < idx < 0` to bucket 0.
   */
  function AssignBucket(idx: int, size: int, nbuckets: int): (b: int)
    requires size != 0
    ensures b <= nbuckets - 1
    ensures 0 <= idx && 0 < size && 0 < nbuckets ==> Owns(b, idx, size, nbuckets)
    ensures -size < idx < 0 && 0 < nbuckets ==> b == 0
  {
    var q := CDiv(idx, size);
    QuotientBounds(idx, size, q, nbuckets);
    TruncatesToZero(idx, size);
    if q >= nbuckets then nbuckets - 1 else q
  }

  /** C's truncation sends an index just below zero to quotient 0. */
  lemma TruncatesToZero(idx: int, size: int)
    requires size != 0
    ensures -size < idx < 0 ==> CDiv(idx, size) == 0
  {
  }

  /** A larger non-negative index never goes to an earlier bucket. */
  lemma AssignMonotone(i1: int, i2: int, size: int, nbuckets: int)
    requires 0 <= i1 <= i2 && 0 < size && 0 < nbuckets
    ensures AssignBucket(i1, size, nbuckets) <= AssignBucket(i2, size, nbuckets)
  {
    var b1, b2 := AssignBucket(i1, size, nbuckets), AssignBucket(i2, size, nbuckets);
    assert Owns(b1, i1, size, nbuckets) && Owns(b2, i2, size, nbuckets);
    if b2 < b1 {
      ScaleLe(b2 + 1, b1, size);
      assert false;
    }
  }

  /** Every non-negative index of the list lies in a bucket `0 .. nbuckets-1`. */
  predicate InBuckets(buckets: seq<int>, nbuckets: int)
  {
    forall i :: 0 <= i < |buckets| ==> 0 <= buckets[i] < nbuckets
  }

  /**
   * `assign_idxlist_elements_to_buckets` of the core: the bucket of each
   * element, dividing by the smallest bucket size.
   */
  method AssignBuckets(list: seq<int>, size: int, nbuckets: int) returns (buckets: seq<int>)
    requires size != 0
    ensures |buckets| == |list|
    ensures forall i :: 0 <= i < |list| ==> buckets[i] == AssignBucket(list[i], size, nbuckets)
    ensures forall i :: 0 <= i < |list| ==> buckets[i] <= nbuckets - 1
    ensures 0 < size && 0 < nbuckets ==>
              forall i :: 0 <= i < |list| && 0 <= list[i] ==> Owns(buckets[i], list[i], size, nbuckets)
  {
    buckets := [];
    var i := 0;
    while i < |list|
      invariant 0 <= i <= |list| && |buckets| == i
      invariant forall j :: 0 <= j < i ==> buckets[j] == AssignBucket(list[j], size, nbuckets)
    {
      var q := CDiv(list[i], size);
      if q >= nbuckets {
        q := nbuckets - 1;
      }
      buckets := buckets + [q];
      i := i + 1;
    }
  }

  /**
   * The legacy `assign_idxlist_elements_to_buckets`: the same clamped
   * quotient, but the divisor is the number of buckets, so a bucket holds
   * `nbuckets` consecutive indices whatever the bucket size is.
   */
  method LegacyAssignBuckets(list: seq<int>, nbuckets: int) returns (buckets: seq<int>)
    requires nbuckets != 0
    ensures |buckets| == |list|
    ensures forall i :: 0 <= i < |list| ==> buckets[i] <= nbuckets - 1
    ensures 0 < nbuckets ==>
              forall i :: 0 <= i < |list| && 0 <= list[i] ==> Owns(buckets[i], list[i], nbuckets, nbuckets)
  {
    buckets := AssignBuckets(list, nbuckets, nbuckets);
  }

  /** The assignment scenario of the test suite: size 9, five buckets. */
  method AssignScenario() returns (buckets: seq<int>)
    ensures buckets == [0, 0, 1, 2, 4]
  {
    buckets := AssignBuckets([0, 7, 9, 25, 47], 9, 5);
    assert buckets[0] == AssignBucket(0, 9, 5);
  }

  /**
   * Equal values are contiguous: every element either continues the run
   * before it or has not been seen before.
   */
  ghost predicate Grouped(s: seq<int>)
  {
    |s| <= 1 || (Grouped(s[..|s| - 1]) && (s[|s| - 1] == s[|s| - 2] || s[|s| - 1] !in s[..|s| - 1]))
  }

  lemma {:induction false} GroupedPrefix(s: seq<int>, n: int)
    requires Grouped(s) && 0 <= n <= |s|
    ensures Grouped(s[..n])
    decreases |s|
  {
    if n < |s| {
      assert s[..|s| - 1][..n] == s[..n];
      GroupedPrefix(s[..|s| - 1], n);
    } else {
      assert s[..n] == s;
    }
  }

  /** In a grouped list an element that differs from its predecessor is new. */
  lemma RunStart(s: seq<int>, i: int)
    requires Grouped(s) && 0 < i < |s| && s[i] != s[i - 1]
    ensures s[i] !in s[..i] && multiset(s[..i])[s[i]] == 0
  {
    GroupedPrefix(s, i + 1);
    assert s[..i + 1][..i] == s[..i];
  }

  lemma {:induction false} SortedGrouped(s: seq<int>)
    requires SortedInts(s)
    ensures Grouped(s)
    decreases |s|
  {
    if |s| > 1 {
      SortedGrouped(s[..|s| - 1]);
      if s[|s| - 1] != s[|s| - 2] {
        assert s[|s| - 1] > s[|s| - 2];
      }
    }
  }

  /**
   * `num_indices_to_send_to_each_bucket`: walks the bucket list keeping the
   * start `offset` of the current run of equal buckets and writes the run's
   * length so far into that bucket's entry. A bucket that is absent stays 0;
   * when the list is grouped every entry is the number of indices sent to
   * that bucket.
   */
  method NumIndicesToSend(buckets: seq<int>, nranks: int) returns (sizeRanks: seq<int>)
    requires 0 <= nranks && InBuckets(buckets, nranks)
    ensures |sizeRanks| == nranks
    ensures forall b :: 0 <= b < nranks ==> sizeRanks[b] >= 0 && (sizeRanks[b] > 0 <==> b in buckets)
    ensures Grouped(buckets) ==> forall b :: 0 <= b < nranks ==> sizeRanks[b] == multiset(buckets)[b]
    ensures Grouped(buckets) ==> Sum(sizeRanks) == |buckets|
  {
    if |buckets| == 0 {
      sizeRanks := seq(nranks, _ => 0);
    } else {
      sizeRanks := WriteRunLengths(buckets, nranks);
    }
    if Grouped(buckets) {
      SumOfCounts(buckets, nranks, sizeRanks);
    }
  }

  /** The loop of `NumIndicesToSend` over a non-empty list. */
  method WriteRunLengths(buckets: seq<int>, nranks: int) returns (sizeRanks: seq<int>)
    requires 0 <= nranks && InBuckets(buckets, nranks) && |buckets| > 0
    ensures |sizeRanks| == nranks
    ensures forall b :: 0 <= b < nranks ==> sizeRanks[b] >= 0 && (sizeRanks[b] > 0 <==> b in buckets)
    ensures Grouped(buckets) ==> forall b :: 0 <= b < nranks ==> sizeRanks[b] == multiset(buckets)[b]
  {
    sizeRanks := seq(nranks, _ => 0);
    var i, offset, count := 0, 0, 1;
    while i < |buckets|
      invariant CountState(buckets, nranks, sizeRanks, i, offset)
      invariant count == i - offset + 1
    {
      sizeRanks, offset, count := CountEntry(buckets, nranks, sizeRanks, i, offset, count);
      i := i + 1;
    }
    CountDone(buckets, nranks, sizeRanks, i, offset);
  }

  /** One pass of the loop of `NumIndicesToSend`: a new run starts at a different bucket, and the run's length is written. */
  method CountEntry(buckets: seq<int>, nranks: int, sizeRanks: seq<int>, i: int, offset: int, count: int)
    returns (sizeRanks': seq<int>, offset': int, count': int)
    requires CountState(buckets, nranks, sizeRanks, i, offset) && i < |buckets| && count == i - offset + 1
    ensures CountState(buckets, nranks, sizeRanks', i + 1, offset') && count' == i + 1 - offset' + 1
  {
    CountStep(buckets, nranks, sizeRanks, i, offset);
    offset', count' := offset, count;
    if buckets[i] != buckets[offset] {
      count' := 1;
      offset' := i;
    }
    sizeRanks' := sizeRanks[buckets[offset'] := count'];
    count' := count' + 1;
  }

  lemma SumOfCounts(buckets: seq<int>, nranks: nat, sizeRanks: seq<int>)
    requires InBuckets(buckets, nranks) && |sizeRanks| == nranks
    requires forall b :: 0 <= b < nranks ==> sizeRanks[b] == multiset(buckets)[b]
    ensures Sum(sizeRanks) == |buckets|
  {
    assert sizeRanks == CountsOf(buckets, nranks);
    CountsSum(buckets, nranks);
  }

  /** How many indices of the list go to each bucket. */
  function CountsOf(buckets: seq<int>, nbuckets: nat): (c: seq<int>)
    ensures |c| == nbuckets && forall b :: 0 <= b < nbuckets ==> c[b] == multiset(buckets)[b]
  {
    seq(nbuckets, b => multiset(buckets)[b])
  }

  /** Every index goes to exactly one bucket, so the counts add up to the list's length. */
  lemma {:induction false} CountsSum(buckets: seq<int>, nbuckets: nat)
    requires InBuckets(buckets, nbuckets)
    ensures Sum(CountsOf(buckets, nbuckets)) == |buckets|
    decreases |buckets|
  {
    if |buckets| > 0 {
      var init, x := buckets[..|buckets| - 1], buckets[|buckets| - 1];
      CountsSum(init, nbuckets);
      assert buckets == init + [x];
      var c := CountsOf(init, nbuckets);
      assert CountsOf(buckets, nbuckets) == c[x := c[x] + 1];
      SumIncrement(c, x);
    } else {
      assert CountsOf(buckets, nbuckets) == seq(nbuckets, _ => 0);
      SumZeros(nbuckets);
    }
  }

  lemma {:induction false} SumZeros(n: nat)
    ensures Sum(seq(n, _ => 0)) == 0
  {
    if n > 0 {
      assert seq(n, _ => 0)[..n - 1] == seq(n - 1, _ => 0);
      SumZeros(n - 1);
    }
  }

  lemma CountDone(buckets: seq<int>, nranks: int, sizeRanks: seq<int>, i: int, offset: int)
    requires CountState(buckets, nranks, sizeRanks, i, offset) && i == |buckets|
    ensures forall b :: 0 <= b < nranks ==> sizeRanks[b] >= 0 && (sizeRanks[b] > 0 <==> b in buckets)
    ensures Grouped(buckets) ==> forall b :: 0 <= b < nranks ==> sizeRanks[b] == multiset(buckets)[b]
  {
    assert buckets[..i] == buckets;
  }

  /** The loop invariant of `NumIndicesToSend` after the first `i` entries. */
  ghost predicate CountState(buckets: seq<int>, nranks: int, sizeRanks: seq<int>, i: int, offset: int)
  {
    && 0 <= offset <= i <= |buckets| && offset < |buckets| && (i > 0 ==> offset < i)
    && (forall j :: offset <= j < i ==> buckets[j] == buckets[offset])
    && |sizeRanks| == nranks && InBuckets(buckets, nranks)
    && (i > offset ==> sizeRanks[buckets[offset]] == i - offset)
    && (forall b :: 0 <= b < nranks ==> sizeRanks[b] >= 0 && (sizeRanks[b] > 0 <==> b in buckets[..i]))
    && (Grouped(buckets) ==> forall b :: 0 <= b < nranks ==> sizeRanks[b] == multiset(buckets[..i])[b])
  }

  lemma CountStep(buckets: seq<int>, nranks: int, sizeRanks: seq<int>, i: int, offset: int)
    requires CountState(buckets, nranks, sizeRanks, i, offset) && i < |buckets|
    ensures var start := if buckets[i] != buckets[offset] then i else offset;
            CountState(buckets, nranks, sizeRanks[buckets[start] := i - start + 1], i + 1, start)
  {
    var start := if buckets[i] != buckets[offset] then i else offset;
    var sr := sizeRanks[buckets[start] := i - start + 1];
    assert buckets[start] == buckets[i];
    assert forall j :: start <= j < i + 1 ==> buckets[j] == buckets[start];
    assert sr[buckets[start]] == i + 1 - start;
    CountPresence(buckets, nranks, sizeRanks, i, offset, start);
    if Grouped(buckets) {
      RunLength(buckets, nranks, sizeRanks, i, offset, start);
      CountMultiplicity(buckets, nranks, sizeRanks, i);
    }
  }

  /** Writing the run length keeps "positive exactly for the buckets seen so far". */
  lemma CountPresence(buckets: seq<int>, nranks: int, sizeRanks: seq<int>, i: int, offset: int, start: int)
    requires CountState(buckets, nranks, sizeRanks, i, offset) && i < |buckets|
    requires start == if buckets[i] != buckets[offset] then i else offset
    ensures var sr := sizeRanks[buckets[start] := i - start + 1];
            forall b :: 0 <= b < nranks ==> sr[b] >= 0 && (sr[b] > 0 <==> b in buckets[..i + 1])
  {
    var sr := sizeRanks[buckets[start] := i - start + 1];
    assert buckets[..i + 1] == buckets[..i] + [buckets[i]];
    assert buckets[start] == buckets[i];
    forall b | 0 <= b < nranks
      ensures sr[b] >= 0 && (sr[b] > 0 <==> b in buckets[..i + 1])
    {
    }
  }

  /** Writing a bucket's count after one more entry keeps every entry equal to its bucket's count. */
  lemma CountMultiplicity(buckets: seq<int>, nranks: int, sizeRanks: seq<int>, i: int)
    requires 0 <= i < |buckets| && |sizeRanks| == nranks && 0 <= buckets[i] < nranks
    requires forall b :: 0 <= b < nranks ==> sizeRanks[b] == multiset(buckets[..i])[b]
    ensures var sr := sizeRanks[buckets[i] := multiset(buckets[..i])[buckets[i]] + 1];
            forall b :: 0 <= b < nranks ==> sr[b] == multiset(buckets[..i + 1])[b]
  {
    var v := buckets[i];
    assert multiset(buckets[..i + 1]) == multiset(buckets[..i]) + multiset{v} by {
      assert buckets[..i + 1] == buckets[..i] + [v];
    }
  }

  /** The entry at `i` closes a run whose length is its bucket's count so far. */
  lemma RunLength(buckets: seq<int>, nranks: int, sizeRanks: seq<int>, i: int, offset: int, start: int)
    requires CountState(buckets, nranks, sizeRanks, i, offset) && i < |buckets| && Grouped(buckets)
    requires start == if buckets[i] != buckets[offset] then i else offset
    ensures multiset(buckets[..i])[buckets[i]] == i - start
  {
    if start == i && i > 0 {
      assert buckets[i - 1] == buckets[offset];
      RunStart(buckets, i);
    } else if i == 0 {
      assert buckets[..i] == [];
    }
  }

  /** The bucket list of the counting scenario of the test suite. */
  const CountedBuckets: seq<int> := [0, 0, 0, 1, 2, 2, 3, 3, 3]

  lemma CountedBucketsGrouped()
    ensures Grouped(CountedBuckets) && InBuckets(CountedBuckets, 4)
  {
    assert SortedInts(CountedBuckets);
    SortedGrouped(CountedBuckets);
  }

  lemma CountedBucketsCounts()
    ensures multiset(CountedBuckets)[0] == 3 && multiset(CountedBuckets)[1] == 1
    ensures multiset(CountedBuckets)[2] == 2 && multiset(CountedBuckets)[3] == 3
  {
    CountMultiset(CountedBuckets, 0);
    CountMultiset(CountedBuckets, 1);
    CountMultiset(CountedBuckets, 2);
    CountMultiset(CountedBuckets, 3);
  }

  /** The counting scenario: runs of 3, 1, 2 and 3 indices. */
  method NumIndicesScenario() returns (sizeRanks: seq<int>)
    ensures sizeRanks == [3, 1, 2, 3]
  {
    CountedBucketsGrouped();
    CountedBucketsCounts();
    sizeRanks := NumIndicesToSend(CountedBuckets, 4);
    CountsListed(sizeRanks);
  }

  lemma CountsListed(s: seq<int>)
    requires |s| == 4 && s[0] == 3 && s[1] == 1 && s[2] == 2 && s[3] == 3
    ensures s == [3, 1, 2, 3]
  {
  }

  // ---------------------------------------------------------------------------
  // Collectives over the world: `world[r]` is what rank `r` holds
  // ---------------------------------------------------------------------------

  /** Every rank holds an entry for bucket `b`. */
  predicate HasColumn(world: seq<seq<int>>, b: int)
  {
    0 <= b && forall r :: 0 <= r < |world| ==> b < |world[r]|
  }

  /** Entry `b` of every rank, in rank order. */
  function Column(world: seq<seq<int>>, b: int): (c: seq<int>)
    requires HasColumn(world, b)
    ensures |c| == |world| && forall r :: 0 <= r < |world| ==> c[r] == world[r][b]
  {
    seq(|world|, r requires 0 <= r < |world| => world[r][b])
  }

  /**
   * The flags of `get_n_procs_send_to_bucket`: entry `b` is 1 when some
   * index of the list goes to bucket `b` and 0 otherwise.
   */
  method SendFlags(buckets: seq<int>, nbuckets: int) returns (flags: seq<int>)
    requires 0 <= nbuckets && InBuckets(buckets, nbuckets)
    ensures |flags| == nbuckets
    ensures forall b :: 0 <= b < nbuckets ==> flags[b] == if b in buckets then 1 else 0
  {
    flags := seq(nbuckets, _ => 0);
    var i := 0;
    while i < |buckets|
      invariant 0 <= i <= |buckets| && |flags| == nbuckets
      invariant forall b :: 0 <= b < nbuckets ==> flags[b] == if b in buckets[..i] then 1 else 0
    {
      assert buckets[..i + 1] == buckets[..i] + [buckets[i]];
      flags := flags[buckets[i] := 1];
      i := i + 1;
    }
    assert buckets[..i] == buckets;
  }

  /**
   * The ranks that send at least one index to bucket `b`, ascending, given
   * every rank's per-bucket counts.
   */
  function Senders(sizeWorld: seq<seq<int>>, b: int): (s: seq<int>)
    requires HasColumn(sizeWorld, b)
    ensures StrictlySortedInts(s)
    ensures forall r :: r in s <==> 0 <= r < |sizeWorld| && sizeWorld[r][b] > 0
    ensures forall i :: 0 <= i < |s| ==> 0 <= s[i] < |sizeWorld|
    decreases |sizeWorld|
  {
    if |sizeWorld| == 0 then []
    else
      var init := Senders(sizeWorld[..|sizeWorld| - 1], b);
      if sizeWorld[|sizeWorld| - 1][b] > 0 then init + [|sizeWorld| - 1] else init
  }

  /** Rank `r`'s flags are the 0/1 image of its counts. */
  ghost predicate FlagsOf(flagWorld: seq<seq<int>>, sizeWorld: seq<seq<int>>, b: int)
  {
    && |flagWorld| == |sizeWorld| && HasColumn(flagWorld, b) && HasColumn(sizeWorld, b)
    && forall r :: 0 <= r < |flagWorld| ==> flagWorld[r][b] == if sizeWorld[r][b] > 0 then 1 else 0
  }

  /**
   * The reduce-scatter of `get_n_procs_send_to_bucket` gives bucket `b` the
   * number of ranks that send to it, which is the number of receives it posts.
   */
  lemma {:induction false} ProcsSendingTo(flagWorld: seq<seq<int>>, sizeWorld: seq<seq<int>>, b: int)
    requires FlagsOf(flagWorld, sizeWorld, b)
    ensures Sum(Column(flagWorld, b)) == |Senders(sizeWorld, b)|
    decreases |flagWorld|
  {
    var n := |flagWorld|;
    if n > 0 {
      ProcsSendingTo(flagWorld[..n - 1], sizeWorld[..n - 1], b);
      assert Column(flagWorld, b)[..n - 1] == Column(flagWorld[..n - 1], b);
    }
  }

  /** The number-of-processes scenario: four ranks each hit all four buckets. */
  method NumProcsScenario() returns (nprocs: seq<int>)
    ensures nprocs == [4, 4, 4, 4]
  {
    var flags := SendFlags([0, 1, 2, 3], 4);
    assert flags == [1, 1, 1, 1];
    var world := [flags, flags, flags, flags];
    nprocs := seq(4, b requires 0 <= b < 4 => Sum(Column(world, b)));
    assert forall b :: 0 <= b < 4 ==> Column(world, b) == [1, 1, 1, 1];
    assert Sum([1, 1, 1, 1]) == 4 by {
      assert [1, 1, 1, 1][..3] == [1, 1, 1] && [1, 1, 1][..2] == [1, 1] && [1, 1][..1] == [1];
    }
  }

  /**
   * `get_receivers_bucket`: the senders' ranks arrive in any order and are
   * merge sorted, which yields the ascending sender list.
   */
  method ReceiversBucket(arrived: seq<int>, sizeWorld: seq<seq<int>>, b: int) returns (senders: seq<int>)
    requires HasColumn(sizeWorld, b) && multiset(arrived) == multiset(Senders(sizeWorld, b))
    ensures senders == Senders(sizeWorld, b)
  {
    senders := MergeSort.MergeSortKeys(arrived, 0, |arrived| - 1);
    if |arrived| > 0 {
      assert senders[0..|arrived|] == senders && arrived[0..|arrived|] == arrived;
    } else {
      assert |Senders(sizeWorld, b)| == |multiset(arrived)| == 0;
    }
    DistinctSortUniqueInts(senders, Senders(sizeWorld, b));
  }

  /**
   * `get_n_indices_from_each_process`: from the `i`-th sender, bucket `b`
   * learns how many indices that sender has for it.
   */
  function MsgSizes(sizeWorld: seq<seq<int>>, senders: seq<int>, b: int): (m: seq<int>)
    requires HasColumn(sizeWorld, b) && forall i :: 0 <= i < |senders| ==> 0 <= senders[i] < |sizeWorld|
    ensures |m| == |senders|
  {
    seq(|senders|, i requires 0 <= i < |senders| => sizeWorld[senders[i]][b])
  }

  /** The messages of `senders`, in that order. */
  function Gather<T>(parts: seq<seq<T>>, senders: seq<int>): seq<T>
    requires forall i :: 0 <= i < |senders| ==> 0 <= senders[i] < |parts|
  {
    if |senders| == 0 then [] else Gather(parts, senders[..|senders| - 1]) + parts[senders[|senders| - 1]]
  }

  /**
   * Gathering from the senders of the first `k` ranks joins those ranks'
   * messages: a rank that is not a sender has nothing to contribute.
   */
  lemma {:induction false} GatherSendersPrefix<T>(parts: seq<seq<T>>, sizeWorld: seq<seq<int>>, b: int, k: int)
    requires |parts| == |sizeWorld| && HasColumn(sizeWorld, b) && 0 <= k <= |parts|
    requires forall r :: 0 <= r < |parts| && sizeWorld[r][b] <= 0 ==> parts[r] == []
    ensures Gather(parts, Senders(sizeWorld[..k], b)) == Concat(parts[..k])
    decreases k
  {
    if k > 0 {
      assert sizeWorld[..k][..k - 1] == sizeWorld[..k - 1];
      var prev := Senders(sizeWorld[..k - 1], b);
      GatherSendersPrefix(parts, sizeWorld, b, k - 1);
      ConcatPrefix(parts, k);
      if sizeWorld[k - 1][b] > 0 {
        assert Senders(sizeWorld[..k], b) == prev + [k - 1];
        assert (prev + [k - 1])[..|prev|] == prev;
      } else {
        assert Senders(sizeWorld[..k], b) == prev;
      }
    }
  }

  lemma GatherSenders<T>(parts: seq<seq<T>>, sizeWorld: seq<seq<int>>, b: int)
    requires |parts| == |sizeWorld| && HasColumn(sizeWorld, b)
    requires forall r :: 0 <= r < |parts| && sizeWorld[r][b] <= 0 ==> parts[r] == []
    ensures Gather(parts, Senders(sizeWorld, b)) == Concat(parts)
  {
    GatherSendersPrefix(parts, sizeWorld, b, |parts|);
    assert sizeWorld[..|parts|] == sizeWorld && parts[..|parts|] == parts;
  }

  /** Bucket `b` receives everything sent to it: the message sizes add up to the column sum. */
  lemma MsgSizesSum(sizeWorld: seq<seq<int>>, b: int)
    requires HasColumn(sizeWorld, b)
    ensures Sum(MsgSizes(sizeWorld, Senders(sizeWorld, b), b)) == |Concat(RankParts(sizeWorld, b))|
  {
    var s := Senders(sizeWorld, b);
    BucketRanksFromWorld(sizeWorld, b);
    BucketRanksLength(s, MsgSizes(sizeWorld, s, b));
  }

  /**
   * `bucket_idxlist_procs`: the `i`-th sender's rank, repeated as often as
   * that sender has indices for the bucket, in sender order.
   */
  function BucketRanks(senders: seq<int>, msgSizes: seq<int>): seq<int>
    requires |senders| == |msgSizes|
  {
    if |senders| == 0 then []
    else BucketRanks(senders[..|senders| - 1], msgSizes[..|senders| - 1])
         + Repeat(senders[|senders| - 1], msgSizes[|senders| - 1])
  }

  lemma {:induction false} BucketRanksLength(senders: seq<int>, msgSizes: seq<int>)
    requires |senders| == |msgSizes| && NonNegative(msgSizes)
    ensures |BucketRanks(senders, msgSizes)| == Sum(msgSizes)
    decreases |senders|
  {
    if |senders| > 0 {
      BucketRanksLength(senders[..|senders| - 1], msgSizes[..|senders| - 1]);
    }
  }

  /** Rank `r`'s contribution to bucket `b`'s rank array: its count, as copies of `r`. */
  function RankParts(sizeWorld: seq<seq<int>>, b: int): (p: seq<seq<int>>)
    requires HasColumn(sizeWorld, b)
    ensures |p| == |sizeWorld|
  {
    seq(|sizeWorld|, r requires 0 <= r < |sizeWorld| => Repeat(r, sizeWorld[r][b]))
  }

  lemma {:induction false} BucketRanksGather(sizeWorld: seq<seq<int>>, senders: seq<int>, b: int)
    requires HasColumn(sizeWorld, b) && forall i :: 0 <= i < |senders| ==> 0 <= senders[i] < |sizeWorld|
    ensures BucketRanks(senders, MsgSizes(sizeWorld, senders, b)) == Gather(RankParts(sizeWorld, b), senders)
    decreases |senders|
  {
    if |senders| > 0 {
      var n := |senders|;
      assert MsgSizes(sizeWorld, senders, b)[..n - 1] == MsgSizes(sizeWorld, senders[..n - 1], b);
      BucketRanksGather(sizeWorld, senders[..n - 1], b);
    }
  }

  /**
   * The rank array the bucket assembles is, rank by rank, each rank repeated
   * as many times as it sends indices to the bucket.
   */
  lemma BucketRanksFromWorld(sizeWorld: seq<seq<int>>, b: int)
    requires HasColumn(sizeWorld, b)
    ensures var s := Senders(sizeWorld, b);
            BucketRanks(s, MsgSizes(sizeWorld, s, b)) == Concat(RankParts(sizeWorld, b))
  {
    var s := Senders(sizeWorld, b);
    BucketRanksGather(sizeWorld, s, b);
    GatherSenders(RankParts(sizeWorld, b), sizeWorld, b);
  }

  /** The rank array of a bucket is sorted, and holds only ranks of the world. */
  lemma {:induction false} RankPartsSorted(sizeWorld: seq<seq<int>>, b: int, k: int)
    requires HasColumn(sizeWorld, b) && 0 <= k <= |sizeWorld|
    ensures SortedInts(Concat(RankParts(sizeWorld, b)[..k]))
    ensures forall i :: 0 <= i < |Concat(RankParts(sizeWorld, b)[..k])| ==> 0 <= Concat(RankParts(sizeWorld, b)[..k])[i] < k
    decreases k
  {
    if k > 0 {
      var parts := RankParts(sizeWorld, b);
      assert parts[..k][..k - 1] == parts[..k - 1];
      RankPartsSorted(sizeWorld, b, k - 1);
    }
  }

  /**
   * The sending half of `bucket_idxlist_elements`: walking the buckets in
   * order, a bucket with a positive count gets the next that many entries of
   * the bucket-sorted list. The messages tile the list.
   */
  method SendSlices(sorted: seq<int>, sizeRanks: seq<int>) returns (msgs: seq<seq<int>>)
    requires NonNegative(sizeRanks) && Sum(sizeRanks) <= |sorted|
    ensures |msgs| == |sizeRanks|
    ensures forall b :: 0 <= b < |sizeRanks| ==>
              && |msgs[b]| == sizeRanks[b]
              && 0 <= Offset(sizeRanks, b) <= Offset(sizeRanks, b) + sizeRanks[b] <= |sorted|
              && msgs[b] == sorted[Offset(sizeRanks, b)..Offset(sizeRanks, b) + sizeRanks[b]]
    ensures Concat(msgs) == sorted[..Sum(sizeRanks)]
  {
    msgs := [];
    var offset, i := 0, 0;
    assert SliceState(sorted, sizeRanks, msgs, i);
    while i < |sizeRanks|
      invariant SliceState(sorted, sizeRanks, msgs, i) && offset == Offset(sizeRanks, i)
    {
      msgs, offset := SliceEntry(sorted, sizeRanks, msgs, i, offset);
      i := i + 1;
    }
    SliceDone(sorted, sizeRanks, msgs);
  }

  /** One pass of the loop of `SendSlices`: the next `sizeRanks[i]` entries go to bucket `i`. */
  method SliceEntry(sorted: seq<int>, sizeRanks: seq<int>, msgs: seq<seq<int>>, i: int, offset: int)
    returns (msgs': seq<seq<int>>, offset': int)
    requires SliceState(sorted, sizeRanks, msgs, i) && i < |sizeRanks| && offset == Offset(sizeRanks, i)
    ensures SliceState(sorted, sizeRanks, msgs', i + 1) && offset' == Offset(sizeRanks, i + 1)
  {
    var m := [];
    offset' := offset;
    SliceStep(sorted, sizeRanks, msgs, i);
    if sizeRanks[i] > 0 {
      m := sorted[offset..offset + sizeRanks[i]];
      offset' := offset + sizeRanks[i];
    }
    msgs' := msgs + [m];
  }

  lemma SliceDone(sorted: seq<int>, sizeRanks: seq<int>, msgs: seq<seq<int>>)
    requires SliceState(sorted, sizeRanks, msgs, |sizeRanks|)
    ensures forall b :: 0 <= b < |sizeRanks| ==>
              && |msgs[b]| == sizeRanks[b]
              && 0 <= Offset(sizeRanks, b) <= Offset(sizeRanks, b) + sizeRanks[b] <= |sorted|
              && msgs[b] == sorted[Offset(sizeRanks, b)..Offset(sizeRanks, b) + sizeRanks[b]]
    ensures Concat(msgs) == sorted[..Sum(sizeRanks)]
  {
    assert sizeRanks[..|sizeRanks|] == sizeRanks;
  }

  /** The loop invariant of `SendSlices` after `i` buckets. */
  ghost predicate SliceState(sorted: seq<int>, sizeRanks: seq<int>, msgs: seq<seq<int>>, i: int)
  {
    && NonNegative(sizeRanks) && Sum(sizeRanks) <= |sorted|
    && 0 <= i <= |sizeRanks| && |msgs| == i
    && (forall b :: 0 <= b < i ==>
          && 0 <= Offset(sizeRanks, b) <= Offset(sizeRanks, b) + sizeRanks[b] <= |sorted|
          && msgs[b] == sorted[Offset(sizeRanks, b)..Offset(sizeRanks, b) + sizeRanks[b]])
    && 0 <= Offset(sizeRanks, i) <= |sorted|
    && Concat(msgs) == sorted[..Offset(sizeRanks, i)]
  }

  lemma SliceStep(sorted: seq<int>, sizeRanks: seq<int>, msgs: seq<seq<int>>, i: int)
    requires SliceState(sorted, sizeRanks, msgs, i) && i < |sizeRanks|
    ensures Offset(sizeRanks, i) + sizeRanks[i] <= |sorted|
    ensures SliceState(sorted, sizeRanks, msgs + [sorted[Offset(sizeRanks, i)..Offset(sizeRanks, i) + sizeRanks[i]]], i + 1)
    ensures Offset(sizeRanks, i + 1) == Offset(sizeRanks, i) + sizeRanks[i]
  {
    OffsetStep(sizeRanks, i);
    var o := Offset(sizeRanks, i);
    var m := sorted[o..o + sizeRanks[i]];
    var msgs' := msgs + [m];
    assert Concat(msgs') == sorted[..o + sizeRanks[i]] by {
      assert msgs'[..i] == msgs;
      assert sorted[..o + sizeRanks[i]] == sorted[..o] + m;
    }
    assert forall b :: 0 <= b < i + 1 ==>
          && 0 <= Offset(sizeRanks, b) <= Offset(sizeRanks, b) + sizeRanks[b] <= |sorted|
          && msgs'[b] == sorted[Offset(sizeRanks, b)..Offset(sizeRanks, b) + sizeRanks[b]];
  }

  /** Rank `r`'s message to bucket `b`, for every rank. */
  function MessagesTo(msgWorld: seq<seq<seq<int>>>, b: int): (p: seq<seq<int>>)
    requires 0 <= b && forall r :: 0 <= r < |msgWorld| ==> b < |msgWorld[r]|
    ensures |p| == |msgWorld| && forall r :: 0 <= r < |msgWorld| ==> p[r] == msgWorld[r][b]
  {
    seq(|msgWorld|, r requires 0 <= r < |msgWorld| => msgWorld[r][b])
  }

  /**
   * The receiving half of `bucket_idxlist_elements`: bucket `b` stores the
   * messages of its senders one after the other, in sender order.
   */
  function BucketElements(msgWorld: seq<seq<seq<int>>>, senders: seq<int>, b: int): seq<int>
    requires 0 <= b && forall r :: 0 <= r < |msgWorld| ==> b < |msgWorld[r]|
    requires forall i :: 0 <= i < |senders| ==> 0 <= senders[i] < |msgWorld|
  {
    Gather(MessagesTo(msgWorld, b), senders)
  }

  /**
   * When every rank sends bucket `b` as many indices as its count says,
   * the bucket holds every rank's message in rank order.
   */
  lemma BucketElementsFromWorld(msgWorld: seq<seq<seq<int>>>, sizeWorld: seq<seq<int>>, b: int)
    requires |msgWorld| == |sizeWorld| && HasColumn(sizeWorld, b)
    requires 0 <= b && forall r :: 0 <= r < |msgWorld| ==> b < |msgWorld[r]| && |msgWorld[r][b]| == sizeWorld[r][b]
    ensures BucketElements(msgWorld, Senders(sizeWorld, b), b) == Concat(MessagesTo(msgWorld, b))
  {
    GatherSenders(MessagesTo(msgWorld, b), sizeWorld, b);
  }

  /** A rank that sends to bucket 0 only sends its whole list there. */
  method SendAllToFirst(sorted: seq<int>, nbuckets: int) returns (msgs: seq<seq<int>>)
    requires 0 < nbuckets
    ensures |msgs| == nbuckets && msgs[0] == sorted
    ensures forall b :: 1 <= b < nbuckets ==> msgs[b] == []
  {
    var sizeRanks := [|sorted|] + seq(nbuckets - 1, _ => 0);
    SumFirst(sizeRanks);
    msgs := SendSlices(sorted, sizeRanks);
    assert Concat(msgs) == sorted;
    ConcatPart(msgs, 0);
    assert msgs[..1] == [msgs[0]] && Concat(msgs[..1]) == msgs[0];
  }

  lemma {:induction false} SumFirst(s: seq<int>)
    requires |s| > 0 && forall i :: 1 <= i < |s| ==> s[i] == 0
    ensures Sum(s) == s[0]
    decreases |s|
  {
    if |s| > 1 {
      SumFirst(s[..|s| - 1]);
    }
  }

  /**
   * The bucket-elements scenario: rank `r` of four sends `0 .. 3-r` to
   * bucket 0, which receives `0,1,2,3, 0,1,2, 0,1, 0`.
   */
  method ElementsScenario() returns (elements: seq<int>)
    ensures elements == [0, 1, 2, 3, 0, 1, 2, 0, 1, 0]
  {
    var m0 := SendAllToFirst([0, 1, 2, 3], 4);
    var m1 := SendAllToFirst([0, 1, 2], 4);
    var m2 := SendAllToFirst([0, 1], 4);
    var m3 := SendAllToFirst([0], 4);
    var sizeWorld := [[4, 0, 0, 0], [3, 0, 0, 0], [2, 0, 0, 0], [1, 0, 0, 0]];
    var msgWorld := [m0, m1, m2, m3];
    elements := BucketElements(msgWorld, Senders(sizeWorld, 0), 0);
    BucketElementsFromWorld(msgWorld, sizeWorld, 0);
    assert MessagesTo(msgWorld, 0) == [[0, 1, 2, 3], [0, 1, 2], [0, 1], [0]];
    ScenarioConcat();
  }

  lemma ScenarioConcat()
    ensures Concat([[0, 1, 2, 3], [0, 1, 2], [0, 1], [0]]) == [0, 1, 2, 3, 0, 1, 2, 0, 1, 0]
  {
    var parts := [[0, 1, 2, 3], [0, 1, 2], [0, 1], [0]];
    assert parts[..1] == [[0, 1, 2, 3]] && Concat(parts[..1]) == [0, 1, 2, 3];
    assert parts[..2][..1] == parts[..1] && Concat(parts[..2]) == [0, 1, 2, 3, 0, 1, 2];
    assert parts[..3][..2] == parts[..2] && Concat(parts[..3]) == [0, 1, 2, 3, 0, 1, 2, 0, 1];
    assert parts[..3] == parts[..|parts| - 1];
  }
}
