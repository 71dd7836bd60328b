/**
 * Shared vocabulary of the sorting library.
 *
 * Every sort in the library orders an `int` array and moves zero, one or two
 * companion arrays along with it. The model zips the key array with its
 * companions into a sequence of `Entry` values: the key that is compared and
 * the payload that follows it. Stability is stated through `Filter`: a sort is
 * stable exactly when, for every key, the subsequence of entries with that key
 * is the same before and after.
 */
module SortSpec {
  import Seqs

  /** One position of a sorted array: the compared key and the companion values moved with it. */
  datatype Entry<P> = Entry(key: int, payload: P)

  /** Keys of `s`, in order. */
  function Keys<P>(s: seq<Entry<P>>): (r: seq<int>)
    ensures |r| == |s|
    ensures forall i :: 0 <= i < |s| ==> r[i] == s[i].key
  {
    seq(|s|, i requires 0 <= i < |s| => s[i].key)
  }

  /** Payloads of `s`, in order. */
  function Payloads<P>(s: seq<Entry<P>>): (r: seq<P>)
    ensures |r| == |s|
    ensures forall i :: 0 <= i < |s| ==> r[i] == s[i].payload
  {
    seq(|s|, i requires 0 <= i < |s| => s[i].payload)
  }

  /** A key array with no companion. */
  function Plain(a: seq<int>): (r: seq<Entry<()>>)
    ensures |r| == |a|
    ensures forall i :: 0 <= i < |a| ==> r[i] == Entry(a[i], ())
  {
    seq(|a|, i requires 0 <= i < |a| => Entry(a[i], ()))
  }

  /** A key array with one companion array (`arr_idx`). */
  function Zip(a: seq<int>, b: seq<int>): (r: seq<Entry<int>>)
    requires |a| == |b|
    ensures |r| == |a|
    ensures forall i :: 0 <= i < |a| ==> r[i] == Entry(a[i], b[i])
  {
    seq(|a|, i requires 0 <= i < |a| => Entry(a[i], b[i]))
  }

  /** A key array with two companion arrays (`arr_idx1`, `arr_idx2`). */
  function Zip2(a: seq<int>, b: seq<int>, c: seq<int>): (r: seq<Entry<(int, int)>>)
    requires |a| == |b| == |c|
    ensures |r| == |a|
    ensures forall i :: 0 <= i < |a| ==> r[i] == Entry(a[i], (b[i], c[i]))
  {
    seq(|a|, i requires 0 <= i < |a| => Entry(a[i], (b[i], c[i])))
  }

  /** Ascending order of plain integers. */
  predicate SortedInts(s: seq<int>)
  {
    forall i, j :: 0 <= i < j < |s| ==> s[i] <= s[j]
  }

  /** Strictly ascending order of plain integers (no repeated value). */
  predicate StrictlySortedInts(s: seq<int>)
  {
    forall i, j :: 0 <= i < j < |s| ==> s[i] < s[j]
  }

  /** Ascending order of keys. */
  predicate Sorted<P>(s: seq<Entry<P>>)
  {
    forall i, j :: 0 <= i < j < |s| ==> s[i].key <= s[j].key
  }

  /** Strictly ascending keys: no two entries share a key. */
  predicate StrictlySorted<P>(s: seq<Entry<P>>)
  {
    forall i, j :: 0 <= i < j < |s| ==> s[i].key < s[j].key
  }

  /** The subsequence of entries whose key is `k`, in their order in `s`. */
  function Filter<P>(s: seq<Entry<P>>, k: int): seq<Entry<P>>
  {
    if |s| == 0 then []
    else (if s[0].key == k then [s[0]] else []) + Filter(s[1..], k)
  }

  /**
   * `a` and `b` hold, key by key, the same entries in the same order. For two
   * sequences this is "b is a stable rearrangement of a".
   */
  ghost predicate SameRuns<P>(a: seq<Entry<P>>, b: seq<Entry<P>>)
  {
    forall k :: Filter(a, k) == Filter(b, k)
  }

  /**
   * `res` is `arr` with the range `[lo, hi)` stably sorted and every position
   * outside it unchanged.
   */
  ghost predicate StableSortedRange<P>(res: seq<Entry<P>>, arr: seq<Entry<P>>, lo: int, hi: int)
    requires 0 <= lo <= hi <= |arr|
  {
    && |res| == |arr|
    && res[..lo] == arr[..lo]
    && res[hi..] == arr[hi..]
    && Sorted(res[lo..hi])
    && SameRuns(res[lo..hi], arr[lo..hi])
  }

  /**
   * `res` is `arr` with the range `[lo, hi)` sorted (not necessarily stably) and
   * every position outside it unchanged.
   */
  ghost predicate PermSortedRange<P>(res: seq<Entry<P>>, arr: seq<Entry<P>>, lo: int, hi: int)
    requires 0 <= lo <= hi <= |arr|
  {
    && |res| == |arr|
    && res[..lo] == arr[..lo]
    && res[hi..] == arr[hi..]
    && Sorted(res[lo..hi])
    && multiset(res[lo..hi]) == multiset(arr[lo..hi])
  }

  /** The same statement for a plain key array. */
  ghost predicate SortedIntRange(res: seq<int>, arr: seq<int>, lo: int, hi: int)
    requires 0 <= lo <= hi <= |arr|
  {
    && |res| == |arr|
    && res[..lo] == arr[..lo]
    && res[hi..] == arr[hi..]
    && SortedInts(res[lo..hi])
    && multiset(res[lo..hi]) == multiset(arr[lo..hi])
  }

  /**
   * Functional reference for merging two runs: repeatedly take the smaller head,
   * and the left head on a tie.
   */
  function MergeRuns<P>(a: seq<Entry<P>>, b: seq<Entry<P>>): seq<Entry<P>>
    decreases |a| + |b|
  {
    if |a| == 0 then b
    else if |b| == 0 then a
    else if a[0].key <= b[0].key then [a[0]] + MergeRuns(a[1..], b)
    else [b[0]] + MergeRuns(a, b[1..])
  }

  // ---------------------------------------------------------------------------
  // Filter and SameRuns
  // ---------------------------------------------------------------------------

  lemma {:induction false} FilterConcat<P>(a: seq<Entry<P>>, b: seq<Entry<P>>, k: int)
    ensures Filter(a + b, k) == Filter(a, k) + Filter(b, k)
    decreases |a|
  {
    if |a| == 0 {
      assert a + b == b;
    } else {
      var head := if a[0].key == k then [a[0]] else [];
      assert (a + b)[0] == a[0] && (a + b)[1..] == a[1..] + b;
      FilterConcat(a[1..], b, k);
      assert Filter(a + b, k) == head + (Filter(a[1..], k) + Filter(b, k));
      assert Filter(a, k) == head + Filter(a[1..], k);
    }
  }

  /** Every entry of `Filter(s, k)` comes from `s` and has key `k`. */
  lemma {:induction false} FilterMember<P>(s: seq<Entry<P>>, k: int, e: Entry<P>)
    requires e in Filter(s, k)
    ensures e in s && e.key == k
    decreases |s|
  {
    if |s| > 0 && !(s[0].key == k && e == s[0]) {
      FilterMember(s[1..], k, e);
    }
  }

  /** A key that no entry carries filters to nothing. */
  lemma {:induction false} FilterAbsent<P>(s: seq<Entry<P>>, k: int)
    requires forall i :: 0 <= i < |s| ==> s[i].key != k
    ensures Filter(s, k) == []
    decreases |s|
  {
    if |s| > 0 {
      FilterAbsent(s[1..], k);
    }
  }

  lemma SameRunsRefl<P>(a: seq<Entry<P>>)
    ensures SameRuns(a, a)
  {
  }

  lemma SameRunsTrans<P>(a: seq<Entry<P>>, b: seq<Entry<P>>, c: seq<Entry<P>>)
    requires SameRuns(a, b) && SameRuns(b, c)
    ensures SameRuns(a, c)
  {
  }

  /** Stable rearrangements of adjacent pieces compose. */
  lemma SameRunsConcat<P>(a1: seq<Entry<P>>, a2: seq<Entry<P>>, b1: seq<Entry<P>>, b2: seq<Entry<P>>)
    requires SameRuns(a1, b1) && SameRuns(a2, b2)
    ensures SameRuns(a1 + a2, b1 + b2)
  {
    forall k
      ensures Filter(a1 + a2, k) == Filter(b1 + b2, k)
    {
      FilterConcat(a1, a2, k);
      FilterConcat(b1, b2, k);
    }
  }

  /**
   * Replacing the middle piece `[lo, hi)` of a sequence by a stable
   * rearrangement of it is a stable rearrangement of any enclosing range.
   */
  lemma SameRunsSplice<P>(res: seq<Entry<P>>, arr: seq<Entry<P>>, lo: int, hi: int, c: int, d: int)
    requires 0 <= c <= lo <= hi <= d <= |arr| == |res|
    requires res[..lo] == arr[..lo] && res[hi..] == arr[hi..]
    requires SameRuns(res[lo..hi], arr[lo..hi])
    ensures SameRuns(res[c..d], arr[c..d])
  {
    assert res[c..lo] == arr[c..lo] by {
      assert res[c..lo] == res[..lo][c..];
      assert arr[c..lo] == arr[..lo][c..];
    }
    assert res[hi..d] == arr[hi..d] by {
      assert res[hi..d] == res[hi..][..d - hi];
      assert arr[hi..d] == arr[hi..][..d - hi];
    }
    assert res[c..d] == res[c..lo] + res[lo..hi] + res[hi..d];
    assert arr[c..d] == arr[c..lo] + arr[lo..hi] + arr[hi..d];
    SameRunsConcat(res[c..lo], res[lo..hi], arr[c..lo], arr[lo..hi]);
    SameRunsConcat(res[c..lo] + res[lo..hi], res[hi..d], arr[c..lo] + arr[lo..hi], arr[hi..d]);
  }

  /** How often an entry occurs is decided by the subsequence of its key. */
  lemma {:induction false} CountViaFilter<P>(s: seq<Entry<P>>, e: Entry<P>)
    ensures multiset(s)[e] == multiset(Filter(s, e.key))[e]
    decreases |s|
  {
    if |s| > 0 {
      assert s == [s[0]] + s[1..];
      CountViaFilter(s[1..], e);
    }
  }

  /** A stable rearrangement is a permutation. */
  lemma SameRunsMultiset<P>(a: seq<Entry<P>>, b: seq<Entry<P>>)
    requires SameRuns(a, b)
    ensures multiset(a) == multiset(b)
  {
    forall e
      ensures multiset(a)[e] == multiset(b)[e]
    {
      CountViaFilter(a, e);
      CountViaFilter(b, e);
    }
  }

  /** How often a key occurs is the length of its subsequence. */
  lemma {:induction false} KeyCountViaFilter<P>(s: seq<Entry<P>>, k: int)
    ensures multiset(Keys(s))[k] == |Filter(s, k)|
    decreases |s|
  {
    if |s| > 0 {
      assert Keys(s) == [s[0].key] + Keys(s[1..]);
      KeyCountViaFilter(s[1..], k);
    }
  }

  /** A stable rearrangement permutes the keys. */
  lemma SameRunsKeys<P>(a: seq<Entry<P>>, b: seq<Entry<P>>)
    requires SameRuns(a, b)
    ensures multiset(Keys(a)) == multiset(Keys(b))
  {
    forall k
      ensures multiset(Keys(a))[k] == multiset(Keys(b))[k]
    {
      KeyCountViaFilter(a, k);
      KeyCountViaFilter(b, k);
    }
  }

  /** A permutation of entries permutes their keys. */
  lemma MultisetKeys<P>(a: seq<Entry<P>>, b: seq<Entry<P>>)
    requires multiset(a) == multiset(b)
    ensures multiset(Keys(a)) == multiset(Keys(b))
  {
    var key := (e: Entry<P>) => e.key;
    Seqs.MultisetMap(key, a, b);
    assert Keys(a) == Seqs.MapSeq(key, a);
    assert Keys(b) == Seqs.MapSeq(key, b);
  }

  // ---------------------------------------------------------------------------
  // Uniqueness of sorted results
  // ---------------------------------------------------------------------------

  /**
   * A sorted stable rearrangement is unique: two key-sorted sequences that hold
   * the same runs are equal. So every stable sort computes the same result.
   */
  lemma {:induction false} StableSortUnique<P>(a: seq<Entry<P>>, b: seq<Entry<P>>)
    requires Sorted(a) && Sorted(b) && SameRuns(a, b)
    ensures a == b
    decreases |a|
  {
    SameRunsMultiset(a, b);
    assert |a| == |multiset(a)| == |multiset(b)| == |b|;
    if |a| > 0 {
      var ka, kb := a[0].key, b[0].key;
      var fa := Filter(b, ka);
      assert fa == Filter(a, ka) && fa[0] in fa;
      FilterMember(b, ka, fa[0]);
      var fb := Filter(a, kb);
      assert fb == Filter(b, kb) && fb[0] in fb;
      FilterMember(a, kb, fb[0]);
      assert ka == kb;
      assert a[0] == Filter(a, ka)[0] == Filter(b, ka)[0] == b[0];
      forall k
        ensures Filter(a[1..], k) == Filter(b[1..], k)
      {
        if ka == k {
          assert Filter(a[1..], k) == Filter(a, k)[1..];
          assert Filter(b[1..], k) == Filter(b, k)[1..];
        } else {
          assert Filter(a[1..], k) == Filter(a, k);
          assert Filter(b[1..], k) == Filter(b, k);
        }
      }
      StableSortUnique(a[1..], b[1..]);
      assert a == [a[0]] + a[1..] && b == [b[0]] + b[1..];
    }
  }

  /** A sorted permutation of a strictly sorted sequence starts with the same element. */
  lemma DistinctHead<P>(a: seq<Entry<P>>, b: seq<Entry<P>>)
    requires Sorted(a) && StrictlySorted(b) && multiset(a) == multiset(b)
    requires |a| > 0 && |b| > 0
    ensures a[0] == b[0]
  {
    assert a[0] in multiset(b);
    var j :| 0 <= j < |b| && b[j] == a[0];
    assert b[0] in multiset(a);
    var i :| 0 <= i < |a| && a[i] == b[0];
    assert a[0].key <= a[i].key;
  }

  /**
   * With distinct keys the sorted permutation is unique: a sorted permutation
   * of a strictly sorted sequence is that sequence.
   */
  lemma {:induction false} DistinctSortUnique<P>(a: seq<Entry<P>>, b: seq<Entry<P>>)
    requires Sorted(a) && StrictlySorted(b) && multiset(a) == multiset(b)
    ensures a == b
    decreases |a|
  {
    assert |a| == |multiset(a)| == |multiset(b)| == |b|;
    if |a| > 0 {
      DistinctStep(a, b);
      DistinctSortUnique(a[1..], b[1..]);
      assert a == [a[0]] + a[1..] && b == [b[0]] + b[1..];
    }
  }

  /** Peeling equal heads off a sorted permutation of a strictly sorted sequence. */
  lemma DistinctStep<P>(a: seq<Entry<P>>, b: seq<Entry<P>>)
    requires Sorted(a) && StrictlySorted(b) && multiset(a) == multiset(b)
    requires |a| > 0 && |b| > 0
    ensures a[0] == b[0] && multiset(a[1..]) == multiset(b[1..])
    ensures Sorted(a[1..]) && StrictlySorted(b[1..])
  {
    DistinctHead(a, b);
    Seqs.RemoveHeads(a, b);
    assert Sorted(a[1..]) by {
      forall i, j | 0 <= i < j < |a[1..]|
        ensures a[1..][i].key <= a[1..][j].key
      {
        assert a[1..][i] == a[i + 1] && a[1..][j] == a[j + 1];
      }
    }
    assert StrictlySorted(b[1..]) by {
      forall i, j | 0 <= i < j < |b[1..]|
        ensures b[1..][i].key < b[1..][j].key
      {
        assert b[1..][i] == b[i + 1] && b[1..][j] == b[j + 1];
      }
    }
  }

  lemma DistinctHeadInts(a: seq<int>, b: seq<int>)
    requires SortedInts(a) && StrictlySortedInts(b) && multiset(a) == multiset(b)
    requires |a| > 0 && |b| > 0
    ensures a[0] == b[0]
  {
    assert a[0] in multiset(b);
    var j :| 0 <= j < |b| && b[j] == a[0];
    assert b[0] in multiset(a);
    var i :| 0 <= i < |a| && a[i] == b[0];
    assert a[0] <= a[i];
  }

  /** Peeling equal heads off a sorted permutation of a strictly sorted sequence. */
  lemma DistinctStepInts(a: seq<int>, b: seq<int>)
    requires SortedInts(a) && StrictlySortedInts(b) && multiset(a) == multiset(b)
    requires |a| > 0 && |b| > 0
    ensures a[0] == b[0] && multiset(a[1..]) == multiset(b[1..])
    ensures SortedInts(a[1..]) && StrictlySortedInts(b[1..])
  {
    DistinctHeadInts(a, b);
    Seqs.RemoveHeads(a, b);
    assert SortedInts(a[1..]) by {
      forall i, j | 0 <= i < j < |a[1..]|
        ensures a[1..][i] <= a[1..][j]
      {
        assert a[1..][i] == a[i + 1] && a[1..][j] == a[j + 1];
      }
    }
    assert StrictlySortedInts(b[1..]) by {
      forall i, j | 0 <= i < j < |b[1..]|
        ensures b[1..][i] < b[1..][j]
      {
        assert b[1..][i] == b[i + 1] && b[1..][j] == b[j + 1];
      }
    }
  }

  /** The plain-integer form of `DistinctSortUnique`. */
  lemma {:induction false} DistinctSortUniqueInts(a: seq<int>, b: seq<int>)
    requires SortedInts(a) && StrictlySortedInts(b) && multiset(a) == multiset(b)
    ensures a == b
    decreases |a|
  {
    assert |a| == |multiset(a)| == |multiset(b)| == |b|;
    if |a| > 0 {
      DistinctStepInts(a, b);
      DistinctSortUniqueInts(a[1..], b[1..]);
      assert a == [a[0]] + a[1..] && b == [b[0]] + b[1..];
    }
  }

  // ---------------------------------------------------------------------------
  // MergeRuns
  // ---------------------------------------------------------------------------

  lemma {:induction false} MergeRunsMultiset<P>(a: seq<Entry<P>>, b: seq<Entry<P>>)
    ensures multiset(MergeRuns(a, b)) == multiset(a + b)
    decreases |a| + |b|
  {
    if |a| > 0 && |b| > 0 {
      if a[0].key <= b[0].key {
        MergeRunsMultiset(a[1..], b);
        assert a + b == [a[0]] + (a[1..] + b);
      } else {
        MergeRunsMultiset(a, b[1..]);
        assert b == [b[0]] + b[1..];
      }
    } else if |a| == 0 {
      assert a + b == b;
    } else {
      assert a + b == a;
    }
  }

  lemma FilterCons<P>(x: Entry<P>, s: seq<Entry<P>>, k: int)
    ensures Filter([x] + s, k) == (if x.key == k then [x] else []) + Filter(s, k)
  {
    assert ([x] + s)[0] == x && ([x] + s)[1..] == s;
  }

  /** A sorted run stays sorted when an entry no larger than all of it is put in front. */
  lemma SortedCons<P>(x: Entry<P>, s: seq<Entry<P>>)
    requires Sorted(s)
    requires forall e | e in multiset(s) :: x.key <= e.key
    ensures Sorted([x] + s)
  {
    forall i, j | 0 <= i < j < |[x] + s|
      ensures ([x] + s)[i].key <= ([x] + s)[j].key
    {
      if i == 0 {
        assert ([x] + s)[j] == s[j - 1] && s[j - 1] in multiset(s);
      }
    }
  }

  /** Merging two sorted runs gives a sorted run. */
  lemma {:induction false} MergeRunsSorted<P>(a: seq<Entry<P>>, b: seq<Entry<P>>)
    requires Sorted(a) && Sorted(b)
    ensures Sorted(MergeRuns(a, b))
    decreases |a| + |b|
  {
    if |a| > 0 && |b| > 0 {
      if a[0].key <= b[0].key {
        MergeRunsSorted(a[1..], b);
        MergeRunsMultiset(a[1..], b);
        assert forall i :: 0 <= i < |a[1..] + b| ==> a[0].key <= (a[1..] + b)[i].key by {
          forall i | 0 <= i < |a[1..] + b|
            ensures a[0].key <= (a[1..] + b)[i].key
          {
            if i < |a| - 1 {
              assert (a[1..] + b)[i] == a[i + 1];
            } else {
              assert (a[1..] + b)[i] == b[i - |a| + 1];
            }
          }
        }
        SortedConsPerm(a[0], MergeRuns(a[1..], b), a[1..] + b);
      } else {
        MergeRunsSorted(a, b[1..]);
        MergeRunsMultiset(a, b[1..]);
        assert forall i :: 0 <= i < |a + b[1..]| ==> b[0].key <= (a + b[1..])[i].key by {
          forall i | 0 <= i < |a + b[1..]|
            ensures b[0].key <= (a + b[1..])[i].key
          {
            if i < |a| {
              assert (a + b[1..])[i] == a[i];
            } else {
              assert (a + b[1..])[i] == b[i - |a| + 1];
            }
          }
        }
        SortedConsPerm(b[0], MergeRuns(a, b[1..]), a + b[1..]);
      }
    }
  }

  /** An entry no larger than anything in `pool` can go in front of a sorted permutation of `pool`. */
  lemma SortedConsPerm<P>(x: Entry<P>, rest: seq<Entry<P>>, pool: seq<Entry<P>>)
    requires Sorted(rest) && multiset(rest) == multiset(pool)
    requires forall i :: 0 <= i < |pool| ==> x.key <= pool[i].key
    ensures Sorted([x] + rest)
  {
    forall e: Entry<P> | e in multiset(rest)
      ensures x.key <= e.key
    {
      assert e in pool;
    }
    SortedCons(x, rest);
  }

  /** The merge step that takes the left head keeps every key's entries in order. */
  lemma MergeStableLeft<P>(a: seq<Entry<P>>, b: seq<Entry<P>>, k: int)
    requires |a| > 0 && |b| > 0 && a[0].key <= b[0].key
    requires Filter(MergeRuns(a[1..], b), k) == Filter(a[1..] + b, k)
    ensures Filter(MergeRuns(a, b), k) == Filter(a + b, k)
  {
    assert MergeRuns(a, b) == [a[0]] + MergeRuns(a[1..], b);
    assert a + b == [a[0]] + (a[1..] + b);
    FilterCons(a[0], MergeRuns(a[1..], b), k);
    FilterCons(a[0], a[1..] + b, k);
  }

  /** A sorted run has no entry of a key below its first one. */
  lemma FilterBelowRun<P>(a: seq<Entry<P>>, k: int)
    requires Sorted(a) && |a| > 0 && k < a[0].key
    ensures Filter(a, k) == []
  {
    FilterAbsent(a, k);
  }

  /**
   * The merge step that takes the right head keeps every key's entries in
   * order: the left run, being sorted, has no entry of that key.
   */
  lemma MergeStableRight<P>(a: seq<Entry<P>>, b: seq<Entry<P>>, k: int)
    requires Sorted(a) && |a| > 0 && |b| > 0 && b[0].key < a[0].key
    requires Filter(MergeRuns(a, b[1..]), k) == Filter(a + b[1..], k)
    ensures Filter(MergeRuns(a, b), k) == Filter(a + b, k)
  {
    var head := if b[0].key == k then [b[0]] else [];
    var fa, fb := Filter(a, k), Filter(b[1..], k);
    MergeRightHead(a, b, k);
    ConcatRightHead(a, b, k);
    if b[0].key == k {
      FilterBelowRun(a, k);
      assert head + (fa + fb) == fa + (head + fb);
    } else {
      assert head == [];
      assert head + (fa + fb) == fa + (head + fb);
    }
  }

  /** Filtering a merge that takes the right head, given the step for the rest. */
  lemma MergeRightHead<P>(a: seq<Entry<P>>, b: seq<Entry<P>>, k: int)
    requires |a| > 0 && |b| > 0 && b[0].key < a[0].key
    requires Filter(MergeRuns(a, b[1..]), k) == Filter(a + b[1..], k)
    ensures Filter(MergeRuns(a, b), k)
      == (if b[0].key == k then [b[0]] else []) + (Filter(a, k) + Filter(b[1..], k))
  {
    assert MergeRuns(a, b) == [b[0]] + MergeRuns(a, b[1..]);
    FilterCons(b[0], MergeRuns(a, b[1..]), k);
    FilterConcat(a, b[1..], k);
  }

  /** Filtering two runs back to back, the head of the second split off. */
  lemma ConcatRightHead<P>(a: seq<Entry<P>>, b: seq<Entry<P>>, k: int)
    requires |b| > 0
    ensures Filter(a + b, k)
      == Filter(a, k) + ((if b[0].key == k then [b[0]] else []) + Filter(b[1..], k))
  {
    FilterConcat(a, b, k);
    assert b == [b[0]] + b[1..];
    FilterCons(b[0], b[1..], k);
  }

  /**
   * Taking ties from the left run makes the merge stable: key by key, the
   * entries of the left run come first, then those of the right run.
   */
  lemma {:induction false} MergeRunsStable<P>(a: seq<Entry<P>>, b: seq<Entry<P>>)
    requires Sorted(a)
    ensures SameRuns(MergeRuns(a, b), a + b)
    decreases |a| + |b|
  {
    if |a| == 0 {
      assert a + b == b;
    } else if |b| == 0 {
      assert a + b == a;
    } else if a[0].key <= b[0].key {
      MergeRunsStable(a[1..], b);
      forall k
        ensures Filter(MergeRuns(a, b), k) == Filter(a + b, k)
      {
        MergeStableLeft(a, b, k);
      }
    } else {
      MergeRunsStable(a, b[1..]);
      forall k
        ensures Filter(MergeRuns(a, b), k) == Filter(a + b, k)
      {
        MergeStableRight(a, b, k);
      }
    }
  }

  // ---------------------------------------------------------------------------
  // From entries back to plain key arrays
  // ---------------------------------------------------------------------------

  lemma KeysSlices<P>(s: seq<Entry<P>>, lo: int, hi: int)
    requires 0 <= lo <= hi <= |s|
    ensures Keys(s)[..lo] == Keys(s[..lo])
    ensures Keys(s)[hi..] == Keys(s[hi..])
    ensures Keys(s)[lo..hi] == Keys(s[lo..hi])
  {
  }

  lemma SortedKeys<P>(s: seq<Entry<P>>)
    requires Sorted(s)
    ensures SortedInts(Keys(s))
  {
  }

  /** A stable sort of the plain entries of `arr` sorts the key array itself. */
  lemma PlainStableRange(s: seq<Entry<()>>, arr: seq<int>, lo: int, hi: int)
    requires 0 <= lo <= hi <= |arr|
    requires StableSortedRange(s, Plain(arr), lo, hi)
    ensures SortedIntRange(Keys(s), arr, lo, hi)
  {
    KeysSlices(s, lo, hi);
    KeysSlices(Plain(arr), lo, hi);
    assert Keys(Plain(arr)) == arr;
    SortedKeys(s[lo..hi]);
    SameRunsKeys(s[lo..hi], Plain(arr)[lo..hi]);
  }

  /** A sort of the plain entries of `arr` sorts the key array itself. */
  lemma PlainPermRange(s: seq<Entry<()>>, arr: seq<int>, lo: int, hi: int)
    requires 0 <= lo <= hi <= |arr|
    requires PermSortedRange(s, Plain(arr), lo, hi)
    ensures SortedIntRange(Keys(s), arr, lo, hi)
  {
    KeysSlices(s, lo, hi);
    KeysSlices(Plain(arr), lo, hi);
    assert Keys(Plain(arr)) == arr;
    SortedKeys(s[lo..hi]);
    MultisetKeys(s[lo..hi], Plain(arr)[lo..hi]);
  }

  /** A stable sort is in particular a sort. */
  lemma StableIsPerm<P>(res: seq<Entry<P>>, arr: seq<Entry<P>>, lo: int, hi: int)
    requires 0 <= lo <= hi <= |arr|
    requires StableSortedRange(res, arr, lo, hi)
    ensures PermSortedRange(res, arr, lo, hi)
  {
    SameRunsMultiset(res[lo..hi], arr[lo..hi]);
  }
}
