/**
 * Vocabulary shared by the modules: optional values and results, sums of
 * counts, concatenation of messages and the slice a message occupies inside
 * the concatenation.
 */
module Seqs {

  datatype Option<T> = None | Some(value: T)

  /** The outcome of an operation whose error checks can fail. */
  datatype Result<T> = Success(value: T) | Failure(error: string)

  predicate NonNegative(s: seq<int>)
  {
    forall i :: 0 <= i < |s| ==> s[i] >= 0
  }

  /** The sum of `s`, adding from the back so that prefix sums extend by one entry. */
  function Sum(s: seq<int>): (r: int)
    ensures NonNegative(s) ==> r >= 0
  {
    if |s| == 0 then 0 else Sum(s[..|s| - 1]) + s[|s| - 1]
  }

  /** Prefix sums grow: the sum of a prefix is at most the sum of a longer prefix. */
  lemma {:induction false} SumPrefixMono(s: seq<int>, i: int, j: int)
    requires NonNegative(s) && 0 <= i <= j <= |s|
    ensures Sum(s[..i]) <= Sum(s[..j])
    decreases j - i
  {
    if i < j {
      assert s[..j][..j - 1] == s[..j - 1];
      SumPrefixMono(s, i, j - 1);
    }
  }

  /** Where part `i` starts when parts of the given sizes are laid out one after the other. */
  function Offset(sizes: seq<int>, i: int): int
    requires 0 <= i <= |sizes|
  {
    Sum(sizes[..i])
  }

  /** The next part starts where part `c` ends, no later than the total size. */
  lemma OffsetStep(sizes: seq<int>, c: int)
    requires NonNegative(sizes) && 0 <= c < |sizes|
    ensures 0 <= Offset(sizes, c) && Offset(sizes, c + 1) == Offset(sizes, c) + sizes[c] <= Sum(sizes)
  {
    assert sizes[..c + 1][..c] == sizes[..c];
    SumPrefixMono(sizes, c + 1, |sizes|);
    assert sizes[..|sizes|] == sizes;
  }

  lemma {:induction false} SumConcat(a: seq<int>, b: seq<int>)
    ensures Sum(a + b) == Sum(a) + Sum(b)
    decreases |b|
  {
    if |b| > 0 {
      assert (a + b)[..|a + b| - 1] == a + b[..|b| - 1];
      SumConcat(a, b[..|b| - 1]);
    } else {
      assert a + b == a;
    }
  }

  /** Adding one to an entry adds one to the sum. */
  lemma {:induction false} SumIncrement(s: seq<int>, i: int)
    requires 0 <= i < |s|
    ensures Sum(s[i := s[i] + 1]) == Sum(s) + 1
    decreases |s|
  {
    var t := s[i := s[i] + 1];
    if i < |s| - 1 {
      assert t[..|s| - 1] == s[..|s| - 1][i := s[i] + 1];
      SumIncrement(s[..|s| - 1], i);
    } else {
      assert t[..|s| - 1] == s[..|s| - 1];
    }
  }

  /** How often `v` occurs in `s`. */
  function Count(s: seq<int>, v: int): nat
  {
    if |s| == 0 then 0 else Count(s[..|s| - 1], v) + (if s[|s| - 1] == v then 1 else 0)
  }

  lemma {:induction false} CountMultiset(s: seq<int>, v: int)
    ensures Count(s, v) == multiset(s)[v]
    decreases |s|
  {
    if |s| > 0 {
      assert s == s[..|s| - 1] + [s[|s| - 1]];
      CountMultiset(s[..|s| - 1], v);
    }
  }

  /** All parts joined in order, adding from the back. */
  function Concat<T>(parts: seq<seq<T>>): (r: seq<T>)
  {
    if |parts| == 0 then [] else Concat(parts[..|parts| - 1]) + parts[|parts| - 1]
  }

  /** The first `n` parts joined are the first `n - 1` joined, then part `n - 1`. */
  lemma ConcatPrefix<T>(parts: seq<seq<T>>, n: int)
    requires 0 < n <= |parts|
    ensures Concat(parts[..n]) == Concat(parts[..n - 1]) + parts[n - 1]
  {
    assert parts[..n][..n - 1] == parts[..n - 1];
  }

  lemma {:induction false} ConcatAppend<T>(a: seq<seq<T>>, b: seq<seq<T>>)
    ensures Concat(a + b) == Concat(a) + Concat(b)
    decreases |b|
  {
    if |b| > 0 {
      assert (a + b)[..|a + b| - 1] == a + b[..|b| - 1];
      ConcatAppend(a, b[..|b| - 1]);
    } else {
      assert a + b == a;
    }
  }

  /** Where part `i` starts inside `Concat(parts)`. */
  function PartStart<T>(parts: seq<seq<T>>, i: int): int
    requires 0 <= i <= |parts|
  {
    |Concat(parts[..i])|
  }

  /** Part `i` is the slice of the concatenation between its start and the next part's start. */
  lemma ConcatPart<T>(parts: seq<seq<T>>, i: int)
    requires 0 <= i < |parts|
    ensures PartStart(parts, i) + |parts[i]| == PartStart(parts, i + 1) <= |Concat(parts)|
    ensures Concat(parts)[PartStart(parts, i)..PartStart(parts, i + 1)] == parts[i]
  {
    assert parts == parts[..i + 1] + parts[i + 1..];
    ConcatAppend(parts[..i + 1], parts[i + 1..]);
    assert parts[..i + 1][..i] == parts[..i];
  }

  /** `n` copies of `v`. */
  function Repeat<T>(v: T, n: int): (r: seq<T>)
    ensures |r| == if n < 0 then 0 else n
    ensures forall k :: 0 <= k < |r| ==> r[k] == v
  {
    if n <= 0 then [] else Repeat(v, n - 1) + [v]
  }

  /** `f` applied to each element. */
  function MapSeq<A, B>(f: A -> B, s: seq<A>): (r: seq<B>)
    ensures |r| == |s| && forall k :: 0 <= k < |s| ==> r[k] == f(s[k])
  {
    seq(|s|, k requires 0 <= k < |s| => f(s[k]))
  }

  lemma MapSeqAppend<A, B>(f: A -> B, a: seq<A>, b: seq<A>)
    ensures MapSeq(f, a + b) == MapSeq(f, a) + MapSeq(f, b)
  {
  }

  /** Mapping each part and joining is mapping the joined sequence. */
  lemma {:induction false} MapConcat<A, B>(f: A -> B, parts: seq<seq<A>>)
    ensures Concat(seq(|parts|, i requires 0 <= i < |parts| => MapSeq(f, parts[i]))) == MapSeq(f, Concat(parts))
    decreases |parts|
  {
    var mapped := seq(|parts|, i requires 0 <= i < |parts| => MapSeq(f, parts[i]));
    if |parts| > 0 {
      var init := parts[..|parts| - 1];
      MapConcat(f, init);
      assert mapped[..|parts| - 1] == seq(|init|, i requires 0 <= i < |init| => MapSeq(f, init[i]));
      MapSeqAppend(f, Concat(init), parts[|parts| - 1]);
    }
  }

  /** Removing position `j` removes one occurrence of `s[j]`. */
  lemma RemoveOne<T>(s: seq<T>, j: int)
    requires 0 <= j < |s|
    ensures multiset(s[..j] + s[j + 1..]) == multiset(s) - multiset{s[j]}
  {
    assert s == s[..j] + [s[j]] + s[j + 1..];
  }

  /** Removing position `j` before mapping removes one occurrence of its image. */
  lemma MapRemoveOne<A, B>(f: A -> B, s: seq<A>, j: int)
    requires 0 <= j < |s|
    ensures multiset(MapSeq(f, s)) == multiset(MapSeq(f, s[..j] + s[j + 1..])) + multiset{f(s[j])}
  {
    var m := MapSeq(f, s);
    assert MapSeq(f, s[..j] + s[j + 1..]) == m[..j] + m[j + 1..];
    RemoveOne(m, j);
  }

  /** Taking equal heads off both sides of a permutation leaves a permutation. */
  lemma RemoveHeads<T>(a: seq<T>, b: seq<T>)
    requires multiset(a) == multiset(b) && 0 < |a| && 0 < |b| && a[0] == b[0]
    ensures multiset(a[1..]) == multiset(b[1..])
  {
    RemoveSame(a, b, 0);
    assert b[..0] + b[1..] == b[1..];
  }

  /** Removing the same element from both sides of a permutation leaves a permutation. */
  lemma RemoveSame<T>(a: seq<T>, b: seq<T>, j: int)
    requires multiset(a) == multiset(b) && 0 < |a| && 0 <= j < |b| && b[j] == a[0]
    ensures multiset(a[1..]) == multiset(b[..j] + b[j + 1..])
  {
    RemoveOne(b, j);
    assert a == [a[0]] + a[1..];
  }

  /**
   * The step of `MultisetMap`: when the tails agree after mapping, so do the
   * whole sequences, the head of `a` standing at position `j` of `b`.
   */
  lemma MapHeadAt<A, B>(f: A -> B, a: seq<A>, b: seq<A>, j: int)
    requires 0 < |a| && 0 <= j < |b| && b[j] == a[0]
    requires multiset(MapSeq(f, a[1..])) == multiset(MapSeq(f, b[..j] + b[j + 1..]))
    ensures multiset(MapSeq(f, a)) == multiset(MapSeq(f, b))
  {
    var tail := multiset(MapSeq(f, a[1..]));
    assert multiset(MapSeq(f, b)) == tail + multiset{f(a[0])} by {
      MapRemoveOne(f, b, j);
    }
    assert MapSeq(f, a) == [f(a[0])] + MapSeq(f, a[1..]);
  }

  /** Mapping both sides of a permutation gives a permutation. */
  lemma {:induction false} MultisetMap<A, B>(f: A -> B, a: seq<A>, b: seq<A>)
    requires multiset(a) == multiset(b)
    ensures multiset(MapSeq(f, a)) == multiset(MapSeq(f, b))
    decreases |a|
  {
    if |a| > 0 {
      assert a[0] in multiset(b);
      var j :| 0 <= j < |b| && b[j] == a[0];
      RemoveSame(a, b, j);
      MultisetMap(f, a[1..], b[..j] + b[j + 1..]);
      MapHeadAt(f, a, b, j);
    } else {
      assert |b| == |multiset(b)| == 0;
    }
  }
}
