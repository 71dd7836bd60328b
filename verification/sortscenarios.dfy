/**
 * The scenarios of the sorting test suite, stated as contracts: a shuffled
 * `0 .. 19` is sorted back by each sort, and the ten-entry array with an
 * index companion comes out in the expected order with the expected indices.
 * The keys of that array are distinct, so stable and unstable sorts agree.
 */
module SortScenarios {
  import opened SortSpec
  import MergeSort
  import TimSort
  import QuickSort

  /** `0, 1, .., n - 1`. */
  function Iota(n: nat): (r: seq<int>)
    ensures |r| == n && forall i :: 0 <= i < n ==> r[i] == i
  {
    seq(n, i => i)
  }

  lemma IotaStrictlySorted(n: nat)
    ensures StrictlySortedInts(Iota(n))
  {
  }

  /** No element occurs twice. */
  ghost predicate NoDup<T>(a: seq<T>)
  {
    forall i, j :: 0 <= i < j < |a| ==> a[i] != a[j]
  }

  lemma {:induction false} NoDupCount<T>(a: seq<T>, x: T)
    requires NoDup(a)
    ensures multiset(a)[x] == if x in a then 1 else 0
    decreases |a|
  {
    if |a| > 0 {
      assert a == [a[0]] + a[1..];
      NoDupCount(a[1..], x);
      if x == a[0] {
        assert x !in a[1..];
      }
    }
  }

  /** Two duplicate-free sequences with the same elements are permutations of each other. */
  lemma NoDupSameMultiset<T>(a: seq<T>, b: seq<T>)
    requires NoDup(a) && NoDup(b) && forall x :: x in a <==> x in b
    ensures multiset(a) == multiset(b)
  {
    forall x
      ensures multiset(a)[x] == multiset(b)[x]
    {
      NoDupCount(a, x);
      NoDupCount(b, x);
    }
  }

  /**
   * Two duplicate-free sequences that each reach every entry of the other
   * through an index map are permutations of each other.
   */
  lemma IndexMapsSameMultiset<T>(a: seq<T>, b: seq<T>, p: seq<int>, q: seq<int>)
    requires NoDup(a) && NoDup(b) && |p| == |b| && |q| == |a|
    requires forall k :: 0 <= k < |b| ==> 0 <= p[k] < |a| && b[k] == a[p[k]]
    requires forall i :: 0 <= i < |a| ==> 0 <= q[i] < |b| && a[i] == b[q[i]]
    ensures multiset(a) == multiset(b)
  {
    forall x | x in a
      ensures x in b
    {
      var i :| 0 <= i < |a| && a[i] == x;
      assert b[q[i]] == x;
    }
    forall x | x in b
      ensures x in a
    {
      var k :| 0 <= k < |b| && b[k] == x;
      assert a[p[k]] == x;
    }
    NoDupSameMultiset(a, b);
  }

  /** The keys of the ten-entry scenario. */
  const Array10: seq<int> := [20, 19, 4, 7, 99, 3, 5, 6, 21, 0]
  /** The keys in ascending order. */
  const ArrayOrder: seq<int> := [0, 3, 4, 5, 6, 7, 19, 20, 21, 99]
  /** Where each of the ordered keys stood in `Array10`. */
  const IndicesOrder: seq<int> := [9, 5, 2, 6, 7, 3, 1, 0, 8, 4]
  /** Where each key of `Array10` stands in `ArrayOrder`: the inverse of `IndicesOrder`. */
  const OrderOf: seq<int> := [7, 6, 2, 5, 9, 1, 3, 4, 8, 0]

  /** `IndicesOrder` and `OrderOf` are mutually inverse and carry the keys between the two arrays. */
  lemma OrderMaps()
    ensures forall k :: 0 <= k < 10 ==> 0 <= IndicesOrder[k] < 10 && ArrayOrder[k] == Array10[IndicesOrder[k]]
    ensures forall i :: 0 <= i < 10 ==> 0 <= OrderOf[i] < 10 && IndicesOrder[OrderOf[i]] == i
    ensures StrictlySortedInts(ArrayOrder)
  {
  }

  /** The input pairs and the expected pairs hold the same entries. */
  lemma PairsPermuted()
    ensures multiset(Zip(Array10, Iota(10))) == multiset(Zip(ArrayOrder, IndicesOrder))
    ensures StrictlySorted(Zip(ArrayOrder, IndicesOrder))
  {
    var z := Zip(Array10, Iota(10));
    var e := Zip(ArrayOrder, IndicesOrder);
    OrderMaps();
    assert forall k :: 0 <= k < 10 ==> e[k] == z[IndicesOrder[k]];
    assert forall i :: 0 <= i < 10 ==> z[i] == e[OrderOf[i]];
    assert forall i, j :: 0 <= i < j < 10 ==> z[i].payload != z[j].payload;
    assert forall i, j :: 0 <= i < j < 10 ==> e[i].key < e[j].key;
    IndexMapsSameMultiset(z, e, IndicesOrder, OrderOf);
  }

  /** The sorted pairs are the only sorted permutation of the input pairs. */
  lemma ExpectedPairs(s: seq<Entry<int>>)
    requires Sorted(s) && multiset(s) == multiset(Zip(Array10, Iota(10)))
    ensures s == Zip(ArrayOrder, IndicesOrder)
  {
    PairsPermuted();
    DistinctSortUnique(s, Zip(ArrayOrder, IndicesOrder));
  }

  /** The input triples and the expected triples hold the same entries. */
  lemma TriplesPermuted()
    ensures multiset(Zip2(Array10, Iota(10), Iota(10))) == multiset(Zip2(ArrayOrder, IndicesOrder, IndicesOrder))
    ensures StrictlySorted(Zip2(ArrayOrder, IndicesOrder, IndicesOrder))
  {
    var z := Zip2(Array10, Iota(10), Iota(10));
    var e := Zip2(ArrayOrder, IndicesOrder, IndicesOrder);
    OrderMaps();
    assert forall k :: 0 <= k < 10 ==> e[k] == z[IndicesOrder[k]];
    assert forall i :: 0 <= i < 10 ==> z[i] == e[OrderOf[i]];
    assert forall i, j :: 0 <= i < j < 10 ==> z[i].payload.0 != z[j].payload.0;
    assert forall i, j :: 0 <= i < j < 10 ==> e[i].key < e[j].key;
    IndexMapsSameMultiset(z, e, IndicesOrder, OrderOf);
  }

  /** The same with two companions that both start as `0 .. 9`. */
  lemma ExpectedTriples(s: seq<Entry<(int, int)>>)
    requires Sorted(s) && multiset(s) == multiset(Zip2(Array10, Iota(10), Iota(10)))
    ensures s == Zip2(ArrayOrder, IndicesOrder, IndicesOrder)
  {
    TriplesPermuted();
    DistinctSortUnique(s, Zip2(ArrayOrder, IndicesOrder, IndicesOrder));
  }

  /** A sorted permutation of a shuffled `0 .. n - 1` is `0 .. n - 1`. */
  lemma SortedShuffle(res: seq<int>, arr: seq<int>, n: nat)
    requires |arr| == n && multiset(arr) == multiset(Iota(n))
    requires SortedIntRange(res, arr, 0, n)
    ensures res == Iota(n)
  {
    assert res[0..n] == res && arr[0..n] == arr;
    IotaStrictlySorted(n);
    DistinctSortUniqueInts(res, Iota(n));
  }

  /** First scenario: each sort turns a shuffle of `0 .. 19` back into `0 .. 19`. */
  method ShuffledScenario(shuffled: seq<int>) returns (merged: seq<int>, timed: seq<int>, quick: seq<int>)
    requires |shuffled| == 20 && multiset(shuffled) == multiset(Iota(20))
    ensures merged == Iota(20) && timed == Iota(20) && quick == Iota(20)
  {
    merged := MergeSort.MergeSortKeys(shuffled, 0, 19);
    SortedShuffle(merged, shuffled, 20);
    timed := TimSort.TimSortKeys(shuffled, 0, 19);
    SortedShuffle(timed, shuffled, 20);
    quick := QuickSort.QuickSortKeys(shuffled, 0, 19);
    SortedShuffle(quick, shuffled, 20);
  }

  /** What a sort of the whole pair sequence leaves in the two arrays. */
  lemma PairsResult(a: seq<int>, i: seq<int>)
    requires |a| == 10 && |i| == 10
    requires PermSortedRange(Zip(a, i), Zip(Array10, Iota(10)), 0, 10)
    ensures a == ArrayOrder && i == IndicesOrder
  {
    assert Zip(a, i)[0..10] == Zip(a, i) && Zip(Array10, Iota(10))[0..10] == Zip(Array10, Iota(10));
    ExpectedPairs(Zip(a, i));
    assert forall k :: 0 <= k < 10 ==> a[k] == Zip(a, i)[k].key == ArrayOrder[k];
    assert forall k :: 0 <= k < 10 ==> i[k] == Zip(a, i)[k].payload == IndicesOrder[k];
  }

  /** Second scenario: each sort orders the ten keys and carries their positions along. */
  method IndexedScenario() returns (mergeArr: seq<int>, mergeIdx: seq<int>, timArr: seq<int>, timIdx: seq<int>,
                                    quickArr: seq<int>, quickIdx: seq<int>)
    ensures mergeArr == ArrayOrder && mergeIdx == IndicesOrder
    ensures timArr == ArrayOrder && timIdx == IndicesOrder
    ensures quickArr == ArrayOrder && quickIdx == IndicesOrder
  {
    mergeArr, mergeIdx := MergeSort.MergeSortWithIdx(Array10, Iota(10), 0, 9);
    StableIsPerm(Zip(mergeArr, mergeIdx), Zip(Array10, Iota(10)), 0, 10);
    PairsResult(mergeArr, mergeIdx);
    timArr, timIdx := TimSort.TimSortWithIdx(Array10, Iota(10), 0, 9);
    StableIsPerm(Zip(timArr, timIdx), Zip(Array10, Iota(10)), 0, 10);
    PairsResult(timArr, timIdx);
    var overflow;
    quickArr, quickIdx, overflow := QuickSort.QuickSortWithIdx(Array10, Iota(10), 0, 9);
    PairsResult(quickArr, quickIdx);
  }

  /** What a sort of the whole triple sequence leaves in the three arrays. */
  lemma TriplesResult(a: seq<int>, i1: seq<int>, i2: seq<int>)
    requires |a| == 10 && |i1| == 10 && |i2| == 10
    requires PermSortedRange(Zip2(a, i1, i2), Zip2(Array10, Iota(10), Iota(10)), 0, 10)
    ensures a == ArrayOrder && i1 == IndicesOrder && i2 == IndicesOrder
  {
    var s := Zip2(a, i1, i2);
    assert s[0..10] == s && Zip2(Array10, Iota(10), Iota(10))[0..10] == Zip2(Array10, Iota(10), Iota(10));
    ExpectedTriples(s);
    assert forall k :: 0 <= k < 10 ==> a[k] == s[k].key == ArrayOrder[k];
    assert forall k :: 0 <= k < 10 ==> i1[k] == s[k].payload.0 == IndicesOrder[k];
    assert forall k :: 0 <= k < 10 ==> i2[k] == s[k].payload.1 == IndicesOrder[k];
  }

  /** Third scenario: merge sort and quicksort with two companions. */
  method DoubleIndexedScenario() returns (mergeArr: seq<int>, mergeIdx1: seq<int>, mergeIdx2: seq<int>,
                                          quickArr: seq<int>, quickIdx1: seq<int>, quickIdx2: seq<int>)
    ensures mergeArr == ArrayOrder && mergeIdx1 == IndicesOrder && mergeIdx2 == IndicesOrder
    ensures quickArr == ArrayOrder && quickIdx1 == IndicesOrder && quickIdx2 == IndicesOrder
  {
    mergeArr, mergeIdx1, mergeIdx2 := MergeSort.MergeSortWithIdx2(Array10, Iota(10), Iota(10), 0, 9);
    StableIsPerm(Zip2(mergeArr, mergeIdx1, mergeIdx2), Zip2(Array10, Iota(10), Iota(10)), 0, 10);
    TriplesResult(mergeArr, mergeIdx1, mergeIdx2);
    var overflow;
    quickArr, quickIdx1, quickIdx2, overflow := QuickSort.QuickSortWithIdx2(Array10, Iota(10), Iota(10), 0, 9);
    TriplesResult(quickArr, quickIdx1, quickIdx2);
  }
}
