/**
 * The index list of `src/core/indices/idxlist.c`: the global indices a
 * rank owns, in the order the rank lays out its data. Construction copies
 * the caller's array as it is: no sorting, no removal of duplicates and no
 * rejection of negative values or of a negative count.
 */
module IndexLists {

  /** The `list` pointer of a `t_idxlist`: never assigned, `NULL`, or a block of `cells`. */
  datatype Storage = Unassigned | Null | Block(cells: seq<int>)

  /** `t_idxlist`. `count` is whatever the caller passed, so it may be zero or negative. */
  datatype IndexList = IndexList(count: int, list: Storage)

  /** The indices a list holds, as a reader of `list[0..count)` sees them. */
  function Indices(l: IndexList): seq<int>
  {
    if l.list.Block? then l.list.cells else []
  }

  /** Storage is a block of exactly `count` cells when `count` is positive, and no block otherwise. */
  predicate Valid(l: IndexList)
  {
    if l.count > 0 then l.list.Block? && |l.list.cells| == l.count else !l.list.Block?
  }

  /**
   * The list holding the first `n` entries of `a`, the reference for both
   * constructors: a block only for a positive `n`.
   */
  function Holding(a: seq<int>, n: int): (l: IndexList)
    requires n <= |a|
    ensures Valid(l) && l.count == n
    ensures n > 0 ==> |Indices(l)| == n && forall i :: 0 <= i < n ==> Indices(l)[i] == a[i]
    ensures n <= 0 ==> Indices(l) == [] && l.list == Unassigned
  {
    IndexList(n, if n > 0 then Block(a[..n]) else Unassigned)
  }

  /**
   * `new_idxlist` (lines 43-62, timer calls aside): `count` is taken as
   * given, a block is allocated only for a positive count, and the loop
   * copies the entries one by one in order.
   */
  method New(idxArray: seq<int>, numIndices: int) returns (l: IndexList)
    requires numIndices <= |idxArray|
    ensures l == Holding(idxArray, numIndices)
    ensures Valid(l) && l.count == numIndices
    ensures forall i :: 0 <= i < numIndices ==> Indices(l)[i] == idxArray[i]
  {
    var cells: seq<int> := [];
    var i := 0;
    while i < numIndices
      invariant 0 <= i <= (if numIndices > 0 then numIndices else 0)
      invariant |cells| == i
      invariant forall j :: 0 <= j < i ==> cells[j] == idxArray[j]
    {
      cells := cells + [idxArray[i]];
      i := i + 1;
    }
    if numIndices > 0 {
      assert cells == idxArray[..numIndices];
      l := IndexList(numIndices, Block(cells));
    } else {
      l := IndexList(numIndices, Unassigned);
    }
  }

  /** `new_idxlist_empty` (lines 64-79): no indices and a `NULL` list. */
  function Empty(): (l: IndexList)
    ensures Valid(l) && Indices(l) == [] && l.list == Null
  {
    IndexList(0, Null)
  }

  /**
   * `delete_idxlist` (lines 81-93) frees the list only for a positive
   * count. On a valid list that is exactly when a block was allocated:
   * nothing leaks, and neither `NULL` nor an unassigned pointer is freed.
   */
  function FreesList(l: IndexList): (frees: bool)
    ensures Valid(l) ==> (frees <==> l.list.Block?)
  {
    l.count > 0
  }

  /**
   * A constructed list depends only on the first `n` entries of the
   * caller's array: two arrays that agree there build the same list,
   * whatever follows.
   */
  lemma HoldingCopies(a: seq<int>, b: seq<int>, n: int)
    requires n <= |a| && n <= |b|
    requires forall i :: 0 <= i < n ==> a[i] == b[i]
    ensures Holding(a, n) == Holding(b, n)
  {
    if n > 0 {
      assert a[..n] == b[..n];
    }
  }

  /** Reading a list built from a whole array gives the array back. */
  lemma HoldingRoundTrip(a: seq<int>)
    ensures Indices(Holding(a, |a|)) == a
  {
    if |a| > 0 {
      assert a[..|a|] == a;
    }
  }

  /** Both constructors give valid lists, so `delete_idxlist` frees exactly what they allocated. */
  lemma DeleteAfterNew(a: seq<int>, n: int)
    requires n <= |a|
    ensures FreesList(Holding(a, n)) <==> n > 0
    ensures !FreesList(Empty())
  {
  }
}
