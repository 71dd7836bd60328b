/**
 * The index list of the legacy `src/idxlist.c`. It is the same code as the
 * core one without the timers, so it builds the same lists.
 */
module LegacyIndexLists {
  import opened IndexLists

  /** `new_idxlist` (lines 4-13): the same copy loop as the core constructor. */
  method New(idxArray: seq<int>, numIndices: int) returns (l: IndexList)
    requires numIndices <= |idxArray|
    ensures l == Holding(idxArray, numIndices)
    ensures Valid(l) && l.count == numIndices
    ensures forall i :: 0 <= i < numIndices ==> Indices(l)[i] == idxArray[i]
  {
    var cells: seq<int> := [];
    var i := 0;
    while i < numIndices
      invariant 0 <= i <= (if numIndices > 0 then numIndices else 0)
      invariant cells == idxArray[..i]
    {
      cells := cells + [idxArray[i]];
      i := i + 1;
    }
    l := IndexList(numIndices, if numIndices > 0 then Block(cells) else Unassigned);
  }

  /** `new_idxlist_empty` (lines 15-21): the core's empty list. */
  function Empty(): (l: IndexList)
    ensures Valid(l) && Indices(l) == [] && l.list == Null
    ensures l == IndexLists.Empty()
  {
    IndexList(0, Null)
  }

  /** `delete_idxlist` (lines 23-27): frees the list exactly when the core's delete does. */
  function FreesList(l: IndexList): (frees: bool)
    ensures Valid(l) ==> (frees <==> l.list.Block?)
    ensures frees == IndexLists.FreesList(l)
  {
    l.count > 0
  }
}
