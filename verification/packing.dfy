/**
 * The CPU gather/scatter kernels of
 * `src/core/exchange/backend_hardware/backend_cpu.c`.
 *
 * `pack` gathers the data cells a segment of the index list names into the
 * same segment of the buffer; `unpack` scatters a segment of the buffer
 * into the data cells the index list names. An optional transform adds one
 * more level of indirection. The `int`, `float` and `double` kernels are the
 * same code up to the element type, so one generic kernel stands for all
 * three: values are only copied, never computed with.
 */
module Packing {
  import opened Seqs

  /** The optional `transform` array; `None` is the C `NULL`. */
  type Transform = Option<seq<int>>

  /** Index-list entry `x` names a cell of an `n`-cell data array, through the transform if there is one. */
  predicate Names(x: int, transform: Transform, n: int)
  {
    match transform
    case None => 0 <= x < n
    case Some(t) => 0 <= x < |t| && 0 <= t[x] < n
  }

  /**
   * What a kernel call needs from its caller: the segment
   * `offset..offset + size` lies inside the index list and the buffer, and
   * every entry of it names a data cell.
   */
  predicate Fits(bufferLen: int, dataLen: int, idxlist: seq<int>, transform: Transform, offset: int, size: int)
  {
    && 0 <= offset && 0 <= size && offset + size <= |idxlist| && offset + size <= bufferLen
    && forall j :: offset <= j < offset + size ==> Names(idxlist[j], transform, dataLen)
  }

  /** The data cell buffer position `j` is paired with (`data_idx` or `data_idx_transform`). */
  function Cell(idxlist: seq<int>, transform: Transform, j: int): int
    requires 0 <= j < |idxlist| && (transform.Some? ==> 0 <= idxlist[j] < |transform.value|)
  {
    match transform
    case None => idxlist[j]
    case Some(t) => t[idxlist[j]]
  }

  // ---------------------------------------------------------------------------
  // Pack
  // ---------------------------------------------------------------------------

  /** Reference definition of a pack: the segment gathered from `data`, the rest of the buffer as it was. */
  function Packed<T>(buffer: seq<T>, data: seq<T>, idxlist: seq<int>, transform: Transform, offset: int, size: int): (r: seq<T>)
    requires Fits(|buffer|, |data|, idxlist, transform, offset, size)
  {
    seq(|buffer|, j requires 0 <= j < |buffer| =>
      if offset <= j < offset + size then data[Cell(idxlist, transform, j)] else buffer[j])
  }

  /**
   * `pack_cpu_*` at lines 70-86: position `offset + i` of the buffer gets
   * the data cell its index-list entry names, for `i` below `size`; no
   * other buffer position changes.
   */
  method Pack<T>(buffer: seq<T>, data: seq<T>, idxlist: seq<int>, size: int, offset: int, transform: Transform)
    returns (packed: seq<T>)
    requires Fits(|buffer|, |data|, idxlist, transform, offset, size)
    ensures |packed| == |buffer|
    ensures forall j :: offset <= j < offset + size ==> packed[j] == data[Cell(idxlist, transform, j)]
    ensures forall j :: 0 <= j < |buffer| && !(offset <= j < offset + size) ==> packed[j] == buffer[j]
    ensures packed == Packed(buffer, data, idxlist, transform, offset, size)
  {
    packed := buffer;
    var i := 0;
    while i < size
      invariant 0 <= i <= size && |packed| == |buffer|
      invariant forall j :: 0 <= j < |buffer| ==>
                  packed[j] == (if offset <= j < offset + i then data[Cell(idxlist, transform, j)] else buffer[j])
    {
      var dataIdx := Cell(idxlist, transform, offset + i);
      packed := packed[offset + i := data[dataIdx]];
      i := i + 1;
    }
  }

  /** Packing a segment and then the next one is packing both in one call. */
  lemma PackedSplit<T>(buffer: seq<T>, data: seq<T>, idxlist: seq<int>, transform: Transform, offset: int, s1: int, s2: int)
    requires 0 <= s1 && 0 <= s2 && Fits(|buffer|, |data|, idxlist, transform, offset, s1 + s2)
    ensures Fits(|buffer|, |data|, idxlist, transform, offset, s1)
    ensures Fits(|buffer|, |data|, idxlist, transform, offset + s1, s2)
    ensures Packed(Packed(buffer, data, idxlist, transform, offset, s1), data, idxlist, transform, offset + s1, s2)
            == Packed(buffer, data, idxlist, transform, offset, s1 + s2)
  {
  }

  // ---------------------------------------------------------------------------
  // Unpack
  // ---------------------------------------------------------------------------

  /**
   * The last position of `offset..offset + n` whose entry names cell `c`,
   * if any: the position whose value an unpack leaves in `c`.
   */
  function LastWriter(idxlist: seq<int>, transform: Transform, dataLen: int, offset: int, n: int, c: int): (w: Option<int>)
    requires 0 <= n && Fits(offset + n, dataLen, idxlist, transform, offset, n)
    ensures w.Some? ==> offset <= w.value < offset + n && Cell(idxlist, transform, w.value) == c
    ensures w.Some? ==> forall k :: w.value < k < offset + n ==> Cell(idxlist, transform, k) != c
    ensures w.None? <==> forall k :: offset <= k < offset + n ==> Cell(idxlist, transform, k) != c
    decreases n
  {
    if n == 0 then None
    else if Cell(idxlist, transform, offset + n - 1) == c then Some(offset + n - 1)
    else LastWriter(idxlist, transform, dataLen, offset, n - 1, c)
  }

  /**
   * Reference definition of an unpack: every cell named by the segment
   * holds the buffer value of the last position naming it, every other cell
   * keeps its value.
   */
  function Unpacked<T>(buffer: seq<T>, data: seq<T>, idxlist: seq<int>, transform: Transform, offset: int, size: int): (r: seq<T>)
    requires Fits(|buffer|, |data|, idxlist, transform, offset, size)
  {
    seq(|data|, c requires 0 <= c < |data| =>
      match LastWriter(idxlist, transform, |data|, offset, size, c)
      case None => data[c]
      case Some(j) => buffer[j])
  }

  /** Writing one more position of the segment overwrites the cell it names. */
  lemma UnpackedStep<T>(buffer: seq<T>, data: seq<T>, idxlist: seq<int>, transform: Transform, offset: int, i: int)
    requires 0 <= i && Fits(|buffer|, |data|, idxlist, transform, offset, i + 1)
    ensures Fits(|buffer|, |data|, idxlist, transform, offset, i)
    ensures Unpacked(buffer, data, idxlist, transform, offset, i + 1)
            == Unpacked(buffer, data, idxlist, transform, offset, i)[Cell(idxlist, transform, offset + i) := buffer[offset + i]]
  {
  }

  /**
   * `unpack_cpu_*` at lines 88-104: position `offset + i` of the buffer is
   * written to the data cell its entry names, for `i` from 0 up, so a cell
   * named twice keeps the later value and a cell named by no entry keeps
   * its own.
   */
  method Unpack<T>(buffer: seq<T>, data: seq<T>, idxlist: seq<int>, size: int, offset: int, transform: Transform)
    returns (unpacked: seq<T>)
    requires Fits(|buffer|, |data|, idxlist, transform, offset, size)
    ensures |unpacked| == |data|
    ensures forall c :: 0 <= c < |data| ==>
              unpacked[c] == match LastWriter(idxlist, transform, |data|, offset, size, c)
                             case None => data[c]
                             case Some(j) => buffer[j]
    ensures unpacked == Unpacked(buffer, data, idxlist, transform, offset, size)
  {
    unpacked := data;
    var i := 0;
    while i < size
      invariant 0 <= i <= size && unpacked == Unpacked(buffer, data, idxlist, transform, offset, i)
    {
      var dataIdx := Cell(idxlist, transform, offset + i);
      UnpackedStep(buffer, data, idxlist, transform, offset, i);
      unpacked := unpacked[dataIdx := buffer[offset + i]];
      i := i + 1;
    }
  }

  /**
   * The last writer of a cell in two adjacent segments is the second
   * segment's, if it has one. The proof compares the three last writers
   * through their defining properties: a later writer in either segment
   * would contradict the one found.
   */
  lemma LastWriterSplit(idxlist: seq<int>, transform: Transform, dataLen: int, offset: int, s1: int, s2: int, c: int)
    requires 0 <= s1 && 0 <= s2 && Fits(offset + s1 + s2, dataLen, idxlist, transform, offset, s1 + s2)
    ensures Fits(offset + s1, dataLen, idxlist, transform, offset, s1)
    ensures Fits(offset + s1 + s2, dataLen, idxlist, transform, offset + s1, s2)
    ensures LastWriter(idxlist, transform, dataLen, offset, s1 + s2, c)
            == match LastWriter(idxlist, transform, dataLen, offset + s1, s2, c)
               case Some(j) => Some(j)
               case None => LastWriter(idxlist, transform, dataLen, offset, s1, c)
  {
    FitsSplit(idxlist, transform, dataLen, offset, s1, s2);
    var whole := LastWriter(idxlist, transform, dataLen, offset, s1 + s2, c);
    var second := LastWriter(idxlist, transform, dataLen, offset + s1, s2, c);
    var first := LastWriter(idxlist, transform, dataLen, offset, s1, c);
    if second.Some? {
      var j := second.value;
      assert whole.Some?;
      var w := whole.value;
      assert !(w < j) && !(j < w);
    } else if first.Some? {
      var v := first.value;
      assert whole.Some?;
      var w := whole.value;
      assert w < offset + s1;
      assert !(w < v) && !(v < w);
    } else {
      assert forall k :: offset <= k < offset + s1 + s2 ==> Cell(idxlist, transform, k) != c;
    }
  }

  /** A segment that fits splits into two adjacent segments that fit. */
  lemma FitsSplit(idxlist: seq<int>, transform: Transform, dataLen: int, offset: int, s1: int, s2: int)
    requires 0 <= s1 && 0 <= s2 && Fits(offset + s1 + s2, dataLen, idxlist, transform, offset, s1 + s2)
    ensures Fits(offset + s1, dataLen, idxlist, transform, offset, s1)
    ensures Fits(offset + s1 + s2, dataLen, idxlist, transform, offset + s1, s2)
  {
  }

  /** Unpacking a segment and then the next one is unpacking both in one call. */
  lemma UnpackedSplit<T>(buffer: seq<T>, data: seq<T>, idxlist: seq<int>, transform: Transform, offset: int, s1: int, s2: int)
    requires 0 <= s1 && 0 <= s2 && Fits(|buffer|, |data|, idxlist, transform, offset, s1 + s2)
    ensures Fits(|buffer|, |data|, idxlist, transform, offset, s1)
    ensures Fits(|buffer|, |data|, idxlist, transform, offset + s1, s2)
    ensures Unpacked(buffer, Unpacked(buffer, data, idxlist, transform, offset, s1), idxlist, transform, offset + s1, s2)
            == Unpacked(buffer, data, idxlist, transform, offset, s1 + s2)
  {
    var first := Unpacked(buffer, data, idxlist, transform, offset, s1);
    var twice := Unpacked(buffer, first, idxlist, transform, offset + s1, s2);
    var once := Unpacked(buffer, data, idxlist, transform, offset, s1 + s2);
    forall c | 0 <= c < |data|
      ensures twice[c] == once[c]
    {
      LastWriterSplit(idxlist, transform, |data|, offset, s1, s2, c);
    }
  }

  /**
   * The last writer depends only on the window of the index list it reads:
   * two windows with the same entries have last writers at the same
   * distance from their starts.
   */
  lemma {:induction false} LastWriterWindow(i1: seq<int>, o1: int, i2: seq<int>, o2: int, dataLen: int, n: int, c: int)
    requires 0 <= n && Fits(o1 + n, dataLen, i1, None, o1, n) && Fits(o2 + n, dataLen, i2, None, o2, n)
    requires i1[o1..o1 + n] == i2[o2..o2 + n]
    ensures LastWriter(i1, None, dataLen, o1, n, c).Some? == LastWriter(i2, None, dataLen, o2, n, c).Some?
    ensures LastWriter(i1, None, dataLen, o1, n, c).Some? ==>
              LastWriter(i1, None, dataLen, o1, n, c).value - o1 == LastWriter(i2, None, dataLen, o2, n, c).value - o2
    decreases n
  {
    if n > 0 {
      assert i1[o1 + n - 1] == i1[o1..o1 + n][n - 1];
      assert i1[o1..o1 + n - 1] == i1[o1..o1 + n][..n - 1];
      assert i2[o2..o2 + n - 1] == i2[o2..o2 + n][..n - 1];
      LastWriterWindow(i1, o1, i2, o2, dataLen, n - 1, c);
    }
  }

  /**
   * An unpack depends only on the window of buffer and index list it
   * reads, wherever that window sits.
   */
  lemma UnpackedWindow<T>(b1: seq<T>, i1: seq<int>, o1: int, b2: seq<T>, i2: seq<int>, o2: int, data: seq<T>, n: int)
    requires Fits(|b1|, |data|, i1, None, o1, n) && Fits(|b2|, |data|, i2, None, o2, n)
    requires b1[o1..o1 + n] == b2[o2..o2 + n] && i1[o1..o1 + n] == i2[o2..o2 + n]
    ensures Unpacked(b1, data, i1, None, o1, n) == Unpacked(b2, data, i2, None, o2, n)
  {
    var u1 := Unpacked(b1, data, i1, None, o1, n);
    var u2 := Unpacked(b2, data, i2, None, o2, n);
    forall c | 0 <= c < |data|
      ensures u1[c] == u2[c]
    {
      LastWriterWindow(i1, o1, i2, o2, |data|, n, c);
      var w1 := LastWriter(i1, None, |data|, o1, n, c);
      if w1.Some? {
        var j := w1.value - o1;
        assert b1[o1 + j] == b1[o1..o1 + n][j] == b2[o2..o2 + n][j] == b2[o2 + j];
      }
    }
  }

  // ---------------------------------------------------------------------------
  // Round trips
  // ---------------------------------------------------------------------------

  /**
   * Unpacking a packed buffer puts back the value of every data cell the
   * segment names, into any data array of the same length; cells the
   * segment does not name keep their value.
   */
  lemma PackThenUnpack<T>(buffer: seq<T>, data: seq<T>, target: seq<T>, idxlist: seq<int>, transform: Transform, offset: int, size: int)
    requires Fits(|buffer|, |data|, idxlist, transform, offset, size) && |target| == |data|
    ensures forall c :: 0 <= c < |data| ==>
              Unpacked(Packed(buffer, data, idxlist, transform, offset, size), target, idxlist, transform, offset, size)[c]
              == if LastWriter(idxlist, transform, |data|, offset, size, c).Some? then data[c] else target[c]
  {
  }

  /** The entries of the segment name pairwise different cells. */
  predicate Injective(idxlist: seq<int>, transform: Transform, offset: int, size: int)
    requires 0 <= offset && 0 <= size && offset + size <= |idxlist|
    requires forall j :: offset <= j < offset + size ==> (transform.Some? ==> 0 <= idxlist[j] < |transform.value|)
  {
    forall j, k :: offset <= j < k < offset + size ==> Cell(idxlist, transform, j) != Cell(idxlist, transform, k)
  }

  /**
   * Packing what was unpacked gives the segment of the buffer back when
   * the segment names every cell at most once.
   */
  lemma UnpackThenPack<T>(buffer: seq<T>, data: seq<T>, other: seq<T>, idxlist: seq<int>, transform: Transform, offset: int, size: int)
    requires Fits(|buffer|, |data|, idxlist, transform, offset, size) && |other| == |buffer|
    requires Injective(idxlist, transform, offset, size)
    ensures Packed(other, Unpacked(buffer, data, idxlist, transform, offset, size), idxlist, transform, offset, size)[offset..offset + size]
            == buffer[offset..offset + size]
  {
    UnpackedInjective(buffer, data, idxlist, transform, offset, size);
  }

  /** When the segment names every cell at most once, each position lands in the cell it names. */
  lemma UnpackedInjective<T>(buffer: seq<T>, data: seq<T>, idxlist: seq<int>, transform: Transform, offset: int, size: int)
    requires Fits(|buffer|, |data|, idxlist, transform, offset, size)
    requires Injective(idxlist, transform, offset, size)
    ensures forall j :: offset <= j < offset + size ==>
              Unpacked(buffer, data, idxlist, transform, offset, size)[Cell(idxlist, transform, j)] == buffer[j]
  {
    forall j | offset <= j < offset + size
      ensures Unpacked(buffer, data, idxlist, transform, offset, size)[Cell(idxlist, transform, j)] == buffer[j]
    {
      var w := LastWriter(idxlist, transform, |data|, offset, size, Cell(idxlist, transform, j));
      assert w == Some(j);
    }
  }

  /**
   * Without injectivity the round trip loses values: two entries naming
   * cell 0 leave only the second buffer value there, and packing gives it
   * back twice.
   */
  lemma UnpackThenPackCollision()
    ensures Unpacked([1, 2], [0], [0, 0], None, 0, 2) == [2]
    ensures Packed([0, 0], [2], [0, 0], None, 0, 2) == [2, 2]
  {
    assert LastWriter([0, 0], None, 1, 0, 2, 0) == Some(1);
  }

  // ---------------------------------------------------------------------------
  // Identity index lists
  // ---------------------------------------------------------------------------

  predicate Identity(idxlist: seq<int>)
  {
    forall j :: 0 <= j < |idxlist| ==> idxlist[j] == j
  }

  /** With the identity index list and no transform, a whole-buffer pack copies the data into the buffer. */
  lemma PackIdentity<T>(buffer: seq<T>, data: seq<T>, idxlist: seq<int>)
    requires Identity(idxlist) && |idxlist| == |buffer| == |data|
    ensures Fits(|buffer|, |data|, idxlist, None, 0, |data|)
    ensures Packed(buffer, data, idxlist, None, 0, |data|) == data
  {
  }

  /** With the identity index list and no transform, a whole-buffer unpack copies the buffer into the data. */
  lemma UnpackIdentity<T>(buffer: seq<T>, data: seq<T>, idxlist: seq<int>)
    requires Identity(idxlist) && |idxlist| == |buffer| == |data|
    ensures Fits(|buffer|, |data|, idxlist, None, 0, |data|)
    ensures Unpacked(buffer, data, idxlist, None, 0, |data|) == buffer
  {
    forall c | 0 <= c < |data|
      ensures Unpacked(buffer, data, idxlist, None, 0, |data|)[c] == buffer[c]
    {
      assert Cell(idxlist, None, c) == c;
    }
  }
}
