/**
 * The legacy `exchange_go` of `src/exchange.c`.
 *
 * A legacy map holds one record per peer on each side (see `MapRecords`).
 * For every send record the rank gathers the named cells of its source
 * data into a buffer of its own and posts a send to the peer with tag
 * `rank + W * (peer + 1)`; for every receive record it posts a receive
 * from the peer with the tag the peer uses; once every request has
 * completed it scatters each receive buffer, record after record, into
 * its destination data.
 *
 * The MPI requests are modelled by the list of posts they make; the
 * buffers that arrive are a parameter. Element types only get copied, so
 * one generic kernel stands for the `int`, `float` and `double` ones.
 */
module LegacyExchange {
  import opened Seqs
  import Packing
  import Tags
  import MapRecords

  type Record = MapRecords.ExchPerRank

  /** Every record lists as many positions as its size says. */
  predicate Sized(recs: seq<Record>)
  {
    forall k :: 0 <= k < |recs| ==> 0 <= recs[k].bufferSize == |recs[k].bufferIdx|
  }

  /** Every position a record lists is a cell of a `dataLen`-cell data array. */
  predicate Addresses(recs: seq<Record>, dataLen: int)
  {
    forall k, i :: 0 <= k < |recs| && 0 <= i < |recs[k].bufferIdx| ==> 0 <= recs[k].bufferIdx[i] < dataLen
  }

  /** `buf` holds, position by position, the cells of `src` that `idx` names. */
  ghost predicate Gathers<T>(buf: seq<T>, src: seq<T>, idx: seq<int>)
  {
    |buf| == |idx| && forall i :: 0 <= i < |idx| ==> 0 <= idx[i] < |src| && buf[i] == src[idx[i]]
  }

  // ---------------------------------------------------------------------------
  // Send step
  // ---------------------------------------------------------------------------

  /** Lines 71-75: the buffer of one send record, filled by the pack kernel position by position. */
  method PackRecord<T>(rec: Record, src: seq<T>) returns (buffer: seq<T>)
    requires 0 <= rec.bufferSize == |rec.bufferIdx|
    requires forall i :: 0 <= i < |rec.bufferIdx| ==> 0 <= rec.bufferIdx[i] < |src|
    ensures Gathers(buffer, src, rec.bufferIdx)
  {
    buffer := [];
    var i := 0;
    while i < rec.bufferSize
      invariant 0 <= i <= rec.bufferSize && |buffer| == i
      invariant forall j :: 0 <= j < i ==> buffer[j] == src[rec.bufferIdx[j]]
    {
      var dataIdx := rec.bufferIdx[i];
      buffer := buffer + [src[dataIdx]];
      i := i + 1;
    }
  }

  /** Lines 70-81: one buffer per send record. */
  method PackAll<T>(recs: seq<Record>, src: seq<T>) returns (bufs: seq<seq<T>>)
    requires Sized(recs) && Addresses(recs, |src|)
    ensures |bufs| == |recs| && forall k :: 0 <= k < |recs| ==> Gathers(bufs[k], src, recs[k].bufferIdx)
  {
    bufs := [];
    var count := 0;
    while count < |recs|
      invariant 0 <= count <= |recs| && |bufs| == count
      invariant forall k :: 0 <= k < count ==> Gathers(bufs[k], src, recs[k].bufferIdx)
    {
      var buffer := PackRecord(recs[count], src);
      bufs := bufs + [buffer];
      count := count + 1;
    }
  }

  lemma GathersAppend<T>(a: seq<T>, b: seq<T>, src: seq<T>, ia: seq<int>, ib: seq<int>)
    requires Gathers(a, src, ia) && Gathers(b, src, ib)
    ensures Gathers(a + b, src, ia + ib)
  {
    forall i | 0 <= i < |ia + ib|
      ensures 0 <= (ia + ib)[i] < |src| && (a + b)[i] == src[(ia + ib)[i]]
    {
      if i >= |ia| {
        assert (ia + ib)[i] == ib[i - |ia|] && (a + b)[i] == b[i - |a|];
      }
    }
  }

  /** The send buffers one after the other gather the cells the records' positions name, in order. */
  lemma {:induction false} GathersAll<T>(recs: seq<Record>, bufs: seq<seq<T>>, src: seq<T>)
    requires |bufs| == |recs| && forall k :: 0 <= k < |recs| ==> Gathers(bufs[k], src, recs[k].bufferIdx)
    ensures Gathers(Concat(bufs), src, MapRecords.Positions(recs))
    decreases |recs|
  {
    if |recs| > 0 {
      var n := |recs| - 1;
      var rs, bs := recs[..n], bufs[..n];
      assert forall k :: 0 <= k < |rs| ==> rs[k] == recs[k] && bs[k] == bufs[k];
      GathersAll(rs, bs, src);
      assert Concat(bufs) == Concat(bs) + bufs[n];
      assert MapRecords.Positions(recs) == MapRecords.Positions(rs) + recs[n].bufferIdx;
      GathersAppend(Concat(bs), bufs[n], src, MapRecords.Positions(rs), recs[n].bufferIdx);
    }
  }

  /**
   * The legacy send buffers, one after the other, are the single buffer
   * the core's pack kernel fills from the same positions: the legacy
   * exchanger sends what the core one does.
   */
  lemma PackMatchesCore<T>(recs: seq<Record>, bufs: seq<seq<T>>, src: seq<T>, init: seq<T>)
    requires |bufs| == |recs| && forall k :: 0 <= k < |recs| ==> Gathers(bufs[k], src, recs[k].bufferIdx)
    requires |init| == |MapRecords.Positions(recs)|
    ensures Packing.Fits(|init|, |src|, MapRecords.Positions(recs), None, 0, |init|)
    ensures Concat(bufs) == Packing.Packed(init, src, MapRecords.Positions(recs), None, 0, |init|)
  {
    GathersAll(recs, bufs, src);
  }

  // ---------------------------------------------------------------------------
  // Requests
  // ---------------------------------------------------------------------------

  /** One non-blocking request: peer, tag and element count. */
  datatype Post = Isend(peer: int, tag: int, count: int) | Irecv(peer: int, tag: int, count: int)

  /**
   * Lines 61-91: every send record posts a send, then every receive
   * record a receive, into one request array of `send.count +
   * recv.count` slots, which they fill exactly.
   */
  method PostAll(send: seq<Record>, recv: seq<Record>, rank: int, w: int) returns (posts: seq<Post>)
    ensures |posts| == |send| + |recv|
    ensures forall k :: 0 <= k < |send| ==>
              posts[k] == Isend(send[k].exchRank, Tags.Tag(rank, send[k].exchRank, w), send[k].bufferSize)
    ensures forall k :: 0 <= k < |recv| ==>
              posts[|send| + k] == Irecv(recv[k].exchRank, Tags.Tag(recv[k].exchRank, rank, w), recv[k].bufferSize)
  {
    posts := [];
    var count := 0;
    while count < |send|
      invariant 0 <= count <= |send| && |posts| == count
      invariant forall k :: 0 <= k < count ==>
                  posts[k] == Isend(send[k].exchRank, Tags.Tag(rank, send[k].exchRank, w), send[k].bufferSize)
    {
      var peer := send[count].exchRank;
      posts := posts + [Isend(peer, rank + w * (peer + 1), send[count].bufferSize)];
      count := count + 1;
    }
    count := 0;
    while count < |recv|
      invariant 0 <= count <= |recv| && |posts| == |send| + count
      invariant forall k :: 0 <= k < |send| ==>
                  posts[k] == Isend(send[k].exchRank, Tags.Tag(rank, send[k].exchRank, w), send[k].bufferSize)
      invariant forall k :: 0 <= k < count ==>
                  posts[|send| + k] == Irecv(recv[k].exchRank, Tags.Tag(recv[k].exchRank, rank, w), recv[k].bufferSize)
    {
      var peer := recv[count].exchRank;
      posts := posts + [Irecv(peer, peer + w * (rank + 1), recv[count].bufferSize)];
      count := count + 1;
    }
  }

  /**
   * The send rank `s` posts for its record `sendRec` and the receive rank
   * `d` posts for its record `recvRec` carry the same tag exactly when
   * each names the other: the receive is from `s` and the send is to `d`.
   */
  lemma TagsPair(s: int, sendRec: Record, d: int, recvRec: Record, w: int)
    requires 0 <= s < w && 0 <= recvRec.exchRank < w
    ensures Tags.Tag(s, sendRec.exchRank, w) == Tags.Tag(recvRec.exchRank, d, w)
            <==> recvRec.exchRank == s && sendRec.exchRank == d
  {
    Tags.TagDetermines(s, sendRec.exchRank, recvRec.exchRank, d, w);
  }

  // ---------------------------------------------------------------------------
  // Unpack step
  // ---------------------------------------------------------------------------

  /** The receive buffers fit their records. */
  predicate BuffersFit<T>(recs: seq<Record>, bufs: seq<seq<T>>)
  {
    |bufs| == |recs| && forall k :: 0 <= k < |recs| ==> |bufs[k]| == recs[k].bufferSize
  }

  /**
   * Reference definition of the unpack step: each receive buffer is
   * scattered into the data the earlier ones left, record after record.
   */
  function Received<T>(recs: seq<Record>, bufs: seq<seq<T>>, dst: seq<T>): (r: seq<T>)
    requires Sized(recs) && Addresses(recs, |dst|) && BuffersFit(recs, bufs)
    ensures |r| == |dst|
  {
    if |recs| == 0 then dst
    else
      var n := |recs| - 1;
      assert Sized(recs[..n]) && Addresses(recs[..n], |dst|) && BuffersFit(recs[..n], bufs[..n]);
      Packing.Unpacked(bufs[n], Received(recs[..n], bufs[..n], dst), recs[n].bufferIdx, None, 0, recs[n].bufferSize)
  }

  /** Lines 96-101: the unpack kernel over every position of every receive record. */
  method UnpackAll<T>(recs: seq<Record>, bufs: seq<seq<T>>, dst: seq<T>) returns (out: seq<T>)
    requires Sized(recs) && Addresses(recs, |dst|) && BuffersFit(recs, bufs)
    ensures out == Received(recs, bufs, dst)
    ensures Packing.Fits(|Concat(bufs)|, |dst|, MapRecords.Positions(recs), None, 0, |Concat(bufs)|)
    ensures out == Packing.Unpacked(Concat(bufs), dst, MapRecords.Positions(recs), None, 0, |Concat(bufs)|)
  {
    out := dst;
    var count := 0;
    assert recs[..0] == [] && bufs[..0] == [];
    while count < |recs|
      invariant 0 <= count <= |recs|
      invariant Sized(recs[..count]) && Addresses(recs[..count], |dst|) && BuffersFit(recs[..count], bufs[..count])
      invariant out == Received(recs[..count], bufs[..count], dst)
    {
      out := UnpackRecord(recs[count], bufs[count], out);
      assert recs[..count + 1][..count] == recs[..count] && bufs[..count + 1][..count] == bufs[..count];
      count := count + 1;
    }
    assert recs[..count] == recs && bufs[..count] == bufs;
    ReceivedMatchesCore(recs, bufs, dst);
  }

  /** Lines 97-100: one receive buffer, scattered position by position. */
  method UnpackRecord<T>(rec: Record, buffer: seq<T>, data: seq<T>) returns (out: seq<T>)
    requires 0 <= rec.bufferSize == |rec.bufferIdx| == |buffer|
    requires forall i :: 0 <= i < |rec.bufferIdx| ==> 0 <= rec.bufferIdx[i] < |data|
    ensures Packing.Fits(|buffer|, |data|, rec.bufferIdx, None, 0, rec.bufferSize)
    ensures out == Packing.Unpacked(buffer, data, rec.bufferIdx, None, 0, rec.bufferSize)
  {
    out := data;
    var i := 0;
    while i < rec.bufferSize
      invariant 0 <= i <= rec.bufferSize && out == Packing.Unpacked(buffer, data, rec.bufferIdx, None, 0, i)
    {
      var dataIdx := rec.bufferIdx[i];
      Packing.UnpackedStep(buffer, data, rec.bufferIdx, None, 0, i);
      out := out[dataIdx := buffer[i]];
      i := i + 1;
    }
  }

  /** The records' positions name cells of the data. */
  lemma {:induction false} PositionsAddress(recs: seq<Record>, dataLen: int)
    requires Sized(recs) && Addresses(recs, dataLen)
    ensures forall j :: 0 <= j < |MapRecords.Positions(recs)| ==> 0 <= MapRecords.Positions(recs)[j] < dataLen
    decreases |recs|
  {
    if |recs| > 0 {
      var n := |recs| - 1;
      assert Sized(recs[..n]) && Addresses(recs[..n], dataLen);
      PositionsAddress(recs[..n], dataLen);
      var prefix, idx := MapRecords.Positions(recs[..n]), recs[n].bufferIdx;
      forall j | 0 <= j < |prefix + idx|
        ensures 0 <= (prefix + idx)[j] < dataLen
      {
        if j >= |prefix| {
          assert (prefix + idx)[j] == idx[j - |prefix|];
        }
      }
    }
  }

  /**
   * The legacy unpack, record after record, is the core's single unpack
   * of the buffers one after the other through the records' positions.
   */
  lemma {:induction false} ReceivedMatchesCore<T>(recs: seq<Record>, bufs: seq<seq<T>>, dst: seq<T>)
    requires Sized(recs) && Addresses(recs, |dst|) && BuffersFit(recs, bufs)
    ensures |Concat(bufs)| == |MapRecords.Positions(recs)|
    ensures Packing.Fits(|Concat(bufs)|, |dst|, MapRecords.Positions(recs), None, 0, |Concat(bufs)|)
    ensures Received(recs, bufs, dst)
            == Packing.Unpacked(Concat(bufs), dst, MapRecords.Positions(recs), None, 0, |Concat(bufs)|)
    decreases |recs|
  {
    PositionsAddress(recs, |dst|);
    if |recs| > 0 {
      var n := |recs| - 1;
      assert Sized(recs[..n]) && Addresses(recs[..n], |dst|) && BuffersFit(recs[..n], bufs[..n]);
      ReceivedMatchesCore(recs[..n], bufs[..n], dst);
      var fb, fi := Concat(bufs[..n]), MapRecords.Positions(recs[..n]);
      assert Concat(bufs) == fb + bufs[n] && MapRecords.Positions(recs) == fi + recs[n].bufferIdx;
      UnpackAppend(fb, fi, bufs[n], recs[n].bufferIdx, dst);
    }
  }

  /** Unpacking a buffer extended by `b` through an index list extended by `idx` unpacks `b` last. */
  lemma UnpackAppend<T>(fb: seq<T>, fi: seq<int>, b: seq<T>, idx: seq<int>, dst: seq<T>)
    requires |fi| == |fb| && Packing.Fits(|fb|, |dst|, fi, None, 0, |fb|)
    requires |idx| == |b| && forall i :: 0 <= i < |idx| ==> 0 <= idx[i] < |dst|
    ensures Packing.Fits(|fb + b|, |dst|, fi + idx, None, 0, |fb + b|)
    ensures Packing.Fits(|b|, |dst|, idx, None, 0, |b|)
    ensures Packing.Unpacked(fb + b, dst, fi + idx, None, 0, |fb + b|)
            == Packing.Unpacked(b, Packing.Unpacked(fb, dst, fi, None, 0, |fb|), idx, None, 0, |b|)
  {
    var t, m := |fb|, |b|;
    var bb, ii := fb + b, fi + idx;
    forall j | 0 <= j < t + m
      ensures Packing.Names(ii[j], None, |dst|)
    {
      if j >= t {
        assert ii[j] == idx[j - t];
      }
    }
    Packing.UnpackedSplit(bb, dst, ii, None, 0, t, m);
    assert bb[0..t] == fb[0..t] && ii[0..t] == fi[0..t];
    Packing.UnpackedWindow(bb, ii, 0, fb, fi, 0, dst, t);
    var r := Packing.Unpacked(fb, dst, fi, None, 0, t);
    assert bb[t..t + m] == b[0..m] && ii[t..t + m] == idx[0..m];
    Packing.UnpackedWindow(bb, ii, t, b, idx, 0, r, m);
  }

  // ---------------------------------------------------------------------------
  // exchange_go
  // ---------------------------------------------------------------------------

  /**
   * `exchange_go` on one rank: the send buffers, the requests it posts and
   * its destination data after every request completed with `incoming`
   * in the receive buffers.
   */
  method ExchangeGo<T>(maps: MapRecords.ExchMap, rank: int, w: int, src: seq<T>, dst: seq<T>, incoming: seq<seq<T>>)
    returns (sent: seq<seq<T>>, posts: seq<Post>, out: seq<T>)
    requires Sized(maps.send) && Addresses(maps.send, |src|)
    requires Sized(maps.recv) && Addresses(maps.recv, |dst|) && BuffersFit(maps.recv, incoming)
    ensures |sent| == |maps.send| && forall k :: 0 <= k < |maps.send| ==> Gathers(sent[k], src, maps.send[k].bufferIdx)
    ensures |posts| == |maps.send| + |maps.recv|
    ensures forall k :: 0 <= k < |maps.send| ==>
              posts[k] == Isend(maps.send[k].exchRank, Tags.Tag(rank, maps.send[k].exchRank, w), |sent[k]|)
    ensures forall k :: 0 <= k < |maps.recv| ==>
              posts[|maps.send| + k] == Irecv(maps.recv[k].exchRank, Tags.Tag(maps.recv[k].exchRank, rank, w), |incoming[k]|)
    ensures out == Received(maps.recv, incoming, dst)
  {
    sent := PackAll(maps.send, src);
    posts := PostAll(maps.send, maps.recv, rank, w);
    out := UnpackAll(maps.recv, incoming, dst);
    forall k | 0 <= k < |maps.recv|
      ensures posts[|maps.send| + k] == Irecv(maps.recv[k].exchRank, Tags.Tag(maps.recv[k].exchRank, rank, w), |incoming[k]|)
    {
      assert |incoming[k]| == maps.recv[k].bufferSize;
    }
  }
}
