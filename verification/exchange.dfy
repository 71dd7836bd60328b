/**
 * The exchanger of `src/core/exchange/exchange.c`.
 *
 * A rank's map gives, for each direction, its peers, where each peer's
 * segment starts in the staging buffer (`buffer_offset`), the total buffer
 * size and the index list pairing buffer positions with data cells. An
 * exchange packs the send buffer, sends segment `k` to peer `k` with tag
 * `rank + W * (peer + 1)`, receives segment `k` from peer `k` with the tag
 * the peer used, and unpacks the receive buffer. The four exchanger kinds
 * (and their four no-wait twins) differ only in whether they pack and
 * unpack per segment or over the whole buffer, and in how many request
 * handles they need; the data that arrive are the same
 * (`ExchangeWorld`).
 */
module Exchange {
  import opened Seqs
  import Packing
  import Tags

  // ---------------------------------------------------------------------------
  // Segments
  // ---------------------------------------------------------------------------

  /**
   * One direction of a rank's map: `peers[k]` is `exch[k]->exch_rank`,
   * `offsets[k]` is `buffer_offset[k]`, `bufferSize` the total size and
   * `idxlist` the buffer-to-data pairing.
   */
  datatype Side = Side(peers: seq<int>, offsets: seq<int>, bufferSize: int, idxlist: seq<int>)

  /**
   * The offsets lay the segments out one after the other from 0: they start
   * at 0, never decrease and stay within the buffer, and a side with no
   * peers has an empty buffer.
   */
  predicate Tiles(side: Side)
  {
    && |side.offsets| == |side.peers| && 0 <= side.bufferSize
    && (|side.peers| == 0 ==> side.bufferSize == 0)
    && (|side.peers| > 0 ==> side.offsets[0] == 0 && side.offsets[|side.peers| - 1] <= side.bufferSize)
    && (forall k :: 0 < k < |side.peers| ==> side.offsets[k - 1] <= side.offsets[k])
  }

  /** Where segment `k` ends: the next segment's offset, or the buffer size for the last one (lines 144-146). */
  function Upper(side: Side, k: int): int
    requires |side.offsets| == |side.peers| && 0 <= k < |side.peers|
  {
    if k == |side.peers| - 1 then side.bufferSize else side.offsets[k + 1]
  }

  /** Where segment `k` starts; past the last segment, the end of the buffer. */
  function Start(side: Side, k: int): int
    requires |side.offsets| == |side.peers| && 0 <= k <= |side.peers|
  {
    if k == |side.peers| then side.bufferSize else side.offsets[k]
  }

  /** Segment `k` has a non-negative size, and the next segment starts where it ends. */
  lemma SegmentStep(side: Side, k: int)
    requires Tiles(side) && 0 <= k < |side.peers|
    ensures 0 <= Start(side, k) <= Upper(side, k) == Start(side, k + 1) <= side.bufferSize
  {
    if k + 1 < |side.peers| {
      assert side.offsets[k + 1] <= side.offsets[|side.peers| - 1] by {
        OffsetsMonotone(side, k + 1, |side.peers| - 1);
      }
    }
    OffsetsMonotone(side, 0, k);
  }

  lemma {:induction false} OffsetsMonotone(side: Side, i: int, j: int)
    requires Tiles(side) && 0 <= i <= j < |side.peers|
    ensures side.offsets[i] <= side.offsets[j]
    decreases j - i
  {
    if i < j {
      OffsetsMonotone(side, i, j - 1);
    }
  }

  /** Every data cell the side's index list names lies in a data array of `dataLen` cells. */
  predicate Addresses(side: Side, dataLen: int)
  {
    Packing.Fits(side.bufferSize, dataLen, side.idxlist, None, 0, side.bufferSize)
  }

  // ---------------------------------------------------------------------------
  // Pack and unpack phases
  // ---------------------------------------------------------------------------

  lemma PackedNothing<T>(buffer: seq<T>, data: seq<T>, idxlist: seq<int>)
    requires Packing.Fits(|buffer|, |data|, idxlist, None, 0, 0)
    ensures Packing.Packed(buffer, data, idxlist, None, 0, 0) == buffer
  {
  }

  lemma UnpackedNothing<T>(buffer: seq<T>, data: seq<T>, idxlist: seq<int>)
    requires Packing.Fits(|buffer|, |data|, idxlist, None, 0, 0)
    ensures Packing.Unpacked(buffer, data, idxlist, None, 0, 0) == data
  {
  }

  /**
   * The send loops of `IsendIrecv1`, `IsendRecv1` and `IsendRecv2` (lines
   * 139-154 and alike): one pack per segment, in segment order. Because the
   * segments tile the buffer, the result is the single whole-buffer pack of
   * `IsendIrecv2` (lines 217-221).
   */
  method PackSegments<T>(side: Side, buffer: seq<T>, data: seq<T>) returns (packed: seq<T>)
    requires Tiles(side) && |buffer| == side.bufferSize && Addresses(side, |data|)
    ensures packed == Packing.Packed(buffer, data, side.idxlist, None, 0, side.bufferSize)
  {
    packed := buffer;
    PackedNothing(buffer, data, side.idxlist);
    var count := 0;
    while count < |side.peers|
      invariant 0 <= count <= |side.peers| && 0 <= Start(side, count) <= side.bufferSize
      invariant packed == Packing.Packed(buffer, data, side.idxlist, None, 0, Start(side, count))
    {
      var offset := side.offsets[count];
      var upperBound := if count == |side.peers| - 1 then side.bufferSize else side.offsets[count + 1];
      var size := upperBound - offset;
      SegmentStep(side, count);
      Packing.PackedSplit(buffer, data, side.idxlist, None, 0, offset, size);
      packed := Packing.Pack(packed, data, side.idxlist, size, offset, None);
      count := count + 1;
    }
  }

  /**
   * The receive loop of `IsendRecv2` (lines 386-417): one unpack per
   * segment, in segment order. Because the segments tile the buffer, the
   * result is the single whole-buffer unpack of the other kinds (lines
   * 194-198).
   */
  method UnpackSegments<T>(side: Side, buffer: seq<T>, data: seq<T>) returns (unpacked: seq<T>)
    requires Tiles(side) && |buffer| == side.bufferSize && Addresses(side, |data|)
    ensures unpacked == Packing.Unpacked(buffer, data, side.idxlist, None, 0, side.bufferSize)
  {
    unpacked := data;
    UnpackedNothing(buffer, data, side.idxlist);
    var count := 0;
    while count < |side.peers|
      invariant 0 <= count <= |side.peers| && 0 <= Start(side, count) <= side.bufferSize
      invariant unpacked == Packing.Unpacked(buffer, data, side.idxlist, None, 0, Start(side, count))
    {
      var offset := side.offsets[count];
      var upperBound := if count == |side.peers| - 1 then side.bufferSize else side.offsets[count + 1];
      var size := upperBound - offset;
      SegmentStep(side, count);
      Packing.UnpackedSplit(buffer, data, side.idxlist, None, 0, offset, size);
      unpacked := Packing.Unpack(buffer, unpacked, side.idxlist, size, offset, None);
      count := count + 1;
    }
  }

  // ---------------------------------------------------------------------------
  // Exchanger kinds
  // ---------------------------------------------------------------------------

  /** `enum distdir_exchanger`. */
  datatype Kind =
    | IsendIrecv1 | IsendIrecv2 | IsendRecv1 | IsendRecv2
    | IsendIrecv1NoWait | IsendIrecv2NoWait | IsendRecv1NoWait | IsendRecv2NoWait

  /** `IsendIrecv2` and its no-wait twin pack the whole send buffer in one call. */
  predicate PacksWhole(kind: Kind)
  {
    kind == IsendIrecv2 || kind == IsendIrecv2NoWait
  }

  /** `IsendRecv2` and its no-wait twin unpack each segment as it arrives. */
  predicate UnpacksPerSegment(kind: Kind)
  {
    kind == IsendRecv2 || kind == IsendRecv2NoWait
  }

  /** The kinds that post non-blocking receives. */
  predicate PostsReceives(kind: Kind)
  {
    kind.IsendIrecv1? || kind.IsendIrecv2? || kind.IsendIrecv1NoWait? || kind.IsendIrecv2NoWait?
  }

  predicate NoWait(kind: Kind)
  {
    kind.IsendIrecv1NoWait? || kind.IsendIrecv2NoWait? || kind.IsendRecv1NoWait? || kind.IsendRecv2NoWait?
  }

  /** The pack phase of exchanger `kind` on one rank. */
  method PackPhase<T>(kind: Kind, side: Side, buffer: seq<T>, data: seq<T>) returns (packed: seq<T>)
    requires Tiles(side) && |buffer| == side.bufferSize && Addresses(side, |data|)
    ensures packed == Packing.Packed(buffer, data, side.idxlist, None, 0, side.bufferSize)
  {
    if PacksWhole(kind) {
      packed := Packing.Pack(buffer, data, side.idxlist, side.bufferSize, 0, None);
    } else {
      packed := PackSegments(side, buffer, data);
    }
  }

  /** The unpack phase of exchanger `kind` on one rank. */
  method UnpackPhase<T>(kind: Kind, side: Side, buffer: seq<T>, data: seq<T>) returns (unpacked: seq<T>)
    requires Tiles(side) && |buffer| == side.bufferSize && Addresses(side, |data|)
    ensures unpacked == Packing.Unpacked(buffer, data, side.idxlist, None, 0, side.bufferSize)
  {
    if UnpacksPerSegment(kind) {
      unpacked := UnpackSegments(side, buffer, data);
    } else {
      unpacked := Packing.Unpack(buffer, data, side.idxlist, side.bufferSize, 0, None);
    }
  }

  /** `t_exchange`: the staging buffer is allocated only for a positive size. */
  datatype Staging = Staging(count: int, bufferSize: int, hasBuffer: bool, idxlist: seq<int>)

  /** `t_exchanger` without its function tables and MPI handles. */
  datatype Exchanger = Exchanger(kind: Kind, send: Staging, recv: Staging, requests: int)

  /**
   * `new_exchanger` (lines 421-547) for the CPU in a build with
   * `ERROR_CHECK`: counts, sizes and index lists come from the map, the
   * request array has a slot per send and, for the kinds that post
   * receives, per receive, and a no-wait kind is refused unless one
   * direction is empty.
   */
  function NewExchanger(send: Side, recv: Side, kind: Kind): (r: Result<Exchanger>)
    ensures r.Success? <==> !NoWait(kind) || |send.peers| == 0 || |recv.peers| == 0
    ensures r.Success? ==>
              && r.value.kind == kind
              && r.value.send.count == |send.peers| && r.value.recv.count == |recv.peers|
              && r.value.send.bufferSize == send.bufferSize && r.value.recv.bufferSize == recv.bufferSize
              && (r.value.send.hasBuffer <==> send.bufferSize > 0)
              && (r.value.recv.hasBuffer <==> recv.bufferSize > 0)
              && r.value.send.idxlist == send.idxlist && r.value.recv.idxlist == recv.idxlist
              && r.value.requests == |send.peers| + (if PostsReceives(kind) then |recv.peers| else 0)
  {
    if NoWait(kind) && |send.peers| != 0 && |recv.peers| != 0 then
      Failure("a no-wait exchanger needs one direction to be empty")
    else
      var requests := if PostsReceives(kind) then |send.peers| + |recv.peers| else |send.peers|;
      Success(Exchanger(kind,
                        Staging(|send.peers|, send.bufferSize, send.bufferSize > 0, send.idxlist),
                        Staging(|recv.peers|, recv.bufferSize, recv.bufferSize > 0, recv.idxlist),
                        requests))
  }

  /**
   * One MPI call an exchanger posts for a segment: a non-blocking send or
   * receive into request slot `slot`, or a blocking receive, which takes
   * no request.
   */
  datatype Call =
    | Isend(peer: int, tag: int, size: int, offset: int, slot: int)
    | Irecv(peer: int, tag: int, size: int, offset: int, slot: int)
    | Recv(peer: int, tag: int, size: int, offset: int)

  /** The send of segment `k`, posted into slot `k` (lines 157-165 and alike). */
  function SendCall(send: Side, k: int, rank: int, w: int): Call
    requires |send.offsets| == |send.peers| && 0 <= k < |send.peers|
  {
    Isend(send.peers[k], Tags.Tag(rank, send.peers[k], w), Upper(send, k) - send.offsets[k], send.offsets[k], k)
  }

  /**
   * The receive of segment `k`: non-blocking into the slot after the
   * `first` sends for the kinds that post receives (lines 178-187),
   * blocking for the others (lines 334-340 and alike).
   */
  function RecvCall(kind: Kind, recv: Side, k: int, first: int, rank: int, w: int): Call
    requires |recv.offsets| == |recv.peers| && 0 <= k < |recv.peers|
  {
    var peer, size, offset := recv.peers[k], Upper(recv, k) - recv.offsets[k], recv.offsets[k];
    if PostsReceives(kind) then Irecv(peer, Tags.Tag(peer, rank, w), size, offset, first + k)
    else Recv(peer, Tags.Tag(peer, rank, w), size, offset)
  }

  /** The calls of one exchange on rank `rank`: every send segment in order, then every receive segment. */
  predicate Posts(calls: seq<Call>, kind: Kind, send: Side, recv: Side, rank: int, w: int)
    requires |send.offsets| == |send.peers| && |recv.offsets| == |recv.peers|
  {
    && |calls| == |send.peers| + |recv.peers|
    && (forall k :: 0 <= k < |send.peers| ==> calls[k] == SendCall(send, k, rank, w))
    && (forall k :: 0 <= k < |recv.peers| ==> calls[|send.peers| + k] == RecvCall(kind, recv, k, |send.peers|, rank, w))
  }

  /**
   * The posting loops of the four kinds (lines 136-187, 213-264, 293-347,
   * 365-417): a send per send segment to its peer with tag
   * `rank + W * (peer + 1)` into the next request slot, then a receive per
   * receive segment with the peer's tag, into the next request slot when
   * the kind posts receives.
   */
  method PostCalls(kind: Kind, send: Side, recv: Side, rank: int, w: int) returns (calls: seq<Call>)
    requires |send.offsets| == |send.peers| && |recv.offsets| == |recv.peers|
    ensures Posts(calls, kind, send, recv, rank, w)
  {
    calls := [];
    var nreq := 0;
    var count := 0;
    while count < |send.peers|
      invariant 0 <= count <= |send.peers| && nreq == count == |calls|
      invariant forall k :: 0 <= k < count ==> calls[k] == SendCall(send, k, rank, w)
    {
      var offset := send.offsets[count];
      var upperBound := if count == |send.peers| - 1 then send.bufferSize else send.offsets[count + 1];
      var peer := send.peers[count];
      calls := calls + [Isend(peer, rank + w * (peer + 1), upperBound - offset, offset, nreq)];
      nreq := nreq + 1;
      count := count + 1;
    }
    count := 0;
    while count < |recv.peers|
      invariant 0 <= count <= |recv.peers| && |calls| == |send.peers| + count
      invariant nreq == |send.peers| + (if PostsReceives(kind) then count else 0)
      invariant forall k :: 0 <= k < |send.peers| ==> calls[k] == SendCall(send, k, rank, w)
      invariant forall k :: 0 <= k < count ==> calls[|send.peers| + k] == RecvCall(kind, recv, k, |send.peers|, rank, w)
    {
      var offset := recv.offsets[count];
      var upperBound := if count == |recv.peers| - 1 then recv.bufferSize else recv.offsets[count + 1];
      var peer := recv.peers[count];
      if PostsReceives(kind) {
        calls := calls + [Irecv(peer, peer + w * (rank + 1), upperBound - offset, offset, nreq)];
        nreq := nreq + 1;
      } else {
        calls := calls + [Recv(peer, peer + w * (rank + 1), upperBound - offset, offset)];
      }
      count := count + 1;
    }
  }

  /**
   * The request array `new_exchanger` sizes is exactly the one the posts
   * fill: the calls that take a request are the first `requests` ones,
   * and call `k` takes slot `k`, so every slot is used once and none lies
   * past the array.
   */
  lemma RequestSlots(kind: Kind, send: Side, recv: Side, rank: int, w: int, calls: seq<Call>)
    requires |send.offsets| == |send.peers| && |recv.offsets| == |recv.peers|
    requires Posts(calls, kind, send, recv, rank, w) && NewExchanger(send, recv, kind).Success?
    ensures var n := NewExchanger(send, recv, kind).value.requests;
            && n <= |calls|
            && (forall k :: 0 <= k < |calls| ==> (calls[k].Recv? <==> n <= k))
            && (forall k :: 0 <= k < |calls| && !calls[k].Recv? ==> calls[k].slot == k)
  {
    var n := NewExchanger(send, recv, kind).value.requests;
    forall k | 0 <= k < |calls|
      ensures (calls[k].Recv? <==> n <= k) && (!calls[k].Recv? ==> calls[k].slot == k)
    {
      if k < |send.peers| {
        assert calls[k] == SendCall(send, k, rank, w);
      } else {
        assert calls[|send.peers| + (k - |send.peers|)] == RecvCall(kind, recv, k - |send.peers|, |send.peers|, rank, w);
      }
    }
  }

  // ---------------------------------------------------------------------------
  // Matching sends and receives
  // ---------------------------------------------------------------------------

  /** The first position of `v` in `s`, if any. */
  function IndexOf(s: seq<int>, v: int): (r: Option<int>)
    ensures r.Some? ==> 0 <= r.value < |s| && s[r.value] == v && forall j :: 0 <= j < r.value ==> s[j] != v
    ensures r.None? <==> forall j :: 0 <= j < |s| ==> s[j] != v
  {
    if |s| == 0 then None
    else if s[0] == v then Some(0)
    else match IndexOf(s[1..], v)
      case None => None
      case Some(j) => Some(j + 1)
  }

  /** The tags rank `s` sends with, one per send segment (line 161). */
  function SendTags(peers: seq<int>, s: int, w: int): (t: seq<int>)
    ensures |t| == |peers| && forall k :: 0 <= k < |peers| ==> t[k] == Tags.Tag(s, peers[k], w)
  {
    seq(|peers|, k requires 0 <= k < |peers| => Tags.Tag(s, peers[k], w))
  }

  /**
   * The send segment of rank `s` that a receive posted by rank `d` for
   * source `s` matches: the first one whose tag is the tag `d` expects
   * (line 183), `Tag(s, d, w)`.
   */
  function MatchSend(peers: seq<int>, s: int, d: int, w: int): Option<int>
  {
    IndexOf(SendTags(peers, s, w), Tags.Tag(s, d, w))
  }

  /**
   * Tags agree on the peer: the send segment a receive matches is the
   * first one addressed to the receiving rank, and there is none exactly
   * when the sender has no segment for it.
   */
  lemma MatchIsPeer(peers: seq<int>, s: int, d: int, w: int)
    requires 0 <= s < w
    ensures MatchSend(peers, s, d, w) == IndexOf(peers, d)
  {
    var tags := SendTags(peers, s, w);
    forall k | 0 <= k < |peers|
      ensures tags[k] == Tags.Tag(s, d, w) <==> peers[k] == d
    {
      Tags.TagDetermines(s, peers[k], s, d, w);
    }
    IndexOfAgree(tags, Tags.Tag(s, d, w), peers, d);
  }

  /** Searching two sequences that hold their targets at the same positions finds the same position. */
  lemma {:induction false} IndexOfAgree(a: seq<int>, va: int, b: seq<int>, vb: int)
    requires |a| == |b|
    requires forall k :: 0 <= k < |a| ==> (a[k] == va <==> b[k] == vb)
    ensures IndexOf(a, va) == IndexOf(b, vb)
    decreases |a|
  {
    if |a| > 0 && a[0] != va {
      assert forall k :: 0 <= k < |a| - 1 ==> a[1..][k] == a[k + 1] && b[1..][k] == b[k + 1];
      IndexOfAgree(a[1..], va, b[1..], vb);
    }
  }
}
