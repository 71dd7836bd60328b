/**
 * Every rank of a world running the exchanger of
 * `src/core/exchange/exchange.c` at once: every rank packs, every message
 * travels to the receive its tag matches, and every rank unpacks. The MPI
 * calls are replaced by their net effect: the message rank `d` receives
 * from rank `s` is the segment of `s`'s packed send buffer that `s`
 * addressed to `d` under the agreed tag.
 */
module ExchangeWorld {
  import opened Seqs
  import Packing
  import opened Exchange
  // ---------------------------------------------------------------------------
  // Deliver all messages
  // ---------------------------------------------------------------------------

  /** A rank's two directions. */
  datatype RankMap = RankMap(send: Side, recv: Side)

  /** Every rank's send side tiles its buffer and addresses its source data. */
  predicate SendLaid<T>(world: seq<RankMap>, srcData: seq<seq<T>>)
  {
    |srcData| == |world| && forall r :: 0 <= r < |world| ==> Tiles(world[r].send) && Addresses(world[r].send, |srcData[r]|)
  }

  /** Every rank's send side tiles its buffer. */
  predicate SendsTile(world: seq<RankMap>)
  {
    forall r :: 0 <= r < |world| ==> Tiles(world[r].send)
  }

  /** Every rank's receive side tiles its buffer and addresses its destination data. */
  predicate RecvLaid<T>(world: seq<RankMap>, dstData: seq<seq<T>>)
  {
    |dstData| == |world| && forall r :: 0 <= r < |world| ==> Tiles(world[r].recv) && Addresses(world[r].recv, |dstData[r]|)
  }

  /** Every rank's send buffer is as long as its map says. */
  predicate SendBuffersFit<T>(world: seq<RankMap>, bufs: seq<seq<T>>)
  {
    |bufs| == |world| && forall r :: 0 <= r < |world| ==> |bufs[r]| == world[r].send.bufferSize
  }

  /** No peer appears twice. */
  predicate Distinct(peers: seq<int>)
  {
    forall i, j :: 0 <= i < j < |peers| ==> peers[i] != peers[j]
  }

  /**
   * Every receive has a matching send of the same size: the source is a
   * rank of the world, it has a segment tagged for the receiver, and that
   * segment is as long as the receive segment. No rank names a peer twice
   * on either side, as the maps `new_map` builds, so between two ranks at
   * most one message travels and no two messages compete for a receive.
   */
  predicate Matched(world: seq<RankMap>)
  {
    && (forall r :: 0 <= r < |world| ==> Distinct(world[r].send.peers) && Distinct(world[r].recv.peers))
    && forall d, k :: 0 <= d < |world| && 0 <= k < |world[d].recv.peers| ==>
      && |world[d].recv.offsets| == |world[d].recv.peers|
      && 0 <= world[d].recv.peers[k] < |world|
      && Pairs(world, world[d].recv.peers[k], d, k)
  }

  /** The send segment of `s` matched by receive `k` of `d` exists and has the receive's size. */
  predicate Pairs(world: seq<RankMap>, s: int, d: int, k: int)
    requires 0 <= s < |world| && 0 <= d < |world|
    requires |world[d].recv.offsets| == |world[d].recv.peers| && 0 <= k < |world[d].recv.peers|
  {
    var send := world[s].send;
    var m := MatchSend(send.peers, s, d, |world|);
    && |send.offsets| == |send.peers|
    && m.Some? && 0 <= m.value < |send.peers|
    && Upper(send, m.value) - send.offsets[m.value] == Upper(world[d].recv, k) - world[d].recv.offsets[k]
  }

  /**
   * The message receive `k` of rank `d` gets: the segment of its source's
   * send buffer whose tag matches.
   */
  function Message<T>(world: seq<RankMap>, bufs: seq<seq<T>>, d: int, k: int): (m: seq<T>)
    requires Matched(world) && 0 <= d < |world| && 0 <= k < |world[d].recv.peers|
    requires |world[d].recv.offsets| == |world[d].recv.peers|
    requires SendsTile(world)
    requires SendBuffersFit(world, bufs)
    ensures |m| == Upper(world[d].recv, k) - world[d].recv.offsets[k]
  {
    var s := world[d].recv.peers[k];
    var send := world[s].send;
    var j := MatchSend(send.peers, s, d, |world|).value;
    SegmentStep(send, j);
    bufs[s][send.offsets[j]..Upper(send, j)]
  }

  /** All messages rank `d` receives, in receive order. */
  function Incoming<T>(world: seq<RankMap>, bufs: seq<seq<T>>, d: int): (ms: seq<seq<T>>)
    requires Matched(world) && 0 <= d < |world| && |world[d].recv.offsets| == |world[d].recv.peers|
    requires SendsTile(world)
    requires SendBuffersFit(world, bufs)
    ensures |ms| == |world[d].recv.peers|
    ensures forall k {:trigger ms[k]} :: 0 <= k < |ms| ==> ms[k] == Message(world, bufs, d, k)
  {
    MessagesUpTo(world, bufs, d, |world[d].recv.peers|)
  }

  /** The messages of the first `n` receives of rank `d`. */
  function MessagesUpTo<T>(world: seq<RankMap>, bufs: seq<seq<T>>, d: int, n: int): (ms: seq<seq<T>>)
    requires Matched(world) && 0 <= d < |world| && |world[d].recv.offsets| == |world[d].recv.peers|
    requires SendsTile(world)
    requires SendBuffersFit(world, bufs)
    requires 0 <= n <= |world[d].recv.peers|
    ensures |ms| == n
    ensures forall k {:trigger ms[k]} :: 0 <= k < n ==> ms[k] == Message(world, bufs, d, k)
  {
    if n == 0 then [] else MessagesUpTo(world, bufs, d, n - 1) + [Message(world, bufs, d, n - 1)]
  }

  /** Every rank's send buffer after its pack phase, whatever the kind. */
  function SentBuffers<T>(world: seq<RankMap>, srcData: seq<seq<T>>, sendInit: seq<seq<T>>): (bufs: seq<seq<T>>)
    requires SendLaid(world, srcData) && SendBuffersFit(world, sendInit)
    ensures SendBuffersFit(world, bufs)
  {
    seq(|world|, s requires 0 <= s < |world| =>
      Packing.Packed(sendInit[s], srcData[s], world[s].send.idxlist, None, 0, world[s].send.bufferSize))
  }

  /** Each message is exactly as long as its segment of a side that tiles its buffer. */
  predicate SizedFor<T>(side: Side, msgs: seq<seq<T>>)
  {
    && Tiles(side) && |msgs| == |side.peers|
    && forall k {:trigger msgs[k]} :: 0 <= k < |msgs| ==> |msgs[k]| == Upper(side, k) - side.offsets[k]
  }

  /** Messages laid out at their segments' offsets fill the buffer exactly. */
  lemma {:induction false} MessagesFill<T>(side: Side, msgs: seq<seq<T>>, count: int)
    requires SizedFor(side, msgs) && 0 <= count <= |side.peers|
    ensures |Concat(msgs[..count])| == Start(side, count)
    decreases count
  {
    if count == 0 {
      assert |side.peers| > 0 ==> Start(side, 0) == 0;
    } else {
      assert msgs[..count][..count - 1] == msgs[..count - 1];
      MessagesFill(side, msgs, count - 1);
      SegmentStep(side, count - 1);
    }
  }

  /** Messages laid out at their segments' offsets are exactly as long as the buffer. */
  lemma MessagesFillAll<T>(side: Side, msgs: seq<seq<T>>)
    requires SizedFor(side, msgs)
    ensures |Concat(msgs)| == side.bufferSize
  {
    MessagesFill(side, msgs, |msgs|);
    assert msgs[..|msgs|] == msgs;
  }

  /**
   * The receive loops (lines 158-178, and alike in the other kinds): the
   * message of segment `k` is written at `offsets[k]`. With the segments
   * tiling the buffer, every position is written and the buffer holds the
   * messages one after the other.
   */
  method ReceiveAll<T>(side: Side, msgs: seq<seq<T>>, buffer: seq<T>) returns (received: seq<T>)
    requires SizedFor(side, msgs) && |buffer| == side.bufferSize
    ensures received == Concat(msgs) && |received| == side.bufferSize
  {
    received := buffer;
    var count := 0;
    assert msgs[..0] == [];
    while count < |side.peers|
      invariant 0 <= count <= |side.peers| && 0 <= Start(side, count) <= side.bufferSize == |received|
      invariant received[..Start(side, count)] == Concat(msgs[..count])
    {
      var offset := side.offsets[count];
      var upperBound := if count == |side.peers| - 1 then side.bufferSize else side.offsets[count + 1];
      ReceiveStep(side, msgs, received, count);
      received := received[..offset] + msgs[count] + received[upperBound..];
      count := count + 1;
    }
    assert msgs[..count] == msgs;
    MessagesFill(side, msgs, count);
  }

  /** Writing message `count` at its offset extends the received prefix by that message. */
  lemma ReceiveStep<T>(side: Side, msgs: seq<seq<T>>, received: seq<T>, count: int)
    requires SizedFor(side, msgs) && 0 <= count < |side.peers|
    requires |received| == side.bufferSize && 0 <= Start(side, count) <= side.bufferSize
    requires received[..Start(side, count)] == Concat(msgs[..count])
    ensures 0 <= side.offsets[count] <= Upper(side, count) <= |received|
    ensures var next := received[..side.offsets[count]] + msgs[count] + received[Upper(side, count)..];
            |next| == side.bufferSize && next[..Start(side, count + 1)] == Concat(msgs[..count + 1])
  {
    SegmentStep(side, count);
    var lo, hi := side.offsets[count], Upper(side, count);
    var msg := msgs[count];
    assert |msg| == hi - lo;
    WriteAt(received, Concat(msgs[..count]), msg, lo, hi);
    assert Concat(msgs[..count + 1]) == Concat(msgs[..count]) + msg by {
      ConcatAppend(msgs[..count], [msg]);
      assert msgs[..count + 1] == msgs[..count] + [msg];
      assert Concat([msg]) == msg by {
        assert [msg][..0] == [];
      }
    }
  }

  /** Overwriting `[lo, hi)` with `msg` right after a prefix extends the prefix by `msg`. */
  lemma WriteAt<T>(buffer: seq<T>, prefix: seq<T>, msg: seq<T>, lo: int, hi: int)
    requires 0 <= lo <= hi <= |buffer| && |msg| == hi - lo && buffer[..lo] == prefix
    ensures var next := buffer[..lo] + msg + buffer[hi..];
            |next| == |buffer| && next[..hi] == prefix + msg
  {
    var next := buffer[..lo] + msg + buffer[hi..];
    assert next[..hi] == buffer[..lo] + msg;
  }

  /**
   * What rank `d` ends with after an exchange: its receive buffer holds the
   * matched messages one after the other, unpacked into its data.
   */
  function Delivered<T>(world: seq<RankMap>, srcData: seq<seq<T>>, dstData: seq<seq<T>>, sendInit: seq<seq<T>>, d: int): (r: seq<T>)
    requires SendLaid(world, srcData) && RecvLaid(world, dstData) && SendBuffersFit(world, sendInit)
    requires Matched(world) && 0 <= d < |world|
    ensures |r| == |dstData[d]|
  {
    DeliveredFrom(world, SentBuffers(world, srcData, sendInit), dstData[d], d)
  }

  /** What rank `d` ends with when the ranks' send buffers are `bufs`. */
  function DeliveredFrom<T>(world: seq<RankMap>, bufs: seq<seq<T>>, data: seq<T>, d: int): (r: seq<T>)
    requires Matched(world) && SendsTile(world) && SendBuffersFit(world, bufs) && 0 <= d < |world|
    requires Tiles(world[d].recv) && Addresses(world[d].recv, |data|)
    ensures |r| == |data|
  {
    var recv := world[d].recv;
    var msgs := Incoming(world, bufs, d);
    MessagesFillAll(recv, msgs);
    Packing.Unpacked(Concat(msgs), data, recv.idxlist, None, 0, recv.bufferSize)
  }

  /**
   * `exchanger_go` on every rank of the world with exchanger `kind`: every
   * rank packs, every message travels to the receive its tag matches, and
   * every rank unpacks. Whatever the kind, each rank ends with `Delivered`.
   */
  method ExchangeAll<T>(kind: Kind, world: seq<RankMap>, srcData: seq<seq<T>>, dstData: seq<seq<T>>,
                        sendInit: seq<seq<T>>, recvInit: seq<seq<T>>) returns (result: seq<seq<T>>)
    requires SendLaid(world, srcData) && RecvLaid(world, dstData) && SendBuffersFit(world, sendInit)
    requires |recvInit| == |world| && forall r :: 0 <= r < |world| ==> |recvInit[r]| == world[r].recv.bufferSize
    requires Matched(world)
    ensures |result| == |world|
    ensures forall d :: 0 <= d < |world| ==> result[d] == Delivered(world, srcData, dstData, sendInit, d)
  {
    var bufs := PackAll(kind, world, srcData, sendInit);
    result := [];
    var d := 0;
    while d < |world|
      invariant 0 <= d <= |world| && |result| == d
      invariant forall q :: 0 <= q < d ==> result[q] == Delivered(world, srcData, dstData, sendInit, q)
    {
      var unpacked := DeliverTo(kind, world, srcData, dstData, sendInit, bufs, recvInit[d], d);
      result := result + [unpacked];
      d := d + 1;
    }
  }

  /**
   * Each rank's map as `exchanger_go` reads it: peers and offsets from the
   * map, buffer size and index list from the exchanger's staging.
   */
  function StagedWorld(world: seq<RankMap>, exchangers: seq<Exchanger>): (staged: seq<RankMap>)
    requires |exchangers| == |world|
    ensures |staged| == |world|
  {
    seq(|world|, r requires 0 <= r < |world| =>
      RankMap(Side(world[r].send.peers, world[r].send.offsets, exchangers[r].send.bufferSize, exchangers[r].send.idxlist),
              Side(world[r].recv.peers, world[r].recv.offsets, exchangers[r].recv.bufferSize, exchangers[r].recv.idxlist)))
  }

  /**
   * `exchanger_go` on every rank with the exchanger `new_exchanger` built
   * there for `kind`, its staging buffers of the sizes it recorded: every
   * rank ends with what its map says it receives.
   */
  method GoAll<T>(kind: Kind, world: seq<RankMap>, exchangers: seq<Exchanger>, srcData: seq<seq<T>>, dstData: seq<seq<T>>,
                  sendInit: seq<seq<T>>, recvInit: seq<seq<T>>) returns (result: seq<seq<T>>)
    requires SendLaid(world, srcData) && RecvLaid(world, dstData) && Matched(world)
    requires |exchangers| == |world|
    requires forall r :: 0 <= r < |world| ==> NewExchanger(world[r].send, world[r].recv, kind) == Success(exchangers[r])
    requires |sendInit| == |recvInit| == |world|
    requires forall r :: 0 <= r < |world| ==>
               |sendInit[r]| == exchangers[r].send.bufferSize && |recvInit[r]| == exchangers[r].recv.bufferSize
    ensures SendBuffersFit(world, sendInit)
    ensures |result| == |world|
    ensures forall d :: 0 <= d < |world| ==> result[d] == Delivered(world, srcData, dstData, sendInit, d)
  {
    var staged := StagedWorld(world, exchangers);
    forall r | 0 <= r < |world|
      ensures staged[r] == world[r]
    {
      var ex := exchangers[r];
      assert NewExchanger(world[r].send, world[r].recv, kind) == Success(ex);
    }
    assert staged == world;
    result := ExchangeAll(kind, staged, srcData, dstData, sendInit, recvInit);
  }

  /** The pack phase of every rank. */
  method PackAll<T>(kind: Kind, world: seq<RankMap>, srcData: seq<seq<T>>, sendInit: seq<seq<T>>) returns (bufs: seq<seq<T>>)
    requires SendLaid(world, srcData) && SendBuffersFit(world, sendInit)
    ensures bufs == SentBuffers(world, srcData, sendInit)
  {
    bufs := [];
    var s := 0;
    while s < |world|
      invariant 0 <= s <= |world| && bufs == SentBuffers(world, srcData, sendInit)[..s]
    {
      var packed := PackPhase(kind, world[s].send, sendInit[s], srcData[s]);
      bufs := bufs + [packed];
      s := s + 1;
    }
  }

  /** Rank `d` receives its messages into its receive buffer and unpacks them. */
  method DeliverTo<T>(kind: Kind, world: seq<RankMap>, srcData: seq<seq<T>>, dstData: seq<seq<T>>,
                      sendInit: seq<seq<T>>, bufs: seq<seq<T>>, recvInit: seq<T>, d: int) returns (unpacked: seq<T>)
    requires SendLaid(world, srcData) && RecvLaid(world, dstData) && SendBuffersFit(world, sendInit)
    requires Matched(world) && 0 <= d < |world| && |recvInit| == world[d].recv.bufferSize
    requires bufs == SentBuffers(world, srcData, sendInit)
    ensures unpacked == Delivered(world, srcData, dstData, sendInit, d)
  {
    var recv := world[d].recv;
    assert Tiles(recv) && Addresses(recv, |dstData[d]|);
    var msgs := Incoming(world, bufs, d);
    var received := ReceiveAll(recv, msgs, recvInit);
    unpacked := UnpackPhase(kind, recv, received, dstData[d]);
    assert unpacked == DeliveredFrom(world, bufs, dstData[d], d);
  }
}
