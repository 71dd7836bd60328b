/**
 * What the exchange of `ExchangeWorld` leaves in one destination cell:
 * the source cell the two ranks' maps pair with it.
 */
module DeliveredCells {
  import opened Seqs
  import Packing
  import opened Exchange
  import opened ExchangeWorld

  /** Position `i` of message `k` sits at `offsets[k] + i` of the received buffer. */
  lemma ReceivedAt<T>(side: Side, msgs: seq<seq<T>>, k: int, i: int)
    requires SizedFor(side, msgs)
    requires 0 <= k < |msgs| && 0 <= i < |msgs[k]|
    ensures 0 <= side.offsets[k] + i < |Concat(msgs)| && Concat(msgs)[side.offsets[k] + i] == msgs[k][i]
  {
    MessagesFill(side, msgs, k);
    SegmentStep(side, k);
    ConcatPart(msgs, k);
  }

  /** Position `p` of a packed send buffer holds the source cell its index-list entry names. */
  lemma SentAt<T>(world: seq<RankMap>, srcData: seq<seq<T>>, sendInit: seq<seq<T>>, s: int, p: int)
    requires SendLaid(world, srcData) && SendBuffersFit(world, sendInit)
    requires 0 <= s < |world| && 0 <= p < world[s].send.bufferSize
    ensures 0 <= world[s].send.idxlist[p] < |srcData[s]|
    ensures SentBuffers(world, srcData, sendInit)[s][p] == srcData[s][world[s].send.idxlist[p]]
  {
    assert Tiles(world[s].send) && Addresses(world[s].send, |srcData[s]|);
  }

  /**
   * The point of an exchange: with a receive index list that names every
   * destination cell at most once, the cell paired with position `i` of
   * receive segment `k` of rank `d` ends with the source cell paired with
   * position `i` of the send segment the tags match, on the rank the
   * receive names.
   */
  lemma DeliveredCell<T>(world: seq<RankMap>, srcData: seq<seq<T>>, dstData: seq<seq<T>>, sendInit: seq<seq<T>>,
                         d: int, k: int, i: int, s: int, j: int)
    requires SendLaid(world, srcData) && RecvLaid(world, dstData) && SendBuffersFit(world, sendInit)
    requires Matched(world) && 0 <= d < |world|
    requires Packing.Injective(world[d].recv.idxlist, None, 0, world[d].recv.bufferSize)
    requires 0 <= k < |world[d].recv.peers| && 0 <= i < Upper(world[d].recv, k) - world[d].recv.offsets[k]
    requires s == world[d].recv.peers[k] && MatchSend(world[s].send.peers, s, d, |world|) == Some(j)
    ensures 0 <= world[d].recv.offsets[k] + i < world[d].recv.bufferSize
    ensures 0 <= j < |world[s].send.peers| && 0 <= world[s].send.offsets[j] + i < world[s].send.bufferSize
    ensures 0 <= world[d].recv.idxlist[world[d].recv.offsets[k] + i] < |dstData[d]|
    ensures 0 <= world[s].send.idxlist[world[s].send.offsets[j] + i] < |srcData[s]|
    ensures Delivered(world, srcData, dstData, sendInit, d)[world[d].recv.idxlist[world[d].recv.offsets[k] + i]]
            == srcData[s][world[s].send.idxlist[world[s].send.offsets[j] + i]]
  {
    var bufs := SentBuffers(world, srcData, sendInit);
    assert Tiles(world[d].recv) && Addresses(world[d].recv, |dstData[d]|);
    DeliveredFromCell(world, bufs, dstData[d], d, k, i, s, j);
    SentAt(world, srcData, sendInit, s, world[s].send.offsets[j] + i);
  }

  /** `DeliveredCell` for any send buffers: the cell gets the buffer position the tags match. */
  lemma DeliveredFromCell<T>(world: seq<RankMap>, bufs: seq<seq<T>>, data: seq<T>, d: int, k: int, i: int, s: int, j: int)
    requires Matched(world) && SendsTile(world) && SendBuffersFit(world, bufs) && 0 <= d < |world|
    requires Tiles(world[d].recv) && Addresses(world[d].recv, |data|)
    requires Packing.Injective(world[d].recv.idxlist, None, 0, world[d].recv.bufferSize)
    requires 0 <= k < |world[d].recv.peers| && 0 <= i < Upper(world[d].recv, k) - world[d].recv.offsets[k]
    requires s == world[d].recv.peers[k] && MatchSend(world[s].send.peers, s, d, |world|) == Some(j)
    ensures 0 <= world[d].recv.offsets[k] + i < world[d].recv.bufferSize
    ensures 0 <= j < |world[s].send.peers| && 0 <= world[s].send.offsets[j] + i < |bufs[s]|
    ensures 0 <= world[d].recv.idxlist[world[d].recv.offsets[k] + i] < |data|
    ensures DeliveredFrom(world, bufs, data, d)[world[d].recv.idxlist[world[d].recv.offsets[k] + i]]
            == bufs[s][world[s].send.offsets[j] + i]
  {
    var q := world[d].recv.offsets[k] + i;
    IncomingAt(world, bufs, d, k, i, s, j);
    var v := Concat(Incoming(world, bufs, d))[q];
    assert DeliveredFrom(world, bufs, data, d)[world[d].recv.idxlist[q]] == v by {
      DeliveredAt(world, bufs, data, d, q);
    }
  }

  /** Position `offsets[k] + i` of everything rank `d` receives is position `i` of the matched send segment. */
  lemma IncomingAt<T>(world: seq<RankMap>, bufs: seq<seq<T>>, d: int, k: int, i: int, s: int, j: int)
    requires Matched(world) && SendsTile(world) && SendBuffersFit(world, bufs) && 0 <= d < |world|
    requires Tiles(world[d].recv)
    requires 0 <= k < |world[d].recv.peers| && 0 <= i < Upper(world[d].recv, k) - world[d].recv.offsets[k]
    requires s == world[d].recv.peers[k] && MatchSend(world[s].send.peers, s, d, |world|) == Some(j)
    ensures 0 <= j < |world[s].send.peers| && 0 <= world[s].send.offsets[j] + i < |bufs[s]|
    ensures |Concat(Incoming(world, bufs, d))| == world[d].recv.bufferSize
    ensures 0 <= world[d].recv.offsets[k] + i < |Concat(Incoming(world, bufs, d))|
    ensures Concat(Incoming(world, bufs, d))[world[d].recv.offsets[k] + i] == bufs[s][world[s].send.offsets[j] + i]
  {
    IncomingLength(world, bufs, d);
    IncomingReceived(world, bufs, d, k, i);
    MessageAt(world, bufs, d, k, i, s, j);
  }

  /** Everything rank `d` receives fills its receive buffer exactly. */
  lemma IncomingLength<T>(world: seq<RankMap>, bufs: seq<seq<T>>, d: int)
    requires Matched(world) && SendsTile(world) && SendBuffersFit(world, bufs) && 0 <= d < |world|
    requires Tiles(world[d].recv)
    ensures |Concat(Incoming(world, bufs, d))| == world[d].recv.bufferSize
  {
    IncomingSized(world, bufs, d);
    MessagesFillAll(world[d].recv, Incoming(world, bufs, d));
  }

  /** The messages rank `d` receives are sized for its receive segments. */
  lemma IncomingSized<T>(world: seq<RankMap>, bufs: seq<seq<T>>, d: int)
    requires Matched(world) && SendsTile(world) && SendBuffersFit(world, bufs) && 0 <= d < |world|
    requires Tiles(world[d].recv)
    ensures SizedFor(world[d].recv, Incoming(world, bufs, d))
  {
  }

  /** Position `offsets[k] + i` of everything rank `d` receives is position `i` of message `k`. */
  lemma IncomingReceived<T>(world: seq<RankMap>, bufs: seq<seq<T>>, d: int, k: int, i: int)
    requires Matched(world) && SendsTile(world) && SendBuffersFit(world, bufs) && 0 <= d < |world|
    requires Tiles(world[d].recv)
    requires 0 <= k < |world[d].recv.peers| && 0 <= i < Upper(world[d].recv, k) - world[d].recv.offsets[k]
    ensures 0 <= world[d].recv.offsets[k] + i < |Concat(Incoming(world, bufs, d))|
    ensures Concat(Incoming(world, bufs, d))[world[d].recv.offsets[k] + i] == Message(world, bufs, d, k)[i]
  {
    var msgs := Incoming(world, bufs, d);
    assert SizedFor(world[d].recv, msgs);
    ReceivedAt(world[d].recv, msgs, k, i);
  }

  /** The cell that receive position `q` names gets what position `q` of everything rank `d` receives holds. */
  lemma DeliveredAt<T>(world: seq<RankMap>, bufs: seq<seq<T>>, data: seq<T>, d: int, q: int)
    requires Matched(world) && SendsTile(world) && SendBuffersFit(world, bufs) && 0 <= d < |world|
    requires Tiles(world[d].recv) && Addresses(world[d].recv, |data|)
    requires Packing.Injective(world[d].recv.idxlist, None, 0, world[d].recv.bufferSize)
    requires 0 <= q < world[d].recv.bufferSize
    ensures 0 <= world[d].recv.idxlist[q] < |data|
    ensures |Concat(Incoming(world, bufs, d))| == world[d].recv.bufferSize
    ensures DeliveredFrom(world, bufs, data, d)[world[d].recv.idxlist[q]] == Concat(Incoming(world, bufs, d))[q]
  {
    var msgs := Incoming(world, bufs, d);
    MessagesFillAll(world[d].recv, msgs);
    UnpackAt(world[d].recv, Concat(msgs), data, q);
  }

  /** Position `i` of message `k` to rank `d` is position `i` of the matched send segment. */
  lemma MessageAt<T>(world: seq<RankMap>, bufs: seq<seq<T>>, d: int, k: int, i: int, s: int, j: int)
    requires Matched(world) && 0 <= d < |world| && |world[d].recv.offsets| == |world[d].recv.peers|
    requires SendsTile(world)
    requires SendBuffersFit(world, bufs)
    requires 0 <= k < |world[d].recv.peers| && 0 <= i < Upper(world[d].recv, k) - world[d].recv.offsets[k]
    requires s == world[d].recv.peers[k] && MatchSend(world[s].send.peers, s, d, |world|) == Some(j)
    ensures 0 <= j < |world[s].send.peers| && 0 <= world[s].send.offsets[j] + i < |bufs[s]|
    ensures Message(world, bufs, d, k)[i] == bufs[s][world[s].send.offsets[j] + i]
  {
    var send := world[s].send;
    assert Pairs(world, s, d, k);
    assert Tiles(send);
    SegmentStep(send, j);
  }

  /** Unpacking through an injective index list puts position `q` into the cell it names. */
  lemma UnpackAt<T>(side: Side, buffer: seq<T>, data: seq<T>, q: int)
    requires |buffer| == side.bufferSize && Addresses(side, |data|)
    requires Packing.Injective(side.idxlist, None, 0, side.bufferSize)
    requires 0 <= q < side.bufferSize
    ensures 0 <= side.idxlist[q] < |data|
    ensures Packing.Unpacked(buffer, data, side.idxlist, None, 0, side.bufferSize)[side.idxlist[q]] == buffer[q]
  {
    Packing.UnpackedInjective(buffer, data, side.idxlist, None, 0, side.bufferSize);
    assert Packing.Cell(side.idxlist, None, q) == side.idxlist[q];
  }
}
