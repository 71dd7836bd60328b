/**
 * The exchange test of the test suite on four ranks: ranks 0 and 1 each
 * own half of the columns of a 4x4 grid and send, ranks 2 and 3 each own
 * half of the rows and receive. Every exchanger kind delivers the same
 * values.
 */
module ExchangeScenario {
  import opened Seqs
  import Packing
  import opened Exchange
  import opened ExchangeWorld
  import opened DeliveredCells

  /** Ranks 0 and 1 send their first four cells to rank 2 and the last four to rank 3. */
  function SendSide(): Side
  {
    Side([2, 3], [0, 4], 8, [0, 1, 2, 3, 4, 5, 6, 7])
  }

  /**
   * Ranks 2 and 3 receive four cells from rank 0, then four from rank 1;
   * each sender contributes two cells of each of the receiver's two rows.
   */
  function RecvSide(): Side
  {
    Side([0, 1], [0, 4], 8, [0, 1, 4, 5, 2, 3, 6, 7])
  }

  function NoSide(): Side
  {
    Side([], [], 0, [])
  }

  function World(): seq<RankMap>
  {
    [RankMap(SendSide(), NoSide()), RankMap(SendSide(), NoSide()),
     RankMap(NoSide(), RecvSide()), RankMap(NoSide(), RecvSide())]
  }

  /** `data[i] = i + 8 * rank` on the senders. */
  function Source(): seq<seq<int>>
  {
    [[0, 1, 2, 3, 4, 5, 6, 7], [8, 9, 10, 11, 12, 13, 14, 15], [], []]
  }

  function Zeros(): seq<int>
  {
    [0, 0, 0, 0, 0, 0, 0, 0]
  }

  /** The receivers' data before the exchange; its values do not matter. */
  function Target(): seq<seq<int>>
  {
    [[], [], Zeros(), Zeros()]
  }

  /** The send buffers before packing. */
  function SendInit(): seq<seq<int>>
  {
    [Zeros(), Zeros(), [], []]
  }

  /** Every receive of the scenario finds its send: rank `s` addresses rank `d` in segment `d - 2`. */
  lemma ScenarioMatched()
    ensures Matched(World())
    ensures forall s, d :: 0 <= s < 2 && 2 <= d < 4 ==> MatchSend(World()[s].send.peers, s, d, 4) == Some(d - 2)
  {
    ScenarioSends();
    ScenarioDistinct();
    ScenarioPairs();
  }

  /** Sender `s` addresses receiver `d` in its segment `d - 2`. */
  lemma ScenarioSends()
    ensures forall s, d :: 0 <= s < 2 && 2 <= d < 4 ==> MatchSend(World()[s].send.peers, s, d, 4) == Some(d - 2)
  {
    forall s, d | 0 <= s < 2 && 2 <= d < 4
      ensures MatchSend(World()[s].send.peers, s, d, 4) == Some(d - 2)
    {
      assert World()[s].send.peers == [2, 3];
      MatchIsPeer([2, 3], s, d, 4);
      assert IndexOf([2, 3], d) == Some(d - 2);
    }
  }

  /** No rank of the scenario names a peer twice. */
  lemma ScenarioDistinct()
    ensures forall r :: 0 <= r < |World()| ==> Distinct(World()[r].send.peers) && Distinct(World()[r].recv.peers)
  {
    var w := World();
    forall r | 0 <= r < 4
      ensures Distinct(w[r].send.peers) && Distinct(w[r].recv.peers)
    {
      assert w[r].send.peers in {[2, 3], []} && w[r].recv.peers in {[0, 1], []};
    }
  }

  /** Receive `k` of a receiver is as long as the sender's segment for it. */
  lemma ScenarioPairs()
    ensures forall d, k :: 0 <= d < |World()| && 0 <= k < |World()[d].recv.peers| ==>
              && |World()[d].recv.offsets| == |World()[d].recv.peers|
              && 0 <= World()[d].recv.peers[k] < |World()|
              && Pairs(World(), World()[d].recv.peers[k], d, k)
  {
    var w := World();
    forall d, k | 0 <= d < 4 && 0 <= k < |w[d].recv.peers|
      ensures |w[d].recv.offsets| == |w[d].recv.peers| && 0 <= w[d].recv.peers[k] < 4 && Pairs(w, w[d].recv.peers[k], d, k)
    {
      ScenarioSends();
      assert w[d].recv == RecvSide() && w[k].send == SendSide();
      assert Upper(RecvSide(), k) - RecvSide().offsets[k] == 4 == Upper(SendSide(), d - 2) - SendSide().offsets[d - 2];
    }
  }

  /** Both sides tile their buffers and address eight-cell data arrays. */
  lemma SidesLaid()
    ensures Tiles(SendSide()) && Addresses(SendSide(), 8)
    ensures Tiles(RecvSide()) && Addresses(RecvSide(), 8)
    ensures Tiles(NoSide()) && Addresses(NoSide(), 0)
  {
    var send, recv := SendSide(), RecvSide();
    assert Upper(send, 0) == 4 && Upper(recv, 0) == 4;
    assert forall j :: 0 <= j < 8 ==> 0 <= send.idxlist[j] < 8;
    assert forall j :: 0 <= j < 8 ==> 0 <= recv.idxlist[j] < 8;
  }

  /** The receivers' index list names every cell once. */
  lemma RecvInjective()
    ensures Packing.Injective(RecvSide().idxlist, None, 0, 8)
  {
    var idx := RecvSide().idxlist;
    forall j, k | 0 <= j < k < 8
      ensures Packing.Cell(idx, None, j) != Packing.Cell(idx, None, k)
    {
      assert Packing.Cell(idx, None, j) == idx[j] && Packing.Cell(idx, None, k) == idx[k];
    }
  }

  /**
   * The scenario's world meets the hypotheses of `DeliveredCell`, so every
   * receiver cell ends with the sender cell its map pairs it with.
   */
  lemma ScenarioLaid()
    ensures SendLaid(World(), Source()) && RecvLaid(World(), Target()) && SendBuffersFit(World(), SendInit())
    ensures Packing.Injective(RecvSide().idxlist, None, 0, 8)
  {
    RecvInjective();
    ScenarioSendLaid();
    ScenarioRecvLaid();
  }

  /** The senders' side of `ScenarioLaid`. */
  lemma ScenarioSendLaid()
    ensures SendLaid(World(), Source()) && SendBuffersFit(World(), SendInit())
  {
    SidesLaid();
    var w := World();
    assert w[0].send == w[1].send == SendSide() && w[2].send == w[3].send == NoSide();
  }

  /** The receivers' side of `ScenarioLaid`. */
  lemma ScenarioRecvLaid()
    ensures RecvLaid(World(), Target())
  {
    SidesLaid();
    var w := World();
    assert w[0].recv == w[1].recv == NoSide() && w[2].recv == w[3].recv == RecvSide();
  }

  /**
   * The test's solutions, step by step: the senders pack their data
   * unchanged, the tags pick segment `d - 2` of each sender for receiver
   * `d`, the messages fill the receive buffer in peer order, and the
   * unpack through `RecvSide().idxlist` puts them into the receivers'
   * rows.
   */
  lemma ExchangeScenario()
    ensures forall s, d :: 0 <= s < 2 && 2 <= d < 4 ==> MatchSend(SendSide().peers, s, d, 4) == Some(d - 2)
    ensures Packing.Packed(Zeros(), Source()[0], SendSide().idxlist, None, 0, 8) == Source()[0]
    ensures Packing.Packed(Zeros(), Source()[1], SendSide().idxlist, None, 0, 8) == Source()[1]
    ensures Packing.Unpacked(Source()[0][..4] + Source()[1][..4], Zeros(), RecvSide().idxlist, None, 0, 8)
            == [0, 1, 8, 9, 2, 3, 10, 11]
    ensures Packing.Unpacked(Source()[0][4..] + Source()[1][4..], Zeros(), RecvSide().idxlist, None, 0, 8)
            == [4, 5, 12, 13, 6, 7, 14, 15]
  {
    ScenarioMatched();
    Packing.PackIdentity(Zeros(), Source()[0], SendSide().idxlist);
    Packing.PackIdentity(Zeros(), Source()[1], SendSide().idxlist);
    RecvInjective();
    ScenarioUnpack([0, 1, 2, 3, 8, 9, 10, 11]);
    assert Source()[0][..4] + Source()[1][..4] == [0, 1, 2, 3, 8, 9, 10, 11];
    ScenarioUnpack([4, 5, 6, 7, 12, 13, 14, 15]);
    assert Source()[0][4..] + Source()[1][4..] == [4, 5, 6, 7, 12, 13, 14, 15];
  }

  /** `solution2` and `solution3` of the test: the values rank `d` must end with. */
  function Solution(d: int): seq<int>
  {
    if d == 2 then [0, 1, 8, 9, 2, 3, 10, 11] else [4, 5, 12, 13, 6, 7, 14, 15]
  }

  /**
   * What the exchange delivers to a receiver of the test's world is the
   * test's solution: the cell position `4 * k + i` of the receive buffer
   * names gets position `i` of the segment for `d` of sender `k`.
   */
  lemma ScenarioDelivered(d: int)
    requires 2 <= d < 4
    ensures SendLaid(World(), Source()) && RecvLaid(World(), Target()) && SendBuffersFit(World(), SendInit())
    ensures Matched(World())
    ensures Delivered(World(), Source(), Target(), SendInit(), d) == Solution(d)
  {
    ScenarioLaid();
    ScenarioMatched();
    var b := 4 * (d - 2);
    CellValue(d, 0, 0, 0, b);
    CellValue(d, 0, 1, 1, b + 1);
    CellValue(d, 0, 2, 4, b + 2);
    CellValue(d, 0, 3, 5, b + 3);
    CellValue(d, 1, 0, 2, 8 + b);
    CellValue(d, 1, 1, 3, 9 + b);
    CellValue(d, 1, 2, 6, 10 + b);
    CellValue(d, 1, 3, 7, 11 + b);
    ListedCells(Delivered(World(), Source(), Target(), SendInit(), d), d);
  }

  /** Eight cells holding, in order, the values the two senders' segments for `d` spell through the receivers' index list. */
  lemma ListedCells(out: seq<int>, d: int)
    requires 2 <= d < 4 && |out| == 8
    requires out[0] == 4 * (d - 2) && out[1] == 4 * (d - 2) + 1 && out[4] == 4 * (d - 2) + 2 && out[5] == 4 * (d - 2) + 3
    requires out[2] == 8 + 4 * (d - 2) && out[3] == 9 + 4 * (d - 2) && out[6] == 10 + 4 * (d - 2) && out[7] == 11 + 4 * (d - 2)
    ensures out == Solution(d)
  {
    if d == 2 {
      assert out == [0, 1, 8, 9, 2, 3, 10, 11];
    } else {
      assert out == [4, 5, 12, 13, 6, 7, 14, 15];
    }
  }

  /**
   * The receivers' index list sends position `4 * k + i` to cell
   * `2 * k + i`, plus 2 for the second pair; that position holds cell
   * `4 * (d - 2) + i` of sender `k`, whose value is `8 * k + 4 * (d - 2) + i`.
   */
  lemma CellValue(d: int, k: int, i: int, cell: int, value: int)
    requires 2 <= d < 4 && 0 <= k < 2 && 0 <= i < 4
    requires cell == 2 * k + i + (if i >= 2 then 2 else 0) && value == 8 * k + 4 * (d - 2) + i
    ensures SendLaid(World(), Source()) && RecvLaid(World(), Target()) && SendBuffersFit(World(), SendInit())
    ensures Matched(World())
    ensures 0 <= cell < 8 && Delivered(World(), Source(), Target(), SendInit(), d)[cell] == value
  {
    ScenarioLaid();
    ScenarioMatched();
    var w := World();
    assert w[d].recv == RecvSide() && w[k].send == SendSide() && w[d].recv.peers[k] == k;
    ScenarioCell(w, Source(), Target(), SendInit(), d, k, i);
    CellNumbers(d, k, i, cell, value);
  }

  /** The cell position `4 * k + i` names, and the value sender `k` holds at `4 * (d - 2) + i`. */
  lemma CellNumbers(d: int, k: int, i: int, cell: int, value: int)
    requires 2 <= d < 4 && 0 <= k < 2 && 0 <= i < 4
    requires cell == 2 * k + i + (if i >= 2 then 2 else 0) && value == 8 * k + 4 * (d - 2) + i
    ensures RecvSide().idxlist[4 * k + i] == cell
    ensures |Source()[k]| == 8 && Source()[k][4 * (d - 2) + i] == value
  {
  }

  /**
   * Cell by cell, in any world whose rank `d` receives like the test's
   * receivers and whose rank `k` sends like its senders: the cell receive
   * position `4 * k + i` names gets position `i` of sender `k`'s segment for `d`.
   */
  lemma ScenarioCell<T>(world: seq<RankMap>, src: seq<seq<T>>, dst: seq<seq<T>>, init: seq<seq<T>>, d: int, k: int, i: int)
    requires SendLaid(world, src) && RecvLaid(world, dst) && SendBuffersFit(world, init) && Matched(world)
    requires 0 <= d < |world| && 0 <= k < |world| && 2 <= d < 4 && 0 <= k < 2 && 0 <= i < 4
    requires world[d].recv == RecvSide() && world[k].send == SendSide() && world[d].recv.peers[k] == k
    requires MatchSend(world[k].send.peers, k, d, |world|) == Some(d - 2)
    ensures 0 <= RecvSide().idxlist[4 * k + i] < |dst[d]| && 4 * (d - 2) + i < |src[k]|
    ensures Delivered(world, src, dst, init, d)[RecvSide().idxlist[4 * k + i]] == src[k][4 * (d - 2) + i]
  {
    RecvInjective();
    SideNumbers(d, k, i);
    DeliveredCell(world, src, dst, init, d, k, i, k, d - 2);
  }

  /** Segment `k` of the receivers and segment `d - 2` of the senders, position `i`. */
  lemma SideNumbers(d: int, k: int, i: int)
    requires 2 <= d < 4 && 0 <= k < 2 && 0 <= i < 4
    ensures Upper(RecvSide(), k) - RecvSide().offsets[k] == 4 && RecvSide().offsets[k] + i == 4 * k + i
    ensures SendSide().offsets[d - 2] + i == 4 * (d - 2) + i
    ensures SendSide().idxlist[4 * (d - 2) + i] == 4 * (d - 2) + i
  {
    var j := 4 * (d - 2) + i;
    assert SendSide().idxlist == [0, 1, 2, 3, 4, 5, 6, 7];
    assert 0 <= j < 8;
  }

  /**
   * One pass of the test's loop over the exchanger kinds: whichever kind,
   * `new_exchanger` succeeds on every rank, since each rank only sends or
   * only receives, and the exchange leaves ranks 2 and 3 with the test's
   * solutions.
   */
  method ScenarioRun(kind: Kind) returns (result: seq<seq<int>>)
    ensures forall r :: 0 <= r < 4 ==> NewExchanger(World()[r].send, World()[r].recv, kind).Success?
    ensures |result| == 4 && result[2] == Solution(2) && result[3] == Solution(3)
  {
    var w := World();
    var exchangers := [];
    var r := 0;
    while r < 4
      invariant 0 <= r <= 4 && |exchangers| == r
      invariant forall q :: 0 <= q < r ==> NewExchanger(w[q].send, w[q].recv, kind) == Success(exchangers[q])
    {
      assert |w[r].send.peers| == 0 || |w[r].recv.peers| == 0;
      var ex := NewExchanger(w[r].send, w[r].recv, kind);
      exchangers := exchangers + [ex.value];
      r := r + 1;
    }
    ScenarioDelivered(2);
    ScenarioDelivered(3);
    var recvInit := [[], [], Zeros(), Zeros()];
    ScenarioStaging(kind, exchangers, recvInit);
    result := GoAll(kind, w, exchangers, Source(), Target(), SendInit(), recvInit);
  }

  /** The exchangers of the test's world stage buffers of eight cells on the side each rank uses, none on the other. */
  lemma ScenarioStaging(kind: Kind, exchangers: seq<Exchanger>, recvInit: seq<seq<int>>)
    requires |exchangers| == 4 && recvInit == [[], [], Zeros(), Zeros()]
    requires forall q :: 0 <= q < 4 ==> NewExchanger(World()[q].send, World()[q].recv, kind) == Success(exchangers[q])
    ensures forall r :: 0 <= r < 4 ==>
              |SendInit()[r]| == exchangers[r].send.bufferSize && |recvInit[r]| == exchangers[r].recv.bufferSize
  {
    forall r | 0 <= r < 4
      ensures |SendInit()[r]| == exchangers[r].send.bufferSize && |recvInit[r]| == exchangers[r].recv.bufferSize
    {
      var m := World()[r];
      assert NewExchanger(m.send, m.recv, kind) == Success(exchangers[r]);
      assert exchangers[r].send.bufferSize == m.send.bufferSize && exchangers[r].recv.bufferSize == m.recv.bufferSize;
    }
  }

  /** Unpacking through `RecvSide().idxlist` swaps the middle two pairs. */
  lemma ScenarioUnpack(buffer: seq<int>)
    requires |buffer| == 8
    ensures Packing.Fits(8, 8, RecvSide().idxlist, None, 0, 8)
    ensures Packing.Unpacked(buffer, Zeros(), RecvSide().idxlist, None, 0, 8)
            == [buffer[0], buffer[1], buffer[4], buffer[5], buffer[2], buffer[3], buffer[6], buffer[7]]
  {
    SidesLaid();
    RecvInjective();
    var idx := RecvSide().idxlist;
    var out := Packing.Unpacked(buffer, Zeros(), idx, None, 0, 8);
    assert forall c :: 0 <= c < 8 ==> out[c] == buffer[idx[c]] by {
      Packing.UnpackedInjective(buffer, Zeros(), idx, None, 0, 8);
      forall q | 0 <= q < 8
        ensures out[idx[q]] == buffer[q]
      {
        assert Packing.Cell(idx, None, q) == idx[q];
      }
      RecvSelfInverse();
      SelfInverse(out, buffer, idx);
    }
    assert |out| == 8;
    SwapMiddle(out, buffer);
  }

  /** Cell by cell, `out` reads `buffer` with the middle two pairs swapped. */
  lemma SwapMiddle(out: seq<int>, buffer: seq<int>)
    requires |out| == |buffer| == 8
    requires forall c :: 0 <= c < 8 ==> out[c] == buffer[RecvSide().idxlist[c]]
    ensures out == [buffer[0], buffer[1], buffer[4], buffer[5], buffer[2], buffer[3], buffer[6], buffer[7]]
  {
    var idx := RecvSide().idxlist;
    assert idx == [0, 1, 4, 5, 2, 3, 6, 7];
    assert out[0] == buffer[0] && out[1] == buffer[1] && out[2] == buffer[4] && out[3] == buffer[5];
    assert out[4] == buffer[2] && out[5] == buffer[3] && out[6] == buffer[6] && out[7] == buffer[7];
  }

  /** The receivers' index list swaps cells 2, 3 with cells 4, 5, so it is its own inverse. */
  lemma RecvSelfInverse()
    ensures forall q :: 0 <= q < 8 ==> 0 <= RecvSide().idxlist[q] < 8 && RecvSide().idxlist[RecvSide().idxlist[q]] == q
  {
    var idx := RecvSide().idxlist;
    assert idx == [0, 1, 4, 5, 2, 3, 6, 7];
    forall q | 0 <= q < 8
      ensures 0 <= idx[q] < 8 && idx[idx[q]] == q
    {
      assert q == 0 || q == 1 || q == 2 || q == 3 || q == 4 || q == 5 || q == 6 || q == 7;
    }
  }

  /**
   * Reading back through an index list that is its own inverse: when cell
   * `idx[q]` holds `buffer[q]`, cell `c` holds `buffer[idx[c]]`.
   */
  lemma SelfInverse(out: seq<int>, buffer: seq<int>, idx: seq<int>)
    requires |out| == |buffer| == |idx|
    requires forall q :: 0 <= q < |idx| ==> 0 <= idx[q] < |idx| && idx[idx[q]] == q
    requires forall q :: 0 <= q < |idx| ==> out[idx[q]] == buffer[q]
    ensures forall c :: 0 <= c < |idx| ==> out[c] == buffer[idx[c]]
  {
    forall c | 0 <= c < |idx|
      ensures out[c] == buffer[idx[c]]
    {
      assert out[idx[idx[c]]] == buffer[idx[c]];
    }
  }
}
