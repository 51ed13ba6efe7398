/** Runs in which the code departs from its intent, event by event from the start. */
module Runs {
  import opened Wrappers
  import opened Transcoder
  import opened Layout
  import opened Wire
  import opened Protocol
  import opened Swarm
  import opened Unchanged
  import opened LedgerInvariant
  import opened Dialling
  import opened Reassembly
  import opened Conservation
  import Replies
  import Bitfields

  // ---------- the pieces of a run ----------

  /** The arrival of a message from peer 0. */
  function From(msg: Msg, heap: seq<byte>): Event {
    Arrived(0, Frame(Id(msg), Payload(msg)), heap)
  }

  lemma ShortSendable(msg: Msg)
    requires !msg.Bitfield? && !msg.Block?
    ensures Sendable(msg)
  {
  }

  lemma FromArrives(m: Meta, w: World, msg: Msg, heap: seq<byte>)
    requires w.peers != [] && w.peers[0].stage.Talking? && Sendable(msg)
    requires msg.Request? ==> msg.index < |w.pieces|
    ensures Enabled(w, From(msg, heap))
    ensures Step(m, w, From(msg, heap)) == OnMessage(m, Put(w, 0, Receive(w.peers[0], msg)), 0, msg, heap)
  {
    hide Decode, Payload, OnMessage;
    DecodeEncoded(msg);
  }

  lemma OneMoreEvent(m: Meta, ws: seq<World>, es: seq<Event>, e: Event) returns (ws': seq<World>, es': seq<Event>)
    requires IsRun(m, ws, es) && |ws| == |es| + 1 && Enabled(ws[|es|], e)
    ensures ws' == ws + [Step(m, ws[|es|], e)] && es' == es + [e] && IsRun(m, ws', es')
  {
    hide Step, Enabled;
    ws', es' := ws + [Step(m, ws[|es|], e)], es + [e];
    assert ws'[0] == ws[0];
    forall k | 0 <= k < |es'| ensures Enabled(ws'[k], es'[k]) && ws'[k + 1] == Step(m, ws'[k], es'[k]) {
      assert k < |es| ==> Enabled(ws[k], es[k]) && ws[k + 1] == Step(m, ws[k], es[k]);
    }
  }

  /** A first peer has connected to us. */
  function Met(m: Meta, file: seq<byte>): World {
    var w := Start(m, file);
    var s := NewPeer(1, true).(stage := Talking, log := [Sent(Bitfield(Bitfields.RawBitfield(w.bitfield)))]);
    w.(peers := [s], active := [0])
  }

  lemma Meeting(m: Meta, file: seq<byte>) returns (ws: seq<World>)
    ensures IsRun(m, ws, [Accepted(1), Handshaken(0)]) && |ws| == 3 && ws[0] == Start(m, file) && ws[2] == Met(m, file)
  {
    hide Bitfields.RawBitfield;
    var es := [Accepted(1), Handshaken(0)];
    var w1 := Step(m, Start(m, file), es[0]);
    var w2 := Step(m, w1, es[1]);
    var greeting := Bitfield(Bitfields.RawBitfield(w1.bitfield));
    assert [] + Outgoing([greeting]) == [Sent(greeting)];
    assert w2.peers == Met(m, file).peers;
    assert w2.active == [0];
    assert w2.blackListed == {};
    ws := [Start(m, file), w1, w2];
  }

  /** The bitfield of a peer that has piece 0 only. */
  function Offer(): Msg {
    Bitfield(Bitfields.RawBitfield([true]))
  }

  lemma OfferOfZero(n: nat)
    requires 0 < n
    ensures Sendable(Offer())
    ensures forall x: nat :: x in Bitfields.Indices(Offer().raw, n) <==> x == 0
  {
    hide Bitfields.RawBitfield, Bitfields.BitAt, Bitfields.Indices;
    Bitfields.RawBit([true], 0);
    forall x: nat ensures x in Bitfields.Indices(Offer().raw, n) <==> x == 0 {
      Bitfields.IndicesExactly(Offer().raw, n, x);
      if x < 8 {
        Bitfields.RawBit([true], x);
      }
    }
  }

  /** Nothing has been requested yet of a peer that has nothing in flight. */
  predicate Untouched(m: Meta, w: World) {
    && |w.peers| == 1 && w.peers[0].stage.Talking? && w.peers[0].has == [] && w.peers[0].queue == []
    && w.pieces == seq(|m.hashes|, _ => Piece(false, 0)) && w.completed == 0
  }

  /** The peer offers piece 0, and it is started. */
  function Offered(m: Meta, w: World): World
    requires Untouched(m, w) && 0 < |w.pieces|
  {
    var log, has := w.peers[0].log + [Received(Offer())], Bitfields.Indices(Offer().raw, |m.hashes|);
    var s := w.peers[0].(log := log, has := has);
    Put(w, 0, StartPiece(m, s, 0)).(pieces := RaisePriority(w.pieces, 0))
  }

  lemma Offering(m: Meta, w: World)
    requires Untouched(m, w)
    ensures 0 < |w.pieces|
    ensures Enabled(w, From(Offer(), [])) && Step(m, w, From(Offer(), [])) == Offered(m, w)
  {
    hide StartPiece, Bitfields.Indices, Offer, Step, Enabled, Sendable, From;
    DivisionBounds(m.totalSize, m.pieceLength, |m.hashes|);
    OfferIs();
    OfferOfZero(|m.hashes|);
    FromArrives(m, w, Offer(), []);
    var has := Bitfields.Indices(Offer().raw, |m.hashes|);
    assert [] + has == has;
    FirstUnrequested(w.pieces, has, 0);
  }

  lemma OfferIs()
    ensures Offer().Bitfield?
  {
  }

  // ---------- a wrapped range ----------

  lemma FillsOneSlot(m: Meta, piece: seq<byte>)
    requires 0 < |piece| == PieceSize(m, 0) <= MAX_BLOCK_REQUEST_SIZE
    ensures |FreshInFlight(m, 0).slots| == 1
    ensures var q := Fill(FreshInFlight(m, 0), 0, piece); q.haveBlocks == |q.slots| == 1 && Gather(q.slots) == piece
  {
    var q := Fill(FreshInFlight(m, 0), 0, piece);
    assert SlotData(q.slots) == [piece];
    assert [piece][..0] == [] && Flatten([piece]) == [] + piece;
  }

  lemma BlockKeepsStage(m: Meta, w: World, begin: u32, data: seq<byte>)
    requires w.peers != [] && w.peers[0].stage.Talking? && |data| <= MAX_BLOCK_REQUEST_SIZE
    requires First(w.peers[0].queue, 0).Some?
    requires begin / MAX_BLOCK_REQUEST_SIZE < |First(w.peers[0].queue, 0).value.slots|
    ensures var w' := OnBlock(m, w, 0, 0, begin, data); w'.peers != [] && w'.peers[0].stage.Talking?
  {
    hide Assemble, Cancels, Fill, FindActive, RawIp;
    var queue, k := w.peers[0].queue, FindPiece(w.peers[0].queue, 0).value;
    Replies.AssembleKeepsStage(
      m, WithQueue(w, 0, queue[k := Fill(queue[k], begin / MAX_BLOCK_REQUEST_SIZE, data)]), 0, k);
  }

  /** A piece of one block comes in. */
  lemma PieceTaken(m: Meta, content: seq<byte>, w: World)
    requires Hashed(m, content) && 0 < |m.hashes| && 0 < PieceSize(m, 0) <= MAX_BLOCK_REQUEST_SIZE
    requires BookOk(m, w) && !Done(w.pieces, 0)
    requires w.peers != [] && w.peers[0].stage.Talking? && First(w.peers[0].queue, 0) == Some(FreshInFlight(m, 0))
    ensures var e := From(Block(0, 0, PieceOf(m, content, 0)), []);
      && Enabled(w, e)
      && var w' := Step(m, w, e);
         && Done(w'.pieces, 0) && w'.file == WriteAt(w.file, 0, PieceOf(m, content, 0))
         && w'.peers != [] && w'.peers[0].stage.Talking?
  {
    var piece := PieceOf(m, content, 0);
    var msg := Block(0, 0, piece);
    var e := From(msg, []);
    hide Step, Enabled, Decode, Assembled, PieceOf, PieceSize, WriteAt, BookOk, Gather, FreshInFlight, Fill, OnBlock,
      First;
    FillsOneSlot(m, piece);
    FromArrives(m, w, msg, []);
    DecodeEncoded(msg);
    BlockFirst(m, w, e, 0);
    StepBooked(m, w, e);
    BlockKeepsStage(m, Put(w, 0, Receive(w.peers[0], msg)), 0, piece);
  }

  /** The peer shows interest and is unchoked. */
  lemma Interest(m: Meta, w: World)
    requires w.peers != [] && w.peers[0].stage.Talking?
    ensures var e := From(Interested, []);
      && Enabled(w, e)
      && var w' := Step(m, w, e);
         && w' == w.(peers := w'.peers) && |w'.peers| == |w.peers|
         && w'.peers[0].stage.Talking? && w'.peers[0].peerInterested && !w'.peers[0].amChoking
  {
  }

  /** The bytes that a read of two at 2^32 - 1 gives, short or not. */
  function TwoBytes(file: seq<byte>, heap: seq<byte>): seq<byte>
    requires TWO32 <= |file|
  {
    [file[TWO32 - 1], if TWO32 < |file| then file[TWO32] else if 1 < |heap| then heap[1] else 0]
  }

  lemma ReadsTwoBytes(file: seq<byte>, heap: seq<byte>)
    requires TWO32 <= |file|
    ensures var got := ReadAt(file, TWO32 - 1, 2); got != [] && BlockBuffer(got, 2, heap) == TwoBytes(file, heap)
  {
  }

  lemma FarBytesStay(file: seq<byte>, piece: seq<byte>, heap: seq<byte>)
    requires TWO32 <= |file| && |piece| <= MAX_BLOCK_REQUEST_SIZE
    ensures |WriteAt(file, 0, piece)| == |file|
    ensures TwoBytes(WriteAt(file, 0, piece), heap) == TwoBytes(file, heap)
  {
  }

  /** Two bytes at 2^32 - 1: the end wraps to 1. */
  lemma WrappedAnswer(m: Meta, w: World, heap: seq<byte>)
    requires Done(w.pieces, 0) && TWO32 <= |w.file| && 0 < PieceSize(m, 0)
    requires w.peers != [] && w.peers[0].stage.Talking? && w.peers[0].peerInterested && !w.peers[0].amChoking
    ensures var e, s := From(Request(0, TWO32 - 1, 2), heap), w.peers[0];
      && Enabled(w, e)
      && Step(m, w, e).peers != []
      && Step(m, w, e).peers[0].log
         == s.log + [Received(Request(0, TWO32 - 1, 2)), Sent(Block(0, TWO32 - 1, TwoBytes(w.file, heap)))]
  {
    hide Step, Enabled, From, PieceSize, ReadAt, BlockBuffer, TwoBytes;
    var msg, answer := Request(0, TWO32 - 1, 2), Block(0, TWO32 - 1, TwoBytes(w.file, heap));
    FromArrives(m, w, msg, heap);
    ReadsTwoBytes(w.file, heap);
    assert Outgoing([answer]) == [Sent(answer)];
    assert [Received(msg)] + [Sent(answer)] == [Received(msg), Sent(answer)];
  }

  lemma OfferedState(m: Meta, w: World)
    requires Untouched(m, w) && 0 < |w.pieces|
    ensures var w' := Offered(m, w);
      && w'.file == w.file && !Done(w'.pieces, 0) && |w'.peers| == 1 && w'.peers[0].stage.Talking?
      && First(w'.peers[0].queue, 0) == Some(FreshInFlight(m, 0))
  {
  }

  lemma MetUntouched(m: Meta, file: seq<byte>)
    ensures Untouched(m, Met(m, file)) && Met(m, file).file == file && 0 < |m.hashes| == |Met(m, file).pieces|
    ensures 0 < PieceSize(m, 0)
  {
  }

  /** A peer has connected, offered and sent piece 0. */
  lemma FirstPiece(m: Meta, content: seq<byte>, file: seq<byte>) returns (ws: seq<World>, es: seq<Event>)
    requires Hashed(m, content) && PieceSize(m, 0) <= MAX_BLOCK_REQUEST_SIZE
    ensures 0 < |m.hashes|
    ensures es == [Accepted(1), Handshaken(0), From(Offer(), []), From(Block(0, 0, PieceOf(m, content, 0)), [])]
    ensures IsRun(m, ws, es) && |ws| == 5 && ws[0] == Start(m, file)
    ensures ws[4].file == WriteAt(file, 0, PieceOf(m, content, 0))
    ensures Done(ws[4].pieces, 0) && ws[4].peers != [] && ws[4].peers[0].stage.Talking?
  {
    MetUntouched(m, file);
    hide Step, Enabled, From, Offer, PieceOf, PieceSize, WriteAt, FreshInFlight, Offered, Met, Untouched, IsRun,
      Start, Done, First;
    ws := Meeting(m, file);
    es := [Accepted(1), Handshaken(0)];
    Offering(m, ws[2]);
    OfferedState(m, ws[2]);
    ws, es := OneMoreEvent(m, ws, es, From(Offer(), []));
    RunBooked(m, ws, es, 3);
    PieceTaken(m, content, ws[3]);
    ws, es := OneMoreEvent(m, ws, es, From(Block(0, 0, PieceOf(m, content, 0)), []));
  }

  /** A range whose end wraps is answered, from the start: over a file of at least 2^32 bytes, a peer connects, offers
      and sends piece 0, shows interest, and asks for two bytes at 2^32 - 1, far behind the piece. It gets what lies
      in the file there; and if the file ends between the two, the second byte is whatever the heap held. */
  lemma WrappedRangeAnswered(m: Meta, content: seq<byte>, file: seq<byte>, heap: seq<byte>)
    returns (ws: seq<World>, es: seq<Event>)
    requires Hashed(m, content) && PieceSize(m, 0) <= MAX_BLOCK_REQUEST_SIZE && TWO32 <= |file|
    ensures 0 < |m.hashes|
    ensures es == [Accepted(1), Handshaken(0), From(Offer(), []), From(Block(0, 0, PieceOf(m, content, 0)), []),
                   From(Interested, []), From(Request(0, TWO32 - 1, 2), heap)]
    ensures IsRun(m, ws, es) && |ws| == 7 && ws[0] == Start(m, file) && ws[6].peers != []
    ensures var log := ws[6].peers[0].log;
      && 2 <= |log| && log[|log| - 2] == Received(Request(0, TWO32 - 1, 2))
      && log[|log| - 1] == Sent(Block(0, TWO32 - 1, TwoBytes(file, heap)))
  {
    MetUntouched(m, file);
    hide Step, Enabled, From, Offer, PieceOf, PieceSize, WriteAt, IsRun, Start, Done, TwoBytes;
    ws, es := FirstPiece(m, content, file);
    Interest(m, ws[4]);
    ws, es := OneMoreEvent(m, ws, es, From(Interested, []));
    FirstPieceSize(m, content);
    FarBytesStay(file, PieceOf(m, content, 0), heap);
    WrappedAnswer(m, ws[5], heap);
    ws, es := OneMoreEvent(m, ws, es, From(Request(0, TWO32 - 1, 2), heap));
  }

  lemma FirstPieceSize(m: Meta, content: seq<byte>)
    requires Hashed(m, content) && 0 < |m.hashes|
    ensures |PieceOf(m, content, 0)| == PieceSize(m, 0)
  {
  }

  /** A byte of the heap goes out: over a file of 2^32 bytes, two runs that differ in what the heap held when the last
      request was served, and in nothing else that comes in, differ in the block that is sent. */
  lemma HeapByteSent(m: Meta, content: seq<byte>, file: seq<byte>, heap: seq<byte>, heap': seq<byte>)
    returns (ws: seq<World>, ws': seq<World>, es: seq<Event>, es': seq<Event>)
    requires Hashed(m, content) && PieceSize(m, 0) <= MAX_BLOCK_REQUEST_SIZE && |file| == TWO32
    requires 1 < |heap| && 1 < |heap'| && heap[1] != heap'[1]
    ensures IsRun(m, ws, es) && IsRun(m, ws', es') && |es| == |es'| == 6 && |ws| == |ws'| == 7 && ws[0] == ws'[0]
    ensures es[..5] == es'[..5] && es[5].Arrived? && es'[5] == es[5].(heap := heap') && es[5].heap == heap
    ensures ws[6].peers != [] && ws'[6].peers != []
    ensures var log, log' := ws[6].peers[0].log, ws'[6].peers[0].log;
      log != [] && log' != [] && Last(log).Sent? && Last(log').Sent? && Last(log) != Last(log')
  {
    hide IsRun, Start, Offer, Payload;
    ws, es := WrappedRangeAnswered(m, content, file, heap);
    ws', es' := WrappedRangeAnswered(m, content, file, heap');
    assert TwoBytes(file, heap)[1] != TwoBytes(file, heap')[1];
  }

  // ---------- a repeated block ----------

  lemma Choking(m: Meta, w: World)
    requires w.peers != [] && w.peers[0].stage.Talking?
    ensures var e, s := From(Choke, []), w.peers[0];
      && Enabled(w, e)
      && Step(m, w, e) == Put(w, 0, s.(log := s.log + [Received(Choke)], peerChoking := true))
  {
  }

  /** Everything in flight is requested, again if need be. */
  lemma Unchoking(m: Meta, w: World)
    requires w.peers != [] && w.peers[0].stage.Talking?
    ensures var e, s := From(Unchoke, []), w.peers[0];
      var log := s.log + [Received(Unchoke)] + Outgoing(QueueRequests(m, s.queue));
      && Enabled(w, e)
      && Step(m, w, e) == Put(w, 0, s.(log := log, peerChoking := false))
  {
  }

  /** A block that is not the last by the count. */
  lemma Storing(m: Meta, w: World, data: seq<byte>)
    requires w.peers != [] && w.peers[0].stage.Talking? && 1 <= |data| <= MAX_BLOCK_REQUEST_SIZE && !Done(w.pieces, 0)
    requires var queue := w.peers[0].queue;
      |queue| == 1 && queue[0].index == 0 && 0 < |queue[0].slots| && queue[0].haveBlocks + 1 != |queue[0].slots|
    ensures var e, s := From(Block(0, 0, data), []), w.peers[0];
      var log := s.log + [Received(Block(0, 0, data))];
      && Enabled(w, e)
      && Step(m, w, e) == Put(w, 0, s.(log := log, queue := [Fill(s.queue[0], 0, data)]))
  {
    hide Step, Enabled, From, Fill, Assemble, Cancels;
    FromArrives(m, w, Block(0, 0, data), []);
    var queue := w.peers[0].queue;
    FillKeeps(queue[0], 0, data);
    assert FindPiece(queue, 0) == Some(0);
    assert queue[0 := Fill(queue[0], 0, data)] == [Fill(queue[0], 0, data)];
  }

  /** What the peer offers is requested at once when it does not choke us. */
  lemma OfferedLog(m: Meta, w: World)
    requires Untouched(m, w) && 0 < |w.pieces| && !w.peers[0].peerChoking
    ensures var w' := Offered(m, w);
      && w' == w.(peers := w'.peers, pieces := w'.pieces) && |w'.peers| == 1
      && w'.peers[0].stage.Talking? && w'.peers[0].queue == [FreshInFlight(m, 0)]
      && !Done(w'.pieces, 0)
      && w'.peers[0].log
         == w.peers[0].log + [Received(Offer())] + Outgoing([Interested]) + Outgoing(Requests(m, 0))
  {
  }

  lemma TwoSlots(m: Meta, content: seq<byte>)
    requires |content| == m.totalSize && 0 < |m.hashes|
    requires MAX_BLOCK_REQUEST_SIZE < PieceSize(m, 0) <= 2 * MAX_BLOCK_REQUEST_SIZE
    ensures SlotCount(m, 0) == |FreshInFlight(m, 0).slots| == 2
    ensures |Cut(PieceOf(m, content, 0))| == 2 && |Cut(PieceOf(m, content, 0))[0]| == MAX_BLOCK_REQUEST_SIZE
    ensures IsHonest(m, content, Block(0, 0, Cut(PieceOf(m, content, 0))[0]), 0, 0)
    ensures Sendable(Block(0, 0, Cut(PieceOf(m, content, 0))[0]))
  {
  }

  /** Piece 0, of two blocks, has just been requested of the only peer. */
  ghost predicate Requested(m: Meta, w: World) {
    && |w.peers| == 1 && w.peers[0].stage.Talking? && w.peers[0].queue == [FreshInFlight(m, 0)]
    && |FreshInFlight(m, 0).slots| == 2 && !Done(w.pieces, 0) && w.hashMisses == 0
  }

  lemma RequestedFirst(m: Meta, w: World)
    requires Requested(m, w)
    ensures First(w.peers[0].queue, 0) == Some(FreshInFlight(m, 0))
  {
  }

  /** A peer unchokes us and offers piece 0. */
  lemma Asked(m: Meta, content: seq<byte>) returns (ws: seq<World>, es: seq<Event>)
    requires |content| == m.totalSize && MAX_BLOCK_REQUEST_SIZE < PieceSize(m, 0) <= 2 * MAX_BLOCK_REQUEST_SIZE
    ensures es == [Accepted(1), Handshaken(0), From(Unchoke, []), From(Offer(), [])]
    ensures IsRun(m, ws, es) && |ws| == 5 && Requested(m, ws[4]) && |ws[2].peers| == 1
    ensures ws[4].peers[0].log
      == ws[2].peers[0].log + [Received(Unchoke)] + [Received(Offer())] + Outgoing([Interested])
         + Outgoing(Requests(m, 0))
  {
    MetUntouched(m, []);
    TwoSlots(m, content);
    hide Step, Enabled, From, Offer, PieceOf, PieceSize, FreshInFlight, Offered, IsRun, Requests, Cut;
    ws := Meeting(m, []);
    es := [Accepted(1), Handshaken(0)];
    Unchoking(m, ws[2]);
    assert Outgoing(QueueRequests(m, [])) == [];
    ws, es := OneMoreEvent(m, ws, es, From(Unchoke, []));
    Offering(m, ws[3]);
    OfferedLog(m, ws[3]);
    ws, es := OneMoreEvent(m, ws, es, From(Offer(), []));
  }

  /** A block, CHOKE and UNCHOKE: the whole piece is requested once more. */
  lemma AskedAgain(m: Meta, w: World, data: seq<byte>) returns (w1: World, w2: World, w3: World)
    requires Requested(m, w) && 1 <= |data| <= MAX_BLOCK_REQUEST_SIZE
    ensures Enabled(w, From(Block(0, 0, data), [])) && w1 == Step(m, w, From(Block(0, 0, data), []))
    ensures Enabled(w1, From(Choke, [])) && w2 == Step(m, w1, From(Choke, []))
    ensures Enabled(w2, From(Unchoke, [])) && w3 == Step(m, w2, From(Unchoke, []))
    ensures w1 == w.(peers := w1.peers) && w2 == w.(peers := w2.peers) && w3 == w.(peers := w3.peers)
    ensures |w1.peers| == |w2.peers| == |w3.peers| == 1 && w3.peers[0].stage.Talking?
    ensures w3.peers[0].log == w.peers[0].log + [Received(Block(0, 0, data))] + [Received(Choke)] + [Received(Unchoke)]
                               + Outgoing(Requests(m, 0))
  {
    FreshIndex(m);
    hide Step, Enabled, From, FreshInFlight, Requests, Fill;
    Storing(m, w, data);
    w1 := Step(m, w, From(Block(0, 0, data), []));
    Choking(m, w1);
    w2 := Step(m, w1, From(Choke, []));
    Unchoking(m, w2);
    w3 := Step(m, w2, From(Unchoke, []));
    var q := Fill(FreshInFlight(m, 0), 0, data);
    FillKeeps(FreshInFlight(m, 0), 0, data);
    assert [q][..0] == [] && QueueRequests(m, [q]) == [] + Requests(m, 0);
  }

  lemma FreshIndex(m: Meta)
    ensures FreshInFlight(m, 0).index == 0 && FreshInFlight(m, 0).haveBlocks == 0
  {
  }

  /** Three events of a delivery: a block, CHOKE, UNCHOKE. */
  lemma DeliveredOnce(m: Meta, content: seq<byte>, ws: seq<World>, es: seq<Event>, data: seq<byte>)
    requires |content| == m.totalSize && 0 < |m.hashes|
    requires 7 <= |es| < |ws| && es[4..7] == [From(Block(0, 0, data), []), From(Choke, []), From(Unchoke, [])]
    requires forall k | 4 <= k < 8 :: |ws[k].peers| == 1 && !Done(ws[k].pieces, 0)
    requires IsHonest(m, content, Block(0, 0, data), 0, 0) && Sendable(Block(0, 0, data))
    ensures Delivers(m, content, ws, es, 0, 0, 4, 7, [0])
  {
    hide Decode, IsHonest, Payload;
    ShortSendable(Choke);
    ShortSendable(Unchoke);
    DecodeEncoded(Choke);
    DecodeEncoded(Unchoke);
    DecodeEncoded(Block(0, 0, data));
    assert es[4] == es[4..7][0] && es[5] == es[4..7][1] && es[6] == es[4..7][2];
    assert !IsBlockFor(es[6], 0, 0) && !IsBlockFor(es[5], 0, 0) && IsBlockFor(es[4], 0, 0);
    assert [0][..0] == [];
    assert Delivers(m, content, ws, es, 0, 0, 4, 4, []);
    assert Delivers(m, content, ws, es, 0, 0, 4, 5, [0]);
    assert Delivers(m, content, ws, es, 0, 0, 4, 6, [0]);
  }

  lemma IsTheBlock(m: Meta, content: seq<byte>, data: seq<byte>)
    requires |content| == m.totalSize && 0 < |m.hashes|
    requires IsHonest(m, content, Block(0, 0, data), 0, 0) && Sendable(Block(0, 0, data))
    ensures var e := From(Block(0, 0, data), []);
      IsBlockFor(e, 0, 0) && IsHonest(m, content, Decode(e.frame).msg, 0, 0)
  {
  }

  /** The run up to the second request of the piece. */
  lemma TwiceAsked(m: Meta, content: seq<byte>, data: seq<byte>) returns (ws: seq<World>, es: seq<Event>)
    requires |content| == m.totalSize && MAX_BLOCK_REQUEST_SIZE < PieceSize(m, 0) <= 2 * MAX_BLOCK_REQUEST_SIZE
    requires 1 <= |data| <= MAX_BLOCK_REQUEST_SIZE
    ensures es == [Accepted(1), Handshaken(0), From(Unchoke, []), From(Offer(), [])]
      + [From(Block(0, 0, data), []), From(Choke, []), From(Unchoke, [])]
    ensures IsRun(m, ws, es) && |ws| == 8 && |ws[2].peers| == 1
    ensures First(ws[4].peers[0].queue, 0) == Some(FreshInFlight(m, 0))
    ensures forall k | 4 <= k < 8 :: |ws[k].peers| == 1 && !Done(ws[k].pieces, 0) && ws[k].hashMisses == 0
    ensures ws[7].peers[0].stage.Talking?
    ensures ws[7].peers[0].log
      == ws[2].peers[0].log + [Received(Unchoke)] + [Received(Offer())] + Outgoing([Interested])
         + Outgoing(Requests(m, 0)) + [Received(Block(0, 0, data))] + [Received(Choke)] + [Received(Unchoke)]
         + Outgoing(Requests(m, 0))
  {
    hide Step, Enabled, From, Offer, PieceSize, FreshInFlight, IsRun, Requests;
    ws, es := Asked(m, content);
    RequestedFirst(m, ws[4]);
    var w1, w2, w3 := AskedAgain(m, ws[4], data);
    ws, es := OneMoreEvent(m, ws, es, From(Block(0, 0, data), []));
    ws, es := OneMoreEvent(m, ws, es, From(Choke, []));
    ws, es := OneMoreEvent(m, ws, es, From(Unchoke, []));
  }

  /** The second copy of the first block of two is the last by the count. */
  lemma SecondCopy(m: Meta, content: seq<byte>, ws: seq<World>, es: seq<Event>, data: seq<byte>)
    requires Genuine(m, content) && 0 < |m.hashes| && PieceSize(m, 0) < TWO32 && SlotCount(m, 0) == 2
    requires IsRun(m, ws, es) && |ws| == 9 && |es| == 8
    requires es[4..7] == [From(Block(0, 0, data), []), From(Choke, []), From(Unchoke, [])]
    requires es[7] == From(Block(0, 0, data), [])
    requires forall k | 4 <= k < 8 :: |ws[k].peers| == 1 && !Done(ws[k].pieces, 0)
    requires First(ws[4].peers[0].queue, 0) == Some(FreshInFlight(m, 0))
    requires IsHonest(m, content, Block(0, 0, data), 0, 0) && Sendable(Block(0, 0, data))
    ensures ws[8].hashMisses == ws[7].hashMisses + 1 && !Done(ws[8].pieces, 0)
  {
    hide From, IsRun, IsHonest, Sendable, First, Delivers, SlotCount, FreshInFlight, Done, PieceSize, PieceOf, Cut;
    DeliveredOnce(m, content, ws, es, data);
    IsTheBlock(m, content, data);
    LastBlockDecides(m, content, ws, es, 0, 0, 4, 7, [0], 0);
  }

  /** A peer that answers every REQUEST once makes us throw a piece away: our UNCHOKE handler asks again for what is
      already stored, so the first block of two comes twice, each time in answer to a request of its own; the count
      reaches two, and the piece fails its check. */
  lemma RepeatedBlock(m: Meta, content: seq<byte>) returns (ws: seq<World>, es: seq<Event>, data: seq<byte>)
    requires Genuine(m, content)
    requires MAX_BLOCK_REQUEST_SIZE < PieceSize(m, 0) <= 2 * MAX_BLOCK_REQUEST_SIZE
    ensures 0 < |m.hashes| && 0 < |Cut(PieceOf(m, content, 0))| && data == Cut(PieceOf(m, content, 0))[0]
    ensures es == [Accepted(1), Handshaken(0), From(Unchoke, []), From(Offer(), [])]
      + [From(Block(0, 0, data), []), From(Choke, []), From(Unchoke, []), From(Block(0, 0, data), [])]
    ensures IsRun(m, ws, es) && |ws| == 9 && |ws[2].peers| == |ws[7].peers| == 1
    ensures ws[7].peers[0].log
      == ws[2].peers[0].log + [Received(Unchoke)] + [Received(Offer())] + Outgoing([Interested])
         + Outgoing(Requests(m, 0)) + [Received(Block(0, 0, data))] + [Received(Choke)] + [Received(Unchoke)]
         + Outgoing(Requests(m, 0))
    ensures |Requests(m, 0)| == 2 && Requests(m, 0)[0] == Request(0, 0, |data|)
    ensures ws[7].hashMisses == 0 && ws[8].hashMisses == 1 && !Done(ws[8].pieces, 0)
  {
    MetUntouched(m, []);
    TwoSlots(m, content);
    data := Cut(PieceOf(m, content, 0))[0];
    HonestAnswer(m, content, Block(0, 0, data), 0, 0);
    CancelsMirrorRequests(m, 0);
    SlotsMatchBlocksExactly(m, 0);
    hide Step, Enabled, From, Offer, PieceOf, PieceSize, FreshInFlight, IsRun, Requests, Cut, IsHonest, Sendable, First,
      Start, SlotCount, BlockCount, Done, Genuine;
    ws, es := TwiceAsked(m, content, data);
    FromArrives(m, ws[7], Block(0, 0, data), []);
    ws, es := OneMoreEvent(m, ws, es, From(Block(0, 0, data), []));
    SecondCopy(m, content, ws, es, data);
  }

  // ---------- a flag out of range ----------

  /** A peer that connects and shows interest can ask for the piece one past the last. */
  lemma OutOfRangeReachable(m: Meta) returns (ws: seq<World>, es: seq<Event>, frame: Frame)
    requires |m.hashes| < TWO32
    ensures IsRun(m, ws, es) && es == [Accepted(1), Handshaken(0), From(Interested, [])]
    ensures |ws| == 4 && |ws[3].peers| == 1 && ws[3].peers[0].stage.Talking?
    ensures ReadsOutOfRange(ws[3].peers[0], |ws[3].pieces|, frame)
  {
    hide Step, Enabled, From, IsRun, Payload, Bitfields.RawBitfield;
    ws := Meeting(m, []);
    es := [Accepted(1), Handshaken(0)];
    Interest(m, ws[2]);
    ws, es := OneMoreEvent(m, ws, es, From(Interested, []));
    var request := Request(|m.hashes|, 0, 1);
    frame := Frame(REQUEST, Payload(request));
    ShortSendable(request);
    DecodeEncoded(request);
  }

  // ---------- the wrong peer ----------

  /** removePeer can take out the wrong peer: a second connection from an address in use fails, and the first, still
      connected, is no longer active. */
  lemma WrongPeerRemoved(m: Meta) returns (ws: seq<World>, es: seq<Event>)
    ensures es == [Accepted(1), Handshaken(0), Accepted(1), Lost(1)] && IsRun(m, ws, es) && |ws| == 5
    ensures ws[3].active == [0] && ws[4].active == [] && |ws[4].peers| == 2 && ws[4].peers[0].stage.Talking?
    ensures !RemovesOnly(ws[3], 1)
  {
    es := [Accepted(1), Handshaken(0), Accepted(1), Lost(1)];
    var w1 := Step(m, Start(m, []), es[0]);
    var w2 := Step(m, w1, es[1]);
    var w3 := Step(m, w2, es[2]);
    ws := [Start(m, []), w1, w2, w3, Step(m, w3, es[3])];
    assert w3.peers[0].stage.Talking? && w3.active == [0];
    assert RawIpAt(w3.peers, 0) == 1 == RawIp(w3.peers[1]);
    assert FindActive(w3.peers, w3.active, 1) == Some(0);
  }
}
