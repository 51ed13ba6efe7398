/** What each message brings about, in full: the state of its sender, the ledger, and what the other peers are sent. */
module Reactions {
  import opened Wrappers
  import opened Transcoder
  import opened Layout
  import opened Wire
  import opened Protocol
  import opened Swarm
  import opened Unchanged
  import opened LedgerInvariant
  import opened SwarmInvariant
  import opened Safety
  import opened Conservation
  import opened Replies
  import opened Balance
  import Bitfields

  // ---------- statements ----------

  /** The sender with the message noted. */
  function Noted(s: PeerState, msg: Msg): PeerState {
    s.(log := s.log + [Received(msg)])
  }

  function Concat(lists: seq<seq<Msg>>): seq<Msg> {
    if lists == [] then [] else lists[0] + Concat(lists[1..])
  }

  /** The requests of every piece in flight, in the order of the queue. */
  function AllRequests(m: Meta, queue: seq<InFlight>): seq<Msg> {
    Concat(seq(|queue|, (k: nat) requires k < |queue| => Requests(m, queue[k].index)))
  }

  /** A bitfield: the peer's list gets the pieces whose bit is set, counted from the highest bit of the first byte,
      and a piece is selected. */
  ghost predicate OnOffer(m: Meta, w: World, p: nat, raw: seq<byte>, w': World)
    requires p < |w.peers|
  {
    && |w'.peers| == |w.peers| && |w'.pieces| == |w.pieces|
    && w' == w.(peers := w.peers[p := w'.peers[p]], pieces := w'.pieces)
    && (forall i | 0 <= i < |w.pieces| :: w'.pieces[i].finished == w.pieces[i].finished)
    && (forall x: nat :: x in w'.peers[p].has <==>
          x in w.peers[p].has || (x < |m.hashes| && x < 8 * |raw| && raw[x / 8] / Bitfields.Weight(x % 8) % 2 == 1))
    && Selected(m, w, w', p, Noted(w.peers[p], Bitfield(raw)).(has := w'.peers[p].has))
  }

  /** A request: an offence closes the connection; a piece that is not finished, an empty range and one behind the end
      of the file are passed over; any other is answered with as many bytes as were asked for, those of the file as
      far as it goes. */
  ghost predicate OnAsked(m: Meta, w: World, p: nat, i: nat, begin: nat, length: nat, msg: Msg, w': World)
    requires p < |w.peers| && msg.Request?
  {
    var s, pos := Noted(w.peers[p], msg), begin + i * m.pieceLength;
    if Rude(w.peers[p], length) then
      |w'.peers| == |w.peers| && w' == w.(peers := w.peers[p := s.(stage := Closed)], active := w'.active)
    else if !(i < |w.pieces| && w.pieces[i].finished) then w' == Put(w, p, s)
    else if PastEnd(m, w, i, begin, length) then w' == Put(w, p, s.(stage := Closed))
    else if length == 0 || |w.file| <= pos then w' == Put(w, p, s)
    else exists data :: IsReadOf(w.file, pos, length, data)
                     && w' == Put(w, p, s.(log := s.log + [Sent(Block(msg.index, msg.begin, data))]))
                              .(uploaded := w.uploaded + length)
  }

  predicate IsReadOf(file: seq<byte>, pos: nat, length: nat, data: seq<byte>) {
    |data| == length && forall j | 0 <= j < length && pos + j < |file| :: data[j] == file[pos + j]
  }

  /** The entry after one more block: the block lies in its slot, and the count goes up. */
  function Stored(q: InFlight, begin: nat, data: seq<byte>): InFlight
    requires begin / 16384 < |q.slots|
  {
    InFlight(q.index, q.haveBlocks + 1, q.slots[begin / 16384 := Slot(|data|, Some(data))])
  }

  /** The HAVE that peer q is sent when piece i has passed its check. */
  function Told1(w: World, q: nat, i: u32, ok: bool): Log
    requires q < |w.peers|
  {
    var s := w.peers[q];
    if ok && q in w.active && s.stage != Closed && !s.amChoking then [Sent(Have(i))] else []
  }

  /** The entry is full: its joined data is checked; the active peers are told if it is right; the entry goes; and a
      piece is selected. */
  ghost predicate OnFull(m: Meta, w: World, p: nat, k: nat, i: u32, q: InFlight, msg: Msg, w': World)
    requires p < |w.peers| && k < |w.peers[p].queue|
  {
    var s, data := w.peers[p], Gather(q.slots);
    var ok := i < |m.hashes| && m.sha1(data) == m.hashes[i];
    && Booked(m, w, w', Assembly(i, data)) && |w'.pieces| == |w.pieces|
    && |w'.peers| == |w.peers| && w'.active == w.active && w'.blackListed == w.blackListed && w'.uploaded == w.uploaded
    && (forall r | 0 <= r < |w.peers| && r != p ::
          w'.peers[r] == w.peers[r].(log := w.peers[r].log + Told1(w, r, i, ok)))
    && Selected(m, w, w', p, s.(log := s.log + [Received(msg)] + Told1(w, p, i, ok),
                                queue := s.queue[..k] + s.queue[k + 1..]))
  }

  /** A block: one that was not asked for closes the connection; one of a finished piece cancels the piece; any other is
      stored in the first entry for the piece, and may fill it. */
  ghost predicate OnData(m: Meta, w: World, p: nat, i: u32, begin: nat, data: seq<byte>, msg: Msg, w': World)
    requires p < |w.peers|
  {
    var s, noted := w.peers[p], Noted(w.peers[p], msg);
    if Unasked(s, i, begin, |data|) then
      |w'.peers| == |w.peers| && w' == w.(peers := w.peers[p := noted.(stage := Closed)], active := w'.active)
    else
      exists k | 0 <= k < |s.queue| :: IsFirstFor(s.queue, i, k) && begin / 16384 < |s.queue[k].slots|
        && var q := Stored(s.queue[k], begin, data);
           if i < |w.pieces| && w.pieces[i].finished then
             w' == Put(w, p, noted.(log := noted.log + Outgoing(Cancels(m, i)),
                                    queue := s.queue[..k] + s.queue[k + 1..]))
           else if q.haveBlocks != |q.slots| then
             w' == Put(w, p, noted.(queue := s.queue[k := q]))
           else
             OnFull(m, w, p, k, i, q, msg, w')
  }

  ghost predicate ReactionOk(m: Meta, w: World, p: nat, msg: Msg, w': World)
    requires p < |w.peers|
  {
    var s, noted := w.peers[p], Noted(w.peers[p], msg);
    match msg
    case Choke => w' == Put(w, p, noted.(peerChoking := true))
    case Unchoke =>
      w' == Put(w, p, noted.(peerChoking := false, log := noted.log + Outgoing(AllRequests(m, s.queue))))
    case Interested =>
      if s.amChoking then
        w' == Put(w, p, noted.(peerInterested := true, amChoking := false, log := noted.log + [Sent(Unchoke)]))
      else
        w' == Put(w, p, noted.(peerInterested := true))
    case NotInterested => w' == Put(w, p, noted.(peerInterested := false))
    case Have(i) => w' == Put(w, p, noted.(has := if i in s.has then s.has else s.has + [i]))
    case Bitfield(raw) => OnOffer(m, w, p, raw, w')
    case Request(i, begin, length) => OnAsked(m, w, p, i, begin, length, msg, w')
    case Block(i, begin, data) => OnData(m, w, p, i, begin, data, msg, w')
    case Cancel(_, _, _) => w' == Put(w, p, noted)
  }

  // ---------- proofs ----------

  lemma {:induction false} ConcatLast(lists: seq<seq<Msg>>, last: seq<Msg>)
    ensures Concat(lists + [last]) == Concat(lists) + last
  {
    if lists == [] {
      assert [last][1..] == [];
    } else {
      ConcatLast(lists[1..], last);
      assert (lists + [last])[1..] == lists[1..] + [last];
    }
  }

  lemma {:induction false} QueueInOrder(m: Meta, queue: seq<InFlight>)
    ensures QueueRequests(m, queue) == AllRequests(m, queue)
  {
    hide Requests;
    if queue != [] {
      var init, last := queue[..|queue| - 1], queue[|queue| - 1];
      QueueInOrder(m, init);
      var lists := seq(|init|, (k: nat) requires k < |init| => Requests(m, init[k].index));
      assert seq(|queue|, (k: nat) requires k < |queue| => Requests(m, queue[k].index))
          == lists + [Requests(m, last.index)];
      ConcatLast(lists, Requests(m, last.index));
    }
  }

  lemma HearExactly(m: Meta, w: World, p: nat, msg: Msg)
    requires p < |w.peers| && w.peers[p].stage.Talking? && !msg.Bitfield? && !msg.Request? && !msg.Block?
    ensures ReactionOk(m, w, p, msg, Put(w, p, Hear(m, Noted(w.peers[p], msg), msg)))
  {
    hide AllRequests, QueueRequests;
    QueueInOrder(m, w.peers[p].queue);
    assert Outgoing([Unchoke]) == [Sent(Unchoke)];
  }

  lemma OfferExactly(m: Meta, w: World, p: nat, raw: seq<byte>)
    requires BookOk(m, w) && p < |w.peers| && w.peers[p].stage.Talking?
    ensures var s := Hear(m, Noted(w.peers[p], Bitfield(raw)), Bitfield(raw));
      OnOffer(m, w, p, raw, SelectUnlessComplete(m, Put(w, p, s), p))
  {
    hide BookOk, Selected, StartPiece, Bitfields.Indices, Bitfields.Weight, Choice;
    var s := Hear(m, Noted(w.peers[p], Bitfield(raw)), Bitfield(raw));
    var w1 := Put(w, p, s);
    SameBook(m, w, w1);
    SelectsBest(m, w, w1, p);
    forall i: nat ensures StartPiece(m, s, i).has == s.has {
      StartKeeps(m, s, i);
    }
    forall x: nat ensures x in Bitfields.Indices(raw, |m.hashes|) <==>
        x < |m.hashes| && x < 8 * |raw| && raw[x / 8] / Bitfields.Weight(x % 8) % 2 == 1 {
      Bitfields.ReadBits(raw, |m.hashes|, x);
    }
  }

  lemma ReadIs(file: seq<byte>, pos: nat, length: nat, heap: seq<byte>)
    ensures ReadAt(file, pos, length) == [] <==> length == 0 || |file| <= pos
    ensures var got := ReadAt(file, pos, length);
      got != [] ==> IsReadOf(file, pos, length, BlockBuffer(got, length, heap))
  {
  }

  lemma AskedExactly(m: Meta, w: World, p: nat, i: u32, begin: u32, length: u32, heap: seq<byte>)
    requires p < |w.peers| && w.peers[p].stage.Talking?
    ensures var msg := Request(i, begin, length);
      var w1 := Put(w, p, Noted(w.peers[p], msg));
      OnAsked(m, w, p, i, begin, length, msg, OnRequest(m, w1, p, i, begin, length, heap))
  {
    hide PieceSize, ReadAt, BlockBuffer, IsReadOf, FindActive, RawIp;
    var pos := begin + PieceStart(m, i);
    ReadIs(w.file, pos, length, heap);
    var answer := Block(i, begin, BlockBuffer(ReadAt(w.file, pos, length), length, heap));
    assert Outgoing([answer]) == [Sent(answer)];
  }

  /** What a completed piece sends to each peer. */
  lemma CompleteTells(m: Meta, w: World, i: u32, data: seq<byte>, r: nat)
    requires BookOk(m, w) && ActiveOk(w) && !Done(w.pieces, i) && r < |w.peers|
    ensures CompletePiece(m, w, i, data).peers[r]
      == w.peers[r].(log := w.peers[r].log + Told1(w, r, i, i < |m.hashes| && m.sha1(data) == m.hashes[i]))
  {
    hide WriteAt, CountFinished;
    assert w.peers[r].log + [] == w.peers[r].log;
    if Accepts(m, i, data) {
      BroadcastAt(w.peers, w.active, i, r);
      assert Outgoing([Have(i)]) == [Sent(Have(i))];
    }
  }

  lemma CompleteKeepsRest(m: Meta, w: World, i: nat, data: seq<byte>)
    ensures var w' := CompletePiece(m, w, i, data);
      w'.active == w.active && w'.blackListed == w.blackListed && w'.uploaded == w.uploaded && |w'.peers| == |w.peers|
    ensures |CompletePiece(m, w, i, data).pieces| == |w.pieces|
    ensures forall j | 0 <= j < |w.pieces| :: CompletePiece(m, w, i, data).pieces[j].priority == w.pieces[j].priority
  {
    hide WriteAt, Broadcast;
  }

  lemma SelectKeepsRest(m: Meta, w: World, p: nat)
    requires p < |w.peers|
    ensures var w' := SelectUnlessComplete(m, w, p);
      && w'.active == w.active && w'.blackListed == w.blackListed && w'.uploaded == w.uploaded
      && |w'.peers| == |w.peers| && forall r | 0 <= r < |w.peers| && r != p :: w'.peers[r] == w.peers[r]
  {
    hide StartPiece, Choice;
  }

  lemma FullExactly(m: Meta, w: World, p: nat, k: nat, i: u32, q: InFlight, msg: Msg)
    requires BookOk(m, w) && ActiveOk(w) && p < |w.peers| && w.peers[p].stage.Talking? && k < |w.peers[p].queue|
    requires q.index == i && !Done(w.pieces, i)
    ensures var s := w.peers[p];
      OnFull(m, w, p, k, i, q, msg, Assemble(m, Put(w, p, Noted(s, msg).(queue := s.queue[k := q])), p, k))
  {
    hide BookOk, ActiveOk, Gather, CompletePiece, SelectUnlessComplete, Selected, Told1, Accepts, WriteAt, Booked;
    var s, data := w.peers[p], Gather(q.slots);
    var w1 := Put(w, p, Noted(s, msg).(queue := s.queue[k := q]));
    SameBook(m, w, w1);
    StillActive(w, w1, p);
    AssembleBooked(m, w1, p, k);
    var c := CompletePiece(m, w1, i, data);
    CompleteBooked(m, w1, i, data);
    CompleteKeepsRest(m, w1, i, data);
    forall r | 0 <= r < |w.peers| ensures c.peers[r] == w1.peers[r].(log := w1.peers[r].log
        + Told1(w1, r, i, i < |m.hashes| && m.sha1(data) == m.hashes[i])) {
      CompleteTells(m, w1, i, data, r);
    }
    var w2 := WithQueue(c, p, RemoveAt(c.peers[p].queue, k));
    assert RemoveAt(s.queue[k := q], k) == s.queue[..k] + s.queue[k + 1..];
    SameBook(m, c, w2);
    SelectsBest(m, w, w2, p);
    SelectKeepsRest(m, w2, p);
    SameTelling(w, w1, p, i);
    BookedFrom(m, w, w1, SelectUnlessComplete(m, w2, p), Assembly(i, data));
  }

  lemma StillActive(w: World, w1: World, p: nat)
    requires ActiveOk(w) && p < |w.peers| == |w1.peers| && w1 == Put(w, p, w1.peers[p])
    requires w1.peers[p].stage == w.peers[p].stage
    ensures ActiveOk(w1)
  {
  }

  lemma SameTelling(w: World, w1: World, p: nat, i: u32)
    requires p < |w.peers| == |w1.peers| && w1.active == w.active && w1 == Put(w, p, w1.peers[p])
    requires w1.peers[p].stage == w.peers[p].stage && w1.peers[p].amChoking == w.peers[p].amChoking
    ensures forall r, ok | 0 <= r < |w.peers| :: Told1(w1, r, i, ok) == Told1(w, r, i, ok)
  {
  }

  lemma BookedFrom(m: Meta, w: World, w1: World, w': World, a: Assembly)
    requires Booked(m, w1, w', a) && w1 == w.(peers := w1.peers)
    ensures Booked(m, w, w', a)
  {
    hide WriteAt, Accepts;
  }

  lemma DataExactly(m: Meta, w: World, p: nat, i: u32, begin: u32, data: seq<byte>)
    requires BookOk(m, w) && ActiveOk(w) && p < |w.peers| && w.peers[p].stage.Talking?
    ensures var msg := Block(i, begin, data);
      OnData(m, w, p, i, begin, data, msg, OnBlock(m, Put(w, p, Noted(w.peers[p], msg)), p, i, begin, data))
  {
    hide BookOk, ActiveOk, UseBlock, OnBlock, OnFull, IsFirstFor, Cancels, Stored, Unasked, FindPiece;
    var s, msg := w.peers[p], Block(i, begin, data);
    BlockCases(m, Put(w, p, Noted(s, msg)), p, i, begin, data);
    SameAsked(s, msg, i, begin, |data|);
    if !Unasked(s, i, begin, |data|) {
      var k := FindPiece(s.queue, i).value;
      FoundFirst(s.queue, i, k);
      UsedExactly(m, w, p, k, i, begin, data);
    }
  }

  lemma SameAsked(s: PeerState, msg: Msg, i: nat, begin: nat, size: nat)
    ensures Unasked(Noted(s, msg), i, begin, size) == Unasked(s, i, begin, size)
  {
    hide IsFirstFor;
  }

  lemma BlockCases(m: Meta, w: World, p: nat, i: u32, begin: u32, data: seq<byte>)
    requires p < |w.peers|
    ensures var s, w' := w.peers[p], OnBlock(m, w, p, i, begin, data);
      if Unasked(s, i, begin, |data|) then
        |w'.peers| == |w.peers| && w' == w.(peers := w.peers[p := s.(stage := Closed)], active := w'.active)
      else
        FindPiece(s.queue, i).Some?
        && var k := FindPiece(s.queue, i).value;
           begin / 16384 < |s.queue[k].slots| && w' == UseBlock(m, w, p, k, begin / 16384, data)
  {
    hide UseBlock, FindActive, RawIp, IsFirstFor;
    match FindPiece(w.peers[p].queue, i)
    case None => NoneAsked(w.peers[p].queue, i);
    case Some(k) => FoundFirst(w.peers[p].queue, i, k);
  }

  lemma NoneAsked(queue: seq<InFlight>, i: nat)
    requires FindPiece(queue, i).None?
    ensures forall k :: !IsFirstFor(queue, i, k)
  {
  }

  lemma UsedExactly(m: Meta, w: World, p: nat, k: nat, i: u32, begin: u32, data: seq<byte>)
    requires BookOk(m, w) && ActiveOk(w) && p < |w.peers| && w.peers[p].stage.Talking? && k < |w.peers[p].queue|
    requires w.peers[p].queue[k].index == i && begin / 16384 < |w.peers[p].queue[k].slots|
    ensures var s, msg := w.peers[p], Block(i, begin, data);
      var noted, q := Noted(s, msg), Stored(s.queue[k], begin, data);
      var w' := UseBlock(m, Put(w, p, noted), p, k, begin / 16384, data);
      if i < |w.pieces| && w.pieces[i].finished then
        w' == Put(w, p, noted.(log := noted.log + Outgoing(Cancels(m, i)), queue := s.queue[..k] + s.queue[k + 1..]))
      else if q.haveBlocks != |q.slots| then
        w' == Put(w, p, noted.(queue := s.queue[k := q]))
      else
        OnFull(m, w, p, k, i, q, msg, w')
  {
    hide BookOk, ActiveOk, OnFull, Assemble, Cancels;
    var s, noted := w.peers[p], Noted(w.peers[p], Block(i, begin, data));
    var q := Stored(s.queue[k], begin, data);
    assert Fill(s.queue[k], begin / 16384, data) == q;
    assert WithQueue(Put(w, p, noted), p, s.queue[k := q]) == Put(w, p, noted.(queue := s.queue[k := q]));
    if !Done(w.pieces, i) {
      FullExactly(m, w, p, k, i, Stored(w.peers[p].queue[k], begin, data), Block(i, begin, data));
    }
  }

  // ---------- runs ----------

  lemma MessageExactly(m: Meta, w: World, p: nat, msg: Msg, heap: seq<byte>)
    requires BookOk(m, w) && ActiveOk(w) && p < |w.peers| && w.peers[p].stage.Talking?
    ensures ReactionOk(m, w, p, msg, OnMessage(m, Put(w, p, Noted(w.peers[p], msg)), p, msg, heap))
  {
    hide BookOk, ActiveOk, OnOffer, OnAsked, OnData, OnRequest, OnBlock, SelectUnlessComplete;
    match msg
    case Bitfield(raw) =>
      OfferExactly(m, w, p, raw);
      var noted := Noted(w.peers[p], msg);
      assert Put(Put(w, p, noted), p, Hear(m, noted, msg)) == Put(w, p, Hear(m, noted, msg));
    case Request(i, begin, length) => AskedExactly(m, w, p, i, begin, length, heap);
    case Block(i, begin, data) => DataExactly(m, w, p, i, begin, data);
    case _ => HearExactly(m, w, p, msg);
  }

  /** What a frame brings about: nothing if its number is above 8; the end of the connection and nothing else if its
      size is wrong; and otherwise what its message does. */
  ghost predicate FrameOk(m: Meta, w: World, p: nat, frame: Frame, w': World)
    requires p < |w.peers|
  {
    if 8 < frame.id then w' == w
    else if WrongSize(frame.id, |frame.payload|) then
      && |w'.peers| == |w.peers|
      && w' == w.(peers := w.peers[p := w.peers[p].(stage := Closed)], active := w'.active)
    else exists msg :: Decode(frame) == Parsed(msg) && ReactionOk(m, w, p, msg, w')
  }

  lemma FrameExactly(m: Meta, w: World, p: nat, frame: Frame, heap: seq<byte>)
    requires BookOk(m, w) && ActiveOk(w) && p < |w.peers| && w.peers[p].stage.Talking?
    ensures FrameOk(m, w, p, frame, OnFrame(m, w, p, frame, heap))
  {
    hide BookOk, ActiveOk, Decode, OnMessage, ReactionOk, FindActive, RawIp, WrongSize;
    ReadExactly(frame);
    if Decode(frame).Parsed? {
      MessageExactly(m, w, p, Decode(frame).msg, heap);
    }
  }

  /** In every run, each frame that arrives brings about exactly this. */
  lemma ArrivalExactly(m: Meta, ws: seq<World>, es: seq<Event>, k: nat)
    requires IsRun(m, ws, es) && k < |es| && es[k].Arrived?
    ensures es[k].p < |ws[k].peers| && FrameOk(m, ws[k], es[k].p, es[k].frame, ws[k + 1])
  {
    RunOk(m, AnyContent(m), ws, es, k);
    hide OnFrame, FrameOk, ReadsOutOfRange, BookOk, ActiveOk, PeersOk, CountsOk, FileOk;
    assert Enabled(ws[k], es[k]) && ws[k + 1] == Step(m, ws[k], es[k]);
    FrameExactly(m, ws[k], es[k].p, es[k].frame, es[k].heap);
  }

  /** In every run, each message brings about exactly what is stated for its kind. */
  lemma ReactionExactly(m: Meta, ws: seq<World>, es: seq<Event>, k: nat, msg: Msg)
    requires IsRun(m, ws, es) && k < |es| && es[k].Arrived? && Decode(es[k].frame) == Parsed(msg)
    ensures es[k].p < |ws[k].peers| && ReactionOk(m, ws[k], es[k].p, msg, ws[k + 1])
  {
    RunOk(m, AnyContent(m), ws, es, k);
    hide Decode, OnMessage, ReactionOk, ReadsOutOfRange, BookOk, ActiveOk, PeersOk, CountsOk, FileOk;
    assert Enabled(ws[k], es[k]) && ws[k + 1] == Step(m, ws[k], es[k]);
    MessageExactly(m, ws[k], es[k].p, msg, es[k].heap);
  }

  /** A block that is asked for, of a piece not finished, and the last by the count of its entry. */
  predicate FillsUp(w: World, p: nat, i: nat, begin: nat, size: nat)
    requires p < |w.peers|
  {
    var s := w.peers[p];
    && !Unasked(s, i, begin, size)
    && !(i < |w.pieces| && w.pieces[i].finished)
    && exists k | 0 <= k < |s.queue| :: IsFirstFor(s.queue, i, k) && s.queue[k].haveBlocks + 1 == |s.queue[k].slots|
  }

  ghost predicate SelectsFor(m: Meta, w: World, w': World, p: nat) {
    |w.pieces| == |w'.pieces| && p < |w'.peers| && exists base :: Selected(m, w, w', p, base)
  }

  lemma DataSelects(m: Meta, w: World, p: nat, i: u32, begin: nat, data: seq<byte>, msg: Msg, w': World)
    requires p < |w.peers| && OnData(m, w, p, i, begin, data, msg, w')
    ensures if FillsUp(w, p, i, begin, |data|) then SelectsFor(m, w, w', p) else w'.pieces == w.pieces
  {
    hide Selected, Booked, Told1, Gather;
  }

  lemma OtherSelects(m: Meta, w: World, p: nat, msg: Msg, w': World)
    requires p < |w.peers| && ReactionOk(m, w, p, msg, w')
    ensures msg.Bitfield? ==> SelectsFor(m, w, w', p)
    ensures !msg.Bitfield? && !msg.Block? ==> w'.pieces == w.pieces
  {
    hide Selected, OnData, Rude, PastEnd, IsReadOf, AllRequests;
  }

  /** In every run a piece is selected when a bitfield or the last block of an entry comes in, and at no other time. */
  lemma SelectionExact(m: Meta, ws: seq<World>, es: seq<Event>, k: nat)
    requires IsRun(m, ws, es) && k < |es|
    ensures !es[k].Arrived? ==> ws[k + 1].pieces == ws[k].pieces
    ensures es[k].Arrived? ==>
      var w, w', p, frame := ws[k], ws[k + 1], es[k].p, es[k].frame;
      && p < |w.peers|
      && if (frame.id == 5 && frame.payload != [])
            || (frame.id == 7 && 9 <= |frame.payload|
                && FillsUp(w, p, Number(frame.payload[..4]), Number(frame.payload[4..8]), |frame.payload| - 8))
         then SelectsFor(m, w, w', p)
         else w'.pieces == w.pieces
  {
    assert Enabled(ws[k], es[k]) && ws[k + 1] == Step(m, ws[k], es[k]);
    hide *;
    StepRaises(m, ws[k], es[k]);
    if es[k].Arrived? {
      FrameSelects(m, ws, es, k);
    }
  }

  lemma FrameSelects(m: Meta, ws: seq<World>, es: seq<Event>, k: nat)
    requires IsRun(m, ws, es) && k < |es| && es[k].Arrived?
    ensures var w, w', p, frame := ws[k], ws[k + 1], es[k].p, es[k].frame;
      && p < |w.peers|
      && if (frame.id == 5 && frame.payload != [])
            || (frame.id == 7 && 9 <= |frame.payload|
                && FillsUp(w, p, Number(frame.payload[..4]), Number(frame.payload[4..8]), |frame.payload| - 8))
         then SelectsFor(m, w, w', p)
         else w'.pieces == w.pieces
  {
    var w, p, frame := ws[k], es[k].p, es[k].frame;
    hide Decode, Number, ReactionOk, SelectsFor, FillsUp, OnFrame, ReadsOutOfRange, OnData;
    assert Enabled(w, es[k]) && ws[k + 1] == OnFrame(m, w, p, frame, es[k].heap);
    ReadExactly(frame);
    NotParsed(m, w, p, frame, es[k].heap);
    if Decode(frame).Parsed? {
      var msg := Decode(frame).msg;
      ReactionExactly(m, ws, es, k, msg);
      OtherSelects(m, w, p, msg, ws[k + 1]);
      if msg.Block? {
        BlockReacts(m, w, p, msg, ws[k + 1]);
        DataSelects(m, w, p, msg.index, msg.begin, msg.data, msg, ws[k + 1]);
      }
    }
  }

  lemma BlockReacts(m: Meta, w: World, p: nat, msg: Msg, w': World)
    requires p < |w.peers| && msg.Block? && ReactionOk(m, w, p, msg, w')
    ensures OnData(m, w, p, msg.index, msg.begin, msg.data, msg, w')
  {
  }

  lemma NotParsed(m: Meta, w: World, p: nat, frame: Frame, heap: seq<byte>)
    requires p < |w.peers|
    ensures !Decode(frame).Parsed? ==> OnFrame(m, w, p, frame, heap).pieces == w.pieces
  {
    hide Decode, FindActive, RawIp;
  }
}
