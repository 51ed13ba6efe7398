/** What each message brings about: answers to requests, cancels for late blocks, and the messages that cost a
    peer its connection. */
module Replies {
  import opened Wrappers
  import opened Transcoder
  import opened Layout
  import opened Wire
  import opened Protocol
  import opened Swarm
  import opened Unchanged
  import opened LedgerInvariant
  import opened SwarmInvariant
  import opened Safety

  // ---------- requests ----------

  /** The entries that a REQUEST adds to the log. */
  function Exchange(m: Meta, content: seq<byte>, done: bool, i: u32, begin: u32, length: u32): Log
    requires |content| == m.totalSize && i < |m.hashes| && begin + length <= PieceSize(m, i)
  {
    [Received(Request(i, begin, length))]
    + if done then [Sent(Block(i, begin, PieceOf(m, content, i)[begin..begin + length]))] else []
  }

  lemma RangeOfRange(file: seq<byte>, from: nat, to: nat, begin: nat, length: nat)
    requires from <= to <= |file| && begin + length <= to - from
    ensures file[begin + from..begin + from + length] == file[from..to][begin..begin + length]
  {
    var a, b := file[begin + from..begin + from + length], file[from..to][begin..begin + length];
    assert |a| == |b| && forall x | 0 <= x < length :: a[x] == b[x];
  }

  lemma FinishedRead(m: Meta, content: seq<byte>, w: World, i: nat, begin: nat, length: nat, heap: seq<byte>)
    requires Genuine(m, content)
    requires FileOk(m, content, w) && Done(w.pieces, i) && 1 <= length && begin + length <= PieceSize(m, i)
    ensures i < |m.hashes|
    ensures var got := ReadAt(w.file, begin + PieceStart(m, i), length);
      got != [] && BlockBuffer(got, length, heap) == PieceOf(m, content, i)[begin..begin + length]
  {
    hide PieceSize, PieceStart;
    assert InFile(m, content, w.file, i);
    var from, to := PieceStart(m, i), PieceStart(m, i) + PieceSize(m, i);
    ReadAtRange(w.file, begin + from, length);
    RangeOfRange(w.file, from, to, begin, length);
  }

  lemma ServesFinished(m: Meta, content: seq<byte>, w: World, p: nat, i: u32, begin: u32, length: u32, heap: seq<byte>)
    requires Genuine(m, content) && BookOk(m, w) && FileOk(m, content, w) && p < |w.peers|
    requires w.peers[p].stage.Talking? && Done(w.pieces, i)
    requires 1 <= length && begin + length <= PieceSize(m, i) && begin + length < TWO32
    ensures i < |m.hashes|
    ensures var answer := Block(i, begin, PieceOf(m, content, i)[begin..begin + length]);
      Serve(m, w, p, i, begin, length, heap)
      == Put(w, p, w.peers[p].(log := w.peers[p].log + [Sent(answer)])).(uploaded := w.uploaded + length)
  {
    hide PieceSize, PieceStart, ReadAt, BlockBuffer, BookOk, FileOk;
    FinishedRead(m, content, w, i, begin, length, heap);
    var answer := Block(i, begin, PieceOf(m, content, i)[begin..begin + length]);
    assert Outgoing([answer]) == [Sent(answer)];
  }

  /** A REQUEST for a range inside a piece: if the peer is interested and unchoked and asks for 16 KiB at most,
      it is sent exactly those bytes of the content if we have finished the piece and nothing otherwise;
      if not, it is disconnected. */
  lemma RequestAnswered(m: Meta, content: seq<byte>, ws: seq<World>, es: seq<Event>, k: nat,
                        p: nat, i: u32, begin: u32, length: u32)
    requires Genuine(m, content)
    requires IsRun(m, ws, es) && k < |es|
    requires es[k].Arrived? && es[k].p == p && Decode(es[k].frame) == Parsed(Request(i, begin, length))
    requires i < |m.hashes| && 1 <= length && begin + length <= PieceSize(m, i) && begin + length < TWO32
    ensures p < |ws[k].peers| && p < |ws[k + 1].peers|
    ensures var s, s', done := ws[k].peers[p], ws[k + 1].peers[p], Done(ws[k].pieces, i);
      if InterestedBy(s.log) && Sent(Unchoke) in s.log && length <= MAX_BLOCK_REQUEST_SIZE then
        && s' == s.(log := s.log + Exchange(m, content, done, i, begin, length))
        && ws[k + 1].uploaded == ws[k].uploaded + if done then length else 0
      else
        && s' == s.(log := s.log + Exchange(m, content, false, i, begin, length), stage := Closed)
        && ws[k + 1].uploaded == ws[k].uploaded
  {
    RunOk(m, content, ws, es, k);
    hide *;
    StepIs(m, ws, es, k);
    StepAnswers(m, content, ws[k], es[k], p, i, begin, length);
  }

  lemma StepIs(m: Meta, ws: seq<World>, es: seq<Event>, k: nat)
    requires IsRun(m, ws, es) && k < |es|
    ensures k + 1 < |ws| && Enabled(ws[k], es[k]) && ws[k + 1] == Step(m, ws[k], es[k])
  {
  }

  lemma StepAnswers(m: Meta, content: seq<byte>, w: World, e: Event, p: nat, i: u32, begin: u32, length: u32)
    requires Genuine(m, content)
    requires Inv(m, content, w) && Enabled(w, e)
    requires e.Arrived? && e.p == p && Decode(e.frame) == Parsed(Request(i, begin, length))
    requires i < |m.hashes| && 1 <= length && begin + length <= PieceSize(m, i) && begin + length < TWO32
    ensures p < |w.peers| && p < |Step(m, w, e).peers|
    ensures var w' := Step(m, w, e);
      var s, s', done := w.peers[p], w'.peers[p], Done(w.pieces, i);
      if InterestedBy(s.log) && Sent(Unchoke) in s.log && length <= MAX_BLOCK_REQUEST_SIZE then
        && s' == s.(log := s.log + Exchange(m, content, done, i, begin, length))
        && w'.uploaded == w.uploaded + if done then length else 0
      else
        && s' == s.(log := s.log + Exchange(m, content, false, i, begin, length), stage := Closed)
        && w'.uploaded == w.uploaded
  {
    hide Decode, OnRequest, Step, Serve, Fault, Inv, BookOk, FileOk, PieceSize, PieceOf, InterestedBy, ReadsOutOfRange;
    var s, w1 := w.peers[p], Put(w, p, Receive(w.peers[p], Request(i, begin, length)));
    InvSays(m, content, w, p);
    SameBooks(m, content, w, w1);
    StepIsRequest(m, w, e, i, begin, length);
    RequestCases(m, w1, p, i, begin, length, e.heap);
    if s.peerInterested && !s.amChoking && length <= MAX_BLOCK_REQUEST_SIZE && Done(w.pieces, i) {
      ServesFinished(m, content, w1, p, i, begin, length, e.heap);
    }
  }

  lemma InvSays(m: Meta, content: seq<byte>, w: World, p: nat)
    requires |content| == m.totalSize && Inv(m, content, w) && p < |w.peers|
    ensures BookOk(m, w) && FileOk(m, content, w)
    ensures var s := w.peers[p]; s.peerInterested == InterestedBy(s.log) && s.amChoking == (Sent(Unchoke) !in s.log)
  {
  }

  lemma StepIsRequest(m: Meta, w: World, e: Event, i: u32, begin: u32, length: u32)
    requires Enabled(w, e) && e.Arrived? && Decode(e.frame) == Parsed(Request(i, begin, length))
    ensures var w1 := Put(w, e.p, Receive(w.peers[e.p], Request(i, begin, length)));
      Step(m, w, e) == OnRequest(m, w1, e.p, i, begin, length, e.heap)
  {
  }

  // ---------- short reads ----------

  /** The answer to a request does not depend on what the heap holds. */
  ghost predicate HeapIrrelevant(m: Meta, w: World, p: nat, i: u32, begin: u32, length: u32)
    requires p < |w.peers|
  {
    forall heap, heap' :: Serve(m, w, p, i, begin, length, heap) == Serve(m, w, p, i, begin, length, heap')
  }

  /** It does not exactly when nothing is asked for, the (32-bit) end lies behind the piece, the range begins behind the
      end of the file, or the whole range lies in the file. In every other case the block sent ends with heap bytes. */
  lemma HeapIrrelevantExactly(m: Meta, w: World, p: nat, i: u32, begin: u32, length: u32)
    requires p < |w.peers| && w.peers[p].stage.Talking? && i < |w.pieces|
    ensures HeapIrrelevant(m, w, p, i, begin, length) <==>
      || length == 0
      || PieceSize(m, i) < Low32(begin + length)
      || |w.file| <= begin + PieceStart(m, i)
      || begin + PieceStart(m, i) + length <= |w.file|
  {
    hide PieceSize, PieceStart, Low32;
    var got := ReadAt(w.file, begin + PieceStart(m, i), length);
    if !(PieceSize(m, i) < Low32(begin + length)) && got != [] && |got| < length {
      var heap, heap' := seq(length, _ => 0), seq(length, _ => 1);
      ShortBlock(got, length, heap);
      ShortBlock(got, length, heap');
      SentLast(m, w, p, i, begin, length, heap);
      SentLast(m, w, p, i, begin, length, heap');
      assert BlockBuffer(got, length, heap)[|got|] == 0 && BlockBuffer(got, length, heap')[|got|] == 1;
      assert Serve(m, w, p, i, begin, length, heap) != Serve(m, w, p, i, begin, length, heap');
    }
  }

  /** A block buffer after a short read: first the bytes read, then those the heap had there. */
  lemma ShortBlock(got: seq<byte>, length: nat, heap: seq<byte>)
    requires |got| < length <= |heap|
    ensures BlockBuffer(got, length, heap) == got + heap[|got|..length]
  {
  }

  lemma SentLast(m: Meta, w: World, p: nat, i: u32, begin: u32, length: u32, heap: seq<byte>)
    requires p < |w.peers| && w.peers[p].stage.Talking? && i < |w.pieces|
    requires Low32(begin + length) <= PieceSize(m, i) && ReadAt(w.file, begin + PieceStart(m, i), length) != []
    ensures var log := Serve(m, w, p, i, begin, length, heap).peers[p].log;
      var got := ReadAt(w.file, begin + PieceStart(m, i), length);
      log != [] && Last(log) == Sent(Block(i, begin, BlockBuffer(got, length, heap)))
  {
  }

  // ---------- late blocks ----------

  /** A block of a piece that another peer has finished meanwhile: every block requested of the piece is
      cancelled, one entry for the piece leaves the queue, and nothing else changes. */
  lemma LateBlockCancelled(m: Meta, w: World, p: nat, frame: Frame, heap: seq<byte>,
                           i: u32, begin: u32, data: seq<byte>)
    requires p < |w.peers| && w.peers[p].stage.Talking?
    requires Decode(frame) == Parsed(Block(i, begin, data)) && Done(w.pieces, i)
    requires !Offends(m, w, p, Block(i, begin, data))
    ensures var s, w' := w.peers[p], OnFrame(m, w, p, frame, heap);
      && p < |w'.peers| && w' == Put(w, p, w'.peers[p])
      && w'.peers[p] == s.(log := w'.peers[p].log, queue := w'.peers[p].queue)
      && w'.peers[p].log == s.log + [Received(Block(i, begin, data))] + Outgoing(Cancels(m, i))
      && CountIndex(w'.peers[p].queue, i) + 1 == CountIndex(s.queue, i)
      && forall j: nat | j != i :: CountIndex(w'.peers[p].queue, j) == CountIndex(s.queue, j)
    ensures forall r <- Requests(m, i) :: exists c <- Cancels(m, i) :: c.Cancel? && AsIfRequested(c) == r
  {
    hide Decode, Cancels, Requests, CountIndex;
    var queue := w.peers[p].queue;
    var k := FindPiece(queue, i).value;
    forall j: nat ensures CountIndex(RemoveAt(queue, k), j) + (if j == i then 1 else 0) == CountIndex(queue, j) {
      CountRemove(queue, k, j);
    }
    EachCancelled(m, i);
  }

  lemma EachCancelled(m: Meta, i: nat)
    ensures forall r <- Requests(m, i) :: exists c <- Cancels(m, i) :: c.Cancel? && AsIfRequested(c) == r
  {
    CancelsMirrorRequests(m, i);
    hide Requests, Cancels;
    forall r | r in Requests(m, i) ensures exists c <- Cancels(m, i) :: c.Cancel? && AsIfRequested(c) == r {
      var k :| 0 <= k < |Requests(m, i)| && Requests(m, i)[k] == r;
      assert Cancels(m, i)[k] in Cancels(m, i);
    }
  }

  // ---------- offences ----------

  /** A request without interest, without our UNCHOKE, or for more than 16 KiB. */
  predicate Rude(s: PeerState, length: nat) {
    !s.peerInterested || s.amChoking || 16384 < length
  }

  /** A request past the (32-bit) end of a finished piece. */
  predicate PastEnd(m: Meta, w: World, i: nat, begin: nat, length: nat) {
    i < |w.pieces| && w.pieces[i].finished && PieceSize(m, i) < (begin + length) % 0x1_0000_0000
  }

  /** A block that is too large, of a piece that is not in flight, or beyond its slots. */
  predicate Unasked(s: PeerState, i: nat, begin: nat, size: nat) {
    16384 < size || !exists k | 0 <= k < |s.queue| :: IsFirstFor(s.queue, i, k) && begin / 16384 < |s.queue[k].slots|
  }

  predicate Offends(m: Meta, w: World, p: nat, msg: Msg)
    requires p < |w.peers|
  {
    match msg
    case Request(i, begin, length) => Rude(w.peers[p], length) || PastEnd(m, w, i, begin, length)
    case Block(i, begin, data) => Unasked(w.peers[p], i, begin, |data|)
    case _ => false
  }

  predicate IsFirstFor(queue: seq<InFlight>, i: nat, k: nat) {
    k < |queue| && queue[k].index == i && forall j | 0 <= j < k :: queue[j].index != i
  }

  lemma FoundFirst(queue: seq<InFlight>, i: nat, k: nat)
    requires FindPiece(queue, i) == Some(k)
    ensures forall j :: IsFirstFor(queue, i, j) <==> j == k
  {
  }

  lemma AssembleKeepsStage(m: Meta, w: World, p: nat, k: nat)
    requires p < |w.peers| && k < |w.peers[p].queue|
    ensures p < |Assemble(m, w, p, k).peers| && Assemble(m, w, p, k).peers[p].stage == w.peers[p].stage
  {
    hide Gather, Accepts, WriteAt, Broadcast, Requests, Choice, FreshInFlight;
    BroadcastKeeps(w.peers, w.active, w.peers[p].queue[k].index, p);
  }

  lemma UnaskedCloses(m: Meta, w: World, p: nat, i: u32, begin: u32, data: seq<byte>)
    requires p < |w.peers| && FindPiece(w.peers[p].queue, i).None?
    ensures p < |OnBlock(m, w, p, i, begin, data).peers|
    ensures OnBlock(m, w, p, i, begin, data).peers[p].stage.Closed? && Offends(m, w, p, Block(i, begin, data))
  {
  }

  lemma AskedCloses(m: Meta, w: World, p: nat, i: u32, begin: u32, data: seq<byte>, k: nat)
    requires p < |w.peers| && w.peers[p].stage.Talking? && FindPiece(w.peers[p].queue, i) == Some(k)
    ensures p < |OnBlock(m, w, p, i, begin, data).peers|
    ensures OnBlock(m, w, p, i, begin, data).peers[p].stage.Closed? <==>
      MAX_BLOCK_REQUEST_SIZE < |data| || |w.peers[p].queue[k].slots| <= begin / MAX_BLOCK_REQUEST_SIZE
  {
    hide Assemble, Cancels, FindActive, RawIp, Fill;
    var queue, slot := w.peers[p].queue, begin / MAX_BLOCK_REQUEST_SIZE;
    if slot < |queue[k].slots| {
      AssembleKeepsStage(m, WithQueue(w, p, queue[k := Fill(queue[k], slot, data)]), p, k);
    }
  }

  lemma OnBlockCloses(m: Meta, w: World, p: nat, i: u32, begin: u32, data: seq<byte>)
    requires p < |w.peers| && w.peers[p].stage.Talking?
    ensures p < |OnBlock(m, w, p, i, begin, data).peers|
    ensures OnBlock(m, w, p, i, begin, data).peers[p].stage.Closed? <==> Offends(m, w, p, Block(i, begin, data))
  {
    hide OnBlock, IsFirstFor;
    match FindPiece(w.peers[p].queue, i)
    case None => UnaskedCloses(m, w, p, i, begin, data);
    case Some(k) =>
      AskedCloses(m, w, p, i, begin, data, k);
      FoundFirst(w.peers[p].queue, i, k);
  }

  lemma SelectKeepsStage(m: Meta, w: World, p: nat)
    requires p < |w.peers|
    ensures p < |SelectUnlessComplete(m, w, p).peers|
    ensures SelectUnlessComplete(m, w, p).peers[p].stage == w.peers[p].stage
  {
  }

  lemma ParsedCloses(m: Meta, w: World, p: nat, frame: Frame, heap: seq<byte>)
    requires p < |w.peers| && w.peers[p].stage.Talking?
    ensures p < |OnFrame(m, w, p, frame, heap).peers|
    ensures OnFrame(m, w, p, frame, heap).peers[p].stage.Closed? <==>
      match Decode(frame)
      case Malformed => true
      case Unknown => false
      case Parsed(msg) => Offends(m, w, p, msg)
  {
    hide Decode, OnBlock, SelectUnlessComplete, Hear, FindActive, RawIp, ReadAt, PieceSize, Low32, IsFirstFor, Post;
    match Decode(frame)
    case Malformed =>
    case Unknown =>
    case Parsed(msg) =>
      var w1 := Put(w, p, Receive(w.peers[p], msg));
      HearKeeps(m, w1.peers[p], msg);
      match msg
      case Bitfield(_) => SelectKeepsStage(m, Put(w1, p, Hear(m, w1.peers[p], msg)), p);
      case Request(i, begin, length) => ServeCloses(m, w1, p, i, begin, length, heap);
      case Block(i, begin, data) => OnBlockCloses(m, w1, p, i, begin, data);
      case _ =>
  }

  /** The frame has a size that its number cannot have, or is an offence other than a range past the end. */
  predicate Fails(s: PeerState, frame: Frame) {
    var p := frame.payload;
    || WrongSize(frame.id, |p|)
    || (frame.id == 6 && |p| == 12 && Rude(s, Number(p[8..12])))
    || (frame.id == 7 && 9 <= |p| && Unasked(s, Number(p[..4]), Number(p[4..8]), |p| - 8))
  }

  predicate AsksPastEnd(m: Meta, w: World, frame: Frame) {
    var p := frame.payload;
    frame.id == 6 && |p| == 12 && PastEnd(m, w, Number(p[..4]), Number(p[4..8]), Number(p[8..12]))
  }

  /** A message costs a peer its connection exactly when its size is wrong for its number or it is an offence, and one
      with a number above 8 does nothing at all. */
  lemma ClosesExactly(m: Meta, w: World, p: nat, frame: Frame, heap: seq<byte>)
    requires p < |w.peers| && w.peers[p].stage.Talking?
    ensures var w' := OnFrame(m, w, p, frame, heap);
      && p < |w'.peers|
      && (w'.peers[p].stage.Closed? <==> Fails(w.peers[p], frame) || AsksPastEnd(m, w, frame))
      && (8 < frame.id ==> w' == w)
  {
    hide OnFrame, Decode, Number, Rude, PastEnd, Unasked, WrongSize;
    ReadExactly(frame);
    ParsedCloses(m, w, p, frame, heap);
    UnknownIgnored(m, w, p, frame, heap);
  }

  lemma UnknownIgnored(m: Meta, w: World, p: nat, frame: Frame, heap: seq<byte>)
    requires p < |w.peers|
    ensures Decode(frame) == Unknown ==> OnFrame(m, w, p, frame, heap) == w
  {
    hide Decode;
  }

  lemma ServeCloses(m: Meta, w: World, p: nat, i: u32, begin: u32, length: u32, heap: seq<byte>)
    requires p < |w.peers| && w.peers[p].stage.Talking?
    ensures p < |OnRequest(m, w, p, i, begin, length, heap).peers|
    ensures OnRequest(m, w, p, i, begin, length, heap).peers[p].stage.Closed?
      <==> Offends(m, w, p, Request(i, begin, length))
  {
  }

  // ---------- flags out of range ----------

  /** The piece whose finished flag handleMessage reads on behalf of the peer, if it gets that far. */
  ghost function FlagRead(m: Meta, w: World, p: nat, frame: Frame): Option<nat>
    requires p < |w.peers|
  {
    match Decode(frame)
    case Parsed(Request(i, _, length)) =>
      if w.peers[p].peerInterested && !w.peers[p].amChoking && length <= MAX_BLOCK_REQUEST_SIZE then Some(i) else None
    case Parsed(Block(i, begin, data)) => if Offends(m, w, p, Block(i, begin, data)) then None else Some(i)
    case _ => None
  }

  /** In every reachable state the frames that are left out of the runs are exactly those that make handleMessage read
      a flag outside the vector: a block never does, whatever its index. */
  lemma OutOfRangeExactly(m: Meta, ws: seq<World>, es: seq<Event>, k: nat, p: nat, frame: Frame, heap: seq<byte>)
    requires IsRun(m, ws, es) && k < |ws| && p < |ws[k].peers|
    ensures var flag := FlagRead(m, ws[k], p, frame);
      var outside := flag.Some? && |ws[k].pieces| <= flag.value;
      && (ReadsOutOfRange(ws[k].peers[p], |ws[k].pieces|, frame) <==> outside)
      && (Enabled(ws[k], Arrived(p, frame, heap)) <==> ws[k].peers[p].stage == Talking && !outside)
  {
    RunOk(m, AnyContent(m), ws, es, k);
    InFlightInRange(m, AnyContent(m), ws[k], p);
    hide Decode, Inv, PieceSize, Low32;
  }

  lemma InFlightInRange(m: Meta, content: seq<byte>, w: World, p: nat)
    requires |content| == m.totalSize && Inv(m, content, w) && p < |w.peers|
    ensures forall k | 0 <= k < |w.peers[p].queue| :: w.peers[p].queue[k].index < |w.pieces|
  {
    forall k | 0 <= k < |w.peers[p].queue| ensures w.peers[p].queue[k].index < |w.pieces| {
      EntryOk(m, content, w.peers[p], k);
    }
  }
}
