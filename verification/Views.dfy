/** What each peer has been told, over a whole run. */
module Views {
  import opened Wrappers
  import opened Transcoder
  import opened Layout
  import opened Wire
  import opened Protocol
  import opened Swarm
  import opened PeerInvariant
  import opened LedgerInvariant
  import opened SwarmInvariant
  import opened Safety

  function Finished(pieces: seq<Piece>): set<nat> {
    set i: nat | i < |pieces| && pieces[i].finished
  }

  /** Can this peer be told something: it is active, connected, and we do not choke it. */
  predicate Listening(w: World, p: nat) {
    p < |w.peers| && p in w.active && !w.peers[p].stage.Closed? && !w.peers[p].amChoking
  }

  /** The pieces that a step should tell peer p: all finished ones if p is an incoming peer that has just
      completed its handshake, and those that the step finishes if p is listening. */
  function News(w: World, e: Event, w': World, p: nat): set<nat> {
    (if e == Handshaken(p) && p < |w.peers| && w.peers[p].incoming then Finished(w.pieces) else {})
    + (if Listening(w, p) then Finished(w'.pieces) - Finished(w.pieces) else {})
  }

  /** What peer p knows of us after the first k steps of a run. */
  function View(ws: seq<World>, es: seq<Event>, p: nat, k: nat): set<nat>
    requires k <= |es| < |ws|
  {
    if k == 0 then {} else View(ws, es, p, k - 1) + News(ws[k - 1], es[k - 1], ws[k], p)
  }

  // ---------- one step ----------

  /** From w to w' nothing is finished and nobody is told anything. */
  ghost predicate NoNews(m: Meta, w: World, w': World) {
    && |w.peers| <= |w'.peers|
    && Finished(w'.pieces) == Finished(w.pieces)
    && forall p | 0 <= p < |w.peers| :: Told(m, w'.peers[p].log) == Told(m, w.peers[p].log)
  }

  ghost predicate ToldNews(m: Meta, w: World, e: Event, w': World) {
    && |w.peers| <= |w'.peers|
    && forall p | 0 <= p < |w.peers| :: Told(m, w'.peers[p].log) == Told(m, w.peers[p].log) + News(w, e, w', p)
  }

  lemma NoNewsToldNews(m: Meta, w: World, e: Event, w': World)
    requires NoNews(m, w, w') && !e.Handshaken?
    ensures ToldNews(m, w, e, w')
  {
  }

  lemma FaultNoNews(m: Meta, w: World, p: nat)
    requires p < |w.peers|
    ensures NoNews(m, w, Fault(w, p))
  {
  }

  lemma {:induction false} CloseAllNoNews(m: Meta, w: World, list: seq<nat>)
    ensures NoNews(m, w, w.(peers := CloseAll(w.peers, list)))
  {
    hide Told;
    if list != [] {
      CloseAllNoNews(m, w, list[..|list| - 1]);
    }
  }

  lemma {:induction false} DialNoNews(m: Meta, w: World, records: seq<byte>, k: nat)
    requires 6 * k <= |records|
    ensures NoNews(m, w, DialUpTo(w, records, k))
    ensures forall p | |w.peers| <= p < |DialUpTo(w, records, k).peers| :: DialUpTo(w, records, k).peers[p].log == []
  {
    hide Told, RecordIp;
    if k != 0 {
      DialNoNews(m, w, records, k - 1);
    }
  }

  lemma SelectNoNews(m: Meta, content: seq<byte>, w: World, p: nat)
    requires |content| == m.totalSize
    requires Inv(m, content, w) && p < |w.peers|
    requires w.peers[p].stage.Talking? && StartsAPiece(LastIn(w.peers[p].log))
    ensures NoNews(m, w, SelectUnlessComplete(m, w, p))
  {
    hide StartPiece, PeerOk, BookOk, FileOk, Told, Served, UploadedIn, StartsIn, Sum, CountsOk, ActiveOk;
    SamePieceCount(m, w);
    SelectBooks(m, content, w, p);
    ChoiceExactly(w.pieces, w.peers[p].has, |w.pieces|);
    match Choice(w.pieces, w.peers[p].has, |w.pieces|)
    case None =>
    case Some(i) => StartPieceOk(m, content, w.peers[p], i);
  }

  lemma HeardNoNews(m: Meta, content: seq<byte>, w: World, p: nat, msg: Msg)
    requires |content| == m.totalSize
    requires Inv(m, content, w) && p < |w.peers| && w.peers[p].stage.Talking?
    ensures NoNews(m, w, Put(w, p, Hear(m, Receive(w.peers[p], msg), msg)))
  {
    HearOk(m, content, w.peers[p], msg);
    hide Inv, Told, Hear;
  }

  lemma ServeNoNews(m: Meta, content: seq<byte>, w: World, p: nat, i: u32, begin: u32, length: u32, heap: seq<byte>)
    requires |content| == m.totalSize && p < |w.peers|
    ensures NoNews(m, w, Serve(m, w, p, i, begin, length, heap))
  {
  }

  lemma OnRequestNoNews(m: Meta, content: seq<byte>, w: World, p: nat, i: u32, begin: u32, length: u32, heap: seq<byte>)
    requires |content| == m.totalSize && p < |w.peers|
    ensures NoNews(m, w, OnRequest(m, w, p, i, begin, length, heap))
  {
    hide Told, Fault, Serve, Finished;
    FaultNoNews(m, w, p);
    ServeNoNews(m, content, w, p, i, begin, length, heap);
  }

  lemma NoNewsTwice(m: Meta, w: World, w1: World, w2: World)
    requires NoNews(m, w, w1) && NoNews(m, w1, w2)
    ensures NoNews(m, w, w2)
  {
  }

  lemma NewsThenNone(m: Meta, w: World, e: Event, w1: World, w2: World)
    requires ToldNews(m, w, e, w1) && NoNews(m, w1, w2) && !e.Handshaken?
    ensures ToldNews(m, w, e, w2)
  {
  }

  /** A completed piece is news to exactly the peers that are listening. */
  lemma CompleteNews(m: Meta, content: seq<byte>, w: World, e: Event, i: nat, data: seq<byte>)
    requires |content| == m.totalSize
    requires Inv(m, content, w) && !e.Handshaken? && !Done(w.pieces, i)
    ensures ToldNews(m, w, e, CompletePiece(m, w, i, data))
  {
    var w1 := CompletePiece(m, w, i, data);
    CompleteFinishes(m, content, w, i, data);
    hide Inv, CompletePiece, Told, LastIn, Accepts, PeerOk, Truthful, Finished;
    forall k | 0 <= k < |w.peers|
      ensures Told(m, w1.peers[k].log) == Told(m, w.peers[k].log) + News(w, e, w1, k)
    {
      CompletePeer(m, content, w, i, data, k);
    }
  }

  lemma CompleteTold(m: Meta, content: seq<byte>, w: World, e: Event, p: nat, i: nat, data: seq<byte>)
    requires |content| == m.totalSize
    requires Inv(m, content, w) && p < |w.peers| && !e.Handshaken?
    requires w.peers[p].stage.Talking? && StartsAPiece(LastIn(w.peers[p].log))
    requires !Done(w.pieces, i)
    ensures ToldNews(m, w, e, SelectUnlessComplete(m, CompletePiece(m, w, i, data), p))
  {
    hide Inv, CompletePiece, SelectUnlessComplete, ToldNews, NoNews, LastIn;
    var w1 := CompletePiece(m, w, i, data);
    CompleteOk(m, content, w, i, data);
    CompletePeer(m, content, w, i, data, p);
    SelectNoNews(m, content, w1, p);
    CompleteNews(m, content, w, e, i, data);
    NewsThenNone(m, w, e, w1, SelectUnlessComplete(m, w1, p));
  }

  lemma CompleteFinishes(m: Meta, content: seq<byte>, w: World, i: nat, data: seq<byte>)
    requires |content| == m.totalSize
    requires Inv(m, content, w) && !Done(w.pieces, i)
    ensures var w' := CompletePiece(m, w, i, data);
      Finished(w'.pieces) - Finished(w.pieces) == if Accepts(m, i, data) then {i} else {}
  {
  }

  lemma OnBlockTold(m: Meta, content: seq<byte>, w: World, e: Event, p: nat, i: u32, begin: u32, data: seq<byte>)
    requires |content| == m.totalSize
    requires Inv(m, content, w) && p < |w.peers| && w.peers[p].stage.Talking? && !e.Handshaken?
    requires LastIn(w.peers[p].log) == Some(Block(i, begin, data))
    ensures ToldNews(m, w, e, OnBlock(m, w, p, i, begin, data))
  {
    hide Inv, Fault, Cancels, LastIn, Assemble, Told, Finished, PeerOk;
    var s := w.peers[p];
    FaultNoNews(m, w, p);
    NoNewsToldNews(m, w, e, Fault(w, p));
    match FindPiece(s.queue, i)
    case None =>
    case Some(k) =>
      var slot := begin / MAX_BLOCK_REQUEST_SIZE;
      if |data| <= MAX_BLOCK_REQUEST_SIZE && slot < |s.queue[k].slots| {
        var q := Fill(s.queue[k], slot, data);
        if Done(w.pieces, i) {
          PeerOkOf(m, content, w, p);
          CancelOk(m, content, s, k);
        } else if q.haveBlocks == |q.slots| {
          LastBlockTold(m, content, w, e, p, k, q);
        }
      }
  }

  lemma PeerOkOf(m: Meta, content: seq<byte>, w: World, p: nat)
    requires |content| == m.totalSize
    requires Inv(m, content, w) && p < |w.peers|
    ensures PeerOk(m, content, w.peers[p])
  {
  }

  /** The same peers are listening, and know the same. */
  ghost predicate SameAudience(m: Meta, w: World, w1: World) {
    && |w1.peers| == |w.peers| && w1.active == w.active && w1.pieces == w.pieces
    && forall k | 0 <= k < |w.peers| ::
         && w1.peers[k].stage == w.peers[k].stage
         && w1.peers[k].amChoking == w.peers[k].amChoking
         && Told(m, w1.peers[k].log) == Told(m, w.peers[k].log)
  }

  lemma SameNews(m: Meta, w: World, w1: World, e: Event, w': World)
    requires SameAudience(m, w, w1) && !e.Handshaken?
    requires ToldNews(m, w1, e, w')
    ensures ToldNews(m, w, e, w')
  {
  }

  lemma LastBlockTold(m: Meta, content: seq<byte>, w: World, e: Event, p: nat, k: nat, q: InFlight)
    requires |content| == m.totalSize
    requires Inv(m, content, w) && p < |w.peers| && k < |w.peers[p].queue| && !e.Handshaken?
    requires w.peers[p].stage.Talking? && StartsAPiece(LastIn(w.peers[p].log))
    requires q.index == w.peers[p].queue[k].index && !Done(w.pieces, q.index)
    ensures ToldNews(m, w, e, Assemble(m, WithQueue(w, p, w.peers[p].queue[k := q]), p, k))
  {
    hide Inv, Assemble, CompletePiece, SelectUnlessComplete, LastIn, Gather, Told, Finished;
    var s := w.peers[p];
    assert RemoveAt(s.queue[k := q], k) == RemoveAt(s.queue, k);
    AssembleReordered(m, WithQueue(w, p, s.queue[k := q]), p, k);
    EntryRemoved(m, content, w, p, k);
    var w1 := WithQueue(w, p, RemoveAt(s.queue, k));
    assert WithQueue(WithQueue(w, p, s.queue[k := q]), p, RemoveAt(s.queue[k := q], k)) == w1;
    assert SameAudience(m, w, w1);
    CompleteTold(m, content, w1, e, p, q.index, Gather(q.slots));
    hide SameAudience, ToldNews;
    SameNews(m, w, w1, e, SelectUnlessComplete(m, CompletePiece(m, w1, q.index, Gather(q.slots)), p));
  }

  lemma OnFrameTold(m: Meta, content: seq<byte>, w: World, p: nat, frame: Frame, heap: seq<byte>)
    requires |content| == m.totalSize
    requires Inv(m, content, w) && p < |w.peers| && w.peers[p].stage.Talking?
    ensures ToldNews(m, w, Arrived(p, frame, heap), OnFrame(m, w, p, frame, heap))
  {
    hide Inv, Fault, Decode, OnRequest, OnBlock, SelectUnlessComplete, LastIn, Told, Finished, NoNews, News;
    var e := Arrived(p, frame, heap);
    FaultNoNews(m, w, p);
    NoNewsToldNews(m, w, e, Fault(w, p));
    match Decode(frame)
    case Malformed =>
    case Unknown => NoNewsAtAll(m, w, e);
    case Parsed(msg) =>
      HeardInv(m, content, w, p, msg);
      HeardNoNews(m, content, w, p, msg);
      var s := Hear(m, Receive(w.peers[p], msg), msg);
      var w1 := Put(w, p, Receive(w.peers[p], msg));
      var w2 := Put(w, p, s);
      assert Put(w1, p, s) == w2;
      match msg
      case Bitfield(_) =>
        SelectNoNews(m, content, w2, p);
        NoNewsTwice(m, w, w2, SelectUnlessComplete(m, w2, p));
        NoNewsToldNews(m, w, e, SelectUnlessComplete(m, w2, p));
      case Request(i, begin, length) =>
        OnRequestNoNews(m, content, w1, p, i, begin, length, heap);
        NoNewsTwice(m, w, w1, OnRequest(m, w1, p, i, begin, length, heap));
        NoNewsToldNews(m, w, e, OnRequest(m, w1, p, i, begin, length, heap));
      case Block(i, begin, data) =>
        OnBlockTold(m, content, w1, e, p, i, begin, data);
        NotedAudience(m, content, w, p, msg);
        SameNews(m, w, w1, e, OnBlock(m, w1, p, i, begin, data));
      case _ => NoNewsToldNews(m, w, e, w2);
  }

  /** Noting a block in the log changes neither who is listening nor what was told. */
  lemma NotedAudience(m: Meta, content: seq<byte>, w: World, p: nat, msg: Msg)
    requires |content| == m.totalSize && p < |w.peers|
    ensures SameAudience(m, w, Put(w, p, Receive(w.peers[p], msg)))
  {
  }

  lemma NoNewsAtAll(m: Meta, w: World, e: Event)
    requires !e.Handshaken?
    ensures ToldNews(m, w, e, w)
  {
  }

  lemma WelcomeTold(m: Meta, content: seq<byte>, w: World, p: nat)
    requires |content| == m.totalSize
    requires Inv(m, content, w) && p < |w.peers| && w.peers[p].stage.Greeting?
    ensures ToldNews(m, w, Handshaken(p), Welcome(w, p))
  {
    BitfieldIsDone(m, w);
    assert p !in w.active;
    hide Inv, BookOk, CountsOk, FileOk, PeerOk, Told, Served, UploadedIn, StartsIn, Post, RawIp;
    PeerOkOf(m, content, w, p);
    EmptyLog(m, content, w.peers[p]);
    WelcomeOk(m, content, w.peers[p], w.bitfield);
    forall i: nat ensures i in Finished(w.pieces) <==> Done(w.pieces, i) {
    }
    if w.peers[p].incoming {
      assert Told(m, Welcome(w, p).peers[p].log) == Finished(w.pieces);
    } else {
      assert Told(m, Welcome(w, p).peers[p].log) == {};
    }
  }

  lemma EmptyLog(m: Meta, content: seq<byte>, s: PeerState)
    requires |content| == m.totalSize
    requires PeerOk(m, content, s) && s.stage.Greeting?
    ensures Told(m, s.log) == {}
  {
  }

  /** Every step tells every peer exactly the news. */
  lemma StepTold(m: Meta, content: seq<byte>, w: World, e: Event)
    requires |content| == m.totalSize
    requires Inv(m, content, w) && Enabled(w, e)
    ensures ToldNews(m, w, e, Step(m, w, e))
    ensures var w' := Step(m, w, e); forall p | |w.peers| <= p < |w'.peers| :: w'.peers[p].log == []
  {
    hide Inv, Welcome, Fault, DialUpTo, CloseAll, Told, Finished, Decode, ReadsOutOfRange, OnFrame;
    match e
    case TrackerResponse(records) =>
      DialNoNews(m, w, records, |records| / 6);
      NoNewsToldNews(m, w, e, Step(m, w, e));
    case Accepted(ip) => NoNewsToldNews(m, w, e, Step(m, w, e));
    case Connected(p) => NoNewsToldNews(m, w, e, Step(m, w, e));
    case Handshaken(p) =>
      WelcomeTold(m, content, w, p);
      SameNumber(m, w, e);
    case Lost(p) =>
      FaultNoNews(m, w, p);
      NoNewsToldNews(m, w, e, Step(m, w, e));
      SameNumber(m, w, e);
    case Arrived(p, frame, heap) =>
      OnFrameTold(m, content, w, p, frame, heap);
      SameNumber(m, w, e);
    case Shutdown =>
      CloseAllNoNews(m, w, w.active);
      NoNewsToldNews(m, w, e, Step(m, w, e));
  }

  /** Only dialling and accepting create peers. */
  lemma SameNumber(m: Meta, w: World, e: Event)
    requires Enabled(w, e) && (e.Handshaken? || e.Lost? || e.Arrived?)
    ensures |Step(m, w, e).peers| == |w.peers|
  {
    hide Decode, ReadsOutOfRange, Hear, StartPiece, Choice, FindActive, ReadAt, CompletePiece, FindPiece, Cancels,
      Post, RawIp, Fill, BlockBuffer, Gather, PieceSize;
  }

  // ---------- runs ----------

  /** A peer's view of us is exactly what was finished at its handshake, if it connected to us, and what was
      finished while it was active, connected and unchoked. */
  lemma {:induction false} ViewExact(m: Meta, ws: seq<World>, es: seq<Event>, p: nat, k: nat)
    requires IsRun(m, ws, es) && k <= |es|
    ensures View(ws, es, p, k) == if p < |ws[k].peers| then Told(m, ws[k].peers[p].log) else {}
  {
    if k != 0 {
      var content := AnyContent(m);
      ViewExact(m, ws, es, p, k - 1);
      RunOk(m, content, ws, es, k - 1);
      StepTold(m, content, ws[k - 1], es[k - 1]);
      hide Inv, Step, Finished;
      if |ws[k - 1].peers| <= p {
        assert News(ws[k - 1], es[k - 1], ws[k], p) == {};
      }
    }
  }
}
