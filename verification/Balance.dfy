/** How requests spread over the pieces. */
module Balance {
  import opened Wrappers
  import opened Transcoder
  import opened Layout
  import opened Wire
  import opened Protocol
  import opened Swarm
  import opened Unchanged
  import opened LedgerInvariant
  import opened Conservation

  predicate HasAll(s: PeerState, n: nat) {
    forall i: nat | i < n :: i in s.has
  }

  function Priorities(pieces: seq<Piece>): seq<nat> {
    seq(|pieces|, (i: nat) requires i < |pieces| => pieces[i].priority)
  }

  /** Unfinished pieces have been requested equally often, give or take one. */
  predicate Balanced(pieces: seq<Piece>) {
    forall i, j | 0 <= i < |pieces| && 0 <= j < |pieces| && !pieces[i].finished && !pieces[j].finished ::
      pieces[i].priority <= pieces[j].priority + 1
  }

  /** Either no priority changes, or that of one piece goes up by one: a piece, unfinished afterwards, of least
      priority among those that are unfinished, that peer p has and that can be raised. */
  ghost predicate Raised(w: World, w': World, p: nat) {
    && |w.pieces| == |w'.pieces|
    && (forall j | 0 <= j < |w.pieces| && w.pieces[j].finished :: w'.pieces[j].finished)
    && ((forall j | 0 <= j < |w.pieces| :: w'.pieces[j].priority == w.pieces[j].priority)
        || exists i :: RaisedAt(w, w', p, i))
  }

  ghost predicate RaisedAt(w: World, w': World, p: nat, i: nat) {
    && i < |w.pieces| == |w'.pieces|
    && p < |w'.peers|
    && w'.pieces[i].priority == w.pieces[i].priority + 1 <= INT32_MAX
    && !w'.pieces[i].finished
    && (forall j | 0 <= j < |w.pieces| && j != i :: w'.pieces[j].priority == w.pieces[j].priority)
    && forall j | 0 <= j < |w.pieces| && !w'.pieces[j].finished && j in w'.peers[p].has
                  && w.pieces[j].priority < INT32_MAX ::
         w.pieces[i].priority <= w.pieces[j].priority
  }

  /** The pieces' priorities are untouched, and finished ones stay so. */
  ghost predicate SamePriorities(w: World, w': World) {
    && |w.pieces| == |w'.pieces|
    && forall j | 0 <= j < |w.pieces| ::
         && w'.pieces[j].priority == w.pieces[j].priority
         && (w.pieces[j].finished ==> w'.pieces[j].finished)
  }

  lemma SelectRaises(m: Meta, w: World, w1: World, p: nat)
    requires p < |w1.peers| && SamePriorities(w, w1)
    ensures Raised(w, SelectUnlessComplete(m, w1, p), p)
  {
    var w' := SelectUnlessComplete(m, w1, p);
    hide Post, Requests, SlotCount;
    ChoiceExactly(w1.pieces, w1.peers[p].has, |w1.pieces|);
    if w1.completed != |w1.pieces| {
      match Choice(w1.pieces, w1.peers[p].has, |w1.pieces|)
      case None =>
      case Some(i) =>
        StartKeeps(m, w1.peers[p], i);
        assert RaisedAt(w, w', p, i);
    }
  }

  lemma AssembleRaises(m: Meta, w: World, p: nat, k: nat)
    requires p < |w.peers| && k < |w.peers[p].queue|
    ensures Raised(w, Assemble(m, w, p, k), p)
  {
    hide Gather, Accepts, WriteAt, Broadcast, SelectUnlessComplete, Raised;
    var q := w.peers[p].queue[k];
    var w1 := CompletePiece(m, w, q.index, Gather(q.slots));
    var queue := w1.peers[p].queue;
    var w2 := if k < |queue| then WithQueue(w1, p, RemoveAt(queue, k)) else w1;
    SelectRaises(m, w, w2, p);
  }

  lemma OnBlockRaises(m: Meta, w: World, p: nat, i: u32, begin: u32, data: seq<byte>)
    requires p < |w.peers|
    ensures Raised(w, OnBlock(m, w, p, i, begin, data), p)
  {
    hide Assemble, Cancels, Fill, FindActive, RawIp, Post;
    match FindPiece(w.peers[p].queue, i)
    case None =>
    case Some(k) =>
      var queue, slot := w.peers[p].queue, begin / MAX_BLOCK_REQUEST_SIZE;
      if slot < |queue[k].slots| {
        var w1 := WithQueue(w, p, queue[k := Fill(queue[k], slot, data)]);
        AssembleRaises(m, w1, p, k);
        SameRaise(w, w1, Assemble(m, w1, p, k), p);
      }
  }

  lemma SameRaise(w: World, w1: World, w': World, p: nat)
    requires Raised(w1, w', p) && w1.pieces == w.pieces
    ensures Raised(w, w', p)
  {
    if i: nat :| RaisedAt(w1, w', p, i) {
      assert RaisedAt(w, w', p, i);
    }
  }

  lemma OnFrameRaises(m: Meta, w: World, p: nat, frame: Frame, heap: seq<byte>)
    requires p < |w.peers|
    ensures Raised(w, OnFrame(m, w, p, frame, heap), p)
  {
    hide Decode, OnBlock, Hear, SelectUnlessComplete, ReadAt, FindActive, RawIp, Post, PieceSize, RaisedAt;
    match Decode(frame)
    case Malformed =>
    case Unknown =>
    case Parsed(msg) =>
      var w1 := Put(w, p, Receive(w.peers[p], msg));
      match msg
      case Bitfield(_) => SelectRaises(m, w, Put(w1, p, Hear(m, w1.peers[p], msg)), p);
      case Block(i, begin, data) =>
        OnBlockRaises(m, w1, p, i, begin, data);
        SameRaise(w, w1, OnBlock(m, w1, p, i, begin, data), p);
      case _ =>
  }

  /** Only messages raise priorities, one at a time and always the least. */
  lemma StepRaises(m: Meta, w: World, e: Event)
    requires Enabled(w, e)
    ensures Raised(w, Step(m, w, e), if e.Arrived? then e.p else 0)
    ensures !e.Arrived? ==> Step(m, w, e).pieces == w.pieces
  {
    hide OnFrame, Decode, FindActive, DialUpTo, RawIp, Post, ReadsOutOfRange;
    match e
    case TrackerResponse(records) => DialKeeps(w, records, |records| / 6);
    case Arrived(p, frame, heap) => OnFrameRaises(m, w, p, frame, heap);
    case _ =>
  }

  lemma RaisedBalanced(w: World, w': World, p: nat)
    requires Balanced(w.pieces) && Raised(w, w', p)
    requires Priorities(w'.pieces) == Priorities(w.pieces) || (p < |w'.peers| && HasAll(w'.peers[p], |w.pieces|))
    requires forall i | 0 <= i < |w.pieces| :: w.pieces[i].priority <= INT32_MAX
    ensures Balanced(w'.pieces)
  {
    assert forall i | 0 <= i < |w.pieces| :: Priorities(w.pieces)[i] == w.pieces[i].priority;
    assert forall i | 0 <= i < |w'.pieces| :: Priorities(w'.pieces)[i] == w'.pieces[i].priority;
    if i: nat :| RaisedAt(w, w', p, i) {
      forall j | 0 <= j < |w.pieces| && !w'.pieces[j].finished
        ensures w.pieces[i].priority <= w.pieces[j].priority
      {
      }
    }
  }

  /** If every peer that a piece request is started with has all pieces, the requests stay balanced. */
  lemma {:induction false} RunBalanced(m: Meta, ws: seq<World>, es: seq<Event>, k: nat)
    requires IsRun(m, ws, es) && k < |ws|
    requires forall j | 0 <= j < |es| && es[j].Arrived? && Priorities(ws[j + 1].pieces) != Priorities(ws[j].pieces) ::
      es[j].p < |ws[j + 1].peers| && HasAll(ws[j + 1].peers[es[j].p], |m.hashes|)
    ensures Balanced(ws[k].pieces)
  {
    if k != 0 {
      RunBalanced(m, ws, es, k - 1);
      RunBooked(m, ws, es, k - 1);
      StepRaises(m, ws[k - 1], es[k - 1]);
      hide Step, Raised;
      RaisedBalanced(ws[k - 1], ws[k], if es[k - 1].Arrived? then es[k - 1].p else 0);
    }
  }

  // ---------- when a piece is selected ----------

  /** A peer's state with piece i just started: INTERESTED, a new entry with a slot for each 16 KiB, and a request for
      each block unless it chokes us. */
  function Begun(m: Meta, s: PeerState, i: nat): PeerState {
    var slots := seq((PieceSize(m, i) % 0x1_0000_0000 + 16383) / 16384, _ => Slot(0, None));
    s.(amInterested := true,
       queue := s.queue + [InFlight(i, 0, slots)],
       log := s.log + [Sent(Interested)] + if s.peerChoking then [] else Outgoing(Requests(m, i)))
  }

  /** Piece i is unfinished, the peer has it, it has been requested less than 2^31 - 1 times and least often of all such
      pieces, less often than those before it; and it is now counted once more, and no other piece is. */
  ghost predicate RaisedFirst(w: World, w': World, has: seq<nat>, i: nat)
    requires |w.pieces| == |w'.pieces|
  {
    && i < |w.pieces| && !w'.pieces[i].finished && i in has && w.pieces[i].priority < 0x7FFF_FFFF
    && (forall j | 0 <= j < |w.pieces| && !w'.pieces[j].finished && j in has ::
          w.pieces[i].priority <= w.pieces[j].priority && (j < i ==> w.pieces[i].priority < w.pieces[j].priority))
    && w'.pieces[i].priority == w.pieces[i].priority + 1
    && forall j | 0 <= j < |w.pieces| && j != i :: w'.pieces[j].priority == w.pieces[j].priority
  }

  /** The selection for peer p, whose state before it is `base`: if it has an unfinished piece that has been requested
      less than 2^31 - 1 times, the first of those least requested is started; if not, nothing happens. */
  ghost predicate Selected(m: Meta, w: World, w': World, p: nat, base: PeerState)
    requires |w.pieces| == |w'.pieces| && p < |w'.peers|
  {
    if exists i | 0 <= i < |w.pieces| ::
         !w'.pieces[i].finished && i in base.has && w.pieces[i].priority < 0x7FFF_FFFF
    then
      exists i :: RaisedFirst(w, w', base.has, i) && w'.peers[p] == Begun(m, base, i)
    else
      && w'.peers[p] == base
      && forall j | 0 <= j < |w.pieces| :: w'.pieces[j].priority == w.pieces[j].priority
  }

  lemma NoneLeft(m: Meta, w: World)
    requires BookOk(m, w) && w.completed == |w.pieces|
    ensures forall i | 0 <= i < |w.pieces| :: w.pieces[i].finished
  {
    AllFinished(m, w.pieces);
  }

  lemma StartBegins(m: Meta, s: PeerState, i: nat)
    requires s.stage.Talking?
    ensures StartPiece(m, s, i) == Begun(m, s, i)
  {
    hide Requests, PieceSize;
    assert Outgoing([Interested]) == [Sent(Interested)];
    var log := s.log + [Sent(Interested)];
    assert log + [] == log;
  }

  lemma SelectsBest(m: Meta, w: World, w1: World, p: nat)
    requires p < |w1.peers| && BookOk(m, w1) && |w1.pieces| == |w.pieces| && w1.peers[p].stage.Talking?
    requires forall j | 0 <= j < |w.pieces| :: w1.pieces[j].priority == w.pieces[j].priority
    ensures var w' := SelectUnlessComplete(m, w1, p);
      |w'.pieces| == |w.pieces| && p < |w'.peers| && Selected(m, w, w', p, w1.peers[p])
  {
    hide StartPiece, Begun, BookOk;
    var w', has := SelectUnlessComplete(m, w1, p), w1.peers[p].has;
    if w1.completed == |w1.pieces| {
      NoneLeft(m, w1);
    } else {
      ChoiceExactly(w1.pieces, has, |w1.pieces|);
      match Choice(w1.pieces, has, |w1.pieces|)
      case None =>
      case Some(i) =>
        StartBegins(m, w1.peers[p], i);
        assert RaisedFirst(w, w', has, i);
    }
  }
}
