/** What holds of every peer connection between two steps, and how the operations on one peer keep it. */
module PeerInvariant {
  import opened Wrappers
  import opened Transcoder
  import opened Layout
  import opened Wire
  import opened Protocol
  import opened Swarm
  import Bitfields

  predicate SlotOk(s: Slot) {
    match s.data
    case None => s.size == 0
    case Some(d) => s.size == |d|
  }

  /** An entry of the download queue names a piece in range, has one slot for each 16 KiB of the piece's
      (32-bit) size, is never full between steps, and every filled slot has data of its recorded size. */
  ghost predicate InFlightOk(m: Meta, q: InFlight) {
    && q.index < |m.hashes|
    && |q.slots| == SlotCount(m, q.index)
    && (q.haveBlocks < |q.slots| || |q.slots| == 0)
    && forall k | 0 <= k < |q.slots| :: SlotOk(q.slots[k])
  }

  ghost predicate QueueOk(m: Meta, s: PeerState) {
    && (forall k | 0 <= k < |s.queue| :: InFlightOk(m, s.queue[k]) && s.queue[k].index in s.has)
    && (s.queue != [] ==> s.amInterested)
  }

  ghost predicate AskedFor(m: Meta, s: PeerState, i: nat) {
    forall msg <- Requests(m, i) :: msg in Asked(s.log)
  }

  ghost predicate Includes(msgs: seq<Msg>, wanted: seq<Msg>) {
    forall msg <- wanted :: msg in msgs
  }

  /** Every block of every piece in flight has been requested since the last UNCHOKE. */
  ghost predicate AllAsked(m: Meta, s: PeerState) {
    forall k | 0 <= k < |s.queue| :: AskedFor(m, s, s.queue[k].index)
  }

  /** The flags and the piece list say what the log says, and whoever has shown interest is unchoked. */
  ghost predicate FlagsOk(m: Meta, s: PeerState) {
    && s.amChoking == (Sent(Unchoke) !in s.log)
    && s.amInterested == (Sent(Interested) in s.log)
    && s.peerChoking == ChokedBy(s.log)
    && s.peerInterested == InterestedBy(s.log)
    && (Received(Interested) in s.log ==> !s.amChoking)
    && forall i: nat :: i in s.has <==> i in Announced(m, s.log)
  }

  ghost predicate PeerOk(m: Meta, content: seq<byte>, s: PeerState)
    requires |content| == m.totalSize
  {
    && s.ip != 0
    && FlagsOk(m, s)
    && QueueOk(m, s)
    && (!s.peerChoking ==> AllAsked(m, s))
    && Conformant(m, content, s.log)
    && (s.stage.Dialling? || s.stage.Greeting? ==> s.log == [])
  }

  /** Two states of a peer between which nothing was told, uploaded or started. */
  ghost predicate Silent(m: Meta, s: PeerState, s': PeerState) {
    && s'.ip == s.ip
    && s'.stage == s.stage
    && Told(m, s'.log) == Told(m, s.log)
    && Served(s'.log) == Served(s.log)
    && UploadedIn(s'.log) == UploadedIn(s.log)
    && StartsIn(s'.log) == StartsIn(s.log)
    && LastIn(s'.log) == LastIn(s.log)
  }

  lemma NewPeerOk(m: Meta, content: seq<byte>, ip: u32, incoming: bool)
    requires |content| == m.totalSize && ip != 0
    ensures PeerOk(m, content, NewPeer(ip, incoming))
  {
  }

  lemma RequestsAreRequests(m: Meta, i: nat)
    ensures forall r <- Requests(m, i) :: r.Request?
  {
  }

  lemma RequestsAllowed(m: Meta, content: seq<byte>, s: PeerState, i: nat)
    requires |content| == m.totalSize
    requires FlagsOk(m, s) && !s.peerChoking && s.amInterested
    requires i < |m.hashes| && i in s.has
    ensures forall msg <- Requests(m, i) :: Repeatable(msg) && MaySend(m, content, s.log, msg)
  {
    assert Low32(i) == i;
  }

  lemma CancelsAllowed(m: Meta, content: seq<byte>, s: PeerState, i: nat)
    requires |content| == m.totalSize
    requires i < |m.hashes|
    requires LastIn(s.log).Some? && LastIn(s.log).value.Block? && LastIn(s.log).value.index == i
    ensures forall msg <- Cancels(m, i) :: Repeatable(msg) && MaySend(m, content, s.log, msg)
  {
    assert Low32(i) == i;
    CancelsMirrorRequests(m, i);
    forall msg | msg in Cancels(m, i) ensures Repeatable(msg) && MaySend(m, content, s.log, msg) {
      var k :| 0 <= k < |Cancels(m, i)| && Cancels(m, i)[k] == msg;
      assert AsIfRequested(msg) == Requests(m, i)[k];
    }
  }

  /** Posting a batch of requests or cancels keeps everything and tells nothing. */
  lemma PostBatch(m: Meta, content: seq<byte>, s: PeerState, msgs: seq<Msg>)
    requires |content| == m.totalSize
    requires FlagsOk(m, s) && Conformant(m, content, s.log)
    requires s.stage.Talking?
    requires forall msg <- msgs :: Repeatable(msg) && MaySend(m, content, s.log, msg)
    ensures var s' := Post(s, msgs);
      && FlagsOk(m, s')
      && Conformant(m, content, s'.log)
      && Silent(m, s, s')
      && Asked(s.log) <= Asked(s'.log)
      && (forall msg <- msgs :: msg.Request? ==> msg in Asked(s'.log))
  {
    hide MaySend, Conformant, ChokedBy, InterestedBy, Announced, Told, Served, Asked, UploadedIn, StartsIn, LastIn;
    Batch(m, content, s.log, msgs);
    var log' := s.log + Outgoing(msgs);
    forall e | e == Sent(Unchoke) || e == Sent(Interested) || e == Received(Interested)
      ensures e in log' <==> e in s.log
    {
      forall k | 0 <= k < |msgs| ensures Outgoing(msgs)[k] != e {
        assert msgs[k] in msgs;
      }
    }
  }

  lemma {:induction false} QueueRequestsAllowed(m: Meta, content: seq<byte>, s: PeerState, n: nat)
    requires |content| == m.totalSize
    requires FlagsOk(m, s) && !s.peerChoking && s.amInterested && n <= |s.queue|
    requires forall k | 0 <= k < n :: s.queue[k].index < |m.hashes| && s.queue[k].index in s.has
    ensures var msgs := QueueRequests(m, s.queue[..n]);
      && (forall msg <- msgs :: Repeatable(msg) && MaySend(m, content, s.log, msg))
      && (forall k | 0 <= k < n :: Includes(msgs, Requests(m, s.queue[k].index)))
  {
    hide MaySend, FlagsOk, Requests;
    if n == 0 {
      assert s.queue[..n] == [];
    } else {
      assert s.queue[..n][..n - 1] == s.queue[..n - 1];
      QueueRequestsAllowed(m, content, s, n - 1);
      var earlier, last := QueueRequests(m, s.queue[..n - 1]), Requests(m, s.queue[n - 1].index);
      assert QueueRequests(m, s.queue[..n]) == earlier + last;
      RequestsAllowed(m, content, s, s.queue[n - 1].index);
    }
  }

  lemma NoRequests(m: Meta)
    ensures QueueRequests(m, []) == []
  {
  }

  lemma QueueIndex(m: Meta, s: PeerState, k: nat)
    requires QueueOk(m, s) && k < |s.queue|
    ensures s.queue[k].index < |m.hashes|
  {
  }

  lemma UnchokeOk(m: Meta, content: seq<byte>, s: PeerState)
    requires |content| == m.totalSize
    requires FlagsOk(m, s) && QueueOk(m, s) && Conformant(m, content, s.log)
    requires s.stage.Talking? && !s.peerChoking
    ensures var s' := Post(s, QueueRequests(m, s.queue));
      && FlagsOk(m, s')
      && Conformant(m, content, s'.log)
      && Silent(m, s, s')
      && AllAsked(m, s')
  {
    hide MaySend, Conformant, FlagsOk, Requests, Asked, QueueRequests, InFlightOk, Told, Served, UploadedIn, StartsIn,
      LastIn;
    var msgs := QueueRequests(m, s.queue);
    assert s.queue[..|s.queue|] == s.queue;
    if s.queue == [] {
      assert msgs == [] by {
        NoRequests(m);
      }
    } else {
      forall k | 0 <= k < |s.queue| ensures s.queue[k].index < |m.hashes| {
        QueueIndex(m, s, k);
      }
      QueueRequestsAllowed(m, content, s, |s.queue|);
    }
    PostBatch(m, content, s, msgs);
    forall k | 0 <= k < |s.queue| ensures AskedFor(m, Post(s, msgs), s.queue[k].index) {
      RequestsAreRequests(m, s.queue[k].index);
      assert Includes(msgs, Requests(m, s.queue[k].index));
    }
  }

  /** The piece list grows by exactly what the message announces. */
  lemma HasAfter(m: Meta, s: PeerState, msg: Msg, i: nat)
    ensures i in Hear(m, s, msg).has <==> i in s.has || i in AnnouncedIn(m, Received(msg))
  {
  }

  /** The peer has heard msg and nothing was told, uploaded or started. */
  ghost predicate HeardOk(m: Meta, content: seq<byte>, s: PeerState, msg: Msg, s': PeerState)
    requires |content| == m.totalSize
  {
    && PeerOk(m, content, s')
    && Silent(m, Receive(s, msg), s')
    && s'.queue == s.queue
    && Told(m, s'.log) == Told(m, s.log)
    && Served(s'.log) == Served(s.log)
    && UploadedIn(s'.log) == UploadedIn(s.log)
    && StartsIn(s'.log) == StartsIn(s.log)
  }

  lemma HearFlag(m: Meta, content: seq<byte>, s: PeerState, msg: Msg)
    requires |content| == m.totalSize
    requires PeerOk(m, content, s) && s.stage.Talking?
    requires !msg.Bitfield? && !msg.Have? && !msg.Unchoke? && !msg.Interested?
    ensures HeardOk(m, content, s, msg, Hear(m, Receive(s, msg), msg))
  {
    hide ChokedBy, InterestedBy, Announced, Told, Served, Asked, UploadedIn, StartsIn, LastIn, Conformant, InFlightOk,
      Requests, QueueRequests, MaySend;
    Appended(m, content, s.log, Received(msg));
  }

  lemma HearPieces(m: Meta, content: seq<byte>, s: PeerState, msg: Msg)
    requires |content| == m.totalSize
    requires PeerOk(m, content, s) && s.stage.Talking?
    requires msg.Bitfield? || msg.Have?
    ensures HeardOk(m, content, s, msg, Hear(m, Receive(s, msg), msg))
  {
    hide ChokedBy, InterestedBy, Announced, Told, Served, Asked, UploadedIn, StartsIn, LastIn, Conformant, InFlightOk,
      Requests, QueueRequests, MaySend;
    Appended(m, content, s.log, Received(msg));
    var s1 := Receive(s, msg);
    forall i: nat ensures i in Hear(m, s1, msg).has <==> i in s.has || i in AnnouncedIn(m, Received(msg)) {
      HasAfter(m, s1, msg, i);
    }
  }

  lemma HearUnchoke(m: Meta, content: seq<byte>, s: PeerState)
    requires |content| == m.totalSize
    requires PeerOk(m, content, s) && s.stage.Talking?
    ensures HeardOk(m, content, s, Unchoke, Hear(m, Receive(s, Unchoke), Unchoke))
  {
    hide ChokedBy, InterestedBy, Announced, Told, Served, Asked, UploadedIn, StartsIn, LastIn, Conformant, InFlightOk,
      Requests, QueueRequests, MaySend;
    Appended(m, content, s.log, Received(Unchoke));
    UnchokeOk(m, content, Receive(s, Unchoke).(peerChoking := false));
  }

  lemma HearInterested(m: Meta, content: seq<byte>, s: PeerState)
    requires |content| == m.totalSize
    requires PeerOk(m, content, s) && s.stage.Talking?
    ensures HeardOk(m, content, s, Interested, Hear(m, Receive(s, Interested), Interested))
  {
    hide ChokedBy, InterestedBy, Announced, Told, Served, Asked, UploadedIn, StartsIn, LastIn, Conformant, InFlightOk,
      Requests, QueueRequests;
    Appended(m, content, s.log, Received(Interested));
    assert Outgoing([Unchoke]) == [Sent(Unchoke)];
    Appended(m, content, Receive(s, Interested).log, Sent(Unchoke));
  }

  /** Every message keeps the invariant, before the engine as a whole reacts to it. */
  lemma HearOk(m: Meta, content: seq<byte>, s: PeerState, msg: Msg)
    requires |content| == m.totalSize
    requires PeerOk(m, content, s) && s.stage.Talking?
    ensures HeardOk(m, content, s, msg, Hear(m, Receive(s, msg), msg))
  {
    hide *;
    match msg
    case Unchoke => HearUnchoke(m, content, s);
    case Interested => HearInterested(m, content, s);
    case Bitfield(_) => HearPieces(m, content, s, msg);
    case Have(_) => HearPieces(m, content, s, msg);
    case _ => HearFlag(m, content, s, msg);
  }

  predicate StartsAPiece(msg: Option<Msg>) {
    msg.Some? && (msg.value.Bitfield? || msg.value.Block?)
  }

  /** INTERESTED before a piece request. */
  lemma InterestShown(m: Meta, content: seq<byte>, s: PeerState)
    requires |content| == m.totalSize
    requires PeerOk(m, content, s) && s.stage.Talking?
    requires StartsAPiece(LastIn(s.log))
    ensures var s' := Post(s, [Interested]).(amInterested := true);
      && PeerOk(m, content, s')
      && s'.stage == s.stage && s'.ip == s.ip && s'.queue == s.queue && s'.has == s.has
      && s'.peerChoking == s.peerChoking && s'.amChoking == s.amChoking
      && Told(m, s'.log) == Told(m, s.log)
      && Served(s'.log) == Served(s.log)
      && UploadedIn(s'.log) == UploadedIn(s.log)
      && StartsIn(s'.log) == StartsIn(s.log) + 1
      && LastIn(s'.log) == LastIn(s.log)
  {
    hide ChokedBy, InterestedBy, Announced, Told, Served, Asked, UploadedIn, StartsIn, LastIn, Conformant, InFlightOk,
      Requests, QueueRequests;
    assert Outgoing([Interested]) == [Sent(Interested)];
    Appended(m, content, s.log, Sent(Interested));
  }

  lemma FreshInFlightOk(m: Meta, i: nat)
    requires i < |m.hashes|
    ensures InFlightOk(m, FreshInFlight(m, i))
  {
  }

  /** Starting a piece the peer has announced. */
  lemma StartPieceOk(m: Meta, content: seq<byte>, s: PeerState, i: nat)
    requires |content| == m.totalSize
    requires PeerOk(m, content, s) && s.stage.Talking?
    requires StartsAPiece(LastIn(s.log))
    requires i < |m.hashes| && i in s.has
    ensures var s' := StartPiece(m, s, i);
      && PeerOk(m, content, s')
      && s'.stage == s.stage && s'.ip == s.ip && s'.has == s.has && s'.amChoking == s.amChoking
      && s'.queue == s.queue + [FreshInFlight(m, i)]
      && Told(m, s'.log) == Told(m, s.log)
      && Served(s'.log) == Served(s.log)
      && UploadedIn(s'.log) == UploadedIn(s.log)
      && StartsIn(s'.log) == StartsIn(s.log) + 1
      && LastIn(s'.log) == LastIn(s.log)
  {
    hide ChokedBy, InterestedBy, Announced, Told, Served, Asked, UploadedIn, StartsIn, LastIn, Conformant, InFlightOk,
      Requests, QueueRequests, MaySend;
    InterestShown(m, content, s);
    FreshInFlightOk(m, i);
    var s1 := Post(s, [Interested]).(amInterested := true);
    var s2 := s1.(queue := s1.queue + [FreshInFlight(m, i)]);
    assert QueueOk(m, s2);
    if !s2.peerChoking {
      RequestsAllowed(m, content, s2, i);
      RequestsAreRequests(m, i);
      PostBatch(m, content, s2, Requests(m, i));
      var s3 := Post(s2, Requests(m, i));
      forall k | 0 <= k < |s3.queue| ensures AskedFor(m, s3, s3.queue[k].index) {
        if k < |s.queue| {
          assert AskedFor(m, s1, s.queue[k].index);
        }
      }
    }
  }

  /** HAVE for a piece the peer was not told of. */
  lemma SendHaveOk(m: Meta, content: seq<byte>, s: PeerState, i: nat)
    requires |content| == m.totalSize
    requires PeerOk(m, content, s)
    requires i < |m.hashes| && i !in Told(m, s.log)
    ensures var s' := SendHave(s, i);
      && PeerOk(m, content, s')
      && s'.(log := s.log) == s
      && Told(m, s'.log) == Told(m, s.log) + (if s.amChoking || s.stage.Closed? then {} else {i})
      && Served(s'.log) == Served(s.log)
      && UploadedIn(s'.log) == UploadedIn(s.log)
      && StartsIn(s'.log) == StartsIn(s.log)
      && LastIn(s'.log) == LastIn(s.log)
  {
    hide ChokedBy, InterestedBy, Announced, Told, Served, Asked, UploadedIn, StartsIn, LastIn, Conformant, InFlightOk,
      Requests, QueueRequests;
    assert Low32(i) == i;
    assert Outgoing([Have(i)]) == [Sent(Have(i))];
    Appended(m, content, s.log, Sent(Have(i)));
  }

  /** A queue with entry k gone is as good as before. */
  lemma RemovedOk(m: Meta, content: seq<byte>, s: PeerState, k: nat)
    requires |content| == m.totalSize
    requires FlagsOk(m, s) && QueueOk(m, s) && Conformant(m, content, s.log)
    requires !s.peerChoking ==> AllAsked(m, s)
    requires k < |s.queue|
    ensures var s' := s.(queue := RemoveAt(s.queue, k));
      && FlagsOk(m, s') && QueueOk(m, s') && Conformant(m, content, s'.log)
      && (!s'.peerChoking ==> AllAsked(m, s'))
  {
  }

  /** Cancelling a piece that has meanwhile come from elsewhere. */
  lemma CancelOk(m: Meta, content: seq<byte>, s: PeerState, k: nat)
    requires |content| == m.totalSize
    requires PeerOk(m, content, s) && s.stage.Talking?
    requires k < |s.queue|
    requires LastIn(s.log).Some? && LastIn(s.log).value.Block? && LastIn(s.log).value.index == s.queue[k].index
    ensures var s' := Post(s, Cancels(m, s.queue[k].index)).(queue := RemoveAt(s.queue, k));
      && PeerOk(m, content, s')
      && Silent(m, s, s')
  {
    hide ChokedBy, InterestedBy, Announced, Told, Served, Asked, UploadedIn, StartsIn, LastIn, Conformant, InFlightOk,
      Requests, QueueRequests, MaySend;
    var i := s.queue[k].index;
    var s1 := Post(s, Cancels(m, i));
    QueueIndex(m, s, k);
    CancelsAllowed(m, content, s, i);
    PostBatch(m, content, s, Cancels(m, i));
    if !s.peerChoking {
      forall j | 0 <= j < |s1.queue| ensures AskedFor(m, s1, s1.queue[j].index) {
        assert AskedFor(m, s, s.queue[j].index);
      }
    }
    RemovedOk(m, content, s1, k);
  }

  /** A stored block: the entry may be full now. */
  lemma FilledOk(m: Meta, q: InFlight, slot: nat, data: seq<byte>)
    requires InFlightOk(m, q) && slot < |q.slots|
    ensures var q' := Fill(q, slot, data);
      && q'.index == q.index && |q'.slots| == |q.slots|
      && (forall k | 0 <= k < |q'.slots| :: SlotOk(q'.slots[k]))
      && q'.haveBlocks <= |q'.slots|
      && (q'.haveBlocks != |q'.slots| ==> InFlightOk(m, q'))
  {
  }

  /** Entry k replaced by another for the same piece. */
  lemma ReplacedOk(m: Meta, content: seq<byte>, s: PeerState, k: nat, q: InFlight)
    requires |content| == m.totalSize
    requires PeerOk(m, content, s) && k < |s.queue| && q.index == s.queue[k].index && InFlightOk(m, q)
    ensures PeerOk(m, content, s.(queue := s.queue[k := q]))
  {
  }

  lemma CloseOk(m: Meta, content: seq<byte>, s: PeerState)
    requires |content| == m.totalSize
    requires PeerOk(m, content, s)
    ensures PeerOk(m, content, Close(s))
  {
  }

  /** A block in answer to the request just received. */
  lemma AnswerOk(m: Meta, content: seq<byte>, s: PeerState, i: u32, begin: u32, data: seq<byte>)
    requires |content| == m.totalSize
    requires PeerOk(m, content, s) && s.stage.Talking?
    requires 1 <= |data| <= MAX_BLOCK_REQUEST_SIZE
    requires s.log != [] && Last(s.log) == Received(Request(i, begin, |data|))
    requires s.peerInterested && !s.amChoking && i < |m.hashes|
    requires Low32(begin + |data|) <= PieceSize(m, i)
    requires CarriesContent(m, content, i, begin, data)
    ensures var s' := Post(s, [Block(i, begin, data)]);
      && PeerOk(m, content, s')
      && s'.(log := s.log) == s
      && Told(m, s'.log) == Told(m, s.log)
      && Served(s'.log) == Served(s.log) + {i}
      && UploadedIn(s'.log) == UploadedIn(s.log) + |data|
      && StartsIn(s'.log) == StartsIn(s.log)
  {
  }

  /** The bitfield of an incoming peer. */
  lemma WelcomeOk(m: Meta, content: seq<byte>, s: PeerState, bits: seq<bool>)
    requires |content| == m.totalSize
    requires PeerOk(m, content, s) && s.stage.Greeting?
    requires |bits| == |m.hashes|
    ensures var s1 := s.(stage := Talking);
      var s' := if s.incoming then Post(s1, [Bitfield(Bitfields.RawBitfield(bits))]) else s1;
      && PeerOk(m, content, s')
      && s'.(log := s.log, stage := s.stage) == s && s'.stage == Talking
      && (forall i: nat :: i in Told(m, s'.log) <==> s.incoming && Bitfields.At(bits, i))
      && UploadedIn(s'.log) == UploadedIn(s.log) == 0
      && StartsIn(s'.log) == StartsIn(s.log) == 0
      && Served(s'.log) == {}
  {
    if s.incoming {
      var raw := Bitfields.RawBitfield(bits);
      assert Outgoing([Bitfield(raw)]) == [Sent(Bitfield(raw))];
      Bitfields.BitfieldRoundTrip(bits);
      Appended(m, content, s.log, Sent(Bitfield(raw)));
      assert ToldIn(m, Sent(Bitfield(raw))) == Bitfields.IndexSet(raw, |bits|);
      forall i: nat ensures i in Bitfields.IndexSet(raw, |bits|) <==> Bitfields.At(bits, i) {
        assert i in Bitfields.Indices(raw, |bits|) <==> Bitfields.At(bits, i);
      }
    } else {
      assert Told(m, s.log) == {};
    }
  }
}
