/** Which addresses are dialled (connectToPeers, handshaked, removePeer in src/torrent/torrent.cpp). */
module Dialling {
  import opened Transcoder
  import opened Layout
  import opened Wire
  import opened Protocol
  import opened Swarm
  import opened Unchanged
  import opened SwarmInvariant
  import opened Safety

  predicate Live(s: PeerState) {
    !s.stage.Closed?
  }

  /** Pending peers are black-listed, talking ones are not but are active; no two live peers share an address. */
  ghost predicate DialOk(w: World) {
    && (forall p, q | 0 <= p < q < |w.peers| && Live(w.peers[p]) && Live(w.peers[q]) :: w.peers[p].ip != w.peers[q].ip)
    && (forall p | 0 <= p < |w.peers| :: PeerDialOk(w, p, w.peers[p]))
    && (forall a <- w.active :: a < |w.peers| && (w.peers[a].stage.Talking? || w.peers[a].stage.Closed?))
    && forall x, y | 0 <= x < y < |w.active| :: w.active[x] != w.active[y]
  }

  ghost predicate PeerDialOk(w: World, p: nat, s: PeerState) {
    && s.ip != 0
    && (s.stage.Dialling? || s.stage.Greeting? ==> s.ip in w.blackListed)
    && (s.stage.Talking? ==> s.ip !in w.blackListed && p in w.active)
  }

  /** The addresses of the active peers that are connected. */
  function ActiveIps(w: World): set<u32>
    requires forall a <- w.active :: a < |w.peers|
  {
    set a <- w.active | !w.peers[a].stage.Closed? :: w.peers[a].ip
  }

  /** Only the stages and addresses of the peers matter, and stages may only go to Closed. */
  ghost predicate OnlyCloses(w: World, w': World) {
    && |w'.peers| == |w.peers| && w'.active == w.active && w'.blackListed == w.blackListed
    && forall p | 0 <= p < |w.peers| ::
         w'.peers[p].ip == w.peers[p].ip && (w'.peers[p].stage == w.peers[p].stage || w'.peers[p].stage.Closed?)
  }

  lemma OnlyClosesOk(w: World, w': World)
    requires DialOk(w) && OnlyCloses(w, w')
    ensures DialOk(w')
  {
  }

  lemma DialOneOk(w: World, ip: u32)
    requires DialOk(w)
    ensures DialOk(DialOne(w, ip))
    ensures var w' := DialOne(w, ip);
      && w.blackListed <= w'.blackListed && w'.active == w.active && |w.peers| <= |w'.peers|
      && (forall p | 0 <= p < |w.peers| :: w'.peers[p] == w.peers[p])
      && (ip != 0 ==> ip in w'.blackListed + ActiveIps(w'))
  {
  }

  /** Each of the first k addresses, if not zero, is black-listed or active. */
  ghost predicate Handled(w: World, records: seq<byte>, k: nat)
    requires forall a <- w.active :: a < |w.peers|
    requires 6 * k <= |records|
  {
    forall j | 0 <= j < k && RecordIp(records, j) != 0 :: RecordIp(records, j) in w.blackListed + ActiveIps(w)
  }

  /** After a tracker response every nonzero address in it is black-listed or active. */
  lemma {:induction false} ResponseOk(w: World, records: seq<byte>, k: nat)
    requires DialOk(w) && 6 * k <= |records|
    ensures var w' := DialUpTo(w, records, k);
      && DialOk(w')
      && w.blackListed <= w'.blackListed && w'.active == w.active && |w.peers| <= |w'.peers|
      && (forall p | 0 <= p < |w.peers| :: w'.peers[p] == w.peers[p])
      && Handled(w', records, k)
  {
    hide RecordIp;
    if k != 0 {
      ResponseOk(w, records, k - 1);
      hide DialOne;
      var w1, w' := DialUpTo(w, records, k - 1), DialUpTo(w, records, k);
      DialOneOk(w1, RecordIp(records, k - 1));
      assert ActiveIps(w1) == ActiveIps(w');
    }
  }

  lemma FaultDialOk(w: World, p: nat)
    requires DialOk(w) && p < |w.peers| && Live(w.peers[p])
    ensures DialOk(Fault(w, p))
  {
    var w', ip := Fault(w, p), RawIp(w.peers[p]);
    match FindActive(w.peers, w.active, ip)
    case None => 
      forall q | 0 <= q < |w.peers| ensures PeerDialOk(w', q, w'.peers[q]) {
        assert PeerDialOk(w, q, w.peers[q]);
      }
    case Some(x) =>
      var a := w.active[x];
      assert a in w.active;
      assert w'.active == RemoveAt(w.active, x);
      forall q | 0 <= q < |w.peers| ensures PeerDialOk(w', q, w'.peers[q]) {
        assert PeerDialOk(w, q, w.peers[q]);
        if q != p && w.peers[q].stage.Talking? {
          StaysActive(w, x, q);
        }
      }
      forall b | b in w'.active ensures b in w.active {
      }
  }

  lemma StaysActive(w: World, x: nat, q: nat)
    requires x < |w.active| && q in w.active && q != w.active[x]
    ensures q in RemoveAt(w.active, x)
  {
  }

  lemma WelcomeDialOk(w: World, p: nat)
    requires DialOk(w) && p < |w.peers| && w.peers[p].stage.Greeting?
    ensures DialOk(Welcome(w, p))
  {
  }

  // ---------- messages ----------

  lemma CompleteOnlyCloses(m: Meta, w: World, i: nat, data: seq<byte>)
    ensures OnlyCloses(w, CompletePiece(m, w, i, data))
  {
    hide Broadcast, WriteAt, Accepts;
    forall p | 0 <= p < |w.peers| ensures w.peers[p].ip == CompletePiece(m, w, i, data).peers[p].ip
        && w.peers[p].stage == CompletePiece(m, w, i, data).peers[p].stage {
      BroadcastKeeps(w.peers, w.active, i, p);
    }
  }

  lemma SelectOnlyCloses(m: Meta, w: World, p: nat)
    requires p < |w.peers|
    ensures OnlyCloses(w, SelectUnlessComplete(m, w, p))
  {
  }

  lemma AssembleOnlyCloses(m: Meta, w: World, p: nat, k: nat)
    requires p < |w.peers| && k < |w.peers[p].queue|
    ensures OnlyCloses(w, Assemble(m, w, p, k))
  {
    hide CompletePiece, SelectUnlessComplete, Gather;
    var q := w.peers[p].queue[k];
    CompleteOnlyCloses(m, w, q.index, Gather(q.slots));
    var w1 := CompletePiece(m, w, q.index, Gather(q.slots));
    var queue := w1.peers[p].queue;
    SelectOnlyCloses(m, if k < |queue| then WithQueue(w1, p, RemoveAt(queue, k)) else w1, p);
  }

  lemma OnBlockDialOk(m: Meta, w: World, p: nat, i: u32, begin: u32, data: seq<byte>)
    requires DialOk(w) && p < |w.peers| && Live(w.peers[p])
    ensures DialOk(OnBlock(m, w, p, i, begin, data))
  {
    hide Assemble, Cancels, Fill, Fault, DialOk;
    FaultDialOk(w, p);
    var w' := OnBlock(m, w, p, i, begin, data);
    match FindPiece(w.peers[p].queue, i)
    case None =>
    case Some(k) =>
      var queue, slot := w.peers[p].queue, begin / MAX_BLOCK_REQUEST_SIZE;
      if |data| <= MAX_BLOCK_REQUEST_SIZE && slot < |queue[k].slots| {
        AssembleOnlyCloses(m, WithQueue(w, p, queue[k := Fill(queue[k], slot, data)]), p, k);
        OnlyClosesOk(w, w');
      }
  }

  lemma OnRequestDialOk(m: Meta, w: World, p: nat, i: u32, begin: u32, length: u32, heap: seq<byte>)
    requires DialOk(w) && p < |w.peers| && Live(w.peers[p])
    ensures DialOk(OnRequest(m, w, p, i, begin, length, heap))
  {
    hide Fault, DialOk, BlockBuffer, ReadAt, PieceSize;
    FaultDialOk(w, p);
    var w' := OnRequest(m, w, p, i, begin, length, heap);
    if w' != Fault(w, p) {
      assert OnlyCloses(w, w');
      OnlyClosesOk(w, w');
    }
  }

  lemma OnFrameDialOk(m: Meta, w: World, p: nat, frame: Frame, heap: seq<byte>)
    requires DialOk(w) && p < |w.peers| && Live(w.peers[p])
    ensures DialOk(OnFrame(m, w, p, frame, heap))
  {
    hide DialOk, Fault, Decode, OnRequest, OnBlock, SelectUnlessComplete;
    FaultDialOk(w, p);
    match Decode(frame)
    case Malformed =>
    case Unknown =>
    case Parsed(msg) =>
      var w1 := Put(w, p, Receive(w.peers[p], msg));
      OnlyClosesOk(w, w1);
      HearKeeps(m, w1.peers[p], msg);
      var w2 := Put(w1, p, Hear(m, w1.peers[p], msg));
      hide Hear;
      OnlyClosesOk(w, w2);
      match msg
      case Bitfield(_) =>
        SelectOnlyCloses(m, w2, p);
        OnlyClosesOk(w2, SelectUnlessComplete(m, w2, p));
      case Request(i, begin, length) => OnRequestDialOk(m, w1, p, i, begin, length, heap);
      case Block(i, begin, data) => OnBlockDialOk(m, w1, p, i, begin, data);
      case _ =>
  }

  lemma {:induction false} CloseAllOnlyCloses(w: World, list: seq<nat>)
    ensures OnlyCloses(w, w.(peers := CloseAll(w.peers, list)))
  {
    if list != [] {
      CloseAllOnlyCloses(w, list[..|list| - 1]);
    }
  }

  lemma ConnectedDialOk(w: World, p: nat)
    requires DialOk(w) && p < |w.peers| && w.peers[p].stage.Dialling?
    ensures DialOk(Put(w, p, w.peers[p].(stage := Greeting)))
  {
  }

  lemma StepDialOk(m: Meta, w: World, e: Event)
    requires DialOk(w) && Enabled(w, e) && !e.Accepted?
    ensures DialOk(Step(m, w, e))
  {
    hide DialOk, OnFrame, Welcome, Fault, DialUpTo, CloseAll, ReadsOutOfRange;
    match e
    case TrackerResponse(records) => ResponseOk(w, records, |records| / 6);
    case Connected(p) => ConnectedDialOk(w, p);
    case Handshaken(p) => WelcomeDialOk(w, p);
    case Lost(p) => FaultDialOk(w, p);
    case Arrived(p, frame, heap) => OnFrameDialOk(m, w, p, frame, heap);
    case Shutdown =>
      CloseAllOnlyCloses(w, w.active);
      OnlyClosesOk(w, Step(m, w, e));
  }

  /** No live peer has this address. */
  predicate Unused(w: World, ip: u32) {
    forall p | 0 <= p < |w.peers| && Live(w.peers[p]) :: w.peers[p].ip != ip
  }

  /** An incoming connection keeps this exactly when no live peer has its address; and the address is black-listed
      and active at once exactly when a connected active peer has it. */
  lemma AcceptedExactly(m: Meta, w: World, ip: u32)
    requires DialOk(w) && ip != 0
    ensures var w' := Step(m, w, Accepted(ip));
      && (DialOk(w') <==> Unused(w, ip))
      && (forall a <- w'.active :: a < |w'.peers|)
      && (w'.blackListed !! ActiveIps(w') <==> ip !in ActiveIps(w))
  {
    var w' := Step(m, w, Accepted(ip));
    assert ActiveIps(w') == ActiveIps(w);
    ActiveNotListed(w);
    assert forall p | 0 <= p < |w.peers| :: w'.peers[p] == w.peers[p];
    if Unused(w, ip) {
      forall p | 0 <= p < |w'.peers| ensures PeerDialOk(w', p, w'.peers[p]) {
        assert p < |w.peers| ==> PeerDialOk(w, p, w.peers[p]);
      }
    } else {
      var p :| 0 <= p < |w.peers| && Live(w.peers[p]) && w.peers[p].ip == ip;
      assert w'.peers[p] == w.peers[p] && w'.peers[|w.peers|] == NewPeer(ip, true);
    }
  }

  /** Every incoming connection among the first k events is from an address that no live peer has. */
  ghost predicate FreshCalls(ws: seq<World>, es: seq<Event>, k: nat)
    requires k <= |es| < |ws|
  {
    forall j | 0 <= j < k && es[j].Accepted? :: Unused(ws[j], es[j].ip)
  }

  /** As long as nobody connects to us from an address in use: pending and live connections have distinct
      addresses, so no address is dialled while an earlier dial is pending or its connection live; black-listed and
      active addresses are disjoint; and a tracker response leaves each of its nonzero addresses in one of the two. */
  lemma {:induction false} DialledOnce(m: Meta, ws: seq<World>, es: seq<Event>, k: nat)
    requires IsRun(m, ws, es) && k < |ws| && FreshCalls(ws, es, k)
    ensures DialOk(ws[k])
    ensures forall p, q | 0 <= p < q < |ws[k].peers| && Live(ws[k].peers[p]) && Live(ws[k].peers[q]) ::
      ws[k].peers[p].ip != ws[k].peers[q].ip
    ensures ws[k].blackListed !! ActiveIps(ws[k])
    ensures 0 < k && es[k - 1].TrackerResponse? ==> Handled(ws[k], es[k - 1].records, |es[k - 1].records| / 6)
  {
    if k != 0 {
      var w, e := ws[k - 1], es[k - 1];
      DialledOnce(m, ws, es, k - 1);
      if e.Accepted? {
        AcceptedExactly(m, w, e.ip);
      } else {
        StepDialOk(m, w, e);
      }
      if e.TrackerResponse? {
        ResponseOk(w, e.records, |e.records| / 6);
      }
    }
    ActiveNotListed(ws[k]);
  }

  /** And only as long: in every run the states so far are all in order exactly when no connection has come in from
      an address in use. */
  lemma {:induction false} DialledExactly(m: Meta, ws: seq<World>, es: seq<Event>, k: nat)
    requires IsRun(m, ws, es) && k < |ws|
    ensures (forall j | 0 <= j <= k :: DialOk(ws[j])) <==> FreshCalls(ws, es, k)
  {
    hide DialOk, Step, Unused, Handled;
    if FreshCalls(ws, es, k) {
      forall j | 0 <= j <= k ensures DialOk(ws[j]) {
        DialledOnce(m, ws, es, j);
      }
    }
    if forall j | 0 <= j <= k :: DialOk(ws[j]) {
      forall j | 0 <= j < k && es[j].Accepted? ensures Unused(ws[j], es[j].ip) {
        CallInOrder(m, ws, es, j);
      }
    }
  }

  lemma CallInOrder(m: Meta, ws: seq<World>, es: seq<Event>, j: nat)
    requires IsRun(m, ws, es) && j < |es| && es[j].Accepted?
    requires DialOk(ws[j]) && DialOk(ws[j + 1])
    ensures Unused(ws[j], es[j].ip)
  {
    assert Enabled(ws[j], es[j]);
    AcceptedExactly(m, ws[j], es[j].ip);
  }

  lemma ActiveNotListed(w: World)
    requires DialOk(w)
    ensures w.blackListed !! ActiveIps(w)
  {
  }

  // ---------- removal by address ----------

  /** When peer p fails, exactly p leaves the connected active peers. */
  ghost predicate RemovesOnly(w: World, p: nat)
    requires p < |w.peers|
  {
    forall q | 0 <= q < |w.peers| && Live(w.peers[q]) :: q in Fault(w, p).active <==> q in w.active && q != p
  }

  predicate Before(active: seq<nat>, p: nat, q: nat) {
    exists x, y | 0 <= x < y < |active| :: active[x] == p && active[y] == q
  }

  /** Every other connected active peer with the address of p stands behind p in the list. */
  ghost predicate StandsFirst(w: World, p: nat)
    requires p < |w.peers|
  {
    forall q | 0 <= q < |w.peers| && Live(w.peers[q]) && q in w.active && q != p
               && RawIp(w.peers[q]) == RawIp(w.peers[p]) ::
      Before(w.active, p, q)
  }

  lemma RemovalByAddress(w: World, p: nat)
    requires ActiveOk(w) && p < |w.peers| && Live(w.peers[p])
    requires forall q | 0 <= q < |w.peers| :: w.peers[q].ip != 0
    ensures RemovesOnly(w, p) <==> StandsFirst(w, p)
  {
  }

  /** In every reachable state, removePeer, which goes by address, takes out the failed peer and no other connected
      one exactly when no connected peer with the same address stands before it in the list. */
  lemma RemovalExactly(m: Meta, ws: seq<World>, es: seq<Event>, k: nat, p: nat)
    requires IsRun(m, ws, es) && k < |ws| && p < |ws[k].peers| && Live(ws[k].peers[p])
    ensures RemovesOnly(ws[k], p) <==> StandsFirst(ws[k], p)
  {
    RunOk(m, AnyContent(m), ws, es, k);
    hide RemovesOnly, StandsFirst;
    RemovalByAddress(ws[k], p);
  }
}
