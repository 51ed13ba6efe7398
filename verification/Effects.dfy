/** What each event changes in the connections: who is active, connected, black-listed, and new. */
module Effects {
  import opened Wrappers
  import opened Transcoder
  import opened Layout
  import opened Wire
  import opened Protocol
  import opened Swarm
  import opened Unchanged
  import opened LedgerInvariant
  import opened SwarmInvariant
  import opened Safety
  import opened Replies
  import Bitfields

  // ---------- what stays ----------

  /** The same peers with the same addresses and stages, the same active list and black list. */
  ghost predicate SameConnections(w: World, w': World) {
    && |w'.peers| == |w.peers| && w'.active == w.active && w'.blackListed == w.blackListed
    && forall q | 0 <= q < |w.peers| ::
         && w'.peers[q].ip == w.peers[q].ip && w'.peers[q].incoming == w.peers[q].incoming
         && w'.peers[q].stage == w.peers[q].stage
  }

  lemma SelectSame(m: Meta, w: World, p: nat)
    requires p < |w.peers|
    ensures SameConnections(w, SelectUnlessComplete(m, w, p))
  {
    hide Requests, FreshInFlight, Choice;
  }

  lemma CompleteSame(m: Meta, w: World, i: nat, data: seq<byte>)
    ensures SameConnections(w, CompletePiece(m, w, i, data))
  {
    forall q | 0 <= q < |w.peers| ensures CompletePiece(m, w, i, data).peers[q]
        == w.peers[q].(log := CompletePiece(m, w, i, data).peers[q].log) {
      CompleteKeeps(m, w, i, data, q);
    }
    hide Broadcast, WriteAt, Accepts;
  }

  lemma AssembleSame(m: Meta, w: World, p: nat, k: nat)
    requires p < |w.peers| && k < |w.peers[p].queue|
    ensures SameConnections(w, Assemble(m, w, p, k))
  {
    hide CompletePiece, SelectUnlessComplete, Gather;
    var q := w.peers[p].queue[k];
    CompleteSame(m, w, q.index, Gather(q.slots));
    var w1 := CompletePiece(m, w, q.index, Gather(q.slots));
    var queue := w1.peers[p].queue;
    SelectSame(m, if k < |queue| then WithQueue(w1, p, RemoveAt(queue, k)) else w1, p);
  }

  lemma UseSame(m: Meta, w: World, p: nat, k: nat, slot: nat, data: seq<byte>)
    requires p < |w.peers| && k < |w.peers[p].queue| && slot < |w.peers[p].queue[k].slots|
    ensures SameConnections(w, UseBlock(m, w, p, k, slot, data))
  {
    hide Assemble, Cancels, Fill, Post;
    var queue := w.peers[p].queue;
    PostKeeps(w.peers[p], Cancels(m, queue[k].index));
    AssembleSame(m, WithQueue(w, p, queue[k := Fill(queue[k], slot, data)]), p, k);
  }

  lemma HearSame(m: Meta, s: PeerState, msg: Msg)
    ensures var s' := Hear(m, s, msg); s'.ip == s.ip && s'.incoming == s.incoming && s'.stage == s.stage
  {
    hide QueueRequests;
  }

  // ---------- failure ----------

  /** The address of a peer as the code can see it: zero unless connected. */
  function Address(s: PeerState): u32 {
    if s.stage == Greeting || s.stage == Talking then s.ip else 0
  }

  function AddressAt(w: World, a: nat): u32 {
    if a < |w.peers| then Address(w.peers[a]) else 0
  }

  /** Entry x of the active list is the first with this address. */
  predicate FirstAt(w: World, x: nat, ip: u32) {
    x < |w.active| && AddressAt(w, w.active[x]) == ip && forall y | 0 <= y < x :: AddressAt(w, w.active[y]) != ip
  }

  /** Peer p fails: the first active entry with its address goes, and the others keep their order. */
  ghost predicate Removes(w: World, active: seq<nat>, p: nat)
    requires p < |w.peers|
  {
    var ip := Address(w.peers[p]);
    if exists x: nat :: FirstAt(w, x, ip) then
      exists x: nat :: FirstAt(w, x, ip) && active == w.active[..x] + w.active[x + 1..]
    else
      active == w.active
  }

  lemma SameAddresses(w: World, w1: World, x: nat, ip: u32)
    requires SameConnections(w, w1)
    ensures FirstAt(w1, x, ip) <==> FirstAt(w, x, ip)
  {
  }

  lemma SameRemoval(w: World, w1: World, active: seq<nat>, p: nat)
    requires SameConnections(w, w1) && p < |w.peers| && Removes(w1, active, p)
    ensures Removes(w, active, p)
  {
    hide FirstAt;
    forall x: nat ensures FirstAt(w1, x, Address(w.peers[p])) <==> FirstAt(w, x, Address(w.peers[p])) {
      SameAddresses(w, w1, x, Address(w.peers[p]));
    }
  }

  lemma FaultRemoves(w: World, p: nat)
    requires p < |w.peers|
    ensures var w' := Fault(w, p);
      && w' == w.(peers := w.peers[p := w.peers[p].(stage := Closed)], active := w'.active)
      && Removes(w, w'.active, p)
  {
    var ip := RawIp(w.peers[p]);
    assert forall a: nat :: AddressAt(w, a) == RawIpAt(w.peers, a);
    match FindActive(w.peers, w.active, ip)
    case None => assert forall x: nat :: !FirstAt(w, x, ip);
    case Some(x) => assert FirstAt(w, x, ip);
  }

  // ---------- messages ----------

  lemma OnBlockConnections(m: Meta, w: World, p: nat, i: u32, begin: u32, data: seq<byte>)
    requires p < |w.peers|
    ensures var w' := OnBlock(m, w, p, i, begin, data);
      if Unasked(w.peers[p], i, begin, |data|) then w' == Fault(w, p) else SameConnections(w, w')
  {
    hide UseBlock, Fault, IsFirstFor;
    var queue, slot := w.peers[p].queue, begin / MAX_BLOCK_REQUEST_SIZE;
    match FindPiece(queue, i)
    case None => NoneFirst(queue, i);
    case Some(k) =>
      FoundFirst(queue, i, k);
      if slot < |queue[k].slots| {
        UseSame(m, w, p, k, slot, data);
      }
  }

  lemma NoneFirst(queue: seq<InFlight>, i: nat)
    requires FindPiece(queue, i).None?
    ensures forall k :: !IsFirstFor(queue, i, k)
  {
  }

  lemma OnRequestConnections(m: Meta, w: World, p: nat, i: u32, begin: u32, length: u32, heap: seq<byte>)
    requires p < |w.peers|
    ensures var s, w' := w.peers[p], OnRequest(m, w, p, i, begin, length, heap);
      if Rude(s, length) then w' == Fault(w, p)
      else if PastEnd(m, w, i, begin, length) then w' == Put(w, p, s.(stage := Closed))
      else SameConnections(w, w')
  {
    hide Fault, ReadAt, BlockBuffer, PieceSize;
  }

  /** What a frame does to the connections. */
  ghost predicate ArrivalOk(m: Meta, w: World, p: nat, frame: Frame, w': World)
    requires p < |w.peers|
  {
    && |w'.peers| == |w.peers| && w'.blackListed == w.blackListed
    && (forall q | 0 <= q < |w.peers| ::
          && w'.peers[q].ip == w.peers[q].ip && w'.peers[q].incoming == w.peers[q].incoming
          && w'.peers[q].stage ==
             if q == p && (Fails(w.peers[p], frame) || AsksPastEnd(m, w, frame)) then Closed else w.peers[q].stage)
    && if Fails(w.peers[p], frame) then Removes(w, w'.active, p) else w'.active == w.active
  }

  lemma OnFrameConnections(m: Meta, w: World, p: nat, frame: Frame, heap: seq<byte>)
    requires p < |w.peers|
    ensures ArrivalOk(m, w, p, frame, OnFrame(m, w, p, frame, heap))
  {
    hide Decode, OnBlock, OnRequest, Hear, SelectUnlessComplete, Removes, Rude, PastEnd, Unasked, WrongSize, Number,
      Fault;
    ReadExactly(frame);
    FaultRemoves(w, p);
    match Decode(frame)
    case Malformed =>
    case Unknown =>
    case Parsed(msg) => OnMessageConnections(m, w, p, frame, msg, heap);
  }

  lemma OnMessageConnections(m: Meta, w: World, p: nat, frame: Frame, msg: Msg, heap: seq<byte>)
    requires p < |w.peers| && Decode(frame) == Parsed(msg)
    ensures ArrivalOk(m, w, p, frame, OnMessage(m, Put(w, p, Receive(w.peers[p], msg)), p, msg, heap))
  {
    hide Decode, OnBlock, OnRequest, Hear, SelectUnlessComplete, Removes, Rude, PastEnd, Unasked, WrongSize, Number,
      Fault;
    ReadExactly(frame);
    var w1 := Put(w, p, Receive(w.peers[p], msg));
    SameJudgement(m, w, p, msg);
    FaultRemoves(w1, p);
    SameRemoval(w, w1, Fault(w1, p).active, p);
    HearSame(m, w1.peers[p], msg);
    var w2 := Put(w1, p, Hear(m, w1.peers[p], msg));
    match msg
    case Bitfield(_) => SelectSame(m, w2, p);
    case Request(i, begin, length) => OnRequestConnections(m, w1, p, i, begin, length, heap);
    case Block(i, begin, data) => OnBlockConnections(m, w1, p, i, begin, data);
    case _ =>
  }

  /** Noting a message in the log changes no judgement of it. */
  lemma SameJudgement(m: Meta, w: World, p: nat, msg: Msg)
    requires p < |w.peers|
    ensures var w1 := Put(w, p, Receive(w.peers[p], msg));
      && SameConnections(w, w1)
      && (forall length :: Rude(w1.peers[p], length) == Rude(w.peers[p], length))
      && (forall i, begin, length :: PastEnd(m, w1, i, begin, length) == PastEnd(m, w, i, begin, length))
      && forall i, begin, size :: Unasked(w1.peers[p], i, begin, size) == Unasked(w.peers[p], i, begin, size)
  {
    hide PieceSize, IsFirstFor;
  }

  // ---------- a tracker response ----------

  /** One of the first k records of six bytes has this address, the first byte its lowest. */
  predicate Listed(records: seq<byte>, k: nat, ip: u32)
    requires 6 * k <= |records|
  {
    exists j | 0 <= j < k :: LittleEndian(records[6 * j..6 * j + 4]) == ip
  }

  /** An address of a record that is not zero, not black-listed, and not that of an active peer. */
  ghost predicate Wanted(w: World, records: seq<byte>, k: nat, ip: u32)
    requires 6 * k <= |records|
  {
    && Listed(records, k, ip) && ip != 0 && ip !in w.blackListed
    && forall a <- w.active :: AddressAt(w, a) != ip
  }

  /** One new peer for each wanted address, dialled and otherwise blank; those addresses are black-listed; and nothing
      else happens. */
  ghost predicate Dials(w: World, records: seq<byte>, k: nat, w': World)
    requires 6 * k <= |records|
  {
    && w' == w.(peers := w'.peers, blackListed := w'.blackListed)
    && |w.peers| <= |w'.peers| && w'.peers[..|w.peers|] == w.peers
    && (forall q | |w.peers| <= q < |w'.peers| ::
          && Wanted(w, records, k, w'.peers[q].ip)
          && w'.peers[q] == PeerState(w'.peers[q].ip, false, Dialling, true, false, true, false, [], [], []))
    && (forall q, r | |w.peers| <= q < r < |w'.peers| :: w'.peers[q].ip != w'.peers[r].ip)
    && (forall ip: u32 | Wanted(w, records, k, ip) :: exists q | |w.peers| <= q < |w'.peers| :: w'.peers[q].ip == ip)
    && forall ip: u32 :: ip in w'.blackListed <==> ip in w.blackListed || Wanted(w, records, k, ip)
  }

  lemma {:induction false} DialsUpTo(w: World, records: seq<byte>, k: nat)
    requires 6 * k <= |records|
    ensures Dials(w, records, k, DialUpTo(w, records, k))
  {
    hide LittleEndian, DialOne, AddressAt, RecordIp;
    if k != 0 {
      DialsUpTo(w, records, k - 1);
      var ip := RecordIp(records, k - 1);
      RecordNumber(records, k - 1);
      forall x: u32 ensures Listed(records, k, x) <==> Listed(records, k - 1, x) || x == ip {
        ListedNext(records, k, x);
      }
      DialsOne(w, records, k, DialUpTo(w, records, k - 1), ip);
    }
  }

  lemma RecordNumber(records: seq<byte>, j: nat)
    requires 6 * j + 6 <= |records|
    ensures RecordIp(records, j) == LittleEndian(records[6 * j..6 * j + 4])
  {
    hide LittleEndian, ReadLE32;
    ReadsDigits(records[6 * j..6 * j + 4]);
  }

  lemma ListedNext(records: seq<byte>, k: nat, ip: u32)
    requires 0 < k && 6 * k <= |records|
    ensures var last := 6 * (k - 1);
      Listed(records, k, ip) <==> Listed(records, k - 1, ip) || ip == LittleEndian(records[last..last + 4])
  {
    hide LittleEndian;
    if Listed(records, k, ip) && !Listed(records, k - 1, ip) {
      var j :| 0 <= j < k && LittleEndian(records[6 * j..6 * j + 4]) == ip;
      assert j == k - 1;
    }
  }

  lemma DialsOne(w: World, records: seq<byte>, k: nat, w1: World, ip: u32)
    requires 0 < k && 6 * k <= |records|
    requires Dials(w, records, k - 1, w1)
    requires forall x: u32 :: Listed(records, k, x) <==> Listed(records, k - 1, x) || x == ip
    ensures Dials(w, records, k, DialOne(w1, ip))
  {
    hide Listed, FindActive;
    if ip != 0 {
      ActiveSeen(w, w1, ip);
    }
    var w' := DialOne(w1, ip);
    if w' != w1 {
      assert w'.peers[|w1.peers|] == NewPeer(ip, false);
      forall x: u32 | Wanted(w, records, k, x) ensures exists q | |w.peers| <= q < |w'.peers| :: w'.peers[q].ip == x {
        if x == ip {
          assert w'.peers[|w1.peers|].ip == x;
        } else {
          var q :| |w.peers| <= q < |w1.peers| && w1.peers[q].ip == x;
          assert w'.peers[q].ip == x;
        }
      }
    }
  }

  lemma ActiveSeen(w: World, w1: World, ip: u32)
    requires w1.active == w.active && |w.peers| <= |w1.peers| && w1.peers[..|w.peers|] == w.peers && ip != 0
    requires forall q | |w.peers| <= q < |w1.peers| :: w1.peers[q].stage.Dialling?
    ensures FindActive(w1.peers, w1.active, ip).Some? <==> exists a <- w.active :: AddressAt(w, a) == ip
  {
    forall a: nat ensures RawIpAt(w1.peers, a) == ip <==> AddressAt(w, a) == ip {
      if a < |w.peers| {
        assert w1.peers[a] == w1.peers[..|w.peers|][a];
      }
    }
    hide AddressAt, RawIpAt;
    match FindActive(w1.peers, w1.active, ip)
    case None =>
    case Some(x) => assert w.active[x] in w.active;
  }

  // ---------- every event ----------

  /** What an event does to the connections, and all that the events other than messages do. */
  ghost predicate EffectOk(m: Meta, w: World, e: Event, w': World) {
    match e
    case TrackerResponse(records) => |records| % 6 == 0 && Dials(w, records, |records| / 6, w')
    case Accepted(ip) =>
      var s := PeerState(ip, true, Greeting, true, false, true, false, [], [], []);
      w' == w.(peers := w.peers + [s], blackListed := w.blackListed + {ip})
    case Connected(p) => p < |w.peers| && w' == w.(peers := w.peers[p := w.peers[p].(stage := Greeting)])
    case Handshaken(p) => p < |w.peers| && GreetingOk(w, p, w')
    case Lost(p) =>
      && p < |w.peers|
      && w' == w.(peers := w.peers[p := w.peers[p].(stage := Closed)], active := w'.active)
      && Removes(w, w'.active, p)
    case Arrived(p, frame, _) => p < |w.peers| && ArrivalOk(m, w, p, frame, w')
    case Shutdown =>
      && w' == w.(peers := w'.peers) && |w'.peers| == |w.peers|
      && forall q | 0 <= q < |w.peers| ::
           w'.peers[q] == if q in w.active then w.peers[q].(stage := Closed) else w.peers[q]
  }

  /** A handshake: the peer talks, stands last in the active list and is no longer black-listed; if it connected to us
      it is sent one bitfield, in which piece k is the bit of weight 2^(7 - k % 8) of byte k / 8. */
  ghost predicate GreetingOk(w: World, p: nat, w': World)
    requires p < |w.peers|
  {
    var s := w.peers[p];
    && |w'.peers| == |w.peers|
    && w' == w.(peers := w.peers[p := w'.peers[p]], active := w.active + [p], blackListed := w.blackListed - {s.ip})
    && if s.incoming then exists raw :: IsBitfieldOf(w.bitfield, raw)
                                     && w'.peers[p] == s.(stage := Talking, log := s.log + [Sent(Bitfield(raw))])
       else w'.peers[p] == s.(stage := Talking)
  }

  predicate IsBitfieldOf(bits: seq<bool>, raw: seq<byte>) {
    && |raw| == (|bits| + 7) / 8
    && forall k | 0 <= k < 8 * |raw| ::
         raw[k / 8] / Bitfields.Weight(k % 8) % 2 == 1 <==> k < |bits| && bits[k]
  }

  lemma GreetsExactly(w: World, p: nat)
    requires p < |w.peers| && w.peers[p].stage.Greeting?
    ensures GreetingOk(w, p, Welcome(w, p))
  {
    hide Bitfields.RawBitfield, Bitfields.Weight;
    var raw := Bitfields.RawBitfield(w.bitfield);
    assert Outgoing([Bitfield(raw)]) == [Sent(Bitfield(raw))];
    RawLength(w.bitfield);
    forall k | 0 <= k < 8 * Bitfields.ByteCount(|w.bitfield|)
      ensures k / 8 < |raw| && (raw[k / 8] / Bitfields.Weight(k % 8) % 2 == 1 <==> k < |w.bitfield| && w.bitfield[k]) {
      Bitfields.SentBits(w.bitfield, k);
    }
    assert IsBitfieldOf(w.bitfield, raw);
  }

  lemma RawLength(bits: seq<bool>)
    ensures |Bitfields.RawBitfield(bits)| == Bitfields.ByteCount(|bits|)
  {
    hide Bitfields.Reverse, Bitfields.LsbBlock;
  }

  lemma EffectExactly(m: Meta, w: World, e: Event)
    requires Enabled(w, e)
    ensures EffectOk(m, w, e, Step(m, w, e))
  {
    hide OnFrame, Welcome, Fault, DialUpTo, CloseAll, ReadsOutOfRange, Dials, GreetingOk, ArrivalOk, Removes;
    match e
    case TrackerResponse(records) => DialsUpTo(w, records, |records| / 6);
    case Accepted(ip) =>
    case Connected(p) =>
    case Handshaken(p) => GreetsExactly(w, p);
    case Lost(p) => FaultRemoves(w, p);
    case Arrived(p, frame, heap) => OnFrameConnections(m, w, p, frame, heap);
    case Shutdown =>
      forall q | 0 <= q < |w.peers| ensures CloseAll(w.peers, w.active)[q]
          == if q in w.active then w.peers[q].(stage := Closed) else w.peers[q] {
        CloseAllExactly(w.peers, w.active, q);
      }
  }

  /** In every run, each event changes the connections so. */
  lemma ConnectionsExactly(m: Meta, ws: seq<World>, es: seq<Event>, k: nat)
    requires IsRun(m, ws, es) && k < |es|
    ensures EffectOk(m, ws[k], es[k], ws[k + 1])
  {
    hide Step, EffectOk;
    assert Enabled(ws[k], es[k]) && ws[k + 1] == Step(m, ws[k], es[k]);
    EffectExactly(m, ws[k], es[k]);
  }

  /** In every reachable state, if the failing peer stands first among those with its address, it is gone and everyone
      else keeps their place. */
  lemma FirstRemoved(m: Meta, ws: seq<World>, es: seq<Event>, k: nat, x: nat, active: seq<nat>)
    requires IsRun(m, ws, es) && k < |ws| && x < |ws[k].active| && ws[k].active[x] < |ws[k].peers|
    requires FirstAt(ws[k], x, Address(ws[k].peers[ws[k].active[x]])) && Removes(ws[k], active, ws[k].active[x])
    ensures active == ws[k].active[..x] + ws[k].active[x + 1..] && ws[k].active[x] !in active
  {
    RunOk(m, AnyContent(m), ws, es, k);
  }
}
