/** The whole engine as a value and each handler as a function on it: the specification that the classes in
    Engine.dfy implement and about which the run properties are proved. Peers are numbered in the order in
    which they are created. */
module Swarm {
  import opened Wrappers
  import opened Transcoder
  import opened Layout
  import opened Wire
  import opened Protocol
  import Bitfields

  const INT32_MAX := 0x7FFF_FFFF

  // ---------- state ----------

  /** A block slot: null until a block is copied in. */
  datatype Slot = Slot(size: nat, data: Option<seq<byte>>)

  const EMPTY_SLOT := Slot(0, None)

  /** A piece being downloaded from one peer. */
  datatype InFlight = InFlight(index: nat, haveBlocks: nat, slots: seq<Slot>)

  /** Dialling: not connected yet. Greeting: connected, no handshake yet. */
  datatype Stage = Dialling | Greeting | Talking | Closed

  datatype PeerState = PeerState(
    ip: u32, incoming: bool, stage: Stage,
    amChoking: bool, amInterested: bool, peerChoking: bool, peerInterested: bool,
    has: seq<nat>, queue: seq<InFlight>, log: Log)

  datatype Piece = Piece(finished: bool, priority: nat)

  datatype World = World(
    pieces: seq<Piece>, bitfield: seq<bool>,
    completed: nat, uploaded: nat, downloaded: nat, wasted: nat, hashMisses: nat,
    file: seq<byte>, peers: seq<PeerState>, active: seq<nat>, blackListed: set<u32>)

  function NewPeer(ip: u32, incoming: bool): PeerState {
    PeerState(ip, incoming, if incoming then Greeting else Dialling, true, false, true, false, [], [], [])
  }

  /** Before anything has happened, over a file with any content. */
  function Start(m: Meta, file: seq<byte>): World {
    World(seq(|m.hashes|, _ => Piece(false, 0)), seq(|m.hashes|, _ => false), 0, 0, 0, 0, 0, file, [], [], {})
  }

  predicate Done(pieces: seq<Piece>, i: nat) {
    i < |pieces| && pieces[i].finished
  }

  function Put(w: World, p: nat, s: PeerState): World
    requires p < |w.peers|
  {
    w.(peers := w.peers[p := s])
  }

  // ---------- one peer ----------

  /** Connection::write: nothing happens on a closed connection. */
  function Post(s: PeerState, msgs: seq<Msg>): PeerState {
    if s.stage.Closed? then s else s.(log := s.log + Outgoing(msgs))
  }

  function Receive(s: PeerState, msg: Msg): PeerState {
    s.(log := s.log + [Received(msg)])
  }

  function QueueRequests(m: Meta, queue: seq<InFlight>): seq<Msg> {
    if queue == [] then []
    else QueueRequests(m, queue[..|queue| - 1]) + Requests(m, queue[|queue| - 1].index)
  }

  /** The reaction to a message that concerns this peer only. */
  function Hear(m: Meta, s: PeerState, msg: Msg): PeerState {
    match msg
    case Choke => s.(peerChoking := true)
    case Unchoke => Post(s.(peerChoking := false), QueueRequests(m, s.queue))
    case Interested =>
      var s1 := s.(peerInterested := true);
      if s1.amChoking then Post(s1, [Unchoke]).(amChoking := false) else s1
    case NotInterested => s.(peerInterested := false)
    case Have(i) => if i in s.has then s else s.(has := s.has + [i])
    case Bitfield(raw) => s.(has := s.has + Bitfields.Indices(raw, |m.hashes|))
    case _ => s
  }

  function SendHave(s: PeerState, i: nat): PeerState {
    if s.amChoking then s else Post(s, [Have(Low32(i))])
  }

  function FreshInFlight(m: Meta, i: nat): InFlight {
    InFlight(i, 0, seq(SlotCount(m, i), _ => EMPTY_SLOT))
  }

  /** sendPieceRequest */
  function StartPiece(m: Meta, s: PeerState, i: nat): PeerState {
    var s1 := Post(s, [Interested]).(amInterested := true);
    var s2 := s1.(queue := s1.queue + [FreshInFlight(m, i)]);
    if s2.peerChoking then s2 else Post(s2, Requests(m, i))
  }

  function FindPiece(queue: seq<InFlight>, index: nat): (r: Option<nat>)
    ensures r.None? ==> forall j | 0 <= j < |queue| :: queue[j].index != index
    ensures r.Some? ==> r.value < |queue| && queue[r.value].index == index
    ensures r.Some? ==> forall j | 0 <= j < r.value :: queue[j].index != index
  {
    if queue == [] then None
    else if queue[0].index == index then Some(0)
    else match FindPiece(queue[1..], index)
      case None => None
      case Some(k) => Some(k + 1)
  }

  function RemoveAt<T>(s: seq<T>, k: nat): seq<T>
    requires k < |s|
  {
    s[..k] + s[k + 1..]
  }

  /** A block is stored; the count goes up even when the slot was filled before. */
  function Fill(q: InFlight, slot: nat, data: seq<byte>): InFlight
    requires slot < |q.slots|
  {
    q.(slots := q.slots[slot := Slot(|data|, Some(data))], haveBlocks := q.haveBlocks + 1)
  }

  function SlotBytes(s: Slot): seq<byte> {
    if s.data.Some? then s.data.value else []
  }

  function SlotData(slots: seq<Slot>): seq<seq<byte>> {
    seq(|slots|, (k: nat) requires k < |slots| => SlotBytes(slots[k]))
  }

  /** The slots joined in order. */
  function Gather(slots: seq<Slot>): seq<byte> {
    Flatten(SlotData(slots))
  }

  // ---------- the ledger ----------

  predicate Candidate(pieces: seq<Piece>, has: seq<nat>, i: nat) {
    i < |pieces| && !pieces[i].finished && i in has && pieces[i].priority < INT32_MAX
  }

  /** The choice among the first k pieces. */
  function Choice(pieces: seq<Piece>, has: seq<nat>, k: nat): (r: Option<nat>)
    requires k <= |pieces|
    ensures r.Some? ==> r.value < k
  {
    if k == 0 then None
    else
      var best := Choice(pieces, has, k - 1);
      if !Candidate(pieces, has, k - 1) then best
      else if best.Some? && pieces[best.value].priority <= pieces[k - 1].priority then best
      else Some(k - 1)
  }

  function RaisePriority(pieces: seq<Piece>, i: nat): seq<Piece>
    requires i < |pieces|
  {
    pieces[i := pieces[i].(priority := pieces[i].priority + 1)]
  }

  /** selectPieceAndRequest */
  function Select(m: Meta, w: World, p: nat): World
    requires p < |w.peers|
  {
    match Choice(w.pieces, w.peers[p].has, |w.pieces|)
    case None => w
    case Some(i) => Put(w, p, StartPiece(m, w.peers[p], i)).(pieces := RaisePriority(w.pieces, i))
  }

  /** fseek and fwrite; a gap before the position reads as zeros. */
  function WriteAt(file: seq<byte>, pos: nat, data: seq<byte>): seq<byte> {
    var padded := if |file| < pos then file + seq(pos - |file|, _ => 0) else file;
    padded[..pos] + data + if pos + |data| < |padded| then padded[pos + |data|..] else []
  }

  /** fseek and fread: as much of [pos, pos + length) as the file has. */
  function ReadAt(file: seq<byte>, pos: nat, length: nat): seq<byte> {
    if |file| <= pos then [] else if |file| < pos + length then file[pos..] else file[pos..pos + length]
  }

  /** HAVE to every active peer, in order. */
  function Broadcast(peers: seq<PeerState>, active: seq<nat>, i: nat): (r: seq<PeerState>)
    ensures |r| == |peers|
  {
    if active == [] then peers
    else
      var ps := Broadcast(peers, active[..|active| - 1], i);
      var a := active[|active| - 1];
      if a < |ps| then ps[a := SendHave(ps[a], i)] else ps
  }

  /** handlePieceCompleted */
  function CompletePiece(m: Meta, w: World, i: nat, data: seq<byte>): (w': World)
    ensures |w'.peers| == |w.peers|
  {
    if !Accepts(m, i, data) || |w.pieces| <= i || |w.bitfield| <= i then
      w.(hashMisses := w.hashMisses + 1, wasted := w.wasted + |data|)
    else
      w.(file := WriteAt(w.file, PieceStart(m, i), data),
         bitfield := w.bitfield[i := true],
         pieces := w.pieces[i := w.pieces[i].(finished := true)],
         downloaded := w.downloaded + |data|,
         completed := w.completed + 1,
         peers := Broadcast(w.peers, w.active, i))
  }

  /** The block buffer after a read that got `got`: what it did not fill keeps what the heap had there. */
  function BlockBuffer(got: seq<byte>, length: nat, heap: seq<byte>): seq<byte> {
    if length <= |got| then got
    else got + seq(length - |got|, k => if 0 <= |got| + k < |heap| then heap[|got| + k] else 0)
  }

  /** handleBlockRequest; the end of the block is a 32-bit sum. */
  function Serve(m: Meta, w: World, p: nat, i: u32, begin: u32, length: u32, heap: seq<byte>): World
    requires p < |w.peers|
  {
    if |w.pieces| <= i then Put(w, p, Close(w.peers[p]))
    else if PieceSize(m, i) < Low32(begin + length) then Put(w, p, Close(w.peers[p]))
    else
      var got := ReadAt(w.file, begin + PieceStart(m, i), length);
      if got == [] then w
      else
        Put(w, p, Post(w.peers[p], [Block(i, begin, BlockBuffer(got, length, heap))])).(uploaded := w.uploaded + length)
  }

  // ---------- connections ----------

  function Close(s: PeerState): PeerState {
    s.(stage := Closed)
  }

  /** getRawIp: zero unless the socket is connected. */
  function RawIp(s: PeerState): u32 {
    if s.stage.Dialling? || s.stage.Closed? then 0 else s.ip
  }

  function RawIpAt(peers: seq<PeerState>, a: nat): u32 {
    if a < |peers| then RawIp(peers[a]) else 0
  }

  /** The first active peer with this address. */
  function FindActive(peers: seq<PeerState>, active: seq<nat>, ip: u32): (r: Option<nat>)
    ensures r.None? ==> forall j | 0 <= j < |active| :: RawIpAt(peers, active[j]) != ip
    ensures r.Some? ==> r.value < |active| && RawIpAt(peers, active[r.value]) == ip
    ensures r.Some? ==> forall j | 0 <= j < r.value :: RawIpAt(peers, active[j]) != ip
  {
    if active == [] then None
    else if RawIpAt(peers, active[0]) == ip then Some(0)
    else match FindActive(peers, active[1..], ip)
      case None => None
      case Some(k) => Some(k + 1)
  }

  /** removePeer: by address, not by identity. */
  function RemovePeer(w: World, ip: u32): World {
    match FindActive(w.peers, w.active, ip)
    case None => w
    case Some(k) => w.(active := RemoveAt(w.active, k))
  }

  /** handleError: out of the active list first, then disconnect. */
  function Fault(w: World, p: nat): World
    requires p < |w.peers|
  {
    Put(RemovePeer(w, RawIp(w.peers[p])), p, Close(w.peers[p]))
  }

  /** One record of a tracker response. */
  function DialOne(w: World, ip: u32): World {
    if ip == 0 || ip in w.blackListed || FindActive(w.peers, w.active, ip).Some? then w
    else w.(peers := w.peers + [NewPeer(ip, false)], blackListed := w.blackListed + {ip})
  }

  function RecordIp(records: seq<byte>, k: nat): u32
    requires 6 * k + 6 <= |records|
  {
    ReadLE32(records[6 * k..6 * k + 4])
  }

  /** connectToPeers, for the first k records of six bytes. */
  function DialUpTo(w: World, records: seq<byte>, k: nat): World
    requires 6 * k <= |records|
  {
    if k == 0 then w else DialOne(DialUpTo(w, records, k - 1), RecordIp(records, k - 1))
  }

  /** handshaked, and the bitfield that only an incoming peer is sent. */
  function Welcome(w: World, p: nat): World
    requires p < |w.peers|
  {
    var s := w.peers[p].(stage := Talking);
    var s1 := if s.incoming then Post(s, [Bitfield(Bitfields.RawBitfield(w.bitfield))]) else s;
    Put(w, p, s1).(active := w.active + [p], blackListed := w.blackListed - {RawIp(s)})
  }

  /** disconnectPeers */
  function CloseAll(peers: seq<PeerState>, active: seq<nat>): (r: seq<PeerState>)
    ensures |r| == |peers|
  {
    if active == [] then peers
    else
      var ps := CloseAll(peers, active[..|active| - 1]);
      var a := active[|active| - 1];
      if a < |ps| then ps[a := Close(ps[a])] else ps
  }

  // ---------- messages ----------

  function WithQueue(w: World, p: nat, queue: seq<InFlight>): World
    requires p < |w.peers|
  {
    Put(w, p, w.peers[p].(queue := queue))
  }

  function SelectUnlessComplete(m: Meta, w: World, p: nat): World
    requires p < |w.peers|
  {
    if w.completed == |w.pieces| then w else Select(m, w, p)
  }

  /** The last block of entry k has come in. */
  function Assemble(m: Meta, w: World, p: nat, k: nat): World
    requires p < |w.peers| && k < |w.peers[p].queue|
  {
    var q := w.peers[p].queue[k];
    var w1 := CompletePiece(m, w, q.index, Gather(q.slots));
    var queue := w1.peers[p].queue;
    var w2 := if k < |queue| then WithQueue(w1, p, RemoveAt(queue, k)) else w1;
    SelectUnlessComplete(m, w2, p)
  }

  /** A block of entry k that has passed the checks: too late, or stored. */
  function UseBlock(m: Meta, w: World, p: nat, k: nat, slot: nat, data: seq<byte>): World
    requires p < |w.peers| && k < |w.peers[p].queue| && slot < |w.peers[p].queue[k].slots|
  {
    var s := w.peers[p];
    if Done(w.pieces, s.queue[k].index) then
      Put(w, p, Post(s, Cancels(m, s.queue[k].index)).(queue := RemoveAt(s.queue, k)))
    else
      var q := Fill(s.queue[k], slot, data);
      var w1 := WithQueue(w, p, s.queue[k := q]);
      if q.haveBlocks == |q.slots| then Assemble(m, w1, p, k) else w1
  }

  /** The PIECE_BLOCK case. */
  function OnBlock(m: Meta, w: World, p: nat, i: u32, begin: u32, data: seq<byte>): World
    requires p < |w.peers|
  {
    var s := w.peers[p];
    if MAX_BLOCK_REQUEST_SIZE < |data| then Fault(w, p)
    else match FindPiece(s.queue, i)
      case None => Fault(w, p)
      case Some(k) =>
        var slot := begin / MAX_BLOCK_REQUEST_SIZE;
        if |s.queue[k].slots| <= slot then Fault(w, p) else UseBlock(m, w, p, k, slot, data)
  }

  /** The REQUEST case. */
  function OnRequest(m: Meta, w: World, p: nat, i: u32, begin: u32, length: u32, heap: seq<byte>): World
    requires p < |w.peers|
  {
    var s := w.peers[p];
    if !s.peerInterested || s.amChoking || MAX_BLOCK_REQUEST_SIZE < length then Fault(w, p)
    else if !Done(w.pieces, i) then w
    else Serve(m, w, p, i, begin, length, heap)
  }

  function OnMessage(m: Meta, w: World, p: nat, msg: Msg, heap: seq<byte>): World
    requires p < |w.peers|
  {
    match msg
    case Bitfield(_) => SelectUnlessComplete(m, Put(w, p, Hear(m, w.peers[p], msg)), p)
    case Request(i, begin, length) => OnRequest(m, w, p, i, begin, length, heap)
    case Block(i, begin, data) => OnBlock(m, w, p, i, begin, data)
    case _ => Put(w, p, Hear(m, w.peers[p], msg))
  }

  /** handleMessage */
  function OnFrame(m: Meta, w: World, p: nat, frame: Frame, heap: seq<byte>): World
    requires p < |w.peers|
  {
    match Decode(frame)
    case Malformed => Fault(w, p)
    case Unknown => w
    case Parsed(msg) => OnMessage(m, Put(w, p, Receive(w.peers[p], msg)), p, msg, heap)
  }

  // ---------- runs ----------

  datatype Event =
    | TrackerResponse(records: seq<byte>)
    | Accepted(ip: u32)
    | Connected(p: nat)
    | Handshaken(p: nat)
    | Lost(p: nat)
    | Arrived(p: nat, frame: Frame, heap: seq<byte>)
    | Shutdown

  /** A REQUEST for a piece out of range that gets as far as reading the piece's flag, before the index is
      checked: the code reads outside its vector, so what follows is not defined. */
  predicate ReadsOutOfRange(s: PeerState, n: nat, frame: Frame) {
    && Decode(frame).Parsed?
    && Decode(frame).msg.Request?
    && s.peerInterested
    && !s.amChoking
    && Decode(frame).msg.length <= MAX_BLOCK_REQUEST_SIZE
    && n <= Decode(frame).msg.index
  }

  predicate Enabled(w: World, e: Event) {
    match e
    case TrackerResponse(records) => |records| % 6 == 0
    case Accepted(ip) => ip != 0
    case Connected(p) => p < |w.peers| && w.peers[p].stage.Dialling?
    case Handshaken(p) => p < |w.peers| && w.peers[p].stage.Greeting?
    case Lost(p) => p < |w.peers| && !w.peers[p].stage.Closed?
    case Arrived(p, frame, _) =>
      p < |w.peers| && w.peers[p].stage.Talking? && !ReadsOutOfRange(w.peers[p], |w.pieces|, frame)
    case Shutdown => true
  }

  function Step(m: Meta, w: World, e: Event): World
    requires Enabled(w, e)
  {
    match e
    case TrackerResponse(records) => DialUpTo(w, records, |records| / 6)
    case Accepted(ip) => w.(peers := w.peers + [NewPeer(ip, true)], blackListed := w.blackListed + {ip})
    case Connected(p) => Put(w, p, w.peers[p].(stage := Greeting))
    case Handshaken(p) => Welcome(w, p)
    case Lost(p) => Fault(w, p)
    case Arrived(p, frame, heap) => OnFrame(m, w, p, frame, heap)
    case Shutdown => w.(peers := CloseAll(w.peers, w.active))
  }

  /** A run: the states ws with the events es between them. */
  ghost predicate IsRun(m: Meta, ws: seq<World>, es: seq<Event>) {
    && |ws| == |es| + 1
    && (exists file :: ws[0] == Start(m, file))
    && forall k | 0 <= k < |es| :: Enabled(ws[k], es[k]) && ws[k + 1] == Step(m, ws[k], es[k])
  }
}
