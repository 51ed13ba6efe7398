/** Every step keeps the invariant, so every run does; and what that says about downloads, uploads and
    what peers are told. */
module Safety {
  import opened Wrappers
  import opened Transcoder
  import opened Layout
  import opened Wire
  import opened Protocol
  import opened Swarm
  import opened PeerInvariant
  import opened LedgerInvariant
  import opened SwarmInvariant
  import Bitfields

  // ---------- connections ----------

  lemma FaultOk(m: Meta, content: seq<byte>, w: World, p: nat)
    requires |content| == m.totalSize
    requires Inv(m, content, w) && p < |w.peers|
    ensures Inv(m, content, Fault(w, p))
  {
    hide PeerOk, BookOk, FileOk, CountsOk, Told, Served, UploadedIn, StartsIn, FindActive, RawIp, CountIndex;
    var w1 := RemovePeer(w, RawIp(w.peers[p]));
    RemoveActive(w, RawIp(w.peers[p]));
    hide ActiveOk;
    SameBooks(m, content, w, w1);
    SameCounts(w, w1);
    CloseOk(m, content, w.peers[p]);
    PutQuiet(m, content, w1, p, Close(w.peers[p]));
  }

  lemma RemoveActive(w: World, ip: u32)
    requires ActiveOk(w)
    ensures ActiveOk(RemovePeer(w, ip))
  {
    hide RawIpAt;
    match FindActive(w.peers, w.active, ip)
    case None =>
    case Some(x) =>
      var active := RemoveAt(w.active, x);
      assert forall j | 0 <= j < |active| :: active[j] == w.active[if j < x then j else j + 1];
      forall a | a in active ensures a in w.active {
      }
  }

  lemma SameCounts(w: World, w': World)
    requires CountsOk(w)
    requires w'.peers == w.peers && w'.pieces == w.pieces && w'.uploaded == w.uploaded
    ensures CountsOk(w')
  {
  }

  lemma AddPeerOk(m: Meta, content: seq<byte>, w: World, ip: u32, incoming: bool, blackListed: set<u32>)
    requires |content| == m.totalSize
    requires Inv(m, content, w) && ip != 0
    ensures Inv(m, content, w.(peers := w.peers + [NewPeer(ip, incoming)], blackListed := blackListed))
  {
    hide PeerOk, BookOk, FileOk, PrioritySum;
    var s := NewPeer(ip, incoming);
    var w' := w.(peers := w.peers + [s], blackListed := blackListed);
    NewPeerOk(m, content, ip, incoming);
    SameBooks(m, content, w, w');
    SumAdd(Uploaded(), w.peers, s);
    SumAdd(Started(), w.peers, s);
    forall i | 0 <= i < |w.pieces| ensures Sum(InFlightOf(i), w'.peers) <= w.pieces[i].priority {
      SumAdd(InFlightOf(i), w.peers, s);
    }
  }

  lemma {:induction false} DialOk(m: Meta, content: seq<byte>, w: World, records: seq<byte>, k: nat)
    requires |content| == m.totalSize
    requires Inv(m, content, w) && 6 * k <= |records|
    ensures Inv(m, content, DialUpTo(w, records, k))
  {
    hide Inv, RecordIp;
    if k != 0 {
      DialOk(m, content, w, records, k - 1);
      var w1, ip := DialUpTo(w, records, k - 1), RecordIp(records, k - 1);
      if ip != 0 {
        AddPeerOk(m, content, w1, ip, false, w1.blackListed + {ip});
      }
    }
  }

  lemma ConnectedOk(m: Meta, content: seq<byte>, w: World, p: nat)
    requires |content| == m.totalSize
    requires Inv(m, content, w) && p < |w.peers| && w.peers[p].stage.Dialling?
    ensures Inv(m, content, Put(w, p, w.peers[p].(stage := Greeting)))
  {
    StageOk(m, content, w.peers[p], Greeting);
    hide Inv, PeerOk, CountIndex;
    PutQuiet(m, content, w, p, w.peers[p].(stage := Greeting));
  }

  lemma StageOk(m: Meta, content: seq<byte>, s: PeerState, stage: Stage)
    requires |content| == m.totalSize
    requires PeerOk(m, content, s)
    requires stage.Dialling? || stage.Greeting? ==> s.log == []
    ensures PeerOk(m, content, s.(stage := stage))
  {
  }

  lemma BitfieldIsDone(m: Meta, w: World)
    requires BookOk(m, w)
    ensures |w.bitfield| == |w.pieces| == |m.hashes|
    ensures forall i: nat :: Bitfields.At(w.bitfield, i) <==> Done(w.pieces, i)
  {
  }

  lemma WelcomedPeer(m: Meta, content: seq<byte>, w: World, p: nat)
    requires |content| == m.totalSize
    requires Inv(m, content, w) && p < |w.peers| && w.peers[p].stage.Greeting?
    ensures var s, s' := w.peers[p], Welcome(w, p).peers[p];
      && PeerOk(m, content, s') && Truthful(m, w.pieces, s')
      && s'.stage.Talking? && s'.queue == s.queue
      && UploadedIn(s'.log) == UploadedIn(s.log) && StartsIn(s'.log) == StartsIn(s.log)
  {
    BitfieldIsDone(m, w);
    hide BookOk, CountsOk, FileOk, PeerOk, Told, Served, UploadedIn, StartsIn, Post, RawIp;
    WelcomeOk(m, content, w.peers[p], w.bitfield);
  }

  lemma SameTallies(w: World, w': World, p: nat)
    requires CountsOk(w) && p < |w.peers| == |w'.peers|
    requires w'.peers == w.peers[p := w'.peers[p]] && w'.pieces == w.pieces && w'.uploaded == w.uploaded
    requires var s, s' := w.peers[p], w'.peers[p];
      s'.queue == s.queue && UploadedIn(s'.log) == UploadedIn(s.log) && StartsIn(s'.log) == StartsIn(s.log)
    ensures CountsOk(w')
  {
    hide PrioritySum, UploadedIn, StartsIn, Sum, CountIndex;
    SumPut(Uploaded(), w.peers, p, w'.peers[p]);
    SumPut(Started(), w.peers, p, w'.peers[p]);
    forall i | 0 <= i < |w.pieces| ensures Sum(InFlightOf(i), w'.peers) <= w.pieces[i].priority {
      SumPut(InFlightOf(i), w.peers, p, w'.peers[p]);
    }
  }

  lemma HandshakenOk(m: Meta, content: seq<byte>, w: World, p: nat)
    requires |content| == m.totalSize
    requires Inv(m, content, w) && p < |w.peers| && w.peers[p].stage.Greeting?
    ensures Inv(m, content, Welcome(w, p))
  {
    hide PeerOk, BookOk, FileOk, Truthful, CountsOk, Post, RawIp;
    var w' := Welcome(w, p);
    WelcomedPeer(m, content, w, p);
    SameBooks(m, content, w, w');
    SameTallies(w, w', p);
  }

  lemma {:induction false} CloseAllOk(m: Meta, content: seq<byte>, w: World, list: seq<nat>)
    requires |content| == m.totalSize
    requires Inv(m, content, w)
    ensures Inv(m, content, w.(peers := CloseAll(w.peers, list)))
  {
    if list == [] {
      assert w.(peers := w.peers) == w;
    } else {
      CloseAllOk(m, content, w, list[..|list| - 1]);
      var w1, a := w.(peers := CloseAll(w.peers, list[..|list| - 1])), list[|list| - 1];
      if a < |w1.peers| {
        CloseOk(m, content, w1.peers[a]);
        hide Inv, PeerOk, CountIndex;
        PutQuiet(m, content, w1, a, Close(w1.peers[a]));
      }
    }
  }

  // ---------- messages ----------

  /** A message has come in and the peer has taken note of it. */
  lemma HeardInv(m: Meta, content: seq<byte>, w: World, p: nat, msg: Msg)
    requires |content| == m.totalSize
    requires Inv(m, content, w) && p < |w.peers| && w.peers[p].stage.Talking?
    ensures var s := Hear(m, Receive(w.peers[p], msg), msg);
      && Inv(m, content, Put(w, p, s))
      && s.stage.Talking? && LastIn(s.log) == Some(msg)
  {
    var s := w.peers[p];
    HearOk(m, content, s, msg);
    LastReceived(m, content, s, msg);
    hide PeerOk, Inv, Hear, Told, Served, UploadedIn, StartsIn, LastIn, CountIndex;
    PutQuiet(m, content, w, p, Hear(m, Receive(s, msg), msg));
  }

  lemma LastReceived(m: Meta, content: seq<byte>, s: PeerState, msg: Msg)
    requires |content| == m.totalSize
    ensures LastIn(Receive(s, msg).log) == Some(msg)
  {
  }

  /** What a read from the file of a finished piece gives. */
  lemma ServedContent(m: Meta, content: seq<byte>, w: World, i: nat, begin: nat, length: nat, heap: seq<byte>)
    requires |content| == m.totalSize
    requires FileOk(m, content, w) && Done(w.pieces, i)
    ensures var data := BlockBuffer(ReadAt(w.file, begin + PieceStart(m, i), length), length, heap);
      && |data| == length
      && CarriesContent(m, content, i, begin, data)
  {
  }

  lemma ServeOk(m: Meta, content: seq<byte>, w: World, p: nat, i: u32, begin: u32, length: u32, heap: seq<byte>)
    requires |content| == m.totalSize
    requires Inv(m, content, w) && p < |w.peers| && w.peers[p].stage.Talking?
    requires Done(w.pieces, i) && length <= MAX_BLOCK_REQUEST_SIZE
    requires w.peers[p].log != [] && Last(w.peers[p].log) == Received(Request(i, begin, length))
    requires w.peers[p].peerInterested && !w.peers[p].amChoking
    ensures Inv(m, content, Serve(m, w, p, i, begin, length, heap))
  {
    hide Inv, PieceSize, PieceStart, ReadAt, BlockBuffer, CarriesContent, Done, Low32, Last, Post, Close;
    var s := w.peers[p];
    CloseQuietly(m, content, w, p);
    InRange(m, content, w, i);
    ServedContent(m, content, w, i, begin, length, heap);
    var got := ReadAt(w.file, begin + PieceStart(m, i), length);
    if Low32(begin + length) <= PieceSize(m, i) && got != [] {
      Nonempty(w.file, begin + PieceStart(m, i), length);
      BlockSentOk(m, content, w, p, i, begin, BlockBuffer(got, length, heap));
    }
  }

  lemma InRange(m: Meta, content: seq<byte>, w: World, i: nat)
    requires |content| == m.totalSize && Inv(m, content, w) && Done(w.pieces, i)
    ensures i < |m.hashes| && i < |w.pieces|
    ensures FileOk(m, content, w)
  {
  }

  lemma CloseQuietly(m: Meta, content: seq<byte>, w: World, p: nat)
    requires |content| == m.totalSize
    requires Inv(m, content, w) && p < |w.peers|
    ensures Inv(m, content, Put(w, p, Close(w.peers[p])))
  {
    CloseOk(m, content, w.peers[p]);
    hide Inv, PeerOk, CountIndex;
    PutQuiet(m, content, w, p, Close(w.peers[p]));
  }

  lemma Nonempty(file: seq<byte>, pos: nat, length: nat)
    requires ReadAt(file, pos, length) != []
    ensures 0 < length
  {
  }

  lemma BlockSentOk(m: Meta, content: seq<byte>, w: World, p: nat, i: u32, begin: u32, data: seq<byte>)
    requires |content| == m.totalSize
    requires Inv(m, content, w) && p < |w.peers| && w.peers[p].stage.Talking?
    requires Done(w.pieces, i)
    requires 1 <= |data| <= MAX_BLOCK_REQUEST_SIZE
    requires w.peers[p].log != [] && Last(w.peers[p].log) == Received(Request(i, begin, |data|))
    requires w.peers[p].peerInterested && !w.peers[p].amChoking
    requires Low32(begin + |data|) <= PieceSize(m, i)
    requires CarriesContent(m, content, i, begin, data)
    ensures Inv(m, content, Put(w, p, Post(w.peers[p], [Block(i, begin, data)])).(uploaded := w.uploaded + |data|))
  {
    hide PeerOk, FileOk, PrioritySum, CountFinished, UploadedIn, StartsIn, Told, Served, Sum, CountIndex, Post,
      CarriesContent;
    var s := w.peers[p];
    var s' := Post(s, [Block(i, begin, data)]);
    var w' := Put(w, p, s').(uploaded := w.uploaded + |data|);
    AnswerOk(m, content, s, i, begin, data);
    SameBooks(m, content, w, w');
    SumPut(Uploaded(), w.peers, p, s');
    SumPut(Started(), w.peers, p, s');
    forall j | 0 <= j < |w.pieces| ensures Sum(InFlightOf(j), w'.peers) <= w.pieces[j].priority {
      SumPut(InFlightOf(j), w.peers, p, s');
    }
  }

  lemma OnRequestOk(m: Meta, content: seq<byte>, w: World, p: nat, i: u32, begin: u32, length: u32, heap: seq<byte>)
    requires |content| == m.totalSize
    requires Inv(m, content, w) && p < |w.peers| && w.peers[p].stage.Talking?
    requires w.peers[p].log != [] && Last(w.peers[p].log) == Received(Request(i, begin, length))
    ensures Inv(m, content, OnRequest(m, w, p, i, begin, length, heap))
  {
    hide Inv, Serve, Fault;
    var s := w.peers[p];
    if !s.peerInterested || s.amChoking || MAX_BLOCK_REQUEST_SIZE < length {
      FaultOk(m, content, w, p);
    } else if Done(w.pieces, i) {
      ServeOk(m, content, w, p, i, begin, length, heap);
    }
  }

  lemma OnBlockOk(m: Meta, content: seq<byte>, w: World, p: nat, i: u32, begin: u32, data: seq<byte>)
    requires |content| == m.totalSize
    requires Inv(m, content, w) && p < |w.peers| && w.peers[p].stage.Talking?
    requires LastIn(w.peers[p].log) == Some(Block(i, begin, data))
    ensures Inv(m, content, OnBlock(m, w, p, i, begin, data))
  {
    hide Inv, Fault, Cancels, Assemble, LastIn;
    var s := w.peers[p];
    match FindPiece(s.queue, i)
    case None => FaultOk(m, content, w, p);
    case Some(k) =>
      var q, slot := s.queue[k], begin / MAX_BLOCK_REQUEST_SIZE;
      if MAX_BLOCK_REQUEST_SIZE < |data| || |q.slots| <= slot {
        FaultOk(m, content, w, p);
      } else if Done(w.pieces, i) {
        PieceCancelled(m, content, w, p, k);
      } else {
        var q1 := Fill(q, slot, data);
        if q1.haveBlocks == |q1.slots| {
          LastBlock(m, content, w, p, k, q1);
        } else {
          BlockStored(m, content, w, p, k, slot, data);
        }
      }
  }

  lemma OnFrameOk(m: Meta, content: seq<byte>, w: World, p: nat, frame: Frame, heap: seq<byte>)
    requires |content| == m.totalSize
    requires Inv(m, content, w) && p < |w.peers| && w.peers[p].stage.Talking?
    ensures Inv(m, content, OnFrame(m, w, p, frame, heap))
  {
    hide Inv, Fault, Decode, OnRequest, OnBlock, Select, LastIn;
    match Decode(frame)
    case Malformed => FaultOk(m, content, w, p);
    case Unknown =>
    case Parsed(msg) =>
      HeardInv(m, content, w, p, msg);
      var s := Hear(m, Receive(w.peers[p], msg), msg);
      var w1 := Put(w, p, Receive(w.peers[p], msg));
      assert Put(w1, p, s) == Put(w, p, s);
      match msg
      case Bitfield(_) =>
        if w.completed != |w.pieces| {
          SelectOk(m, content, Put(w, p, s), p);
        }
      case Request(i, begin, length) => OnRequestOk(m, content, w1, p, i, begin, length, heap);
      case Block(i, begin, data) => OnBlockOk(m, content, w1, p, i, begin, data);
      case _ =>
  }

  // ---------- runs ----------

  lemma StartOk(m: Meta, content: seq<byte>, file: seq<byte>)
    requires |content| == m.totalSize
    ensures Inv(m, content, Start(m, file))
  {
    NothingFinished(m, Start(m, file).pieces);
  }

  /** Every step keeps the invariant. */
  lemma StepOk(m: Meta, content: seq<byte>, w: World, e: Event)
    requires |content| == m.totalSize
    requires Inv(m, content, w) && Enabled(w, e)
    ensures Inv(m, content, Step(m, w, e))
  {
    hide Inv, OnFrame, Welcome, Fault, DialUpTo, CloseAll;
    match e
    case TrackerResponse(records) => DialOk(m, content, w, records, |records| / 6);
    case Accepted(ip) => AddPeerOk(m, content, w, ip, true, w.blackListed + {ip});
    case Connected(p) => ConnectedOk(m, content, w, p);
    case Handshaken(p) => HandshakenOk(m, content, w, p);
    case Lost(p) => FaultOk(m, content, w, p);
    case Arrived(p, frame, heap) => OnFrameOk(m, content, w, p, frame, heap);
    case Shutdown => CloseAllOk(m, content, w, w.active);
  }

  /** In every reachable state, for any peers and any order of events, the invariant holds. */
  lemma {:induction false} RunOk(m: Meta, content: seq<byte>, ws: seq<World>, es: seq<Event>, k: nat)
    requires |content| == m.totalSize
    requires IsRun(m, ws, es) && k < |ws|
    ensures Inv(m, content, ws[k])
  {
    if k == 0 {
      var file :| ws[0] == Start(m, file);
      StartOk(m, content, file);
    } else {
      RunOk(m, content, ws, es, k - 1);
      StepOk(m, content, ws[k - 1], es[k - 1]);
    }
  }
}
