/** What every run guarantees: the statements the repository is for. */
module Guarantees {
  import opened Transcoder
  import opened Layout
  import opened Wire
  import opened Protocol
  import opened Swarm
  import opened PeerInvariant
  import opened LedgerInvariant
  import opened SwarmInvariant
  import opened Safety

  /** Download: in every reachable state each finished piece is in the file, and when the completed count
      has reached the number of pieces the file starts with the content. */
  lemma DownloadCorrect(m: Meta, content: seq<byte>, ws: seq<World>, es: seq<Event>, k: nat)
    requires Genuine(m, content)
    requires IsRun(m, ws, es) && k < |ws|
    ensures forall i: nat | i < |m.hashes| && Done(ws[k].pieces, i) :: InFile(m, content, ws[k].file, i)
    ensures ws[k].completed == |ws[k].pieces| ==> content <= ws[k].file
  {
    RunOk(m, content, ws, es, k);
    hide InFile, Step, CountFinished;
    if ws[k].completed == |ws[k].pieces| {
      CompleteFile(m, content, ws[k]);
    }
  }

  /** Accounting: the running byte counter is what the tracker query recomputes, never exceeds the total, and
      leaves nothing exactly when the download is complete. */
  lemma RemainderExact(m: Meta, content: seq<byte>, ws: seq<World>, es: seq<Event>, k: nat)
    requires Genuine(m, content)
    requires IsRun(m, ws, es) && k < |ws|
    ensures ws[k].downloaded == FinishedBytes(m, ws[k].pieces) <= m.totalSize
    ensures ws[k].downloaded == m.totalSize <==> ws[k].completed == |ws[k].pieces|
  {
    RunOk(m, content, ws, es, k);
    ExactRemainder(m, content, ws[k]);
  }

  lemma PeerOkInRun(m: Meta, content: seq<byte>, ws: seq<World>, es: seq<Event>, k: nat, p: nat)
    requires |content| == m.totalSize
    requires IsRun(m, ws, es) && k < |ws| && p < |ws[k].peers|
    ensures PeerOk(m, content, ws[k].peers[p]) && Truthful(m, ws[k].pieces, ws[k].peers[p])
  {
    RunOk(m, content, ws, es, k);
  }

  /** Request discipline: every REQUEST sent follows our INTERESTED, and an UNCHOKE with no CHOKE after it,
      and asks for a block of a piece in range that the peer had announced. */
  lemma RequestDiscipline(m: Meta, ws: seq<World>, es: seq<Event>, k: nat, p: nat, j: nat)
    requires IsRun(m, ws, es) && k < |ws| && p < |ws[k].peers|
    requires var log := ws[k].peers[p].log; j < |log| && log[j].Sent? && log[j].msg.Request?
    ensures var log := ws[k].peers[p].log;
      && Sent(Interested) in log[..j]
      && !ChokedBy(log[..j])
      && log[j].msg.index < |m.hashes|
      && log[j].msg.index in Announced(m, log[..j])
      && log[j].msg in Requests(m, log[j].msg.index)
  {
    var content := AnyContent(m);
    PeerOkInRun(m, content, ws, es, k, p);
    ConformantAt(m, content, ws[k].peers[p].log, j);
  }

  /** Upload discipline: every block sent directly answers a REQUEST of an interested peer that had been
      unchoked, has the length asked for, and belongs to a finished piece. */
  lemma UploadDiscipline(m: Meta, ws: seq<World>, es: seq<Event>, k: nat, p: nat, j: nat)
    requires IsRun(m, ws, es) && k < |ws| && p < |ws[k].peers|
    requires var log := ws[k].peers[p].log; j < |log| && log[j].Sent? && log[j].msg.Block?
    ensures var log, msg := ws[k].peers[p].log, ws[k].peers[p].log[j].msg;
      && 1 <= |msg.data| <= MAX_BLOCK_REQUEST_SIZE
      && 0 < j && log[j - 1] == Received(Request(msg.index, msg.begin, |msg.data|))
      && InterestedBy(log[..j])
      && Sent(Unchoke) in log[..j]
      && msg.index < |m.hashes| && Done(ws[k].pieces, msg.index)
      && Low32(msg.begin + |msg.data|) <= PieceSize(m, msg.index)
  {
    var content, log := AnyContent(m), ws[k].peers[p].log;
    PeerOkInRun(m, content, ws, es, k, p);
    ConformantAt(m, content, log, j);
    ServedAt(log, j);
  }

  /** Upload: if the range of a block sent ends inside the piece, the block is the content there; for a piece
      below 2^32 bytes that is the case exactly when the 32-bit end of the range did not wrap. */
  lemma UploadCorrect(m: Meta, content: seq<byte>, ws: seq<World>, es: seq<Event>, k: nat, p: nat, j: nat)
    requires Genuine(m, content)
    requires IsRun(m, ws, es) && k < |ws| && p < |ws[k].peers|
    requires var log := ws[k].peers[p].log; j < |log| && log[j].Sent? && log[j].msg.Block?
    ensures var msg := ws[k].peers[p].log[j].msg;
      && msg.index < |m.hashes|
      && (msg.begin + |msg.data| <= PieceSize(m, msg.index) ==>
            msg.data == PieceOf(m, content, msg.index)[msg.begin..msg.begin + |msg.data|])
      && (PieceSize(m, msg.index) < TWO32 ==>
            (msg.begin + |msg.data| <= PieceSize(m, msg.index) <==> msg.begin + |msg.data| < TWO32))
  {
    var log := ws[k].peers[p].log;
    PeerOkInRun(m, content, ws, es, k, p);
    ConformantAt(m, content, log, j);
    UploadDiscipline(m, ws, es, k, p, j);
  }

  lemma {:induction false} ServedAt(log: Log, j: nat)
    requires j < |log| && log[j].Sent? && log[j].msg.Block?
    ensures log[j].msg.index in Served(log)
  {
    if j < |log| - 1 {
      ServedAt(Init(log), j);
    }
  }

  /** The upload counter is the sum over all peers of the block bytes sent to them. */
  lemma UploadCounted(m: Meta, ws: seq<World>, es: seq<Event>, k: nat)
    requires IsRun(m, ws, es) && k < |ws|
    ensures ws[k].uploaded == Sum(Uploaded(), ws[k].peers)
  {
    var content := AnyContent(m);
    RunOk(m, content, ws, es, k);
  }

  /** Advertisement: whatever a peer has been told, by HAVE or by bitfield, is finished and in the file. */
  lemma AdvertisementTrue(m: Meta, content: seq<byte>, ws: seq<World>, es: seq<Event>, k: nat, p: nat, i: nat)
    requires Genuine(m, content)
    requires IsRun(m, ws, es) && k < |ws| && p < |ws[k].peers|
    requires i in Told(m, ws[k].peers[p].log)
    ensures i < |m.hashes| && Done(ws[k].pieces, i) && InFile(m, content, ws[k].file, i)
  {
    RunOk(m, content, ws, es, k);
    hide Told, InFile, PeerOk;
    assert Truthful(m, ws[k].pieces, ws[k].peers[p]);
  }

  lemma {:induction false} ToldAt(m: Meta, log: Log, j: nat, i: nat)
    requires j < |log| && i in ToldIn(m, log[j])
    ensures i in Told(m, log)
  {
    if j < |log| - 1 {
      ToldAt(m, Init(log), j, i);
    }
  }

  /** No peer is sent HAVE twice for a piece, nor for one that its bitfield named. */
  lemma HaveOnce(m: Meta, ws: seq<World>, es: seq<Event>, k: nat, p: nat, j: nat, l: nat)
    requires IsRun(m, ws, es) && k < |ws| && p < |ws[k].peers|
    requires var log := ws[k].peers[p].log; j < l < |log| && log[l].Sent? && log[l].msg.Have?
    ensures var log := ws[k].peers[p].log; log[l].msg.index !in ToldIn(m, log[j])
  {
    var content := AnyContent(m);
    var log := ws[k].peers[p].log;
    PeerOkInRun(m, content, ws, es, k, p);
    ConformantAt(m, content, log, l);
    if log[l].msg.index in ToldIn(m, log[j]) {
      ToldAt(m, log[..l], j, log[l].msg.index);
    }
  }

  /** In flight: every queue entry of every peer is well formed and, while the peer does not choke us, all its
      blocks have been requested since the UNCHOKE. */
  lemma InFlightInRun(m: Meta, ws: seq<World>, es: seq<Event>, k: nat, p: nat, j: nat)
    requires IsRun(m, ws, es) && k < |ws| && p < |ws[k].peers| && j < |ws[k].peers[p].queue|
    ensures var s := ws[k].peers[p];
      && InFlightOk(m, s.queue[j])
      && (PieceSize(m, s.queue[j].index) < TWO32 ==>
            s.queue[j].haveBlocks < |s.queue[j].slots| == |Requests(m, s.queue[j].index)|)
      && s.queue[j].index in Announced(m, s.log)
      && (!ChokedBy(s.log) ==> forall msg <- Requests(m, s.queue[j].index) :: msg in Asked(s.log))
  {
    var content := AnyContent(m);
    var s := ws[k].peers[p];
    PeerOkInRun(m, content, ws, es, k, p);
    EntryOk(m, content, s, j);
    hide InFlightOk, Requests, ChokedBy, Asked, Announced, Conformant;
    CancelsMirrorRequests(m, s.queue[j].index);
    PieceFits(m, s.queue[j].index);
    SlotsMatchBlocksExactly(m, s.queue[j].index);
    SlotsOf(m, s.queue[j]);
    if !s.peerChoking {
      assert AskedFor(m, s, s.queue[j].index);
    }
  }

  lemma SlotsOf(m: Meta, q: InFlight)
    requires InFlightOk(m, q)
    ensures |q.slots| == SlotCount(m, q.index)
    ensures 0 < |q.slots| ==> q.haveBlocks < |q.slots|
  {
  }

  /** Priorities: their sum is the number of piece requests started, each of which began with an INTERESTED,
      and no piece is in flight more often, over all peers, than its priority. */
  lemma PrioritiesCountRequests(m: Meta, ws: seq<World>, es: seq<Event>, k: nat)
    requires IsRun(m, ws, es) && k < |ws|
    ensures PrioritySum(ws[k].pieces) == Sum(Started(), ws[k].peers)
    ensures forall i | 0 <= i < |ws[k].pieces| :: Sum(InFlightOf(i), ws[k].peers) <= ws[k].pieces[i].priority
  {
    var content := AnyContent(m);
    RunOk(m, content, ws, es, k);
  }

  /** Wire: the bytes written to a peer read back, frame by frame, as exactly the messages sent to it. */
  lemma WireReadableInRun(m: Meta, ws: seq<World>, es: seq<Event>, k: nat, p: nat)
    requires IsRun(m, ws, es) && k < |ws| && p < |ws[k].peers|
    ensures var log := ws[k].peers[p].log;
      var (frames, rest) := Frames(WireOf(log));
      DecodeAll(frames) == AllParsed(Messages(SentItems(log))) && rest == []
  {
    var content := AnyContent(m);
    PeerOkInRun(m, content, ws, es, k, p);
    hide Frames, WireOf;
    WireReadable(m, content, ws[k].peers[p].log);
  }

  /** Flags: in every reachable state the four choke and interest flags and the piece list of a peer are what
      the messages exchanged with it say, and every peer that has shown interest has been unchoked. */
  lemma FlagsSayWhatWasSaid(m: Meta, ws: seq<World>, es: seq<Event>, k: nat, p: nat)
    requires IsRun(m, ws, es) && k < |ws| && p < |ws[k].peers|
    ensures var s := ws[k].peers[p];
      && s.amChoking == (Sent(Unchoke) !in s.log)
      && s.amInterested == (Sent(Interested) in s.log)
      && s.peerChoking == ChokedBy(s.log)
      && s.peerInterested == InterestedBy(s.log)
      && (Received(Interested) in s.log ==> Sent(Unchoke) in s.log)
      && forall i: nat :: i in s.has <==> i in Announced(m, s.log)
  {
    var content := AnyContent(m);
    PeerOkInRun(m, content, ws, es, k, p);
  }
}
