/** What one peer connection has carried, and what the protocol allows us to send on it. */
module Protocol {
  import opened Wrappers
  import opened Transcoder
  import opened Layout
  import opened Wire
  import Bitfields

  datatype Entry = Received(msg: Msg) | Sent(msg: Msg)

  type Log = seq<Entry>

  function Init(log: Log): Log
    requires log != []
  {
    log[..|log| - 1]
  }

  function Last(log: Log): Entry
    requires log != []
  {
    log[|log| - 1]
  }

  // ---------- what a log says ----------

  /** Are we choked: the last CHOKE or UNCHOKE received decides; at first we are. */
  predicate ChokedBy(log: Log) {
    if log == [] then true
    else if Last(log) == Received(Choke) then true
    else if Last(log) == Received(Unchoke) then false
    else ChokedBy(Init(log))
  }

  /** Is the peer interested: the last INTERESTED or NOT_INTERESTED received decides; at first it is not. */
  predicate InterestedBy(log: Log) {
    if log == [] then false
    else if Last(log) == Received(Interested) then true
    else if Last(log) == Received(NotInterested) then false
    else InterestedBy(Init(log))
  }

  function AnnouncedIn(m: Meta, e: Entry): set<nat> {
    if e.Received? && e.msg.Have? then {e.msg.index}
    else if e.Received? && e.msg.Bitfield? then Bitfields.IndexSet(e.msg.raw, |m.hashes|)
    else {}
  }

  /** The pieces the peer has announced. */
  function Announced(m: Meta, log: Log): set<nat> {
    if log == [] then {} else Announced(m, Init(log)) + AnnouncedIn(m, Last(log))
  }

  function ToldIn(m: Meta, e: Entry): set<nat> {
    if e.Sent? && e.msg.Have? then {e.msg.index}
    else if e.Sent? && e.msg.Bitfield? then Bitfields.IndexSet(e.msg.raw, |m.hashes|)
    else {}
  }

  /** The pieces we have told the peer we have. */
  function Told(m: Meta, log: Log): set<nat> {
    if log == [] then {} else Told(m, Init(log)) + ToldIn(m, Last(log))
  }

  /** The pieces we have sent blocks of. */
  function Served(log: Log): set<nat> {
    if log == [] then {}
    else Served(Init(log)) + if Last(log).Sent? && Last(log).msg.Block? then {Last(log).msg.index} else {}
  }

  /** The requests we have sent since the last CHOKE or UNCHOKE received. */
  function Asked(log: Log): set<Msg> {
    if log == [] then {}
    else if Last(log) == Received(Choke) || Last(log) == Received(Unchoke) then {}
    else if Last(log).Sent? && Last(log).msg.Request? then Asked(Init(log)) + {Last(log).msg}
    else Asked(Init(log))
  }

  /** The last message received. */
  function LastIn(log: Log): Option<Msg> {
    if log == [] then None
    else if Last(log).Received? then Some(Last(log).msg)
    else LastIn(Init(log))
  }

  /** Bytes of piece data sent, and piece requests started (each starts with an INTERESTED). */
  function UploadedIn(log: Log): nat {
    if log == [] then 0
    else UploadedIn(Init(log)) + if Last(log).Sent? && Last(log).msg.Block? then |Last(log).msg.data| else 0
  }

  function StartsIn(log: Log): nat {
    if log == [] then 0 else StartsIn(Init(log)) + if Last(log) == Sent(Interested) then 1 else 0
  }

  /** The bytes written on the connection. */
  function WireOf(log: Log): seq<byte> {
    if log == [] then []
    else WireOf(Init(log)) + if Last(log).Sent? then Encode(Last(log).msg) else []
  }

  function SentItems(log: Log): seq<Item> {
    if log == [] then []
    else SentItems(Init(log)) + if Last(log).Sent? then [Message(Last(log).msg)] else []
  }

  // ---------- what may be sent ----------

  function AsRequest(i: nat, s: Span): Msg {
    Request(Low32(i), Low32(s.begin), Low32(s.length))
  }

  function AsCancel(i: nat, s: Span): Msg {
    Cancel(Low32(i), Low32(s.begin), Low32(s.length))
  }

  /** The messages that request, or cancel, the blocks of piece i. */
  function Requests(m: Meta, i: nat): seq<Msg> {
    var spans := Spans(PieceSize(m, i));
    seq(|spans|, (k: nat) requires k < |spans| => AsRequest(i, spans[k]))
  }

  function Cancels(m: Meta, i: nat): seq<Msg> {
    var spans := Spans(PieceSize(m, i));
    seq(|spans|, (k: nat) requires k < |spans| => AsCancel(i, spans[k]))
  }

  function AsIfRequested(msg: Msg): Msg
    requires msg.Cancel?
  {
    Request(msg.index, msg.begin, msg.length)
  }

  /** The bytes at [begin, begin + length) of piece i are `data`, when that range lies inside the piece and the
      hash check lets nothing but the content through. */
  ghost predicate CarriesContent(m: Meta, content: seq<byte>, i: nat, begin: nat, data: seq<byte>)
    requires |content| == m.totalSize
  {
    Genuine(m, content) && i < |m.hashes| && begin + |data| <= PieceSize(m, i) ==>
      data <= PieceOf(m, content, i)[begin..]
  }

  /** May `msg` be sent after `log`? */
  ghost predicate MaySend(m: Meta, content: seq<byte>, log: Log, msg: Msg)
    requires |content| == m.totalSize
  {
    match msg
    case Choke => false
    case NotInterested => false
    // once, in answer to an INTERESTED
    case Unchoke => log != [] && Last(log) == Received(Interested) && Sent(Unchoke) !in log
    // a piece request starts only on a bitfield or a block
    case Interested => LastIn(log).Some? && (LastIn(log).value.Bitfield? || LastIn(log).value.Block?)
    // never to a choked peer, never twice, never what the bitfield said
    case Have(i) => i < |m.hashes| && Sent(Unchoke) in log && i !in Told(m, log)
    // first of all, ceil(n/8) bytes, spare bits zero
    case Bitfield(raw) =>
      && log == []
      && |raw| == Bitfields.ByteCount(|m.hashes|)
      && forall k: nat | |m.hashes| <= k < 8 * |raw| :: !Bitfields.BitAt(raw, k)
    // after INTERESTED and while unchoked, a block of a piece in range that the peer has announced
    case Request(i, begin, length) =>
      && Sent(Interested) in log
      && !ChokedBy(log)
      && i < |m.hashes|
      && i in Announced(m, log)
      && msg in Requests(m, i)
    // in direct answer to a REQUEST of an interested peer we have unchoked
    case Block(i, begin, data) =>
      && log != []
      && 1 <= |data| <= MAX_BLOCK_REQUEST_SIZE
      && Last(log) == Received(Request(i, begin, |data|))
      && InterestedBy(log)
      && Sent(Unchoke) in log
      && i < |m.hashes|
      && Low32(begin + |data|) <= PieceSize(m, i)
      && CarriesContent(m, content, i, begin, data)
    // the list that was requested, when a block of the piece comes in late
    case Cancel(i, begin, length) =>
      && LastIn(log).Some? && LastIn(log).value.Block? && LastIn(log).value.index == i
      && i < |m.hashes|
      && AsIfRequested(msg) in Requests(m, i)
  }

  /** Everything sent was allowed when it was sent. */
  ghost predicate Conformant(m: Meta, content: seq<byte>, log: Log)
    requires |content| == m.totalSize
  {
    log != [] ==>
      && Conformant(m, content, Init(log))
      && (Last(log).Sent? ==> MaySend(m, content, Init(log), Last(log).msg))
  }

  /** The same, message by message. */
  lemma {:induction false} ConformantAt(m: Meta, content: seq<byte>, log: Log, k: nat)
    requires |content| == m.totalSize
    requires Conformant(m, content, log)
    requires k < |log| && log[k].Sent?
    ensures MaySend(m, content, log[..k], log[k].msg)
  {
    if k < |log| - 1 {
      ConformantAt(m, content, Init(log), k);
      assert Init(log)[..k] == log[..k];
    }
  }

  /** All of the above after one more entry. */
  lemma Appended(m: Meta, content: seq<byte>, log: Log, e: Entry)
    requires |content| == m.totalSize
    ensures var log' := log + [e];
      && ChokedBy(log') ==
         (if e == Received(Choke) then true else if e == Received(Unchoke) then false else ChokedBy(log))
      && InterestedBy(log') ==
         (if e == Received(Interested) then true else if e == Received(NotInterested) then false else InterestedBy(log))
      && Announced(m, log') == Announced(m, log) + AnnouncedIn(m, e)
      && Told(m, log') == Told(m, log) + ToldIn(m, e)
      && Served(log') == Served(log) + (if e.Sent? && e.msg.Block? then {e.msg.index} else {})
      && Asked(log') == (if e == Received(Choke) || e == Received(Unchoke) then {}
                         else if e.Sent? && e.msg.Request? then Asked(log) + {e.msg} else Asked(log))
      && UploadedIn(log') == UploadedIn(log) + (if e.Sent? && e.msg.Block? then |e.msg.data| else 0)
      && StartsIn(log') == StartsIn(log) + (if e == Sent(Interested) then 1 else 0)
      && (Conformant(m, content, log') <==>
            Conformant(m, content, log) && (e.Sent? ==> MaySend(m, content, log, e.msg)))
    ensures LastIn(log + [e]) == (if e.Received? then Some(e.msg) else LastIn(log))
  {
  }

  function Outgoing(msgs: seq<Msg>): Log {
    seq(|msgs|, (k: nat) requires k < |msgs| => Sent(msgs[k]))
  }

  predicate Repeatable(msg: Msg) {
    msg.Request? || msg.Cancel?
  }

  /** Sending requests or cancels does not make the next ones less allowed. */
  lemma StillAllowed(m: Meta, content: seq<byte>, log: Log, sent: Msg, next: Msg)
    requires |content| == m.totalSize
    requires Repeatable(sent) && Repeatable(next)
    requires MaySend(m, content, log, next)
    ensures MaySend(m, content, log + [Sent(sent)], next)
  {
  }

  /** A batch of requests or cancels, each of them allowed at the start. */
  lemma {:induction false} Batch(m: Meta, content: seq<byte>, log: Log, msgs: seq<Msg>)
    requires |content| == m.totalSize
    requires Conformant(m, content, log)
    requires forall msg <- msgs :: Repeatable(msg) && MaySend(m, content, log, msg)
    ensures var log' := log + Outgoing(msgs);
      && Conformant(m, content, log')
      && ChokedBy(log') == ChokedBy(log)
      && InterestedBy(log') == InterestedBy(log)
      && Announced(m, log') == Announced(m, log)
      && Told(m, log') == Told(m, log)
      && Served(log') == Served(log)
      && Asked(log) <= Asked(log')
      && (forall msg <- msgs :: msg.Request? ==> msg in Asked(log'))
      && UploadedIn(log') == UploadedIn(log)
      && StartsIn(log') == StartsIn(log)
      && LastIn(log') == LastIn(log)
    ensures forall next: Msg | Repeatable(next) && MaySend(m, content, log, next) ::
      MaySend(m, content, log + Outgoing(msgs), next)
    decreases |msgs|
  {
    hide MaySend, Conformant, ChokedBy, InterestedBy, Announced, Told, Served, Asked, UploadedIn, StartsIn, LastIn;
    if msgs == [] {
      assert log + Outgoing(msgs) == log;
    } else {
      var msgs', msg := msgs[..|msgs| - 1], msgs[|msgs| - 1];
      Batch(m, content, log, msgs');
      var log' := log + Outgoing(msgs');
      assert log + Outgoing(msgs) == log' + [Sent(msg)];
      assert msg in msgs;
      Appended(m, content, log', Sent(msg));
      forall next: Msg | Repeatable(next) && MaySend(m, content, log, next)
        ensures MaySend(m, content, log' + [Sent(msg)], next)
      {
        StillAllowed(m, content, log', msg, next);
      }
    }
  }

  /** Requested and cancelled lists are the same spans. */
  lemma CancelsMirrorRequests(m: Meta, i: nat)
    ensures |Cancels(m, i)| == |Requests(m, i)| == BlockCount(PieceSize(m, i))
    ensures forall k | 0 <= k < |Cancels(m, i)| ::
      Cancels(m, i)[k].Cancel? && Requests(m, i)[k] == AsIfRequested(Cancels(m, i)[k])
  {
  }

  lemma WireAppended(log: Log, e: Entry)
    ensures WireOf(log + [e]) == WireOf(log) + if e.Sent? then Encode(e.msg) else []
  {
  }

  // ---------- what the other side reads ----------

  /** Whatever may be sent passes the receiver's size checks. */
  lemma AllowedIsSendable(m: Meta, content: seq<byte>, log: Log, msg: Msg)
    requires |content| == m.totalSize
    requires MaySend(m, content, log, msg)
    ensures Sendable(msg)
  {
  }

  lemma {:induction false} EncodeAllAppend(items: seq<Item>, item: Item)
    ensures EncodeAll(items + [item]) == EncodeAll(items) + EncodeAll([item])
  {
    hide Encode, WriteBE32;
    if items == [] {
      assert items + [item] == [item];
    } else {
      EncodeAllAppend(items[1..], item);
      assert (items + [item])[1..] == items[1..] + [item];
    }
  }

  lemma {:induction false} WireIsEncoded(m: Meta, content: seq<byte>, log: Log)
    requires |content| == m.totalSize && Conformant(m, content, log)
    ensures WireOf(log) == EncodeAll(SentItems(log))
    ensures forall i | 0 <= i < |SentItems(log)| :: SentItems(log)[i].Message? && Sendable(SentItems(log)[i].msg)
  {
    hide Encode, Sendable, MaySend;
    if log != [] {
      WireIsEncoded(m, content, Init(log));
      if Last(log).Sent? {
        var msg := Last(log).msg;
        AllowedIsSendable(m, content, Init(log), msg);
        EncodeAllAppend(SentItems(Init(log)), Message(msg));
        assert [Message(msg)][1..] == [];
        assert EncodeAll([Message(msg)]) == Encode(msg);
      } else {
        assert SentItems(log) == SentItems(Init(log));
      }
    }
  }

  /** The bytes on a connection read back as exactly the messages sent, with nothing left over. */
  lemma WireReadable(m: Meta, content: seq<byte>, log: Log)
    requires |content| == m.totalSize && Conformant(m, content, log)
    ensures var (frames, rest) := Frames(WireOf(log));
      DecodeAll(frames) == AllParsed(Messages(SentItems(log))) && rest == []
  {
    WireIsEncoded(m, content, log);
    StreamRoundTrip(SentItems(log), []);
    assert WireOf(log) + [] == WireOf(log);
    assert DecodeAll(Frames([]).0) == [];
  }
}
