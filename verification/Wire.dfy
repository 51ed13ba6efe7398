/** The peer wire protocol: frames and their fields
    (the send functions and handle/handleMessage in src/torrent/peer.cpp; BEP 3, "peer messages"). */
module Wire {
  import opened Transcoder

  const CHOKE: byte := 0
  const UNCHOKE: byte := 1
  const INTERESTED: byte := 2
  const NOT_INTERESTED: byte := 3
  const HAVE: byte := 4
  const BITFIELD: byte := 5
  const REQUEST: byte := 6
  const PIECE_BLOCK: byte := 7
  const CANCEL: byte := 8

  datatype Msg =
    | Choke
    | Unchoke
    | Interested
    | NotInterested
    | Have(index: u32)
    | Bitfield(raw: seq<byte>)
    | Request(index: u32, begin: u32, length: u32)
    | Block(index: u32, begin: u32, data: seq<byte>)
    | Cancel(index: u32, begin: u32, length: u32)

  /** What lies between two length prefixes, and what the field extraction makes of it. */
  datatype Frame = Frame(id: byte, payload: seq<byte>)
  datatype Decoded = Parsed(msg: Msg) | Malformed | Unknown

  function Id(msg: Msg): byte {
    match msg
    case Choke => CHOKE
    case Unchoke => UNCHOKE
    case Interested => INTERESTED
    case NotInterested => NOT_INTERESTED
    case Have(_) => HAVE
    case Bitfield(_) => BITFIELD
    case Request(_, _, _) => REQUEST
    case Block(_, _, _) => PIECE_BLOCK
    case Cancel(_, _, _) => CANCEL
  }

  function Payload(msg: Msg): seq<byte> {
    match msg
    case Have(index) => WriteBE32(index)
    case Bitfield(raw) => raw
    case Request(index, begin, length) => WriteBE32(index) + WriteBE32(begin) + WriteBE32(length)
    case Block(index, begin, data) => WriteBE32(index) + WriteBE32(begin) + data
    case Cancel(index, begin, length) => WriteBE32(index) + WriteBE32(begin) + WriteBE32(length)
    case _ => []
  }

  /** The bytes written for a message; the length field is a 32-bit value. */
  function Encode(msg: Msg): seq<byte> {
    WriteBE32(Low32(1 + |Payload(msg)|)) + [Id(msg)] + Payload(msg)
  }

  /** The size checks and the field extraction of handleMessage. */
  function Decode(frame: Frame): Decoded {
    var p := frame.payload;
    if frame.id == CHOKE then if |p| != 0 then Malformed else Parsed(Choke)
    else if frame.id == UNCHOKE then if |p| != 0 then Malformed else Parsed(Unchoke)
    else if frame.id == INTERESTED then if |p| != 0 then Malformed else Parsed(Interested)
    else if frame.id == NOT_INTERESTED then if |p| != 0 then Malformed else Parsed(NotInterested)
    else if frame.id == HAVE then if |p| != 4 then Malformed else Parsed(Have(ReadBE32(p)))
    else if frame.id == BITFIELD then if |p| < 1 then Malformed else Parsed(Bitfield(p))
    else if frame.id == REQUEST then
      if |p| != 12 then Malformed else Parsed(Request(ReadBE32(p[..4]), ReadBE32(p[4..8]), ReadBE32(p[8..])))
    else if frame.id == PIECE_BLOCK then
      if |p| < 9 then Malformed else Parsed(Block(ReadBE32(p[..4]), ReadBE32(p[4..8]), p[8..]))
    else if frame.id == CANCEL then
      if |p| != 12 then Malformed else Parsed(Cancel(ReadBE32(p[..4]), ReadBE32(p[4..8]), ReadBE32(p[8..])))
    else Unknown
  }

  /** handle: a zero length is a keep-alive; otherwise that many bytes make a frame. What is left is an
      incomplete frame. */
  function Frames(stream: seq<byte>): (seq<Frame>, seq<byte>)
    decreases |stream|
  {
    if |stream| < 4 then ([], stream)
    else
      var length := ReadBE32(stream[..4]);
      if length == 0 then Frames(stream[4..])
      else if |stream| - 4 < length then ([], stream)
      else
        var (later, rest) := Frames(stream[4 + length..]);
        ([Frame(stream[4], stream[5..4 + length])] + later, rest)
  }

  /** Messages the receiver's size checks let through and whose length fits its field. */
  predicate Sendable(msg: Msg) {
    && (msg.Bitfield? ==> |msg.raw| >= 1)
    && (msg.Block? ==> |msg.data| >= 1)
    && 1 + |Payload(msg)| < TWO32
  }

  datatype Item = KeepAlive | Message(msg: Msg)

  function EncodeAll(items: seq<Item>): seq<byte> {
    if items == [] then []
    else (if items[0].KeepAlive? then WriteBE32(0) else Encode(items[0].msg)) + EncodeAll(items[1..])
  }

  function Messages(items: seq<Item>): seq<Msg> {
    if items == [] then []
    else (if items[0].KeepAlive? then [] else [items[0].msg]) + Messages(items[1..])
  }

  function DecodeAll(frames: seq<Frame>): seq<Decoded> {
    seq(|frames|, (i: nat) requires i < |frames| => Decode(frames[i]))
  }

  function AllParsed(msgs: seq<Msg>): seq<Decoded> {
    seq(|msgs|, (i: nat) requires i < |msgs| => Parsed(msgs[i]))
  }

  /** The field extraction undoes the field writing. */
  lemma DecodeEncoded(msg: Msg)
    requires Sendable(msg)
    ensures Decode(Frame(Id(msg), Payload(msg))) == Parsed(msg)
  {
    hide WriteBE32, ReadBE32;
    var p := Payload(msg);
    match msg
    case Have(index) => BE32RoundTrip(index);
    case Request(index, begin, length) => ThreeFields(p, index, begin, length);
    case Cancel(index, begin, length) => ThreeFields(p, index, begin, length);
    case Block(index, begin, data) =>
      BE32RoundTrip(index);
      BE32RoundTrip(begin);
      assert p[..4] == WriteBE32(index) && p[4..8] == WriteBE32(begin) && p[8..] == data;
    case _ =>
  }

  lemma ThreeFields(p: seq<byte>, a: u32, b: u32, c: u32)
    requires p == WriteBE32(a) + WriteBE32(b) + WriteBE32(c)
    ensures |p| == 12
    ensures ReadBE32(p[..4]) == a && ReadBE32(p[4..8]) == b && ReadBE32(p[8..]) == c
  {
    hide WriteBE32, ReadBE32;
    BE32RoundTrip(a);
    BE32RoundTrip(b);
    BE32RoundTrip(c);
    assert p[..4] == WriteBE32(a) && p[4..8] == WriteBE32(b) && p[8..] == WriteBE32(c);
  }

  lemma FirstFrame(msg: Msg, tail: seq<byte>)
    requires Sendable(msg)
    ensures Frames(Encode(msg) + tail) == ([Frame(Id(msg), Payload(msg))] + Frames(tail).0, Frames(tail).1)
  {
    hide WriteBE32, ReadBE32;
    var length := 1 + |Payload(msg)|;
    var stream := Encode(msg) + tail;
    BE32RoundTrip(length);
    assert stream[..4] == WriteBE32(length);
    assert stream[5..4 + length] == Payload(msg);
    assert stream[4 + length..] == tail;
  }

  lemma SkipKeepAlive(tail: seq<byte>)
    ensures Frames(WriteBE32(0) + tail) == Frames(tail)
  {
  }

  /** Stream round trip: whatever was sent, keep-alives included, is read back as the same messages, and
      bytes that follow are read as if they stood alone. */
  lemma {:induction false} StreamRoundTrip(items: seq<Item>, tail: seq<byte>)
    requires forall i | 0 <= i < |items| :: items[i].Message? ==> Sendable(items[i].msg)
    ensures var (frames, rest) := Frames(EncodeAll(items) + tail);
      && DecodeAll(frames) == AllParsed(Messages(items)) + DecodeAll(Frames(tail).0)
      && rest == Frames(tail).1
  {
    hide WriteBE32, ReadBE32, Frames, Encode, Decode, Id, Payload;
    if items == [] {
      assert EncodeAll(items) + tail == tail;
      assert AllParsed(Messages(items)) + DecodeAll(Frames(tail).0) == DecodeAll(Frames(tail).0);
    } else {
      var later := EncodeAll(items[1..]) + tail;
      StreamRoundTrip(items[1..], tail);
      if items[0].KeepAlive? {
        SkipKeepAlive(later);
        assert EncodeAll(items) + tail == WriteBE32(0) + later;
        assert Messages(items) == Messages(items[1..]);
      } else {
        var msg := items[0].msg;
        FirstFrame(msg, later);
        DecodeEncoded(msg);
        assert EncodeAll(items) + tail == Encode(msg) + later;
        var frames := Frames(later).0;
        assert DecodeAll([Frame(Id(msg), Payload(msg))] + frames) == [Parsed(msg)] + DecodeAll(frames);
        assert AllParsed(Messages(items)) == [Parsed(msg)] + AllParsed(Messages(items[1..]));
        assert [Parsed(msg)] + AllParsed(Messages(items[1..])) + DecodeAll(Frames(tail).0)
            == [Parsed(msg)] + (AllParsed(Messages(items[1..])) + DecodeAll(Frames(tail).0));
      }
    }
  }

  // ---------- the numbers of the protocol ----------

  /** A message on the wire: its length, its number, and its fields where BEP 3 has them. */
  lemma WrittenExactly(msg: Msg)
    ensures var b := Encode(msg);
      && 5 <= |b| && Number(b[..4]) == (|b| - 4) % 0x1_0000_0000
      && match msg
         case Choke => |b| == 5 && b[4] == 0
         case Unchoke => |b| == 5 && b[4] == 1
         case Interested => |b| == 5 && b[4] == 2
         case NotInterested => |b| == 5 && b[4] == 3
         case Have(i) => |b| == 9 && b[4] == 4 && Number(b[5..9]) == i
         case Bitfield(raw) => b[4] == 5 && b[5..] == raw
         case Request(i, begin, length) =>
           |b| == 17 && b[4] == 6 && Number(b[5..9]) == i && Number(b[9..13]) == begin && Number(b[13..17]) == length
         case Block(i, begin, data) =>
           13 <= |b| && b[4] == 7 && Number(b[5..9]) == i && Number(b[9..13]) == begin && b[13..] == data
         case Cancel(i, begin, length) =>
           |b| == 17 && b[4] == 8 && Number(b[5..9]) == i && Number(b[9..13]) == begin && Number(b[13..17]) == length
  {
    hide WriteBE32, Number;
    var b, size := Encode(msg), Low32(1 + |Payload(msg)|);
    assert b[..4] == WriteBE32(size);
    WritesDigits(size);
    match msg
    case Have(i) =>
      assert b[5..9] == WriteBE32(i);
      WritesDigits(i);
    case Request(i, begin, length) => WritesThree(b, i, begin, length);
    case Cancel(i, begin, length) => WritesThree(b, i, begin, length);
    case Block(i, begin, data) =>
      assert b[5..9] == WriteBE32(i) && b[9..13] == WriteBE32(begin) && b[13..] == data;
      WritesDigits(i);
      WritesDigits(begin);
    case _ =>
  }

  lemma WritesThree(b: seq<byte>, x: u32, y: u32, z: u32)
    requires |b| == 17 && b[5..] == WriteBE32(x) + WriteBE32(y) + WriteBE32(z)
    ensures Number(b[5..9]) == x && Number(b[9..13]) == y && Number(b[13..17]) == z
  {
    hide WriteBE32, Number;
    var fields := b[5..];
    assert fields[..4] == WriteBE32(x) && fields[4..8] == WriteBE32(y) && fields[8..12] == WriteBE32(z);
    assert b[5..9] == fields[..4] && b[9..13] == fields[4..8] && b[13..17] == fields[8..12];
    WritesDigits(x);
    WritesDigits(y);
    WritesDigits(z);
  }

  /** The size is not one that this message can have. */
  predicate WrongSize(id: byte, size: nat) {
    || (id <= 3 && size != 0)
    || (id == 4 && size != 4)
    || (id == 5 && size < 1)
    || ((id == 6 || id == 8) && size != 12)
    || (id == 7 && size < 9)
  }

  /** A message read: refused for its size, ignored for a number above 8, or its fields where BEP 3 has them. */
  lemma ReadExactly(frame: Frame)
    ensures Decode(frame) == Malformed <==> WrongSize(frame.id, |frame.payload|)
    ensures Decode(frame) == Unknown <==> 8 < frame.id
    ensures Decode(frame).Parsed? ==>
      var p := frame.payload;
      match Decode(frame).msg
      case Choke => frame.id == 0
      case Unchoke => frame.id == 1
      case Interested => frame.id == 2
      case NotInterested => frame.id == 3
      case Have(i) => frame.id == 4 && |p| == 4 && i == Number(p)
      case Bitfield(raw) => frame.id == 5 && raw == p
      case Request(i, begin, length) =>
        frame.id == 6 && |p| == 12 && i == Number(p[..4]) && begin == Number(p[4..8]) && length == Number(p[8..12])
      case Block(i, begin, data) =>
        frame.id == 7 && 9 <= |p| && i == Number(p[..4]) && begin == Number(p[4..8]) && data == p[8..]
      case Cancel(i, begin, length) =>
        frame.id == 8 && |p| == 12 && i == Number(p[..4]) && begin == Number(p[4..8]) && length == Number(p[8..12])
  {
    hide ReadBE32, BigEndian;
    var p := frame.payload;
    if |p| == 4 {
      ReadsDigits(p);
    } else if 8 <= |p| {
      ReadsDigits(p[..4]);
      ReadsDigits(p[4..8]);
      if |p| == 12 {
        assert p[8..] == p[8..12];
        ReadsDigits(p[8..12]);
      }
    }
  }
}
