/** Integers as bytes (src/utils/transcoder.hpp). A shift of an unsigned value by k bits is written
    as a division or a multiplication by 2^k, and an `or` of bytes that do not overlap as a sum. */
module Transcoder {
  type byte = x: int | 0 <= x < 0x100
  type u16 = x: int | 0 <= x < 0x1_0000
  type u32 = x: int | 0 <= x < 0x1_0000_0000

  const TWO32 := 0x1_0000_0000

  /** The C++ cast `(uint8_t)value`. */
  function Low8(value: nat): byte {
    value % 0x100
  }

  /** The C++ cast `(uint32_t)value`. */
  function Low32(value: nat): u32 {
    value % TWO32
  }

  lemma RemainderIs(x: nat, unit: nat, q: nat, r: nat)
    requires r < unit && x == q * unit + r
    ensures x % unit == r && x / unit == q
  {
    var q', r' := x / unit, x % unit;
    assert x == q' * unit + r';
    ProductsOrdered(q' + 1, q, unit);
    ProductsOrdered(q + 1, q', unit);
  }

  lemma ProductsOrdered(a: nat, b: nat, unit: nat)
    ensures a <= b ==> a * unit <= b * unit
  {
  }

  function ReadBE16(b: seq<byte>): u16
    requires |b| == 2
  {
    var high: int, low: int := b[0], b[1];
    low + high * 0x100
  }

  function ReadBE32(b: seq<byte>): u32
    requires |b| == 4
  {
    ReadBE16(b[2..]) + ReadBE16(b[..2]) * 0x1_0000
  }

  function ReadLE16(b: seq<byte>): u16
    requires |b| == 2
  {
    var high: int, low: int := b[1], b[0];
    high * 0x100 + low
  }

  function ReadLE32(b: seq<byte>): u32
    requires |b| == 4
  {
    ReadLE16(b[2..]) * 0x1_0000 + ReadLE16(b[..2])
  }

  function WriteBE32(value: u32): (r: seq<byte>)
    ensures |r| == 4
  {
    [Low8(value / 0x100_0000), Low8(value / 0x1_0000), Low8(value / 0x100), Low8(value)]
  }

  /** The cast binds tighter than the shift, so the high byte is the shift of an 8-bit value. */
  function WriteBE16(value: u16): seq<byte> {
    [Low8((value % 0x100) / 0x100), Low8(value)]
  }

  lemma FourDigits(value: u32)
    ensures (value % 0x100 + (value / 0x100 % 0x100) * 0x100)
            + (value / 0x1_0000 % 0x100 + (value / 0x100_0000 % 0x100) * 0x100) * 0x1_0000 == value
  {
  }

  lemma ReadFour(a: int, b: int, c: int, d: int)
    requires 0 <= a < 0x100 && 0 <= b < 0x100 && 0 <= c < 0x100 && 0 <= d < 0x100
    ensures ReadBE32([a, b, c, d]) == (d + c * 0x100) + (b + a * 0x100) * 0x1_0000
  {
  }

  /** Reading back what was written gives the same 32-bit value. */
  lemma BE32RoundTrip(value: u32)
    ensures ReadBE32(WriteBE32(value)) == value
  {
    hide ReadBE32;
    FourDigits(value);
    ReadFour(value / 0x100_0000 % 0x100, value / 0x1_0000 % 0x100, value / 0x100 % 0x100, value % 0x100);
  }

  /** The 16-bit writer loses the high byte: the round trip holds for exactly the one-byte values. */
  lemma BE16RoundTripExactly(value: u16)
    ensures ReadBE16(WriteBE16(value)) == value <==> value < 0x100
  {
  }

  // ---------- digits ----------

  /** The value of bytes of which the first is the highest digit. */
  function BigEndian(b: seq<byte>): nat {
    if b == [] then 0 else BigEndian(b[..|b| - 1]) * 256 + b[|b| - 1]
  }

  /** The value of bytes of which the first is the lowest digit. */
  function LittleEndian(b: seq<byte>): nat {
    if b == [] then 0 else b[0] + 256 * LittleEndian(b[1..])
  }

  lemma FourBytes(b: seq<byte>)
    requires |b| == 4
    ensures BigEndian(b) == b[0] as int * 0x100_0000 + b[1] as int * 0x1_0000 + b[2] as int * 0x100 + b[3] as int
    ensures LittleEndian(b) == b[0] as int + b[1] as int * 0x100 + b[2] as int * 0x1_0000 + b[3] as int * 0x100_0000
  {
    assert b[..3][..2] == b[..2] && b[..2][..1] == b[..1] && b[..1][..0] == [];
    assert BigEndian(b[..1]) == b[0] && BigEndian(b[..2]) == b[0] as int * 256 + b[1] as int;
    assert BigEndian(b[..3]) == (b[0] as int * 256 + b[1] as int) * 256 + b[2] as int;
    assert b[1..][1..] == b[2..] && b[2..][1..] == b[3..] && b[3..][1..] == [];
    assert LittleEndian(b[3..]) == b[3] && LittleEndian(b[2..]) == b[2] as int + 256 * b[3] as int;
    assert LittleEndian(b[1..]) == b[1] as int + 256 * (b[2] as int + 256 * b[3] as int);
  }

  /** The readers give the digits their places. */
  lemma ReadsDigits(b: seq<byte>)
    requires |b| == 4
    ensures ReadBE32(b) == BigEndian(b) && ReadLE32(b) == LittleEndian(b)
  {
    hide BigEndian, LittleEndian;
    FourBytes(b);
  }

  /** Four bytes as a number, the first the highest. */
  function Number(b: seq<byte>): u32
    requires |b| == 4
  {
    ReadsDigits(b);
    BigEndian(b)
  }

  /** The writer gives the value its big-endian digits. */
  lemma WritesDigits(value: u32)
    ensures Number(WriteBE32(value)) == value
  {
    hide WriteBE32;
    BE32RoundTrip(value);
    ReadsDigits(WriteBE32(value));
  }
}
