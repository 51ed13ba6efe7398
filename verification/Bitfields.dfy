/** Bitfields: the blocks of the bit set, their reversal, and the reading of a received bitfield
    (getRawBitfield in src/torrent/torrent.cpp, the BITFIELD case in src/torrent/peer.cpp). */
module Bitfields {
  import opened Transcoder

  function ByteCount(n: nat): nat {
    (n + 7) / 8
  }

  predicate At(bits: seq<bool>, i: nat) {
    i < |bits| && bits[i]
  }

  /** A block of the bit set: bit k of block b is element 8 * b + k; missing elements are zero. */
  function LsbBlock(bits: seq<bool>, b: nat): bv8 {
    var i := 8 * b;
    (if At(bits, i) then 0x01 as bv8 else 0)
    | (if At(bits, i + 1) then 0x02 as bv8 else 0)
    | (if At(bits, i + 2) then 0x04 as bv8 else 0)
    | (if At(bits, i + 3) then 0x08 as bv8 else 0)
    | (if At(bits, i + 4) then 0x10 as bv8 else 0)
    | (if At(bits, i + 5) then 0x20 as bv8 else 0)
    | (if At(bits, i + 6) then 0x40 as bv8 else 0)
    | (if At(bits, i + 7) then 0x80 as bv8 else 0)
  }

  function LsbBlocks(bits: seq<bool>): seq<bv8> {
    seq(ByteCount(|bits|), (b: nat) => LsbBlock(bits, b))
  }

  /** The three mask-and-shift steps. */
  function Reverse(b: bv8): bv8 {
    var b1 := ((b & 0xF0) >> 4) | ((b & 0x0F) << 4);
    var b2 := ((b1 & 0xCC) >> 2) | ((b1 & 0x33) << 2);
    ((b2 & 0xAA) >> 1) | ((b2 & 0x55) << 1)
  }

  function ToByte(b: bv8): byte {
    b as int
  }

  lemma ToByteAndBack(b: bv8)
    ensures ToByte(b) as bv8 == b
  {
  }

  function RawBitfield(bits: seq<bool>): seq<byte> {
    seq(ByteCount(|bits|), (b: nat) => ToByte(Reverse(LsbBlock(bits, b))))
  }

  /** raw[i] & (1 << (7 - j)) */
  predicate TestBit(b: bv8, j: nat)
    requires j < 8
  {
    b & ((1 as bv8) << (7 - j)) != 0
  }

  predicate Test(b: byte, j: nat)
    requires j < 8
  {
    TestBit(b as bv8, j)
  }

  predicate BitAt(raw: seq<byte>, k: nat)
    requires k < 8 * |raw|
  {
    Test(raw[k / 8], k % 8)
  }

  /** The indices pushed while reading the first k bits: set bits below n, in order. */
  function IndicesUpTo(raw: seq<byte>, n: nat, k: nat): seq<nat>
    requires k <= 8 * |raw|
  {
    if k == 0 then []
    else IndicesUpTo(raw, n, k - 1) + if BitAt(raw, k - 1) && k - 1 < n then [k - 1] else []
  }

  function Indices(raw: seq<byte>, n: nat): seq<nat> {
    IndicesUpTo(raw, n, 8 * |raw|)
  }

  lemma {:induction false} IndicesUpToExactly(raw: seq<byte>, n: nat, k: nat, x: nat)
    requires k <= 8 * |raw|
    ensures x in IndicesUpTo(raw, n, k) <==> x < k && x < n && BitAt(raw, x)
  {
    if k != 0 {
      IndicesUpToExactly(raw, n, k - 1, x);
    }
  }

  /** Exactly the set bits in range are taken. */
  lemma IndicesExactly(raw: seq<byte>, n: nat, x: nat)
    ensures x in Indices(raw, n) <==> x < n && x < 8 * |raw| && BitAt(raw, x)
  {
    IndicesUpToExactly(raw, n, 8 * |raw|, x);
  }

  /** The same indices as a set. */
  function IndexSet(raw: seq<byte>, n: nat): (r: set<nat>)
    ensures forall i: nat :: i in r <==> i in Indices(raw, n)
  {
    assert forall i: nat :: i in Indices(raw, n) ==> i < n by {
      forall i: nat ensures i in Indices(raw, n) ==> i < n {
        IndicesExactly(raw, n, i);
      }
    }
    set i: nat | i < n && i in Indices(raw, n)
  }

  /** After the reversal the bits come first-bit-high. */
  lemma ReversedBlock(bits: seq<bool>, b: nat, j: nat)
    requires j < 8
    ensures TestBit(Reverse(LsbBlock(bits, b)), j) <==> At(bits, 8 * b + j)
  {
  }

  lemma RawBit(bits: seq<bool>, k: nat)
    requires k < 8 * ByteCount(|bits|)
    ensures |RawBitfield(bits)| == ByteCount(|bits|)
    ensures BitAt(RawBitfield(bits), k) <==> At(bits, k)
  {
    hide LsbBlock, Reverse, TestBit, ToByte;
    ReversedBlock(bits, k / 8, k % 8);
    ToByteAndBack(Reverse(LsbBlock(bits, k / 8)));
  }

  /** Bitfield round trip: the sent payload has ceil(n/8) bytes with zero spare bits, and reading it gives
      exactly the members of the bit set. */
  lemma BitfieldRoundTrip(bits: seq<bool>)
    ensures |RawBitfield(bits)| == ByteCount(|bits|)
    ensures forall k: nat | |bits| <= k < 8 * ByteCount(|bits|) :: !BitAt(RawBitfield(bits), k)
    ensures forall x: nat :: x in Indices(RawBitfield(bits), |bits|) <==> At(bits, x)
  {
    var raw := RawBitfield(bits);
    forall k: nat | |bits| <= k < 8 * ByteCount(|bits|) ensures !BitAt(raw, k) {
      RawBit(bits, k);
    }
    forall x: nat ensures x in Indices(raw, |bits|) <==> At(bits, x) {
      IndicesExactly(raw, |bits|, x);
      if x < |bits| {
        RawBit(bits, x);
      }
    }
  }

  // ---------- weights ----------

  lemma Weights(b: bv8)
    ensures b as int == (if b & 0x80 != 0 then 128 else 0) + (if b & 0x40 != 0 then 64 else 0)
      + (if b & 0x20 != 0 then 32 else 0) + (if b & 0x10 != 0 then 16 else 0)
      + (if b & 0x08 != 0 then 8 else 0) + (if b & 0x04 != 0 then 4 else 0)
      + (if b & 0x02 != 0 then 2 else 0) + (if b & 0x01 != 0 then 1 else 0)
  {
  }

  /** The bit that place j from the top stands for. */
  function Weight(j: nat): (w: nat)
    requires j < 8
    ensures 0 < w
  {
    [128, 64, 32, 16, 8, 4, 2, 1][j]
  }

  /** The first bit of a byte is its highest. */
  lemma TestsWeight(b: byte, j: nat)
    requires j < 8
    ensures Test(b, j) <==> b / Weight(j) % 2 == 1
  {
    Weights(b as bv8);
  }

  /** The payload sent: piece k is the bit of weight 2^(7 - k % 8) of byte k / 8. */
  lemma SentBits(bits: seq<bool>, k: nat)
    requires k < 8 * ByteCount(|bits|)
    ensures |RawBitfield(bits)| == ByteCount(|bits|) == (|bits| + 7) / 8
    ensures RawBitfield(bits)[k / 8] / Weight(k % 8) % 2 == 1 <==> k < |bits| && bits[k]
  {
    hide RawBitfield, Test;
    RawBit(bits, k);
    TestsWeight(RawBitfield(bits)[k / 8], k % 8);
  }

  /** The payload received: exactly the pieces below n are taken whose bit, counted so, is set. */
  lemma ReadBits(raw: seq<byte>, n: nat, x: nat)
    ensures x in Indices(raw, n) <==> x < n && x < 8 * |raw| && raw[x / 8] / Weight(x % 8) % 2 == 1
  {
    hide Test;
    IndicesExactly(raw, n, x);
    if x < 8 * |raw| {
      TestsWeight(raw[x / 8], x % 8);
    }
  }
}
