/** How a torrent is cut into pieces and a piece into blocks
    (pieceSize in src/torrent/torrent.cpp, the block loops in src/torrent/peer.cpp). */
module Layout {
  import opened Transcoder

  const MAX_BLOCK_REQUEST_SIZE := 16384

  /** The twenty bytes of a SHA-1 digest. */
  type Digest = d: seq<byte> | |d| == 20 witness seq(20, _ => 0)

  /** The parsed metainfo. SHA-1 stays uninterpreted: any function from bytes to digests. */
  datatype Metainfo = Metainfo(pieceLength: nat, totalSize: nat, hashes: seq<Digest>, sha1: seq<byte> -> Digest) {
    predicate WellFormed() {
      && 0 < pieceLength
      && 0 < totalSize
      && |hashes| == (totalSize + pieceLength - 1) / pieceLength
      && |hashes| <= TWO32
    }
  }

  type Meta = m: Metainfo | m.WellFormed()
    witness Metainfo(1, 1, [seq(20, _ => 0)], (data: seq<byte>) => seq(20, _ => 0))

  function PieceStart(m: Meta, i: nat): nat {
    i * m.pieceLength
  }

  /** Only the last piece can be shorter. */
  function PieceSize(m: Meta, i: nat): nat {
    if i == |m.hashes| - 1 && m.totalSize % m.pieceLength != 0 then m.totalSize % m.pieceLength else m.pieceLength
  }

  /** checkPieceHash: false for an index out of range. */
  predicate Accepts(m: Meta, i: nat, data: seq<byte>) {
    i < |m.hashes| && m.sha1(data) == m.hashes[i]
  }

  function PieceOf(m: Meta, content: seq<byte>, i: nat): (piece: seq<byte>)
    requires |content| == m.totalSize
    requires i < |m.hashes|
    ensures |piece| == PieceSize(m, i)
  {
    PieceFits(m, i);
    content[PieceStart(m, i)..PieceStart(m, i) + PieceSize(m, i)]
  }

  /** No other data has the digest of a piece: what the hash check is for. */
  ghost predicate Genuine(m: Meta, content: seq<byte>) {
    && |content| == m.totalSize
    && forall i: nat, data: seq<byte> | i < |m.hashes| && m.sha1(data) == m.hashes[i] :: data == PieceOf(m, content, i)
  }

  /** For what is said of no content in particular. */
  function AnyContent(m: Meta): (content: seq<byte>)
    ensures |content| == m.totalSize
  {
    seq(m.totalSize, _ => 0)
  }

  /** The digests are those of the content. */
  ghost predicate Hashed(m: Meta, content: seq<byte>) {
    && |content| == m.totalSize
    && forall i: nat | i < |m.hashes| :: m.sha1(PieceOf(m, content, i)) == m.hashes[i]
  }

  /** The first place of `data` in the list, or the length of the list. */
  function Place(pieces: seq<seq<byte>>, data: seq<byte>): (k: nat)
    ensures k <= |pieces|
    ensures k < |pieces| ==> pieces[k] == data
    ensures data in pieces ==> k < |pieces|
  {
    if pieces == [] then 0 else if pieces[0] == data then 0 else Place(pieces[1..], data) + 1
  }

  /** Twenty bytes that tell the numbers up to 2^32 apart. */
  function Tag(k: nat): Digest {
    WriteBE32(Low32(k)) + [if k < TWO32 then 0 else 1] + seq(15, _ => 0)
  }

  lemma TagsDiffer(j: nat, k: nat)
    requires j <= TWO32 && k <= TWO32 && Tag(j) == Tag(k)
    ensures j == k
  {
    hide WriteBE32, ReadBE32;
    BE32RoundTrip(Low32(j));
    BE32RoundTrip(Low32(k));
    assert Tag(j)[..4] == WriteBE32(Low32(j)) && Tag(k)[..4] == WriteBE32(Low32(k));
    assert Tag(j)[4] == Tag(k)[4];
  }

  lemma SamePiece(m: Meta, m': Meta, content: seq<byte>, i: nat)
    requires m.pieceLength == m'.pieceLength && m.totalSize == m'.totalSize == |content|
    requires i < |m.hashes| == |m'.hashes|
    ensures PieceOf(m, content, i) == PieceOf(m', content, i)
  {
  }

  /** Both can be had together, with digests of twenty bytes, for any content, repeated pieces included. */
  lemma HypothesesConsistent(content: seq<byte>, pieceLength: nat) returns (m: Meta)
    requires content != [] && 0 < pieceLength && (|content| + pieceLength - 1) / pieceLength <= TWO32
    ensures m.pieceLength == pieceLength && Genuine(m, content) && Hashed(m, content)
  {
    hide Tag, PieceOf;
    var n: nat := (|content| + pieceLength - 1) / pieceLength;
    var blank: Meta := Metainfo(pieceLength, |content|, seq(n, _ => seq(20, _ => 0)), _ => seq(20, _ => 0));
    var pieces := seq(n, (i: nat) requires i < n => PieceOf(blank, content, i));
    var sha1 := (data: seq<byte>) => Tag(Place(pieces, data));
    m := Metainfo(pieceLength, |content|, seq(n, (i: nat) requires i < n => Tag(Place(pieces, pieces[i]))), sha1);
    forall i: nat | i < n ensures pieces[i] == PieceOf(m, content, i) {
      SamePiece(m, blank, content, i);
    }
    forall i: nat, data: seq<byte> | i < n && m.sha1(data) == m.hashes[i] ensures data == PieceOf(m, content, i) {
      assert pieces[i] in pieces;
      TagsDiffer(Place(pieces, data), Place(pieces, pieces[i]));
    }
  }

  lemma DivisionBounds(total: nat, unit: nat, n: nat)
    requires 0 < total && 0 < unit
    requires n == (total + unit - 1) / unit
    ensures 1 <= n
    ensures (n - 1) * unit < total <= n * unit
    ensures total % unit == 0 ==> total == n * unit
    ensures total % unit != 0 ==> total == (n - 1) * unit + total % unit
  {
    var q, r := total / unit, total % unit;
    assert total == q * unit + r;
    if r == 0 {
      assert total + unit - 1 == q * unit + (unit - 1);
      RemainderIs(total + unit - 1, unit, q, unit - 1);
    } else {
      assert total + unit - 1 == (q + 1) * unit + (r - 1) by {
        assert (q + 1) * unit == q * unit + unit;
      }
      RemainderIs(total + unit - 1, unit, q + 1, r - 1);
    }
  }

  /** Pieces lie inside the content, and the last one ends it. */
  lemma PieceFits(m: Meta, i: nat)
    requires i < |m.hashes|
    ensures 0 < PieceSize(m, i) <= m.pieceLength
    ensures PieceStart(m, i) + PieceSize(m, i) <= m.totalSize
    ensures i + 1 < |m.hashes| ==> PieceSize(m, i) == m.pieceLength
    ensures i + 1 == |m.hashes| ==> PieceStart(m, i) + PieceSize(m, i) == m.totalSize
  {
    var n := |m.hashes|;
    DivisionBounds(m.totalSize, m.pieceLength, n);
    assert n * m.pieceLength == (n - 1) * m.pieceLength + m.pieceLength;
    if i + 1 < n {
      assert (i + 1) * m.pieceLength <= (n - 1) * m.pieceLength;
      assert (i + 1) * m.pieceLength == i * m.pieceLength + m.pieceLength;
    }
  }

  /** Earlier pieces end where later ones start, or before. */
  lemma PiecesDisjoint(m: Meta, i: nat, j: nat)
    requires i < j < |m.hashes|
    ensures PieceStart(m, i) + PieceSize(m, i) <= PieceStart(m, j)
  {
    PieceFits(m, i);
    assert (i + 1) * m.pieceLength <= j * m.pieceLength;
    assert (i + 1) * m.pieceLength == i * m.pieceLength + m.pieceLength;
  }

  /** Every byte of the content belongs to a piece. */
  lemma PieceCovering(m: Meta, x: nat) returns (i: nat)
    requires x < m.totalSize
    ensures i < |m.hashes|
    ensures PieceStart(m, i) <= x < PieceStart(m, i) + PieceSize(m, i)
  {
    i := x / m.pieceLength;
    var n := |m.hashes|;
    DivisionBounds(m.totalSize, m.pieceLength, n);
    assert x == i * m.pieceLength + x % m.pieceLength;
    ProductsOrdered(n, i, m.pieceLength);
    PieceFits(m, i);
  }

  function SizeOfFirst(m: Meta, k: nat): nat {
    if k == 0 then 0 else SizeOfFirst(m, k - 1) + PieceSize(m, k - 1)
  }

  /** The piece sizes sum to the size of the content. */
  lemma {:induction false} SizesSumToTotal(m: Meta, k: nat)
    requires k <= |m.hashes|
    ensures k < |m.hashes| ==> SizeOfFirst(m, k) == PieceStart(m, k)
    ensures k == |m.hashes| ==> SizeOfFirst(m, k) == m.totalSize
  {
    DivisionBounds(m.totalSize, m.pieceLength, |m.hashes|);
    if k != 0 {
      SizesSumToTotal(m, k - 1);
      PieceFits(m, k - 1);
      assert (k - 1) * m.pieceLength + m.pieceLength == k * m.pieceLength;
    }
  }

  // ---------- blocks ----------

  datatype Span = Span(begin: nat, length: nat)

  function BlockCount(size: nat): nat {
    (size + MAX_BLOCK_REQUEST_SIZE - 1) / MAX_BLOCK_REQUEST_SIZE
  }

  function SpanAt(size: nat, k: nat): Span
    requires k < BlockCount(size)
  {
    var begin := k * MAX_BLOCK_REQUEST_SIZE;
    Span(begin, if size - begin < MAX_BLOCK_REQUEST_SIZE then size - begin else MAX_BLOCK_REQUEST_SIZE)
  }

  /** The blocks of a piece of `size` bytes, in order. */
  function Spans(size: nat): seq<Span> {
    seq(BlockCount(size), (k: nat) requires k < BlockCount(size) => SpanAt(size, k))
  }

  /** The slots allocated for piece i: the code takes the size as a 32-bit value here. */
  function SlotCount(m: Meta, i: nat): nat {
    BlockCount(Low32(PieceSize(m, i)))
  }

  /** The blocks are non-empty, at most 16384 bytes, contiguous from 0 to the end, and the k-th begin
      divides back to slot k. */
  lemma SpansPartition(size: nat, k: nat)
    requires k < BlockCount(size)
    ensures |Spans(size)| == BlockCount(size) == (size + 16383) / 16384
    ensures 1 <= Spans(size)[k].length <= 16384
    ensures Spans(size)[k].begin / 16384 == k
    ensures k == 0 ==> Spans(size)[k].begin == 0
    ensures k + 1 < BlockCount(size) ==> Spans(size)[k + 1].begin == Spans(size)[k].begin + Spans(size)[k].length
    ensures k + 1 == BlockCount(size) ==> Spans(size)[k].begin + Spans(size)[k].length == size
  {
  }

  /** Slots and requested blocks agree in number exactly for pieces below 2^32 bytes. */
  lemma SlotsMatchBlocksExactly(m: Meta, i: nat)
    ensures SlotCount(m, i) == BlockCount(PieceSize(m, i)) <==> PieceSize(m, i) < TWO32
  {
  }

  function Flatten(parts: seq<seq<byte>>): seq<byte> {
    if parts == [] then [] else Flatten(parts[..|parts| - 1]) + parts[|parts| - 1]
  }

  /** The bytes of each block of `data`. */
  function Cut(data: seq<byte>): (r: seq<seq<byte>>)
    ensures |r| == BlockCount(|data|)
    ensures forall k | 0 <= k < |r| :: |r[k]| == SpanAt(|data|, k).length
  {
    seq(BlockCount(|data|), (k: nat) requires k < BlockCount(|data|) =>
      data[SpanAt(|data|, k).begin..SpanAt(|data|, k).begin + SpanAt(|data|, k).length])
  }

  lemma {:induction false} CutPrefix(data: seq<byte>, k: nat)
    requires k <= BlockCount(|data|)
    ensures var n := k * MAX_BLOCK_REQUEST_SIZE;
      Flatten(Cut(data)[..k]) == data[..if n < |data| then n else |data|]
  {
    if k != 0 {
      CutPrefix(data, k - 1);
      assert Cut(data)[..k][..k - 1] == Cut(data)[..k - 1];
    }
  }

  /** Cutting into blocks and joining them are inverse. */
  lemma CutThenFlatten(data: seq<byte>)
    ensures Flatten(Cut(data)) == data
  {
    CutPrefix(data, BlockCount(|data|));
    assert Cut(data)[..BlockCount(|data|)] == Cut(data);
  }
}
