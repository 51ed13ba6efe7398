/** The piece ledger: flags, bitfield, counters and file agree (src/torrent/torrent.cpp). */
module LedgerInvariant {
  import opened Wrappers
  import opened Transcoder
  import opened Layout
  import opened Swarm

  function CountFinished(pieces: seq<Piece>): nat {
    if pieces == [] then 0
    else CountFinished(pieces[..|pieces| - 1]) + if pieces[|pieces| - 1].finished then 1 else 0
  }

  function FinishedBytes(m: Meta, pieces: seq<Piece>): nat {
    if pieces == [] then 0
    else FinishedBytes(m, pieces[..|pieces| - 1])
         + if pieces[|pieces| - 1].finished then PieceSize(m, |pieces| - 1) else 0
  }

  function PrioritySum(pieces: seq<Piece>): nat {
    if pieces == [] then 0 else PrioritySum(pieces[..|pieces| - 1]) + pieces[|pieces| - 1].priority
  }

  /** Needs no hypothesis on the hash function. */
  ghost predicate BookOk(m: Meta, w: World) {
    && |w.pieces| == |w.bitfield| == |m.hashes|
    && (forall i | 0 <= i < |w.pieces| :: w.bitfield[i] == w.pieces[i].finished)
    && w.completed == CountFinished(w.pieces)
    && forall i | 0 <= i < |w.pieces| :: w.pieces[i].priority <= INT32_MAX
  }

  ghost predicate InFile(m: Meta, content: seq<byte>, file: seq<byte>, i: nat)
    requires |content| == m.totalSize && i < |m.hashes|
  {
    && PieceStart(m, i) + PieceSize(m, i) <= |file|
    && file[PieceStart(m, i)..PieceStart(m, i) + PieceSize(m, i)] == PieceOf(m, content, i)
  }

  /** If the hash check lets nothing but the content through, every finished piece is in the file and the byte
      counter counts the finished pieces. */
  ghost predicate FileOk(m: Meta, content: seq<byte>, w: World)
    requires |content| == m.totalSize
  {
    && |w.pieces| == |m.hashes|
    && (Genuine(m, content) ==>
          && (forall i | 0 <= i < |m.hashes| && w.pieces[i].finished :: InFile(m, content, w.file, i))
          && w.downloaded == FinishedBytes(m, w.pieces))
  }

  /** The two lists differ in one piece at most. */
  lemma {:induction false} OneFinished(m: Meta, pieces: seq<Piece>, i: nat)
    requires i < |pieces| && !pieces[i].finished
    ensures var pieces' := pieces[i := pieces[i].(finished := true)];
      && CountFinished(pieces') == CountFinished(pieces) + 1
      && FinishedBytes(m, pieces') == FinishedBytes(m, pieces) + PieceSize(m, i)
      && PrioritySum(pieces') == PrioritySum(pieces)
  {
    var pieces', n := pieces[i := pieces[i].(finished := true)], |pieces| - 1;
    if i < n {
      OneFinished(m, pieces[..n], i);
      assert pieces'[..n] == pieces[..n][i := pieces[i].(finished := true)];
    } else {
      assert pieces'[..n] == pieces[..n];
    }
  }

  lemma {:induction false} OneRaised(m: Meta, pieces: seq<Piece>, i: nat)
    requires i < |pieces|
    ensures var pieces' := RaisePriority(pieces, i);
      && CountFinished(pieces') == CountFinished(pieces)
      && FinishedBytes(m, pieces') == FinishedBytes(m, pieces)
      && PrioritySum(pieces') == PrioritySum(pieces) + 1
  {
    var pieces', n := RaisePriority(pieces, i), |pieces| - 1;
    if i < n {
      OneRaised(m, pieces[..n], i);
      assert pieces'[..n] == RaisePriority(pieces[..n], i);
    } else {
      assert pieces'[..n] == pieces[..n];
    }
  }

  lemma {:induction false} NothingFinished(m: Meta, pieces: seq<Piece>)
    requires forall i | 0 <= i < |pieces| :: pieces[i] == Piece(false, 0)
    ensures CountFinished(pieces) == 0 && FinishedBytes(m, pieces) == 0 && PrioritySum(pieces) == 0
  {
    if pieces != [] {
      NothingFinished(m, pieces[..|pieces| - 1]);
    }
  }

  /** The count reaches the number of pieces, and the bytes their total, exactly when all are finished. */
  lemma {:induction false} AllFinished(m: Meta, pieces: seq<Piece>)
    requires |pieces| <= |m.hashes|
    ensures CountFinished(pieces) <= |pieces|
    ensures FinishedBytes(m, pieces) <= SizeOfFirst(m, |pieces|)
    ensures CountFinished(pieces) == |pieces| <==> forall i | 0 <= i < |pieces| :: pieces[i].finished
    ensures CountFinished(pieces) == |pieces| <==> FinishedBytes(m, pieces) == SizeOfFirst(m, |pieces|)
  {
    if pieces != [] {
      var n := |pieces| - 1;
      AllFinished(m, pieces[..n]);
      PieceFits(m, n);
      assert (forall i | 0 <= i < |pieces| :: pieces[i].finished)
        <==> (forall i | 0 <= i < n :: pieces[..n][i].finished) && pieces[n].finished;
    }
  }

  // ---------- the file ----------

  /** A write puts its data at its position, leaves every range beside it as it was, and makes the file no
      longer than it must. */
  lemma WriteAtRange(file: seq<byte>, pos: nat, data: seq<byte>, from: nat, to: nat)
    requires from <= to <= |file|
    ensures var file' := WriteAt(file, pos, data);
      && |file'| == (if |file| < pos + |data| then pos + |data| else |file|)
      && file'[pos..pos + |data|] == data
      && (to <= pos || pos + |data| <= from ==> file'[from..to] == file[from..to])
  {
    var file' := WriteAt(file, pos, data);
    forall x | 0 <= x < |file'| && !(pos <= x < pos + |data|) ensures file'[x] == if x < |file| then file[x] else 0 {
    }
  }

  /** A read inside the file gives exactly that range. */
  lemma ReadAtRange(file: seq<byte>, pos: nat, length: nat)
    requires pos + length <= |file|
    ensures ReadAt(file, pos, length) == file[pos..pos + length]
  {
  }

  /** No piece that is in the file is disturbed by the write of another. */
  lemma OthersUndisturbed(m: Meta, content: seq<byte>, file: seq<byte>, i: nat, j: nat)
    requires |content| == m.totalSize
    requires i < |m.hashes| && j < |m.hashes| && i != j
    requires InFile(m, content, file, j)
    ensures InFile(m, content, WriteAt(file, PieceStart(m, i), PieceOf(m, content, i)), j)
  {
    PieceFits(m, i);
    PieceFits(m, j);
    if i < j {
      PiecesDisjoint(m, i, j);
    } else {
      PiecesDisjoint(m, j, i);
    }
    WriteAtRange(file, PieceStart(m, i), PieceOf(m, content, i), PieceStart(m, j), PieceStart(m, j) + PieceSize(m, j));
  }

  /** handlePieceCompleted keeps the books, whatever the data. */
  lemma CompletePieceBook(m: Meta, w: World, i: nat, data: seq<byte>)
    requires BookOk(m, w)
    requires !Done(w.pieces, i)
    ensures var w' := CompletePiece(m, w, i, data);
      && BookOk(m, w')
      && w'.downloaded + w'.wasted == w.downloaded + w.wasted + |data|
      && w'.completed + w'.hashMisses == w.completed + w.hashMisses + 1
      && w'.uploaded == w.uploaded && w'.active == w.active && w'.blackListed == w.blackListed
      && PrioritySum(w'.pieces) == PrioritySum(w.pieces)
  {
    if i < |w.pieces| {
      OneFinished(m, w.pieces, i);
    }
  }

  /** With a hash that only the right data passes, the file and the byte counter stay right. */
  lemma CompletePieceFile(m: Meta, content: seq<byte>, w: World, i: nat, data: seq<byte>)
    requires |content| == m.totalSize
    requires BookOk(m, w) && FileOk(m, content, w)
    requires !Done(w.pieces, i)
    ensures FileOk(m, content, CompletePiece(m, w, i, data))
  {
    if Genuine(m, content) && Accepts(m, i, data) {
      assert data == PieceOf(m, content, i);
      OneFinished(m, w.pieces, i);
      PieceFits(m, i);
      WriteAtRange(w.file, PieceStart(m, i), data, 0, 0);
      var w' := CompletePiece(m, w, i, data);
      forall j | 0 <= j < |m.hashes| && w'.pieces[j].finished ensures InFile(m, content, w'.file, j) {
        if j != i {
          OthersUndisturbed(m, content, w.file, i, j);
        }
      }
    }
  }

  lemma ByteInPiece(m: Meta, content: seq<byte>, file: seq<byte>, i: nat, x: nat)
    requires |content| == m.totalSize && i < |m.hashes|
    requires InFile(m, content, file, i)
    requires PieceStart(m, i) <= x < PieceStart(m, i) + PieceSize(m, i)
    ensures x < |content| && x < |file| && file[x] == content[x]
  {
    hide PieceStart, PieceSize;
    PieceFits(m, i);
    var from, to := PieceStart(m, i), PieceStart(m, i) + PieceSize(m, i);
    assert file[x] == file[from..to][x - from];
    assert content[x] == content[from..to][x - from];
  }

  lemma ByteInFile(m: Meta, content: seq<byte>, w: World, x: nat)
    requires Genuine(m, content)
    requires FileOk(m, content, w)
    requires forall i | 0 <= i < |w.pieces| :: w.pieces[i].finished
    requires x < m.totalSize
    ensures x < |w.file| && w.file[x] == content[x]
  {
    hide InFile, PieceStart, PieceSize, FinishedBytes;
    var i := PieceCovering(m, x);
    ByteInPiece(m, content, w.file, i, x);
  }

  /** When every piece is finished, the file starts with the content. */
  lemma CompleteFile(m: Meta, content: seq<byte>, w: World)
    requires Genuine(m, content)
    requires BookOk(m, w) && FileOk(m, content, w)
    requires w.completed == |w.pieces|
    ensures m.totalSize <= |w.file|
    ensures w.file[..m.totalSize] == content
  {
    assert forall i | 0 <= i < |w.pieces| :: w.pieces[i].finished by {
      AllFinished(m, w.pieces);
    }
    hide *;
    forall x | 0 <= x < m.totalSize ensures x < |w.file| && w.file[x] == content[x] {
      ByteInFile(m, content, w, x);
    }
    if 0 < m.totalSize {
      ByteInFile(m, content, w, m.totalSize - 1);
    }
  }

  /** downloaded + remaining is the total, and nothing remains exactly when the download is complete. */
  lemma ExactRemainder(m: Meta, content: seq<byte>, w: World)
    requires Genuine(m, content)
    requires BookOk(m, w) && FileOk(m, content, w)
    ensures w.downloaded <= m.totalSize
    ensures w.downloaded == m.totalSize <==> w.completed == |w.pieces|
  {
    AllFinished(m, w.pieces);
    SizesSumToTotal(m, |m.hashes|);
  }

  // ---------- selection ----------

  ghost predicate IsChoice(pieces: seq<Piece>, has: seq<nat>, k: nat, i: nat)
    requires k <= |pieces|
  {
    && i < k
    && !pieces[i].finished && i in has && pieces[i].priority < 0x7FFF_FFFF
    && (forall j | 0 <= j < k && !pieces[j].finished && j in has :: pieces[i].priority <= pieces[j].priority)
    && forall j | 0 <= j < i && !pieces[j].finished && j in has :: pieces[i].priority < pieces[j].priority
  }

  /** The choice is the lowest-indexed piece of least priority among the unfinished pieces that the peer has
      and whose priority can still be raised; there is none exactly when there is no such piece. */
  lemma {:induction false} ChoiceExactly(pieces: seq<Piece>, has: seq<nat>, k: nat)
    requires k <= |pieces|
    ensures match Choice(pieces, has, k)
      case None => forall i | 0 <= i < k && !pieces[i].finished && i in has :: 0x7FFF_FFFF <= pieces[i].priority
      case Some(i) => IsChoice(pieces, has, k, i)
  {
    if k != 0 {
      ChoiceExactly(pieces, has, k - 1);
    }
  }

  /** The first candidate that was never requested is the choice among all pieces. */
  lemma FirstUnrequested(pieces: seq<Piece>, has: seq<nat>, i: nat)
    requires Candidate(pieces, has, i) && pieces[i].priority == 0
    requires forall j | 0 <= j < i && Candidate(pieces, has, j) :: pieces[j].priority != 0
    ensures Choice(pieces, has, |pieces|) == Some(i)
  {
    ChoiceExactly(pieces, has, |pieces|);
  }
}
