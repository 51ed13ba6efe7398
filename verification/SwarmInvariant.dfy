/** What holds of the whole engine between two steps, and how the parts of a step keep it. */
module SwarmInvariant {
  import opened Transcoder
  import opened Layout
  import opened Protocol
  import opened Swarm
  import opened PeerInvariant
  import opened LedgerInvariant

  // ---------- sums over the peers ----------

  function Sum(f: PeerState -> nat, peers: seq<PeerState>): nat {
    if peers == [] then 0 else Sum(f, peers[..|peers| - 1]) + f(peers[|peers| - 1])
  }

  function CountIndex(queue: seq<InFlight>, i: nat): nat {
    if queue == [] then 0
    else CountIndex(queue[..|queue| - 1], i) + if queue[|queue| - 1].index == i then 1 else 0
  }

  function Uploaded(): PeerState -> nat {
    (s: PeerState) => UploadedIn(s.log)
  }

  function Started(): PeerState -> nat {
    (s: PeerState) => StartsIn(s.log)
  }

  function InFlightOf(i: nat): PeerState -> nat {
    (s: PeerState) => CountIndex(s.queue, i)
  }

  lemma {:induction false} SumPut(f: PeerState -> nat, peers: seq<PeerState>, p: nat, s: PeerState)
    requires p < |peers|
    ensures Sum(f, peers[p := s]) + f(peers[p]) == Sum(f, peers) + f(s)
  {
    var n := |peers| - 1;
    if p < n {
      SumPut(f, peers[..n], p, s);
      assert peers[p := s][..n] == peers[..n][p := s];
    } else {
      assert peers[p := s][..n] == peers[..n];
    }
  }

  lemma {:induction false} SumSame(f: PeerState -> nat, peers: seq<PeerState>, peers': seq<PeerState>)
    requires |peers| == |peers'|
    requires forall k | 0 <= k < |peers| :: f(peers[k]) == f(peers'[k])
    ensures Sum(f, peers) == Sum(f, peers')
  {
    if peers != [] {
      SumSame(f, peers[..|peers| - 1], peers'[..|peers| - 1]);
    }
  }

  lemma SumAdd(f: PeerState -> nat, peers: seq<PeerState>, s: PeerState)
    ensures Sum(f, peers + [s]) == Sum(f, peers) + f(s)
  {
    assert (peers + [s])[..|peers|] == peers;
  }

  lemma CountAdd(queue: seq<InFlight>, q: InFlight, i: nat)
    ensures CountIndex(queue + [q], i) == CountIndex(queue, i) + if q.index == i then 1 else 0
  {
  }

  lemma {:induction false} CountReplace(queue: seq<InFlight>, k: nat, q: InFlight, i: nat)
    requires k < |queue| && q.index == queue[k].index
    ensures CountIndex(queue[k := q], i) == CountIndex(queue, i)
  {
    var n := |queue| - 1;
    if k < n {
      CountReplace(queue[..n], k, q, i);
      assert queue[k := q][..n] == queue[..n][k := q];
    } else {
      assert queue[k := q][..n] == queue[..n];
    }
  }

  lemma {:induction false} CountRemove(queue: seq<InFlight>, k: nat, i: nat)
    requires k < |queue|
    ensures CountIndex(RemoveAt(queue, k), i) + (if queue[k].index == i then 1 else 0) == CountIndex(queue, i)
  {
    var n := |queue| - 1;
    if k < n {
      CountRemove(queue[..n], k, i);
      assert RemoveAt(queue, k) == RemoveAt(queue[..n], k) + [queue[n]];
      CountAdd(RemoveAt(queue[..n], k), queue[n], i);
    } else {
      assert RemoveAt(queue, k) == queue[..n];
    }
  }

  // ---------- the invariant ----------

  /** Nothing was told or sent that is not finished. */
  ghost predicate Truthful(m: Meta, pieces: seq<Piece>, s: PeerState) {
    && (forall i <- Told(m, s.log) :: Done(pieces, i))
    && forall i <- Served(s.log) :: Done(pieces, i)
  }

  ghost predicate PeersOk(m: Meta, content: seq<byte>, w: World)
    requires |content| == m.totalSize
  {
    forall k | 0 <= k < |w.peers| :: PeerOk(m, content, w.peers[k]) && Truthful(m, w.pieces, w.peers[k])
  }

  /** The upload counter is what was sent; the priorities are the piece requests started; no piece is in
      flight more often than its priority. */
  ghost predicate CountsOk(w: World) {
    && w.uploaded == Sum(Uploaded(), w.peers)
    && PrioritySum(w.pieces) == Sum(Started(), w.peers)
    && forall i | 0 <= i < |w.pieces| :: Sum(InFlightOf(i), w.peers) <= w.pieces[i].priority
  }

  ghost predicate ActiveOk(w: World) {
    && (forall a <- w.active :: a < |w.peers| && (w.peers[a].stage.Talking? || w.peers[a].stage.Closed?))
    && forall i, j | 0 <= i < j < |w.active| :: w.active[i] != w.active[j]
  }

  ghost predicate Inv(m: Meta, content: seq<byte>, w: World)
    requires |content| == m.totalSize
  {
    && BookOk(m, w)
    && FileOk(m, content, w)
    && PeersOk(m, content, w)
    && CountsOk(w)
    && ActiveOk(w)
  }

  /** The fields of the ledger are untouched. */
  ghost predicate SameLedger(w: World, w': World) {
    && w'.pieces == w.pieces && w'.bitfield == w.bitfield && w'.completed == w.completed
    && w'.downloaded == w.downloaded && w'.wasted == w.wasted && w'.hashMisses == w.hashMisses
    && w'.file == w.file
  }

  // ---------- one peer changes ----------

  /** s' differs from s in nothing that the rest of the engine counts. */
  ghost predicate Quiet(m: Meta, s: PeerState, s': PeerState) {
    && Told(m, s'.log) <= Told(m, s.log)
    && Served(s'.log) <= Served(s.log)
    && UploadedIn(s'.log) == UploadedIn(s.log)
    && StartsIn(s'.log) == StartsIn(s.log)
    && (forall i: nat :: CountIndex(s'.queue, i) <= CountIndex(s.queue, i))
    && (s.stage.Talking? || s.stage.Closed? ==> s'.stage.Talking? || s'.stage.Closed?)
  }

  lemma PutQuiet(m: Meta, content: seq<byte>, w: World, p: nat, s: PeerState)
    requires |content| == m.totalSize
    requires Inv(m, content, w) && p < |w.peers|
    requires PeerOk(m, content, s) && Quiet(m, w.peers[p], s)
    ensures Inv(m, content, Put(w, p, s))
  {
    hide PeerOk, Sum, FileOk, BookOk, Told, Served, UploadedIn, StartsIn, CountIndex;
    SumPut(Uploaded(), w.peers, p, s);
    SumPut(Started(), w.peers, p, s);
    forall i | 0 <= i < |w.pieces| ensures Sum(InFlightOf(i), Put(w, p, s).peers) <= w.pieces[i].priority {
      SumPut(InFlightOf(i), w.peers, p, s);
    }
    SameBooks(m, content, w, Put(w, p, s));
  }

  lemma SameBooks(m: Meta, content: seq<byte>, w: World, w': World)
    requires |content| == m.totalSize
    requires BookOk(m, w) && FileOk(m, content, w) && SameLedger(w, w')
    ensures BookOk(m, w') && FileOk(m, content, w')
  {
  }

  // ---------- selection ----------

  lemma SelectBooks(m: Meta, content: seq<byte>, w: World, p: nat)
    requires |content| == m.totalSize
    requires BookOk(m, w) && FileOk(m, content, w) && p < |w.peers|
    ensures var w' := Select(m, w, p);
      && BookOk(m, w') && FileOk(m, content, w')
      && SameLedger(w.(pieces := []), w'.(pieces := []))
      && w'.active == w.active && w'.blackListed == w.blackListed && w'.uploaded == w.uploaded
      && |w'.pieces| == |w.pieces|
      && forall i | 0 <= i < |w.pieces| :: w'.pieces[i].finished == w.pieces[i].finished
  {
    ChoiceExactly(w.pieces, w.peers[p].has, |w.pieces|);
    match Choice(w.pieces, w.peers[p].has, |w.pieces|)
    case None =>
    case Some(i) => OneRaised(m, w.pieces, i);
  }

  lemma SelectCounts(m: Meta, content: seq<byte>, w: World, p: nat, i: nat)
    requires |content| == m.totalSize
    requires CountsOk(w) && p < |w.peers| && i < |w.pieces|
    requires var s, s' := w.peers[p], StartPiece(m, w.peers[p], i);
      && s'.queue == s.queue + [FreshInFlight(m, i)]
      && UploadedIn(s'.log) == UploadedIn(s.log)
      && StartsIn(s'.log) == StartsIn(s.log) + 1
    ensures CountsOk(Put(w, p, StartPiece(m, w.peers[p], i)).(pieces := RaisePriority(w.pieces, i)))
  {
    hide StartPiece, Sum, PrioritySum, UploadedIn, StartsIn;
    var s, s' := w.peers[p], StartPiece(m, w.peers[p], i);
    SumPut(Uploaded(), w.peers, p, s');
    SumPut(Started(), w.peers, p, s');
    OneRaised(m, w.pieces, i);
    forall j | 0 <= j < |w.pieces|
      ensures Sum(InFlightOf(j), w.peers[p := s']) <= RaisePriority(w.pieces, i)[j].priority
    {
      SumPut(InFlightOf(j), w.peers, p, s');
      CountAdd(s.queue, FreshInFlight(m, i), j);
    }
  }

  /** selectPieceAndRequest keeps the invariant. */
  lemma SelectOk(m: Meta, content: seq<byte>, w: World, p: nat)
    requires |content| == m.totalSize
    requires Inv(m, content, w) && p < |w.peers|
    requires w.peers[p].stage.Talking? && StartsAPiece(LastIn(w.peers[p].log))
    ensures Inv(m, content, Select(m, w, p))
  {
    hide StartPiece, PeerOk, BookOk, FileOk, Told, Served, UploadedIn, StartsIn, Sum;
    SelectBooks(m, content, w, p);
    ChoiceExactly(w.pieces, w.peers[p].has, |w.pieces|);
    match Choice(w.pieces, w.peers[p].has, |w.pieces|)
    case None =>
    case Some(i) =>
      SamePieceCount(m, w);
      StartPieceOk(m, content, w.peers[p], i);
      SelectCounts(m, content, w, p, i);
  }

  lemma SamePieceCount(m: Meta, w: World)
    requires BookOk(m, w)
    ensures |w.pieces| == |m.hashes|
  {
  }

  // ---------- a piece is complete ----------

  /** Each active peer gets the HAVE, the others nothing. */
  lemma {:induction false} BroadcastAt(peers: seq<PeerState>, active: seq<nat>, i: nat, k: nat)
    requires forall a <- active :: a < |peers|
    requires forall x, y | 0 <= x < y < |active| :: active[x] != active[y]
    requires k < |peers|
    ensures Broadcast(peers, active, i)[k] == if k in active then SendHave(peers[k], i) else peers[k]
  {
    if active != [] {
      var init, a := active[..|active| - 1], active[|active| - 1];
      assert active == init + [a];
      forall x | x in init ensures x < |peers| {
        assert x in active;
      }
      BroadcastAt(peers, init, i, k);
      assert a in active;
      if k == a {
        assert k !in init;
      }
    }
  }

  lemma CompletePeer(m: Meta, content: seq<byte>, w: World, i: nat, data: seq<byte>, k: nat)
    requires |content| == m.totalSize
    requires Inv(m, content, w)
    requires !Done(w.pieces, i)
    requires k < |w.peers|
    ensures var w' := CompletePiece(m, w, i, data);
      var s, s' := w.peers[k], w'.peers[k];
      && PeerOk(m, content, s') && Truthful(m, w'.pieces, s')
      && s'.(log := s.log) == s
      && UploadedIn(s'.log) == UploadedIn(s.log)
      && StartsIn(s'.log) == StartsIn(s.log)
      && LastIn(s'.log) == LastIn(s.log)
      && Told(m, s'.log) == Told(m, s.log) +
         (if Accepts(m, i, data) && k in w.active && !s.amChoking && !s.stage.Closed? then {i} else {})
  {
    hide PeerOk, FileOk, CountFinished, Told, Served, UploadedIn, StartsIn, Sum, SendHave, CountsOk, WriteAt,
      PieceStart;
    if Accepts(m, i, data) {
      BroadcastAt(w.peers, w.active, i, k);
      assert i !in Told(m, w.peers[k].log);
      if k in w.active {
        SendHaveOk(m, content, w.peers[k], i);
      }
    }
  }

  /** handlePieceCompleted keeps the invariant. */
  lemma CompleteOk(m: Meta, content: seq<byte>, w: World, i: nat, data: seq<byte>)
    requires |content| == m.totalSize
    requires Inv(m, content, w)
    requires !Done(w.pieces, i)
    ensures Inv(m, content, CompletePiece(m, w, i, data))
  {
    hide PeerOk, FileOk, CountFinished, Told, Served, UploadedIn, StartsIn, Sum, Broadcast, WriteAt, PieceStart,
      Truthful, PrioritySum;
    var w' := CompletePiece(m, w, i, data);
    CompletePieceBook(m, w, i, data);
    CompletePieceFile(m, content, w, i, data);
    forall k | 0 <= k < |w.peers|
      ensures PeerOk(m, content, w'.peers[k]) && Truthful(m, w'.pieces, w'.peers[k])
      ensures w'.peers[k].(log := w.peers[k].log) == w.peers[k]
      ensures UploadedIn(w'.peers[k].log) == UploadedIn(w.peers[k].log)
      ensures StartsIn(w'.peers[k].log) == StartsIn(w.peers[k].log)
    {
      CompletePeer(m, content, w, i, data, k);
    }
    SumSame(Uploaded(), w.peers, w'.peers);
    SumSame(Started(), w.peers, w'.peers);
    forall j | 0 <= j < |w.pieces| ensures Sum(InFlightOf(j), w'.peers) <= w'.pieces[j].priority {
      SumSame(InFlightOf(j), w.peers, w'.peers);
    }
  }

  /** The HAVEs do not depend on a peer's queue. */
  lemma {:induction false} BroadcastIgnoresQueue(peers: seq<PeerState>, active: seq<nat>, i: nat, p: nat,
                                                 queue: seq<InFlight>)
    requires p < |peers|
    ensures var ps := Broadcast(peers, active, i);
      && ps[p].queue == peers[p].queue
      && Broadcast(peers[p := peers[p].(queue := queue)], active, i) == ps[p := ps[p].(queue := queue)]
  {
    if active != [] {
      BroadcastIgnoresQueue(peers, active[..|active| - 1], i, p, queue);
    }
  }

  /** Taking the full entry out before or after the piece is handled makes no difference. */
  lemma AssembleReordered(m: Meta, w: World, p: nat, k: nat)
    requires p < |w.peers| && k < |w.peers[p].queue|
    ensures var q := w.peers[p].queue[k];
      var w1 := WithQueue(w, p, RemoveAt(w.peers[p].queue, k));
      Assemble(m, w, p, k) == SelectUnlessComplete(m, CompletePiece(m, w1, q.index, Gather(q.slots)), p)
  {
    hide SelectUnlessComplete, Gather, WriteAt;
    var q := w.peers[p].queue[k];
    var queue := RemoveAt(w.peers[p].queue, k);
    BroadcastIgnoresQueue(w.peers, w.active, q.index, p, queue);
    var w1 := CompletePiece(m, w, q.index, Gather(q.slots));
    assert w1.peers[p].queue == w.peers[p].queue;
    assert WithQueue(w1, p, queue) == CompletePiece(m, WithQueue(w, p, queue), q.index, Gather(q.slots));
  }

  // ---------- a block comes in ----------

  lemma BlockStored(m: Meta, content: seq<byte>, w: World, p: nat, k: nat, slot: nat, data: seq<byte>)
    requires |content| == m.totalSize
    requires Inv(m, content, w) && p < |w.peers| && k < |w.peers[p].queue|
    requires slot < |w.peers[p].queue[k].slots|
    requires var q := Fill(w.peers[p].queue[k], slot, data); q.haveBlocks != |q.slots|
    ensures Inv(m, content, WithQueue(w, p, w.peers[p].queue[k := Fill(w.peers[p].queue[k], slot, data)]))
  {
    var s := w.peers[p];
    var q := Fill(s.queue[k], slot, data);
    EntryOk(m, content, s, k);
    FilledOk(m, s.queue[k], slot, data);
    ReplacedOk(m, content, s, k, q);
    hide PeerOk, Inv;
    forall i: nat ensures CountIndex(s.queue[k := q], i) <= CountIndex(s.queue, i) {
      CountReplace(s.queue, k, q, i);
    }
    PutQuiet(m, content, w, p, s.(queue := s.queue[k := q]));
  }

  lemma EntryOk(m: Meta, content: seq<byte>, s: PeerState, k: nat)
    requires |content| == m.totalSize
    requires PeerOk(m, content, s) && k < |s.queue|
    ensures InFlightOk(m, s.queue[k]) && s.queue[k].index in s.has
  {
  }

  lemma EntryRemoved(m: Meta, content: seq<byte>, w: World, p: nat, k: nat)
    requires |content| == m.totalSize
    requires Inv(m, content, w) && p < |w.peers| && k < |w.peers[p].queue|
    ensures Inv(m, content, WithQueue(w, p, RemoveAt(w.peers[p].queue, k)))
  {
    var s := w.peers[p];
    RemovedOk(m, content, s, k);
    hide Inv;
    forall i: nat ensures CountIndex(RemoveAt(s.queue, k), i) <= CountIndex(s.queue, i) {
      CountRemove(s.queue, k, i);
    }
    PutQuiet(m, content, w, p, s.(queue := RemoveAt(s.queue, k)));
  }

  lemma CompleteThenSelect(m: Meta, content: seq<byte>, w: World, p: nat, i: nat, data: seq<byte>)
    requires |content| == m.totalSize
    requires Inv(m, content, w) && p < |w.peers|
    requires w.peers[p].stage.Talking? && StartsAPiece(LastIn(w.peers[p].log))
    requires !Done(w.pieces, i)
    ensures Inv(m, content, SelectUnlessComplete(m, CompletePiece(m, w, i, data), p))
  {
    hide Inv, CompletePiece, Select, LastIn;
    CompleteOk(m, content, w, i, data);
    CompletePeer(m, content, w, i, data, p);
    var w' := CompletePiece(m, w, i, data);
    if w'.completed != |w'.pieces| {
      SelectOk(m, content, w', p);
    }
  }

  /** The last block of a piece: verified, written, announced, and the next piece selected. */
  lemma LastBlock(m: Meta, content: seq<byte>, w: World, p: nat, k: nat, q: InFlight)
    requires |content| == m.totalSize
    requires Inv(m, content, w) && p < |w.peers| && k < |w.peers[p].queue|
    requires w.peers[p].stage.Talking? && StartsAPiece(LastIn(w.peers[p].log))
    requires q.index == w.peers[p].queue[k].index && !Done(w.pieces, q.index)
    ensures Inv(m, content, Assemble(m, WithQueue(w, p, w.peers[p].queue[k := q]), p, k))
  {
    hide Inv, Assemble, CompletePiece, SelectUnlessComplete, LastIn, Gather;
    var s := w.peers[p];
    assert RemoveAt(s.queue[k := q], k) == RemoveAt(s.queue, k);
    AssembleReordered(m, WithQueue(w, p, s.queue[k := q]), p, k);
    EntryRemoved(m, content, w, p, k);
    var w1 := WithQueue(w, p, RemoveAt(s.queue, k));
    assert WithQueue(WithQueue(w, p, s.queue[k := q]), p, RemoveAt(s.queue[k := q], k)) == w1;
    CompleteThenSelect(m, content, w1, p, q.index, Gather(q.slots));
  }

  lemma PieceCancelled(m: Meta, content: seq<byte>, w: World, p: nat, k: nat)
    requires |content| == m.totalSize
    requires Inv(m, content, w) && p < |w.peers| && k < |w.peers[p].queue|
    requires w.peers[p].stage.Talking?
    requires var last := LastIn(w.peers[p].log);
      last.Some? && last.value.Block? && last.value.index == w.peers[p].queue[k].index
    ensures var s := w.peers[p];
      Inv(m, content, Put(w, p, Post(s, Cancels(m, s.queue[k].index)).(queue := RemoveAt(s.queue, k))))
  {
    var s := w.peers[p];
    CancelOk(m, content, s, k);
    hide PeerOk, Inv, Cancels;
    forall i: nat ensures CountIndex(RemoveAt(s.queue, k), i) <= CountIndex(s.queue, i) {
      CountRemove(s.queue, k, i);
    }
    PutQuiet(m, content, w, p, Post(s, Cancels(m, s.queue[k].index)).(queue := RemoveAt(s.queue, k)));
  }
}
