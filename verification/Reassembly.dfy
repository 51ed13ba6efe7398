/** Blocks may come in any order, between any other messages: the piece comes out right. */
module Reassembly {
  import opened Wrappers
  import opened Transcoder
  import opened Layout
  import opened Wire
  import opened Protocol
  import opened Swarm
  import opened Unchanged
  import opened LedgerInvariant
  import opened Conservation

  // ---------- one entry ----------

  predicate InRange(order: seq<nat>, n: nat) {
    forall k | 0 <= k < |order| :: order[k] < n
  }

  /** An entry after the blocks `order` have been stored. */
  function FillAll(q: InFlight, parts: seq<seq<byte>>, order: seq<nat>): (r: InFlight)
    requires |parts| == |q.slots| && InRange(order, |parts|)
    ensures |r.slots| == |q.slots| && r.index == q.index
  {
    if order == [] then q
    else
      var last := order[|order| - 1];
      Fill(FillAll(q, parts, order[..|order| - 1]), last, parts[last])
  }

  predicate Distinct(order: seq<nat>) {
    forall x, y | 0 <= x < y < |order| :: order[x] != order[y]
  }

  /** Stored blocks are counted, and each lies in its slot. */
  lemma {:induction false} FilledSlots(m: Meta, i: nat, parts: seq<seq<byte>>, order: seq<nat>)
    requires |parts| == SlotCount(m, i) && InRange(order, |parts|)
    ensures var q := FillAll(FreshInFlight(m, i), parts, order);
      && q.haveBlocks == |order|
      && forall s | 0 <= s < |q.slots| ::
           q.slots[s] == if s in order then Slot(|parts[s]|, Some(parts[s])) else EMPTY_SLOT
  {
    if order != [] {
      var init, last := order[..|order| - 1], order[|order| - 1];
      assert order == init + [last];
      FilledSlots(m, i, parts, init);
    }
  }

  function Members(order: seq<nat>): set<nat> {
    set k | k in order
  }

  /** n distinct numbers below n are all of them. */
  lemma Pigeonhole(order: seq<nat>, n: nat, s: nat)
    requires |order| == n && Distinct(order) && InRange(order, n) && s < n
    ensures s in order
  {
    if s !in order {
      var members := Members(order);
      DistinctMembers(order);
      var below := NatsBelow(n) - {s};
      BelowCount(n, s);
      forall k | k in members ensures k in below {
        assert k in order;
      }
      SubsetSize(members, below);
    }
  }

  lemma {:induction false} DistinctMembers(order: seq<nat>)
    requires Distinct(order)
    ensures |Members(order)| == |order|
  {
    if order != [] {
      var init, last := order[..|order| - 1], order[|order| - 1];
      DistinctMembers(init);
      assert order == init + [last];
      assert Members(order) == Members(init) + {last};
      assert last !in init;
    }
  }

  function NatsBelow(n: nat): (r: set<nat>)
    ensures |r| == n && forall k: nat :: k in r <==> k < n
  {
    if n == 0 then {} else NatsBelow(n - 1) + {n - 1}
  }

  lemma BelowCount(n: nat, s: nat)
    requires s < n
    ensures |NatsBelow(n) - {s}| == n - 1
  {
  }

  lemma SubsetSize(a: set<nat>, b: set<nat>)
    requires a <= b
    ensures |a| <= |b|
  {
    assert b == a + (b - a);
  }

  lemma FullEntry(m: Meta, i: nat, parts: seq<seq<byte>>, order: seq<nat>)
    requires |parts| == SlotCount(m, i) == |order| && InRange(order, |parts|) && Distinct(order)
    ensures Gather(FillAll(FreshInFlight(m, i), parts, order).slots) == Flatten(parts)
  {
    var q := FillAll(FreshInFlight(m, i), parts, order);
    FilledSlots(m, i, parts, order);
    hide FillAll, Flatten, Distinct, SlotCount, InRange, FreshInFlight;
    forall s | 0 <= s < |q.slots| ensures SlotBytes(q.slots[s]) == parts[s] {
      Pigeonhole(order, |parts|, s);
    }
    assert SlotData(q.slots) == parts;
  }

  /** If each block arrives exactly once, in whatever order, the entry is full at the last and only then, and
      the joined slots are the piece. */
  lemma AnyOrder(m: Meta, content: seq<byte>, i: nat, order: seq<nat>)
    requires |content| == m.totalSize && i < |m.hashes| && PieceSize(m, i) < TWO32
    requires Distinct(order) && InRange(order, SlotCount(m, i))
    ensures var parts := Cut(PieceOf(m, content, i));
      && |parts| == SlotCount(m, i)
      && var q := FillAll(FreshInFlight(m, i), parts, order);
         && q.haveBlocks == |order| <= |q.slots| == SlotCount(m, i)
         && (q.haveBlocks == |q.slots| ==> Gather(q.slots) == PieceOf(m, content, i))
  {
    var parts := Cut(PieceOf(m, content, i));
    SlotsMatchBlocksExactly(m, i);
    hide SlotCount, Cut, FillAll, Gather, PieceOf, Flatten, Distinct;
    FilledSlots(m, i, parts, order);
    TooMany(order, |parts|);
    if |order| == |parts| {
      FullEntry(m, i, parts, order);
      CutThenFlatten(PieceOf(m, content, i));
    }
  }

  /** Members never outnumber the list, and are as many only if nothing is repeated. */
  lemma {:induction false} FewMembers(order: seq<nat>)
    ensures |Members(order)| <= |order|
    ensures |Members(order)| == |order| ==> Distinct(order)
  {
    if order != [] {
      var init, last := order[..|order| - 1], order[|order| - 1];
      FewMembers(init);
      assert order == init + [last];
      assert Members(order) == Members(init) + {last};
    }
  }

  /** A list with repeats misses a number. */
  lemma Missing(order: seq<nat>, n: nat) returns (s: nat)
    requires |order| == n && !Distinct(order)
    ensures s < n && s !in order
  {
    if forall k: nat | k < n :: k in order {
      SubsetSize(NatsBelow(n), Members(order));
      FewMembers(order);
      s := n;
    } else {
      s :| s < n && s !in order;
    }
  }

  lemma {:induction false} ShorterParts(a: seq<seq<byte>>, b: seq<seq<byte>>, s: nat)
    requires |a| == |b| && forall k | 0 <= k < |a| :: |a[k]| <= |b[k]|
    ensures |Flatten(a)| <= |Flatten(b)|
    ensures s < |a| && |a[s]| < |b[s]| ==> |Flatten(a)| < |Flatten(b)|
  {
    if a != [] {
      ShorterParts(a[..|a| - 1], b[..|b| - 1], s);
    }
  }

  /** A block that comes twice is counted twice: when the count reaches the number of slots, the joined slots
      are the piece exactly when no block was repeated. */
  lemma FullEntryExactly(m: Meta, content: seq<byte>, i: nat, order: seq<nat>)
    requires |content| == m.totalSize && i < |m.hashes| && PieceSize(m, i) < TWO32
    requires InRange(order, SlotCount(m, i)) && |order| == SlotCount(m, i)
    ensures var parts := Cut(PieceOf(m, content, i));
      && |parts| == SlotCount(m, i)
      && var q := FillAll(FreshInFlight(m, i), parts, order);
         && q.haveBlocks == |q.slots|
         && (Gather(q.slots) == PieceOf(m, content, i) <==> Distinct(order))
  {
    hide SlotCount, Cut, FillAll, Gather, PieceOf, Flatten, Distinct;
    PartCount(m, content, i);
    var parts := Cut(PieceOf(m, content, i));
    FilledSlots(m, i, parts, order);
    if Distinct(order) {
      AnyOrder(m, content, i, order);
    } else {
      var s := Missing(order, |parts|);
      HoleShortens(m, i, parts, order, s);
      CutThenFlatten(PieceOf(m, content, i));
    }
  }

  lemma HoleShortens(m: Meta, i: nat, parts: seq<seq<byte>>, order: seq<nat>, s: nat)
    requires |parts| == SlotCount(m, i) && InRange(order, |parts|)
    requires s < |parts| && s !in order
    requires forall k | 0 <= k < |parts| :: 0 < |parts[k]|
    ensures |Gather(FillAll(FreshInFlight(m, i), parts, order).slots)| < |Flatten(parts)|
  {
    hide SlotCount, FillAll, Flatten;
    FilledSlots(m, i, parts, order);
    ShorterParts(SlotData(FillAll(FreshInFlight(m, i), parts, order).slots), parts, s);
  }

  lemma TooMany(order: seq<nat>, n: nat)
    requires Distinct(order) && InRange(order, n)
    ensures |order| <= n
  {
    var members := Members(order);
    DistinctMembers(order);
    forall k | k in members ensures k < n {
      assert k in order;
    }
    SubsetSize(members, NatsBelow(n));
  }

  // ---------- the first entry for a piece ----------

  function First(queue: seq<InFlight>, i: nat): Option<InFlight> {
    match FindPiece(queue, i)
    case None => None
    case Some(k) => Some(queue[k])
  }

  lemma FirstAppended(queue: seq<InFlight>, q: InFlight, i: nat)
    requires First(queue, i).Some?
    ensures First(queue + [q], i) == First(queue, i)
  {
    var k, queue' := FindPiece(queue, i).value, queue + [q];
    assert queue'[k] == queue[k];
    assert forall j | 0 <= j < k :: queue'[j] == queue[j];
  }

  lemma FirstReplaced(queue: seq<InFlight>, k: nat, q: InFlight, i: nat)
    requires k < |queue| && q.index == queue[k].index && First(queue, i).Some?
    ensures First(queue[k := q], i) == if FindPiece(queue, i) == Some(k) then Some(q) else First(queue, i)
  {
    var queue' := queue[k := q];
    var f := FindPiece(queue, i).value;
    assert queue'[f].index == i;
    assert forall j | 0 <= j < f :: queue'[j].index == queue[j].index;
  }

  lemma FirstRemoved(queue: seq<InFlight>, k: nat, i: nat)
    requires k < |queue| && queue[k].index != i && First(queue, i).Some?
    ensures First(RemoveAt(queue, k), i) == First(queue, i)
  {
    var queue', f := RemoveAt(queue, k), FindPiece(queue, i).value;
    var f' := if f < k then f else f - 1;
    assert queue'[f'] == queue[f];
    assert forall j | 0 <= j < f' :: queue'[j] == queue[if j < k then j else j + 1];
  }

  // ---------- one step ----------

  lemma {:induction false} DialQueues(w: World, records: seq<byte>, k: nat, p: nat)
    requires 6 * k <= |records| && p < |w.peers|
    ensures p < |DialUpTo(w, records, k).peers| && DialUpTo(w, records, k).peers[p] == w.peers[p]
  {
    hide RecordIp;
    if k != 0 {
      DialQueues(w, records, k - 1, p);
    }
  }

  /** Selecting a piece leaves earlier entries first. */
  lemma SelectFirst(m: Meta, w: World, p: nat, r: nat, i: nat)
    requires p < |w.peers| && r < |w.peers|
    ensures p < |SelectUnlessComplete(m, w, r).peers|
    ensures First(w.peers[p].queue, i).Some? ==>
      First(SelectUnlessComplete(m, w, r).peers[p].queue, i) == First(w.peers[p].queue, i)
    ensures p != r ==> SelectUnlessComplete(m, w, r).peers[p] == w.peers[p]
  {
    hide Requests, First;
    var w' := SelectUnlessComplete(m, w, r);
    match Choice(w.pieces, w.peers[r].has, |w.pieces|)
    case None =>
    case Some(j) =>
      if First(w.peers[p].queue, i).Some? {
        FirstAppended(w.peers[p].queue, FreshInFlight(m, j), i);
      }
  }

  lemma AssembleFirst(m: Meta, w: World, r: nat, k: nat, p: nat, i: nat)
    requires r < |w.peers| && k < |w.peers[r].queue| && p < |w.peers|
    requires First(w.peers[p].queue, i).Some?
    requires p == r ==> w.peers[r].queue[k].index != i
    ensures p < |Assemble(m, w, r, k).peers|
    ensures First(Assemble(m, w, r, k).peers[p].queue, i) == First(w.peers[p].queue, i)
  {
    hide CompletePiece, SelectUnlessComplete, Gather, First;
    var q := w.peers[r].queue[k];
    var w1 := CompletePiece(m, w, q.index, Gather(q.slots));
    CompleteKeeps(m, w, q.index, Gather(q.slots), r);
    CompleteKeeps(m, w, q.index, Gather(q.slots), p);
    var w2 := WithQueue(w1, r, RemoveAt(w1.peers[r].queue, k));
    if p == r {
      FirstRemoved(w.peers[r].queue, k, i);
    }
    SelectFirst(m, w2, p, r, i);
  }

  lemma UsedFirst(m: Meta, w: World, r: nat, k: nat, slot: nat, data: seq<byte>, p: nat, i: nat)
    requires r < |w.peers| && k < |w.peers[r].queue| && slot < |w.peers[r].queue[k].slots| && p < |w.peers|
    requires First(w.peers[p].queue, i).Some? && (p == r ==> w.peers[r].queue[k].index != i)
    ensures p < |UseBlock(m, w, r, k, slot, data).peers|
    ensures First(UseBlock(m, w, r, k, slot, data).peers[p].queue, i) == First(w.peers[p].queue, i)
  {
    hide First, Assemble, Cancels, Fill, Post, RemoveAt;
    var queue := w.peers[r].queue;
    PostKeeps(w.peers[r], Cancels(m, queue[k].index));
    FillKeeps(queue[k], slot, data);
    if p == r {
      FirstRemoved(queue, k, i);
      FirstReplacedOther(queue, k, Fill(queue[k], slot, data), i);
    }
    AssembleFirst(m, WithQueue(w, r, queue[k := Fill(queue[k], slot, data)]), r, k, p, i);
  }

  /** A block for another piece, or another peer, leaves the first entry alone. */
  lemma OtherBlockFirst(m: Meta, w: World, r: nat, j: u32, begin: u32, data: seq<byte>, p: nat, i: nat)
    requires r < |w.peers| && p < |w.peers|
    requires First(w.peers[p].queue, i).Some? && (p == r ==> j != i)
    ensures p < |OnBlock(m, w, r, j, begin, data).peers|
    ensures First(OnBlock(m, w, r, j, begin, data).peers[p].queue, i) == First(w.peers[p].queue, i)
  {
    hide First, UseBlock, FindActive, RawIp;
    match FindPiece(w.peers[r].queue, j)
    case None =>
    case Some(k) =>
      var queue, slot := w.peers[r].queue, begin / MAX_BLOCK_REQUEST_SIZE;
      if slot < |queue[k].slots| {
        UsedFirst(m, w, r, k, slot, data, p, i);
      }
  }

  lemma FirstReplacedOther(queue: seq<InFlight>, k: nat, q: InFlight, i: nat)
    requires k < |queue| && q.index == queue[k].index != i && First(queue, i).Some?
    ensures First(queue[k := q], i) == First(queue, i)
  {
    FirstReplaced(queue, k, q, i);
  }

  /** Is this event a block of piece i from peer p? */
  predicate IsBlockFor(e: Event, p: nat, i: nat) {
    e.Arrived? && e.p == p && Decode(e.frame).Parsed? && Decode(e.frame).msg.Block? && Decode(e.frame).msg.index == i
  }

  lemma OtherMessageFirst(m: Meta, w: World, r: nat, msg: Msg, heap: seq<byte>, p: nat, i: nat)
    requires r < |w.peers| && p < |w.peers|
    requires First(w.peers[p].queue, i).Some? && (p == r && msg.Block? ==> msg.index != i)
    ensures p < |OnMessage(m, w, r, msg, heap).peers|
    ensures First(OnMessage(m, w, r, msg, heap).peers[p].queue, i) == First(w.peers[p].queue, i)
  {
    hide First, OnBlock, SelectUnlessComplete, Hear, FindActive, RawIp, ReadAt, PieceSize, BlockBuffer;
    HearKeeps(m, w.peers[r], msg);
    match msg
    case Bitfield(_) => SelectFirst(m, Put(w, r, Hear(m, w.peers[r], msg)), p, r, i);
    case Block(j, begin, data) => OtherBlockFirst(m, w, r, j, begin, data, p, i);
    case _ =>
  }

  lemma OtherFrameFirst(m: Meta, w: World, r: nat, frame: Frame, heap: seq<byte>, p: nat, i: nat)
    requires r < |w.peers| && p < |w.peers|
    requires First(w.peers[p].queue, i).Some? && !IsBlockFor(Arrived(r, frame, heap), p, i)
    ensures p < |OnFrame(m, w, r, frame, heap).peers|
    ensures First(OnFrame(m, w, r, frame, heap).peers[p].queue, i) == First(w.peers[p].queue, i)
  {
    hide First, Decode, OnMessage, FindActive, RawIp;
    match Decode(frame)
    case Malformed =>
    case Unknown =>
    case Parsed(msg) =>
      var w1 := Put(w, r, Receive(w.peers[r], msg));
      OtherMessageFirst(m, w1, r, msg, heap, p, i);
  }

  /** Whatever else happens, the first entry for the piece stays as it is. */
  lemma OtherStepFirst(m: Meta, w: World, e: Event, p: nat, i: nat)
    requires Enabled(w, e) && p < |w.peers|
    requires First(w.peers[p].queue, i).Some? && !IsBlockFor(e, p, i)
    ensures p < |Step(m, w, e).peers|
    ensures First(Step(m, w, e).peers[p].queue, i) == First(w.peers[p].queue, i)
  {
    hide First, OnFrame, DialUpTo, CloseAll, FindActive, RawIp, ReadsOutOfRange, IsBlockFor;
    match e
    case TrackerResponse(records) => DialQueues(w, records, |records| / 6, p);
    case Arrived(r, frame, heap) =>
      OtherFrameFirst(m, w, r, frame, heap, p, i);
      FrameKeepsPeers(m, w, r, frame, heap);
    case Shutdown => CloseAllExactly(w.peers, w.active, p);
    case _ =>
  }

  lemma FrameKeepsPeers(m: Meta, w: World, r: nat, frame: Frame, heap: seq<byte>)
    requires r < |w.peers|
    ensures |OnFrame(m, w, r, frame, heap).peers| == |w.peers|
  {
    hide Decode, Hear, StartPiece, Choice, FindActive, ReadAt, CompletePiece, FindPiece, Cancels, Post, RawIp, Fill,
      BlockBuffer, Gather, PieceSize;
  }

  /** A block that is let through is stored in the first entry for its piece, or completes it. */
  lemma BlockFirst(m: Meta, w: World, e: Event, p: nat)
    requires Enabled(w, e) && e.Arrived? && e.p == p
    requires Decode(e.frame).Parsed? && Decode(e.frame).msg.Block?
    requires var msg := Decode(e.frame).msg;
      && First(w.peers[p].queue, msg.index).Some?
      && |msg.data| <= MAX_BLOCK_REQUEST_SIZE
      && msg.begin / MAX_BLOCK_REQUEST_SIZE < |First(w.peers[p].queue, msg.index).value.slots|
      && !Done(w.pieces, msg.index)
    ensures var msg := Decode(e.frame).msg;
      var q := Fill(First(w.peers[p].queue, msg.index).value, msg.begin / MAX_BLOCK_REQUEST_SIZE, msg.data);
      if q.haveBlocks == |q.slots| then Assembled(m, w, e) == Some(Assembly(msg.index, Gather(q.slots)))
      else p < |Step(m, w, e).peers| && First(Step(m, w, e).peers[p].queue, msg.index) == Some(q)
  {
    hide Decode, Assemble, Gather, ReadsOutOfRange;
    var msg := Decode(e.frame).msg;
    var queue, k := w.peers[p].queue, FindPiece(w.peers[p].queue, msg.index).value;
    FirstReplaced(queue, k, Fill(queue[k], msg.begin / MAX_BLOCK_REQUEST_SIZE, msg.data), msg.index);
  }

  // ---------- runs ----------

  /** The message that carries block k of piece i. */
  predicate IsHonest(m: Meta, content: seq<byte>, msg: Msg, i: nat, k: nat)
    requires |content| == m.totalSize && i < |m.hashes|
  {
    && msg.Block? && msg.index == i
    && k < BlockCount(PieceSize(m, i))
    && msg.begin == k * MAX_BLOCK_REQUEST_SIZE
    && msg.data == Cut(PieceOf(m, content, i))[k]
  }

  /** It is what the k-th request for the piece asked for. */
  lemma HonestAnswer(m: Meta, content: seq<byte>, msg: Msg, i: nat, k: nat)
    requires |content| == m.totalSize && i < |m.hashes| && PieceSize(m, i) < TWO32
    requires IsHonest(m, content, msg, i, k)
    ensures k < |Requests(m, i)| && |msg.data| < TWO32
    ensures Requests(m, i)[k] == Request(msg.index, msg.begin, |msg.data|)
  {
    var size := PieceSize(m, i);
    SpansPartition(size, k);
    assert Requests(m, i)[k] == AsRequest(i, Spans(size)[k]);
    assert |Cut(PieceOf(m, content, i))[k]| == SpanAt(size, k).length;
    hide Requests, PieceSize, Cut, BlockCount, PieceOf;
    assert Spans(size)[k] == SpanAt(size, k);
  }

  /** From state a to state b nobody completes piece i, and the blocks of piece i that come from p are blocks
      `order` of the piece, in that order, among any other events. */
  ghost predicate Delivers(m: Meta, content: seq<byte>, ws: seq<World>, es: seq<Event>,
                           p: nat, i: nat, a: nat, b: nat, order: seq<nat>)
    requires |content| == m.totalSize && i < |m.hashes|
    requires a <= b <= |es| < |ws|
    decreases b
  {
    && p < |ws[b].peers| && !Done(ws[b].pieces, i)
    && if a == b then order == []
       else if IsBlockFor(es[b - 1], p, i) then
         && order != []
         && IsHonest(m, content, Decode(es[b - 1].frame).msg, i, order[|order| - 1])
         && Delivers(m, content, ws, es, p, i, a, b - 1, order[..|order| - 1])
       else Delivers(m, content, ws, es, p, i, a, b - 1, order)
  }

  lemma HonestBlock(m: Meta, content: seq<byte>, msg: Msg, i: nat, k: nat)
    requires |content| == m.totalSize && i < |m.hashes|
    requires IsHonest(m, content, msg, i, k)
    ensures |msg.data| <= MAX_BLOCK_REQUEST_SIZE
    ensures msg.begin / MAX_BLOCK_REQUEST_SIZE == k < |Cut(PieceOf(m, content, i))|
    ensures msg.data == Cut(PieceOf(m, content, i))[k]
  {
  }

  lemma {:induction false} OrderInRange(m: Meta, content: seq<byte>, ws: seq<World>, es: seq<Event>,
                                        p: nat, i: nat, a: nat, b: nat, order: seq<nat>)
    requires |content| == m.totalSize && i < |m.hashes|
    requires a <= b <= |es| < |ws|
    requires Delivers(m, content, ws, es, p, i, a, b, order)
    ensures InRange(order, BlockCount(PieceSize(m, i)))
    decreases b
  {
    if a != b {
      if IsBlockFor(es[b - 1], p, i) {
        OrderInRange(m, content, ws, es, p, i, a, b - 1, order[..|order| - 1]);
        assert order == order[..|order| - 1] + [order[|order| - 1]];
      } else {
        OrderInRange(m, content, ws, es, p, i, a, b - 1, order);
      }
    }
  }

  /** The first entry for the piece holds exactly the blocks `order`. */
  ghost predicate Holds(m: Meta, content: seq<byte>, w: World, p: nat, i: nat, order: seq<nat>)
    requires |content| == m.totalSize && i < |m.hashes|
  {
    && p < |w.peers|
    && |Cut(PieceOf(m, content, i))| == SlotCount(m, i)
    && InRange(order, SlotCount(m, i))
    && First(w.peers[p].queue, i) == Some(FillAll(FreshInFlight(m, i), Cut(PieceOf(m, content, i)), order))
  }

  /** As long as blocks are missing by the count, the first entry for the piece holds exactly those delivered,
      repeated ones included. */
  lemma {:induction false} Collects(m: Meta, content: seq<byte>, ws: seq<World>, es: seq<Event>,
                                    p: nat, i: nat, a: nat, b: nat, order: seq<nat>)
    requires |content| == m.totalSize && i < |m.hashes| && PieceSize(m, i) < TWO32
    requires IsRun(m, ws, es) && a <= b <= |es|
    requires p < |ws[a].peers| && First(ws[a].peers[p].queue, i) == Some(FreshInFlight(m, i))
    requires Delivers(m, content, ws, es, p, i, a, b, order)
    requires |order| < SlotCount(m, i)
    ensures Holds(m, content, ws[b], p, i, order)
    decreases b
  {
    hide *;
    RunLength(m, ws, es);
    if a == b {
      NothingYet(m, content, ws, es, p, i, a, order);
    } else {
      OneStep(m, ws, es, b - 1);
      if IsBlockFor(es[b - 1], p, i) {
        OneMore(m, content, ws, es, p, i, a, b, order);
        Collects(m, content, ws, es, p, i, a, b - 1, order[..|order| - 1]);
        BlockStored(m, content, ws[b - 1], es[b - 1], p, i, order);
      } else {
        NoneMore(m, content, ws, es, p, i, a, b, order);
        Collects(m, content, ws, es, p, i, a, b - 1, order);
        StillHolds(m, content, ws[b - 1], es[b - 1], p, i, order);
      }
    }
  }

  lemma PartCount(m: Meta, content: seq<byte>, i: nat)
    requires |content| == m.totalSize && i < |m.hashes| && PieceSize(m, i) < TWO32
    ensures |Cut(PieceOf(m, content, i))| == BlockCount(PieceSize(m, i)) == SlotCount(m, i)
    ensures forall k | 0 <= k < |Cut(PieceOf(m, content, i))| :: 0 < |Cut(PieceOf(m, content, i))[k]|
  {
    SlotsMatchBlocksExactly(m, i);
    var piece := PieceOf(m, content, i);
    forall k | 0 <= k < |Cut(piece)| ensures 0 < |Cut(piece)[k]| {
      assert |Cut(piece)[k]| == SpanAt(|piece|, k).length;
      SpansPartition(|piece|, k);
    }
  }

  lemma RunLength(m: Meta, ws: seq<World>, es: seq<Event>)
    requires IsRun(m, ws, es)
    ensures |ws| == |es| + 1
  {
  }

  lemma OneStep(m: Meta, ws: seq<World>, es: seq<Event>, k: nat)
    requires IsRun(m, ws, es) && k < |es| < |ws|
    ensures Enabled(ws[k], es[k]) && ws[k + 1] == Step(m, ws[k], es[k])
  {
  }

  lemma NothingYet(m: Meta, content: seq<byte>, ws: seq<World>, es: seq<Event>, p: nat, i: nat, a: nat, order: seq<nat>)
    requires |content| == m.totalSize && i < |m.hashes| && PieceSize(m, i) < TWO32
    requires a <= |es| < |ws| && Delivers(m, content, ws, es, p, i, a, a, order)
    requires p < |ws[a].peers| && First(ws[a].peers[p].queue, i) == Some(FreshInFlight(m, i))
    ensures Holds(m, content, ws[a], p, i, order)
  {
    hide First, Cut, PieceOf, SlotCount, FreshInFlight, PieceSize, BlockCount, IsBlockFor;
    PartCount(m, content, i);
    FreshSlots(m, i);
  }

  lemma FreshSlots(m: Meta, i: nat)
    ensures |FreshInFlight(m, i).slots| == SlotCount(m, i)
  {
  }

  lemma StillHolds(m: Meta, content: seq<byte>, w: World, e: Event, p: nat, i: nat, order: seq<nat>)
    requires |content| == m.totalSize && i < |m.hashes|
    requires Enabled(w, e) && Holds(m, content, w, p, i, order) && !IsBlockFor(e, p, i)
    ensures Holds(m, content, Step(m, w, e), p, i, order)
  {
    hide Enabled, Step, First, FillAll, Cut, PieceOf, SlotCount, InRange, IsBlockFor, FreshInFlight;
    OtherStepFirst(m, w, e, p, i);
  }

  lemma PeerThere(m: Meta, content: seq<byte>, ws: seq<World>, es: seq<Event>,
                  p: nat, i: nat, a: nat, b: nat, order: seq<nat>)
    requires |content| == m.totalSize && i < |m.hashes|
    requires a <= b <= |es| < |ws|
    requires Delivers(m, content, ws, es, p, i, a, b, order)
    ensures p < |ws[b].peers| && !Done(ws[b].pieces, i)
  {
  }

  lemma NoneMore(m: Meta, content: seq<byte>, ws: seq<World>, es: seq<Event>,
                 p: nat, i: nat, a: nat, b: nat, order: seq<nat>)
    requires |content| == m.totalSize && i < |m.hashes|
    requires a < b <= |es| < |ws|
    requires Delivers(m, content, ws, es, p, i, a, b, order) && !IsBlockFor(es[b - 1], p, i)
    ensures Delivers(m, content, ws, es, p, i, a, b - 1, order)
    ensures p < |ws[b - 1].peers|
  {
  }

  lemma OneMore(m: Meta, content: seq<byte>, ws: seq<World>, es: seq<Event>,
                p: nat, i: nat, a: nat, b: nat, order: seq<nat>)
    requires |content| == m.totalSize && i < |m.hashes|
    requires a < b <= |es| < |ws|
    requires Delivers(m, content, ws, es, p, i, a, b, order) && IsBlockFor(es[b - 1], p, i)
    ensures order != []
    ensures Decode(es[b - 1].frame).Parsed?
    ensures IsHonest(m, content, Decode(es[b - 1].frame).msg, i, order[|order| - 1])
    ensures Delivers(m, content, ws, es, p, i, a, b - 1, order[..|order| - 1])
    ensures !Done(ws[b - 1].pieces, i) && p < |ws[b - 1].peers|
  {
    hide Decode, IsHonest;
  }

  /** One more block, and not the last. */
  lemma BlockStored(m: Meta, content: seq<byte>, w: World, e: Event, p: nat, i: nat, order: seq<nat>)
    requires |content| == m.totalSize && i < |m.hashes|
    requires Enabled(w, e) && IsBlockFor(e, p, i) && !Done(w.pieces, i)
    requires order != [] && |order| < SlotCount(m, i)
    requires Holds(m, content, w, p, i, order[..|order| - 1])
    requires Decode(e.frame).Parsed? && IsHonest(m, content, Decode(e.frame).msg, i, order[|order| - 1])
    ensures Holds(m, content, Step(m, w, e), p, i, order)
  {
    hide Step, First, IsHonest, Cut, Decode, SlotCount, Gather, PieceOf, FreshInFlight;
    HonestBlock(m, content, Decode(e.frame).msg, i, order[|order| - 1]);
    FreshSlots(m, i);
    FilledSlots(m, i, Cut(PieceOf(m, content, i)), order);
    BlockFirst(m, w, e, p);
  }

  lemma BlockFor(e: Event, p: nat, i: nat)
    requires IsBlockFor(e, p, i)
    ensures e.Arrived? && e.p == p
    ensures Decode(e.frame).Parsed? && Decode(e.frame).msg.Block? && Decode(e.frame).msg.index == i
  {
  }

  /** What the entry for piece i joins to after the blocks `order` of the piece. */
  function Joined(m: Meta, content: seq<byte>, i: nat, order: seq<nat>): seq<byte>
    requires |content| == m.totalSize && i < |m.hashes| && PieceSize(m, i) < TWO32
    requires InRange(order, SlotCount(m, i))
  {
    PartCount(m, content, i);
    FreshSlots(m, i);
    Gather(FillAll(FreshInFlight(m, i), Cut(PieceOf(m, content, i)), order).slots)
  }

  /** When the count of blocks reaches the number of slots, the joined slots are the piece exactly when no block was
      repeated. Then, if the digests are those of the content, the piece is finished; otherwise, if nothing else has
      the digest of the piece, all of it is thrown away. */
  lemma LastBlockDecides(m: Meta, content: seq<byte>, ws: seq<World>, es: seq<Event>,
                         p: nat, i: nat, a: nat, b: nat, order: seq<nat>, last: nat)
    requires |content| == m.totalSize && i < |m.hashes| && PieceSize(m, i) < TWO32
    requires IsRun(m, ws, es) && a <= b < |es|
    requires p < |ws[a].peers| && First(ws[a].peers[p].queue, i) == Some(FreshInFlight(m, i))
    requires Delivers(m, content, ws, es, p, i, a, b, order)
    requires IsBlockFor(es[b], p, i) && IsHonest(m, content, Decode(es[b].frame).msg, i, last)
    requires |order| + 1 == SlotCount(m, i)
    ensures InRange(order + [last], SlotCount(m, i))
    ensures Assembled(m, ws[b], es[b]) == Some(Assembly(i, Joined(m, content, i, order + [last])))
    ensures Joined(m, content, i, order + [last]) == PieceOf(m, content, i) <==> Distinct(order + [last])
    ensures Hashed(m, content) && Distinct(order + [last]) ==>
      && Done(ws[b + 1].pieces, i)
      && ws[b + 1].completed == ws[b].completed + 1 && ws[b + 1].hashMisses == ws[b].hashMisses
    ensures Genuine(m, content) && !Distinct(order + [last]) ==>
      && !Done(ws[b + 1].pieces, i)
      && ws[b + 1].completed == ws[b].completed && ws[b + 1].hashMisses == ws[b].hashMisses + 1
  {
    hide *;
    RunLength(m, ws, es);
    OneStep(m, ws, es, b);
    Collects(m, content, ws, es, p, i, a, b, order);
    PeerThere(m, content, ws, es, p, i, a, b, order);
    BlockFor(es[b], p, i);
    FullAtLast(m, content, ws[b], es[b], p, i, order, last);
    JoinedExactly(m, content, i, order + [last]);
    RunBooked(m, ws, es, b);
    Booking(m, content, ws[b], es[b], i, Joined(m, content, i, order + [last]));
  }

  lemma JoinedExactly(m: Meta, content: seq<byte>, i: nat, order: seq<nat>)
    requires |content| == m.totalSize && i < |m.hashes| && PieceSize(m, i) < TWO32
    requires InRange(order, SlotCount(m, i)) && |order| == SlotCount(m, i)
    ensures Joined(m, content, i, order) == PieceOf(m, content, i) <==> Distinct(order)
  {
    hide PieceOf, Distinct, SlotCount, Cut, Gather, FillAll, FreshInFlight, InRange;
    FullEntryExactly(m, content, i, order);
  }

  /** The block that brings the count to the number of slots. */
  lemma FullAtLast(m: Meta, content: seq<byte>, w: World, e: Event, p: nat, i: nat, order: seq<nat>, last: nat)
    requires |content| == m.totalSize && i < |m.hashes| && PieceSize(m, i) < TWO32
    requires Enabled(w, e) && IsBlockFor(e, p, i) && !Done(w.pieces, i)
    requires |order| + 1 == SlotCount(m, i)
    requires Holds(m, content, w, p, i, order)
    requires Decode(e.frame).Parsed? && IsHonest(m, content, Decode(e.frame).msg, i, last)
    ensures InRange(order + [last], SlotCount(m, i)) && |order + [last]| == SlotCount(m, i)
    ensures Assembled(m, w, e) == Some(Assembly(i, Joined(m, content, i, order + [last])))
  {
    hide Step, First, Fill, IsHonest, Cut, Decode, SlotCount, Gather, PieceOf, Assembled, FreshInFlight;
    HonestBlock(m, content, Decode(e.frame).msg, i, last);
    FreshSlots(m, i);
    FilledSlots(m, i, Cut(PieceOf(m, content, i)), order + [last]);
    assert (order + [last])[..|order|] == order;
    BlockFirst(m, w, e, p);
  }

  /** What comes of assembled data. */
  lemma Booking(m: Meta, content: seq<byte>, w: World, e: Event, i: nat, data: seq<byte>)
    requires |content| == m.totalSize && i < |m.hashes|
    requires BookOk(m, w) && Enabled(w, e) && !Done(w.pieces, i)
    requires Assembled(m, w, e) == Some(Assembly(i, data))
    ensures var w' := Step(m, w, e);
      && (Hashed(m, content) && data == PieceOf(m, content, i) ==>
            Done(w'.pieces, i) && w'.completed == w.completed + 1 && w'.hashMisses == w.hashMisses)
      && (Genuine(m, content) && data != PieceOf(m, content, i) ==>
            !Done(w'.pieces, i) && w'.completed == w.completed && w'.hashMisses == w.hashMisses + 1)
  {
    hide Step, Assembled, WriteAt, BookOk, PieceOf;
    StepBooked(m, w, e);
  }
}
