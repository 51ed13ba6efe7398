/** What a step does to the ledger, without any hypothesis on the hash function, and what that adds up to
    over a run. */
module Conservation {
  import opened Wrappers
  import opened Transcoder
  import opened Layout
  import opened Wire
  import opened Protocol
  import opened Swarm
  import opened LedgerInvariant

  datatype Assembly = Assembly(index: nat, data: seq<byte>)

  /** The piece that the event completes the blocks of, if any, with its joined data. */
  function Assembled(m: Meta, w: World, e: Event): Option<Assembly>
    requires Enabled(w, e)
  {
    if e.Arrived? && Decode(e.frame).Parsed? && Decode(e.frame).msg.Block? then
      AssembledBy(w, e.p, Decode(e.frame).msg)
    else None
  }

  function AssembledBy(w: World, p: nat, msg: Msg): Option<Assembly>
    requires p < |w.peers| && msg.Block?
  {
    var queue, slot := w.peers[p].queue, msg.begin / MAX_BLOCK_REQUEST_SIZE;
    match FindPiece(queue, msg.index)
    case None => None
    case Some(k) =>
      if MAX_BLOCK_REQUEST_SIZE < |msg.data| || |queue[k].slots| <= slot || Done(w.pieces, msg.index) then None
      else
        var q := Fill(queue[k], slot, msg.data);
        if q.haveBlocks == |q.slots| then Some(Assembly(msg.index, Gather(q.slots))) else None
  }

  /** Everything of the ledger but the priorities. */
  ghost predicate SameBut(w: World, w': World) {
    && w'.bitfield == w.bitfield && w'.completed == w.completed && w'.file == w.file
    && w'.downloaded == w.downloaded && w'.wasted == w.wasted && w'.hashMisses == w.hashMisses
    && |w'.pieces| == |w.pieces|
    && forall i | 0 <= i < |w.pieces| :: w'.pieces[i].finished == w.pieces[i].finished
  }

  /** A piece that fails its check is counted as wasted; one that passes is written, flagged and counted. */
  ghost predicate Booked(m: Meta, w: World, w': World, a: Assembly) {
    if Accepts(m, a.index, a.data) then
      && |w'.pieces| == |w.pieces| && a.index < |w.pieces|
      && !w.pieces[a.index].finished && w'.pieces[a.index].finished
      && (forall i | 0 <= i < |w.pieces| && i != a.index :: w'.pieces[i].finished == w.pieces[i].finished)
      && w'.completed == w.completed + 1
      && w'.downloaded == w.downloaded + |a.data|
      && w'.file == WriteAt(w.file, PieceStart(m, a.index), a.data)
      && w'.wasted == w.wasted && w'.hashMisses == w.hashMisses
    else
      SameBut(w.(wasted := w.wasted + |a.data|, hashMisses := w.hashMisses + 1), w')
  }

  ghost predicate StepsTo(m: Meta, w: World, w': World, a: Option<Assembly>) {
    && BookOk(m, w')
    && match a
       case None => SameBut(w, w')
       case Some(x) => Booked(m, w, w', x)
  }

  lemma SelectKeeps(m: Meta, w: World, p: nat)
    requires BookOk(m, w) && p < |w.peers|
    ensures BookOk(m, Select(m, w, p)) && SameBut(w, Select(m, w, p))
  {
    ChoiceExactly(w.pieces, w.peers[p].has, |w.pieces|);
    match Choice(w.pieces, w.peers[p].has, |w.pieces|)
    case None =>
    case Some(i) => OneRaised(m, w.pieces, i);
  }

  lemma CompleteBooked(m: Meta, w: World, i: nat, data: seq<byte>)
    requires BookOk(m, w) && !Done(w.pieces, i)
    ensures StepsTo(m, w, CompletePiece(m, w, i, data), Some(Assembly(i, data)))
  {
    CompletePieceBook(m, w, i, data);
  }

  lemma AssembleBooked(m: Meta, w: World, p: nat, k: nat)
    requires BookOk(m, w) && p < |w.peers| && k < |w.peers[p].queue|
    requires !Done(w.pieces, w.peers[p].queue[k].index)
    ensures var q := w.peers[p].queue[k];
      StepsTo(m, w, Assemble(m, w, p, k), Some(Assembly(q.index, Gather(q.slots))))
  {
    hide BookOk, Select, CompletePiece, Gather, Accepts, WriteAt;
    var q := w.peers[p].queue[k];
    CompleteBooked(m, w, q.index, Gather(q.slots));
    var w1 := CompletePiece(m, w, q.index, Gather(q.slots));
    var queue := w1.peers[p].queue;
    var w2 := if k < |queue| then WithQueue(w1, p, RemoveAt(queue, k)) else w1;
    SameBook(m, w1, w2);
    if w2.completed != |w2.pieces| {
      SelectKeeps(m, w2, p);
    }
  }

  lemma SameBook(m: Meta, w: World, w': World)
    requires BookOk(m, w)
    requires w'.pieces == w.pieces && w'.bitfield == w.bitfield && w'.completed == w.completed
    ensures BookOk(m, w')
  {
  }

  lemma OnBlockBooked(m: Meta, w: World, p: nat, i: u32, begin: u32, data: seq<byte>)
    requires BookOk(m, w) && p < |w.peers|
    ensures StepsTo(m, w, OnBlock(m, w, p, i, begin, data), AssembledBy(w, p, Block(i, begin, data)))
  {
    hide Assemble, Gather, Cancels, CountFinished;
    var s := w.peers[p];
    match FindPiece(s.queue, i)
    case None =>
    case Some(k) =>
      var slot := begin / MAX_BLOCK_REQUEST_SIZE;
      if |data| <= MAX_BLOCK_REQUEST_SIZE && slot < |s.queue[k].slots| && !Done(w.pieces, i) {
        var q := Fill(s.queue[k], slot, data);
        if q.haveBlocks == |q.slots| {
          AssembleBooked(m, WithQueue(w, p, s.queue[k := q]), p, k);
        }
      }
  }

  lemma {:induction false} DialKeeps(w: World, records: seq<byte>, k: nat)
    requires 6 * k <= |records|
    ensures var w' := DialUpTo(w, records, k);
      w' == w.(peers := w'.peers, blackListed := w'.blackListed)
  {
    hide RecordIp;
    if k != 0 {
      DialKeeps(w, records, k - 1);
    }
  }

  lemma OnFrameBooked(m: Meta, w: World, p: nat, frame: Frame, heap: seq<byte>)
    requires BookOk(m, w) && Enabled(w, Arrived(p, frame, heap))
    ensures StepsTo(m, w, OnFrame(m, w, p, frame, heap), Assembled(m, w, Arrived(p, frame, heap)))
  {
    hide Decode, OnBlock, Hear, Select, AssembledBy, CountFinished, ReadsOutOfRange, ReadAt, FindActive;
    match Decode(frame)
    case Malformed =>
    case Unknown =>
    case Parsed(msg) =>
      var w1 := Put(w, p, Receive(w.peers[p], msg));
      match msg
      case Bitfield(_) => SelectKeeps(m, Put(w1, p, Hear(m, w1.peers[p], msg)), p);
      case Block(i, begin, data) =>
        OnBlockBooked(m, w1, p, i, begin, data);
        AssembledIgnoresLog(w, p, msg);
      case _ =>
  }

  lemma AssembledIgnoresLog(w: World, p: nat, msg: Msg)
    requires p < |w.peers| && msg.Block?
    ensures AssembledBy(Put(w, p, Receive(w.peers[p], msg)), p, msg) == AssembledBy(w, p, msg)
  {
  }

  /** What one step does to the ledger. */
  lemma StepBooked(m: Meta, w: World, e: Event)
    requires BookOk(m, w) && Enabled(w, e)
    ensures StepsTo(m, w, Step(m, w, e), Assembled(m, w, e))
  {
    hide OnFrame, CountFinished, Decode, FindActive, DialUpTo;
    match e
    case TrackerResponse(records) => DialKeeps(w, records, |records| / 6);
    case Arrived(p, frame, heap) => OnFrameBooked(m, w, p, frame, heap);
    case _ =>
  }

  // ---------- runs ----------

  /** In every reachable state the flags, the bitfield and the counter agree, however many peers raced. */
  lemma {:induction false} RunBooked(m: Meta, ws: seq<World>, es: seq<Event>, k: nat)
    requires IsRun(m, ws, es) && k < |ws|
    ensures BookOk(m, ws[k])
  {
    if k == 0 {
      NothingFinished(m, ws[0].pieces);
    } else {
      RunBooked(m, ws, es, k - 1);
      StepBooked(m, ws[k - 1], es[k - 1]);
    }
  }

  function AssembledBytes(m: Meta, ws: seq<World>, es: seq<Event>, k: nat): nat
    requires k <= |es| <= |ws|
    requires forall j | 0 <= j < k :: Enabled(ws[j], es[j])
  {
    if k == 0 then 0
    else
      AssembledBytes(m, ws, es, k - 1)
      + match Assembled(m, ws[k - 1], es[k - 1]) { case None => 0 case Some(a) => |a.data| }
  }

  function Assemblies(m: Meta, ws: seq<World>, es: seq<Event>, k: nat): nat
    requires k <= |es| <= |ws|
    requires forall j | 0 <= j < k :: Enabled(ws[j], es[j])
  {
    if k == 0 then 0
    else Assemblies(m, ws, es, k - 1) + if Assembled(m, ws[k - 1], es[k - 1]).Some? then 1 else 0
  }

  /** Byte conservation: all assembled bytes are downloaded or wasted, and every assembly is a completed
      piece or a hash miss. */
  lemma {:induction false} BytesConserved(m: Meta, ws: seq<World>, es: seq<Event>, k: nat)
    requires IsRun(m, ws, es) && k <= |es|
    ensures AssembledBytes(m, ws, es, k) == ws[k].downloaded + ws[k].wasted
    ensures Assemblies(m, ws, es, k) == ws[k].completed + ws[k].hashMisses
  {
    if k != 0 {
      BytesConserved(m, ws, es, k - 1);
      RunBooked(m, ws, es, k - 1);
      hide BookOk, Step, Assembled, Accepts, WriteAt;
      StepBooked(m, ws[k - 1], es[k - 1]);
    }
  }

  /** A finished piece stays finished, and the completed count never goes down; it goes up by one exactly at
      an assembly that passes its check. So once the loop of `download` has ended, COMPLETED is reported. */
  lemma {:induction false} Progress(m: Meta, ws: seq<World>, es: seq<Event>, j: nat, k: nat)
    requires IsRun(m, ws, es) && j <= k <= |es|
    ensures |ws[j].pieces| == |ws[k].pieces|
    ensures ws[j].completed <= ws[k].completed
    ensures forall i: nat :: Done(ws[j].pieces, i) ==> Done(ws[k].pieces, i)
    decreases k
  {
    if j != k {
      Progress(m, ws, es, j, k - 1);
      RunBooked(m, ws, es, k - 1);
      hide BookOk, Step, Assembled, Accepts, WriteAt;
      StepBooked(m, ws[k - 1], es[k - 1]);
    }
  }

  lemma OneMoreExactly(m: Meta, ws: seq<World>, es: seq<Event>, k: nat)
    requires IsRun(m, ws, es) && k < |es|
    ensures var a := Assembled(m, ws[k], es[k]);
      ws[k + 1].completed == ws[k].completed + if a.Some? && Accepts(m, a.value.index, a.value.data) then 1 else 0
  {
    RunBooked(m, ws, es, k);
    hide BookOk, Step, Assembled, Accepts, WriteAt;
    StepBooked(m, ws[k], es[k]);
  }
}
