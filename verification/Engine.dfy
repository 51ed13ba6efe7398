/** The classes Peer and Torrent (src/torrent/peer.hpp, peer.cpp, torrent.hpp, torrent.cpp), updated in place.
    Each object carries its value as a ghost field; every method is proved to change that value as the
    function of the same handler in Swarm.dfy says. */
module Engine {
  import opened Wrappers
  import opened Transcoder
  import opened Layout
  import opened Wire
  import opened Protocol
  import opened Swarm
  import opened Unchanged
  import opened Buffers
  import opened PeerInvariant
  import opened LedgerInvariant
  import SwarmInvariant
  import Safety
  import Bitfields

  /** Peer::Piece: a piece being downloaded, with its block slots. */
  class PieceBuffer {
    const index: nat
    const totalBlocks: nat
    const blocks: array<Slot>
    var haveBlocks: nat
    ghost const owner: Peer

    constructor (index: nat, totalBlocks: nat, ghost owner: Peer)
      ensures this.owner == owner && fresh(blocks)
      ensures Valid() && View() == InFlight(index, 0, seq(totalBlocks, _ => EMPTY_SLOT))
    {
      this.index := index;
      this.totalBlocks := totalBlocks;
      this.blocks := new Slot[totalBlocks](_ => EMPTY_SLOT);
      this.haveBlocks := 0;
      this.owner := owner;
    }

    ghost predicate Valid()
      reads blocks
    {
      && blocks.Length == totalBlocks
      && forall k | 0 <= k < blocks.Length :: SlotOk(blocks[k])
    }

    ghost function View(): InFlight
      reads this, blocks
    {
      InFlight(index, haveBlocks, blocks[..])
    }

    method Store(slot: nat, block: Slot)
      requires Valid() && slot < totalBlocks && SlotOk(block)
      modifies this`haveBlocks, blocks
      ensures Valid()
      ensures View() == old(View()).(slots := old(View()).slots[slot := block], haveBlocks := old(haveBlocks) + 1)
    {
      blocks[slot] := block;
      haveBlocks := haveBlocks + 1;
    }

    /** The bytes of all slots, pushed one by one. */
    method Join() returns (pieceData: seq<byte>)
      requires Valid()
      ensures pieceData == Gather(View().slots)
    {
      pieceData := [];
      ghost var parts := SlotData(blocks[..]);
      for i := 0 to totalBlocks
        invariant pieceData == Flatten(parts[..i])
      {
        ghost var before := pieceData;
        assert SlotOk(blocks[i]);
        for j := 0 to blocks[i].size
          invariant pieceData == before + SlotBytes(blocks[i])[..j]
        {
          pieceData := pieceData + [blocks[i].data.value[j]];
        }
        assert SlotBytes(blocks[i])[..blocks[i].size] == SlotBytes(blocks[i]);
        assert parts[..i + 1][..i] == parts[..i];
      }
      assert parts[..totalBlocks] == parts;
    }
  }

  class Peer {
    ghost const id: nat
    const torrent: Torrent
    const ip: u32
    const incoming: bool
    var stage: Stage
    var amChoking: bool
    var amInterested: bool
    var peerChoking: bool
    var peerInterested: bool
    var hasPieceIndexes: seq<nat>
    var pieceQueue: seq<PieceBuffer>
    /** What has been written on the connection. */
    var wire: seq<byte>
    ghost var state: PeerState

    ghost predicate Valid()
      reads this, pieceQueue, set b | b in pieceQueue :: b.blocks
    {
      && state == PeerState(ip, incoming, stage, amChoking, amInterested, peerChoking, peerInterested,
                            hasPieceIndexes, state.queue, state.log)
      && QueueValid()
      && wire == WireOf(state.log)
    }

    /** The queue holds distinct buffers of this peer that look like the entries of the state. */
    ghost predicate QueueValid()
      reads this, pieceQueue, set b | b in pieceQueue :: b.blocks
    {
      && |pieceQueue| == |state.queue|
      && (forall k | 0 <= k < |pieceQueue| ::
            && pieceQueue[k].owner == this && pieceQueue[k].index < |torrent.meta.hashes|
            && pieceQueue[k].Valid() && pieceQueue[k].View() == state.queue[k])
      && forall j, k | 0 <= j < k < |pieceQueue| ::
           pieceQueue[j] != pieceQueue[k] && pieceQueue[j].blocks != pieceQueue[k].blocks
    }

    constructor (torrent: Torrent, ip: u32, incoming: bool, ghost id: nat)
      ensures this.torrent == torrent && this.id == id
      ensures Valid() && state == NewPeer(ip, incoming) && pieceQueue == []
    {
      this.torrent := torrent;
      this.ip := ip;
      this.incoming := incoming;
      this.id := id;
      stage := if incoming then Greeting else Dialling;
      amChoking, amInterested, peerChoking, peerInterested := true, false, true, false;
      hasPieceIndexes, pieceQueue, wire := [], [], [];
      state := NewPeer(ip, incoming);
    }

    /** Connection::getIP: zero unless connected. */
    function GetRawIp(): u32
      reads this
    {
      if stage.Dialling? || stage.Closed? then 0 else ip
    }

    method SetStage(stage: Stage)
      requires Valid()
      modifies this`stage, this`state
      ensures Valid() && state == old(state).(stage := stage)
    {
      this.stage := stage;
      state := state.(stage := stage);
    }

    method Disconnect()
      requires Valid()
      modifies this`stage, this`state
      ensures Valid() && state == Close(old(state))
    {
      stage := Closed;
      state := Close(state);
    }

    predicate HasPiece(index: nat)
      reads this
    {
      index in hasPieceIndexes
    }

    // ---------- sending ----------

    /** Connection::write */
    method Write(bytes: seq<byte>, ghost msg: Msg)
      requires Valid() && bytes == Encode(msg)
      modifies this`wire, this`state
      ensures Valid() && state == Post(old(state), [msg])
    {
      hide Encode, WireOf, PieceBuffer.Valid;
      if stage.Closed? {
        return;
      }
      wire := wire + bytes;
      state := Post(state, [msg]);
      assert Outgoing([msg]) == [Sent(msg)];
      WireAppended(old(state.log), Sent(msg));
    }

    method SendInterested()
      requires Valid()
      modifies this`wire, this`state, this`amInterested
      ensures Valid() && state == Post(old(state), [Interested]).(amInterested := true)
    {
      FixedFrames();
      hide Encode, WireOf;
      Write([0, 0, 0, 1, INTERESTED], Interested);
      amInterested := true;
      state := state.(amInterested := true);
    }

    method SendHave(index: u32)
      requires Valid()
      modifies this`wire, this`state
      ensures Valid() && state == Swarm.SendHave(old(state), index)
    {
      if amChoking {
        return;
      }
      var out := new OutgoingMessage();
      out.AddU32(5);
      out.AddU8(HAVE);
      out.AddU32(index);
      assert Low32(index) == index;
      assert out.dataBuffer == Encode(Have(index));
      Write(out.dataBuffer, Have(index));
    }

    method SendBitfield(rBitfield: seq<byte>)
      requires Valid()
      modifies this`wire, this`state
      ensures Valid() && state == Post(old(state), [Bitfield(rBitfield)])
    {
      var out := new OutgoingMessage();
      out.AddU32(Low32(1 + |rBitfield|));
      out.AddU8(BITFIELD);
      out.AddCustom(rBitfield);
      Write(out.dataBuffer, Bitfield(rBitfield));
    }

    method SendPieceBlock(index: u32, begin: u32, block: seq<byte>)
      requires Valid()
      modifies this`wire, this`state
      ensures Valid() && state == Post(old(state), [Block(index, begin, block)])
    {
      hide Encode, WireOf, WriteBE32, Post;
      var out := new OutgoingMessage();
      out.AddU32(Low32(9 + |block|));
      out.AddU8(PIECE_BLOCK);
      out.AddU32(index);
      out.AddU32(begin);
      out.AddCustom(block);
      BlockBytes(index, begin, block);
      Write(out.dataBuffer, Block(index, begin, block));
    }

    method SendRequest(index: u32, begin: u32, length: u32)
      requires Valid()
      modifies this`wire, this`state
      ensures Valid() && state == Post(old(state), [Request(index, begin, length)])
    {
      var out := new OutgoingMessage();
      out.AddU32(13);
      out.AddU8(REQUEST);
      out.AddU32(index);
      out.AddU32(begin);
      out.AddU32(length);
      ThreeFieldBytes(Request(index, begin, length), index, begin, length);
      Write(out.dataBuffer, Request(index, begin, length));
    }

    method SendCancel(index: u32, begin: u32, length: u32)
      requires Valid()
      modifies this`wire, this`state
      ensures Valid() && state == Post(old(state), [Cancel(index, begin, length)])
    {
      var out := new OutgoingMessage();
      out.AddU32(13);
      out.AddU8(CANCEL);
      out.AddU32(index);
      out.AddU32(begin);
      out.AddU32(length);
      ThreeFieldBytes(Cancel(index, begin, length), index, begin, length);
      Write(out.dataBuffer, Cancel(index, begin, length));
    }
  
    // ---------- pieces ----------

    /** The error branch is for a caller that does not check; no caller gets here choked. */
    method RequestPiece(pieceIndex: nat)
      requires Valid()
      requires peerChoking ==> torrent.Valid() && torrent.Owns(this)
      modifies this`wire, this`state, if peerChoking then {torrent, this} else {}
      ensures old(peerChoking) ==> torrent.Valid() && torrent.state == Fault(old(torrent.state), id)
      ensures !old(peerChoking) ==> Valid() && state == Post(old(state), Requests(torrent.meta, pieceIndex))
    {
      if peerChoking {
        torrent.HandleError(this);
      } else {
        RequestBlocks(pieceIndex);
      }
    }

    /** The request loop. */
    method RequestBlocks(pieceIndex: nat)
      requires Valid()
      modifies this`wire, this`state
      ensures Valid() && state == Post(old(state), Requests(torrent.meta, pieceIndex))
    {
      var begin, length := 0, PieceSize(torrent.meta, pieceIndex);
      ghost var k := 0;
      FirstMessage(torrent.meta, pieceIndex, state);
      hide BlockCount, PieceSize, Requests, Cancels, Post, Low32, Valid;
      while MAX_BLOCK_REQUEST_SIZE < length
        invariant Valid() && begin == k * MAX_BLOCK_REQUEST_SIZE
        invariant begin + length == PieceSize(torrent.meta, pieceIndex) && 0 < length
        invariant k <= |Requests(torrent.meta, pieceIndex)|
        invariant state == Post(old(state), Requests(torrent.meta, pieceIndex)[..k])
      {
        NextMessage(torrent.meta, pieceIndex, old(state), k, begin, length);
        SendRequest(Low32(pieceIndex), Low32(begin), Low32(MAX_BLOCK_REQUEST_SIZE));
        length := length - MAX_BLOCK_REQUEST_SIZE;
        begin := begin + MAX_BLOCK_REQUEST_SIZE;
        k := k + 1;
      }
      NextMessage(torrent.meta, pieceIndex, old(state), k, begin, length);
      SendRequest(Low32(pieceIndex), Low32(begin), Low32(length));
    }

    method SendCancelRequest(p: PieceBuffer)
      requires Valid()
      modifies this`wire, this`state
      ensures Valid() && state == Post(old(state), Cancels(torrent.meta, p.index))
    {
      var begin, length := 0, PieceSize(torrent.meta, p.index);
      ghost var k := 0;
      FirstMessage(torrent.meta, p.index, state);
      hide BlockCount, PieceSize, Requests, Cancels, Post, Low32, Valid;
      while MAX_BLOCK_REQUEST_SIZE < length
        invariant Valid() && begin == k * MAX_BLOCK_REQUEST_SIZE
        invariant begin + length == PieceSize(torrent.meta, p.index) && 0 < length
        invariant k <= |Cancels(torrent.meta, p.index)|
        invariant state == Post(old(state), Cancels(torrent.meta, p.index)[..k])
      {
        NextMessage(torrent.meta, p.index, old(state), k, begin, length);
        SendCancel(Low32(p.index), Low32(begin), Low32(MAX_BLOCK_REQUEST_SIZE));
        length := length - MAX_BLOCK_REQUEST_SIZE;
        begin := begin + MAX_BLOCK_REQUEST_SIZE;
        k := k + 1;
      }
      NextMessage(torrent.meta, p.index, old(state), k, begin, length);
      SendCancel(Low32(p.index), Low32(begin), Low32(length));
    }

    method SendPieceRequest(index: u32)
      requires Valid() && index < |torrent.meta.hashes|
      modifies this`wire, this`state, this`amInterested, this`pieceQueue
      ensures Valid() && state == StartPiece(torrent.meta, old(state), index)
      ensures |pieceQueue| == |old(pieceQueue)| + 1 && pieceQueue[..|old(pieceQueue)|] == old(pieceQueue)
      ensures fresh(pieceQueue[|old(pieceQueue)|]) && fresh(pieceQueue[|old(pieceQueue)|].blocks)
      ensures pieceQueue[|old(pieceQueue)|].owner == this
    {
      SendInterested();
      hide StartPiece, Post;
      Enqueue(index);
      hide FreshInFlight;
      if !peerChoking {
        RequestPiece(index);
      }
      assert state == StartPiece(torrent.meta, old(state), index) by {
        Started(torrent.meta, old(state), index);
      }
    }

    /** The new entry of the queue; the piece's size is a 32-bit value here. */
    method Enqueue(index: u32)
      requires Valid() && index < |torrent.meta.hashes|
      modifies this`state, this`pieceQueue
      ensures Valid() && state == old(state).(queue := old(state).queue + [FreshInFlight(torrent.meta, index)])
      ensures |pieceQueue| == |old(pieceQueue)| + 1 && pieceQueue[..|old(pieceQueue)|] == old(pieceQueue)
      ensures fresh(pieceQueue[|old(pieceQueue)|]) && fresh(pieceQueue[|old(pieceQueue)|].blocks)
      ensures pieceQueue[|old(pieceQueue)|].owner == this
    {
      hide WireOf, PieceSize, BlockCount;
      var pieceLength := Low32(PieceSize(torrent.meta, index));
      var piece := new PieceBuffer(index, BlockCount(pieceLength), this);
      pieceQueue := pieceQueue + [piece];
      state := state.(queue := state.queue + [FreshInFlight(torrent.meta, index)]);
    }

    // ---------- messages that concern this peer only ----------

    method OnChoke()
      requires Valid()
      modifies this`peerChoking, this`state
      ensures Valid() && state == Hear(torrent.meta, old(state), Choke)
    {
      peerChoking := true;
      state := state.(peerChoking := true);
    }

    method OnUnchoke()
      requires Valid()
      modifies this`peerChoking, this`wire, this`state
      ensures Valid() && state == Hear(torrent.meta, old(state), Unchoke)
    {
      peerChoking := false;
      state := state.(peerChoking := false);
      RequestQueued();
    }

    /** Every piece in the queue is requested, again if need be. */
    method RequestQueued()
      requires Valid() && !peerChoking
      modifies this`wire, this`state
      ensures Valid() && state == Post(old(state), QueueRequests(torrent.meta, old(state).queue))
    {
      hide Post, Requests, WireOf;
      ghost var queue := state.queue;
      PostNothing(state);
      assert queue[..0] == [];
      for k := 0 to |pieceQueue|
        invariant Valid() && !peerChoking && state.queue == queue
        invariant state == Post(old(state), QueueRequests(torrent.meta, queue[..k]))
      {
        assert pieceQueue[k].View() == queue[k];
        RequestPiece(pieceQueue[k].index);
        PostTwice(old(state), QueueRequests(torrent.meta, queue[..k]), Requests(torrent.meta, queue[k].index));
        assert queue[..k + 1][..k] == queue[..k];
        PostKeeps(old(state), QueueRequests(torrent.meta, queue[..k + 1]));
      }
      assert queue[..|pieceQueue|] == queue;
    }

    method OnInterested()
      requires Valid()
      modifies this`peerInterested, this`amChoking, this`wire, this`state
      ensures Valid() && state == Hear(torrent.meta, old(state), Interested)
    {
      hide WireOf, Post;
      peerInterested := true;
      state := state.(peerInterested := true);
      if amChoking {
        SendUnchoke();
      }
    }

    method SendUnchoke()
      requires Valid()
      modifies this`amChoking, this`wire, this`state
      ensures Valid() && state == Post(old(state), [Unchoke]).(amChoking := false)
    {
      FixedFrames();
      hide Encode, WireOf;
      Write([0, 0, 0, 1, UNCHOKE], Unchoke);
      amChoking := false;
      state := state.(amChoking := false);
    }

    method OnNotInterested()
      requires Valid()
      modifies this`peerInterested, this`state
      ensures Valid() && state == Hear(torrent.meta, old(state), NotInterested)
    {
      peerInterested := false;
      state := state.(peerInterested := false);
    }

    method OnHave(p: u32)
      requires Valid()
      modifies this`hasPieceIndexes, this`state
      ensures Valid() && state == Hear(torrent.meta, old(state), Have(p))
    {
      if !HasPiece(p) {
        hasPieceIndexes := hasPieceIndexes + [p];
        state := state.(has := hasPieceIndexes);
      }
    }

    method OnBitfield(raw: seq<byte>)
      requires Valid()
      modifies this`hasPieceIndexes, this`state
      ensures Valid() && state == Hear(torrent.meta, old(state), Bitfield(raw))
    {
      hide WireOf, Bitfields.Test, Bitfields.BitAt;
      var n := |torrent.meta.hashes|;
      for i := 0 to |raw|
        invariant hasPieceIndexes == old(hasPieceIndexes) + Bitfields.IndicesUpTo(raw, n, 8 * i)
        invariant QueueValid() && state == old(state)
      {
        for j := 0 to 8
          invariant hasPieceIndexes == old(hasPieceIndexes) + Bitfields.IndicesUpTo(raw, n, 8 * i + j)
          invariant QueueValid() && state == old(state)
        {
          var index := i * 8 + j;
          BitOf(raw, i, j);
          if Bitfields.Test(raw[i], j) {
            if index < n {
              hasPieceIndexes := hasPieceIndexes + [index];
            }
          }
        }
      }
      state := state.(has := hasPieceIndexes);
    }

    // ---------- the queue ----------

    method FindInQueue(index: u32) returns (k: nat)
      requires Valid()
      ensures k < |pieceQueue| ==> FindPiece(state.queue, index) == Some(k)
      ensures k == |pieceQueue| ==> FindPiece(state.queue, index) == None
      ensures k <= |pieceQueue|
    {
      k := 0;
      while k < |pieceQueue|
        invariant k <= |pieceQueue|
        invariant forall j | 0 <= j < k :: state.queue[j].index != index
      {
        assert pieceQueue[k].View() == state.queue[k];
        if pieceQueue[k].index == index {
          return;
        }
        k := k + 1;
      }
    }

    method StoreBlock(k: nat, slot: nat, data: seq<byte>)
      requires Valid() && k < |pieceQueue| && slot < pieceQueue[k].totalBlocks
      modifies this`state, pieceQueue[k], pieceQueue[k].blocks
      ensures Valid() && state == old(state).(queue := old(state).queue[k := Fill(old(state).queue[k], slot, data)])
    {
      hide WireOf;
      assert pieceQueue[k].View() == state.queue[k];
      pieceQueue[k].Store(slot, Slot(|data|, Some(data)));
      state := state.(queue := state.queue[k := Fill(state.queue[k], slot, data)]);
    }

    method Erase(k: nat)
      requires Valid() && k < |pieceQueue|
      modifies this`state, this`pieceQueue
      ensures Valid() && state == old(state).(queue := RemoveAt(old(state).queue, k))
      ensures pieceQueue == RemoveAt(old(pieceQueue), k)
    {
      hide WireOf;
      pieceQueue := RemoveAt(pieceQueue, k);
      state := state.(queue := RemoveAt(state.queue, k));
    }

    // ---------- messages ----------

    method HandleMessage(id: byte, inMsg: IncomingMessage, heap: seq<byte>)
      requires inMsg.readIndex == 0
      requires torrent.Valid() && torrent.Owns(this)
      requires !ReadsOutOfRange(torrent.state.peers[this.id], |torrent.state.pieces|, Frame(id, inMsg.dataBuffer))
      modifies torrent.Repr(), inMsg
      ensures torrent.Valid() && torrent.peers == old(torrent.peers)
      ensures torrent.state == OnFrame(torrent.meta, old(torrent.state), this.id, Frame(id, inMsg.dataBuffer), heap)
      ensures fresh(torrent.Repr() - old(torrent.Repr()))
    {
      hide Decode, OnMessage, Fault, WireOf, Receive;
      assert this in torrent.peers;
      var decoded := Extract(id, inMsg);
      match decoded
      case Malformed => torrent.HandleError(this);
      case Unknown =>
      case Parsed(msg) =>
        torrent.Note(this, msg);
        NotedFlags(torrent.state, this.id, old(torrent.state), msg);
        HandleExtracted(msg, inMsg, heap);
    }

    method HandleExtracted(msg: Msg, inMsg: IncomingMessage, heap: seq<byte>)
      requires torrent.Valid() && torrent.Owns(this)
      requires msg.Request? && peerInterested && !amChoking && msg.length <= MAX_BLOCK_REQUEST_SIZE ==>
        msg.index < |torrent.pieces|
      requires inMsg.readIndex <= |inMsg.dataBuffer|
      requires msg.Block? ==> inMsg.Rest() == msg.data && 1 <= |msg.data|
      modifies torrent.Repr()
      ensures torrent.Valid() && torrent.peers == old(torrent.peers)
      ensures torrent.state == OnMessage(torrent.meta, old(torrent.state), this.id, msg, heap)
      ensures fresh(torrent.Repr() - old(torrent.Repr()))
    {
      hide Hear, OnRequest, OnBlock, SelectUnlessComplete, Torrent.Valid, Torrent.ValidBut, Valid, IncomingMessage.Rest;
      assert this in torrent.peers;
      match msg
      case Bitfield(_) =>
        torrent.React(this, msg);
        torrent.SelectUnlessDone(this);
      case Request(index, begin, length) => HandleRequest(index, begin, length, heap);
      case Block(index, begin, data) => HandlePieceBlock(index, begin, inMsg);
      case _ => torrent.React(this, msg);
    }

    /** The REQUEST case, after the extraction. */
    method HandleRequest(index: u32, begin: u32, length: u32, heap: seq<byte>)
      requires torrent.Valid() && torrent.Owns(this)
      requires peerInterested && !amChoking && length <= MAX_BLOCK_REQUEST_SIZE ==> index < |torrent.pieces|
      modifies torrent.Repr()
      ensures torrent.Valid() && torrent.peers == old(torrent.peers)
      ensures torrent.state == OnRequest(torrent.meta, old(torrent.state), id, index, begin, length, heap)
      ensures fresh(torrent.Repr() - old(torrent.Repr()))
    {
      hide Fault, Serve, WireOf;
      assert this in torrent.peers;
      if !peerInterested {
        torrent.HandleError(this);
        return;
      }
      if amChoking {
        torrent.HandleError(this);
        return;
      }
      if MAX_BLOCK_REQUEST_SIZE < length {
        torrent.HandleError(this);
        return;
      }
      if !torrent.PieceDone(index) {
        return;
      }
      torrent.HandleBlockRequest(this, index, begin, length, heap);
    }

    /** The PIECE_BLOCK case, with index and begin extracted. */
    method HandlePieceBlock(index: u32, begin: u32, inMsg: IncomingMessage)
      requires torrent.Valid() && torrent.Owns(this)
      requires inMsg.readIndex <= |inMsg.dataBuffer| && 1 <= |inMsg.Rest()|
      modifies torrent.Repr()
      ensures torrent.Valid() && torrent.peers == old(torrent.peers)
      ensures torrent.state == OnBlock(torrent.meta, old(torrent.state), id, index, begin, old(inMsg.Rest()))
      ensures fresh(torrent.Repr() - old(torrent.Repr()))
    {
      hide Fault, Swarm.UseBlock, FindPiece, Torrent.Valid, Torrent.LedgerValid, Torrent.BuffersValid,
        Torrent.ValidBut, Valid, QueueValid, WireOf, PieceBuffer.Valid;
      torrent.Known(this);
      var msgSize := |inMsg.Rest()|;
      if msgSize <= 0 || MAX_BLOCK_REQUEST_SIZE < msgSize {
        torrent.HandleError(this);
        return;
      }
      var k := FindInQueue(index);
      if k == |pieceQueue| {
        torrent.HandleError(this);
        return;
      }
      torrent.Entry(this, k);
      var piece := pieceQueue[k];
      var blockIndex := begin / MAX_BLOCK_REQUEST_SIZE;
      if piece.totalBlocks <= blockIndex {
        torrent.HandleError(this);
        return;
      }
      UseBlock(k, blockIndex, inMsg);
    }

    /** A block of entry k: too late, or stored. */
    method UseBlock(k: nat, blockIndex: nat, inMsg: IncomingMessage)
      requires torrent.Valid() && torrent.Owns(this)
      requires k < |pieceQueue| && blockIndex < pieceQueue[k].totalBlocks
      requires inMsg.readIndex <= |inMsg.dataBuffer|
      modifies torrent.Repr()
      ensures torrent.Valid() && torrent.peers == old(torrent.peers)
      ensures torrent.state == Swarm.UseBlock(torrent.meta, old(torrent.state), id, k, blockIndex, old(inMsg.Rest()))
      ensures fresh(torrent.Repr() - old(torrent.Repr()))
    {
      hide WireOf, Cancels, Post, Fill, Assemble;
      assert this in torrent.peers;
      assert pieceQueue[k].View() == state.queue[k];
      if torrent.PieceDone(pieceQueue[k].index) {
        torrent.CancelIn(this, k);
        torrent.EraseFrom(this, k);
        PostKeeps(old(state), Cancels(torrent.meta, old(state).queue[k].index));
      } else {
        StoreAndCheck(k, blockIndex, inMsg);
      }
    }

    method StoreAndCheck(k: nat, blockIndex: nat, inMsg: IncomingMessage)
      requires torrent.Valid() && torrent.Owns(this)
      requires k < |pieceQueue| && blockIndex < pieceQueue[k].totalBlocks
      requires inMsg.readIndex <= |inMsg.dataBuffer|
      modifies torrent.Repr()
      ensures torrent.Valid() && torrent.peers == old(torrent.peers)
      ensures var s := old(torrent.state).peers[id];
        var q := Fill(s.queue[k], blockIndex, old(inMsg.Rest()));
        var w := WithQueue(old(torrent.state), id, s.queue[k := q]);
        torrent.state == if q.haveBlocks == |q.slots| then Assemble(torrent.meta, w, id, k) else w
      ensures fresh(torrent.Repr() - old(torrent.Repr()))
    {
      hide WireOf, Assemble, Fill, Torrent.LedgerValid, RemoveAt;
      var piece := pieceQueue[k];
      assert this in torrent.peers && piece in torrent.buffers;
      FillKeeps(state.queue[k], blockIndex, inMsg.Rest());
      assert piece.View() == state.queue[k];
      var copy := inMsg.CpyBuffer(|inMsg.Rest()|);
      assert inMsg.Rest()[..|inMsg.Rest()|] == inMsg.Rest();
      torrent.StoreIn(this, k, blockIndex, copy.value);
      assert piece.View() == state.queue[k];
      if piece.haveBlocks == piece.totalBlocks {
        torrent.AssembleFrom(this, k);
      }
    }
  }

  lemma NotedFlags(w': World, p: nat, w: World, msg: Msg)
    requires p < |w.peers| && w' == Put(w, p, Receive(w.peers[p], msg))
    ensures p < |w'.peers| && w'.pieces == w.pieces
    ensures w'.peers[p].peerInterested == w.peers[p].peerInterested && w'.peers[p].amChoking == w.peers[p].amChoking
  {
  }

  /** The three ways of handle: not enough bytes yet, a keep-alive, a frame. */
  lemma FramesByStep(stream: seq<byte>)
    ensures |stream| < 4 ==> Frames(stream) == ([], stream)
    ensures 4 <= |stream| ==>
      var length := ReadBE32(stream[..4]);
      && (length == 0 ==> Frames(stream) == Frames(stream[4..]))
      && (|stream| - 4 < length ==> Frames(stream) == ([], stream))
      && (0 < length <= |stream| - 4 ==>
            && Frames(stream).0 == [Frame(stream[4], stream[5..4 + length])] + Frames(stream[4 + length..]).0
            && Frames(stream).1 == Frames(stream[4 + length..]).1)
  {
  }

  /** handle, over and over: four bytes of length, then that many bytes, unless it is a keep-alive. */
  method ReadFrames(stream: seq<byte>) returns (frames: seq<Frame>, rest: seq<byte>)
    ensures frames == Frames(stream).0 && rest == Frames(stream).1
  {
    hide ReadBE32, Frames;
    frames, rest := [], stream;
    while 4 <= |rest|
      invariant Frames(stream).0 == frames + Frames(rest).0
      invariant Frames(stream).1 == Frames(rest).1
      decreases |rest|
    {
      var length := ReadBE32(rest[..4]);
      FramesByStep(rest);
      if length == 0 {
        rest := rest[4..];
      } else if |rest| - 4 < length {
        return;
      } else {
        frames := frames + [Frame(rest[4], rest[5..4 + length])];
        rest := rest[4 + length..];
      }
    }
    FramesByStep(rest);
  }

  /** The size checks and field extraction of handleMessage; for a block the cursor stays at its data. */
  method Extract(id: byte, inMsg: IncomingMessage) returns (decoded: Decoded)
    requires inMsg.readIndex == 0
    modifies inMsg
    ensures decoded == Decode(Frame(id, inMsg.dataBuffer))
    ensures inMsg.readIndex <= |inMsg.dataBuffer|
    ensures decoded.Parsed? && decoded.msg.Block? ==> inMsg.Rest() == decoded.msg.data && 1 <= |inMsg.Rest()|
  {
    hide ReadBE32;
    var size := inMsg.GetSize();
    ghost var p := inMsg.dataBuffer;
    assert p[0..] == p;
    if id == CHOKE {
      return if size != 0 then Malformed else Parsed(Choke);
    } else if id == UNCHOKE {
      return if size != 0 then Malformed else Parsed(Unchoke);
    } else if id == INTERESTED {
      return if size != 0 then Malformed else Parsed(Interested);
    } else if id == NOT_INTERESTED {
      return if size != 0 then Malformed else Parsed(NotInterested);
    } else if id == HAVE {
      if size != 4 {
        return Malformed;
      }
      var index := inMsg.ExtractNextU32();
      assert p[..4] == p;
      return Parsed(Have(index));
    } else if id == BITFIELD {
      if size < 1 {
        return Malformed;
      }
      var raw := inMsg.GetBuffer();
      return Parsed(Bitfield(raw));
    } else if id == REQUEST || id == CANCEL {
      if size != 12 {
        return Malformed;
      }
      var index := inMsg.ExtractNextU32();
      var begin := inMsg.ExtractNextU32();
      var length := inMsg.ExtractNextU32();
      assert p[4..][..4] == p[4..8] && p[8..][..4] == p[8..];
      return Parsed(if id == REQUEST then Request(index, begin, length) else Cancel(index, begin, length));
    } else if id == PIECE_BLOCK {
      if size < 9 {
        return Malformed;
      }
      var index := inMsg.ExtractNextU32();
      var begin := inMsg.ExtractNextU32();
      assert p[4..][..4] == p[4..8];
      var data := inMsg.GetBuffer();
      return Parsed(Block(index, begin, data));
    } else {
      return Unknown;
    }
  }

  lemma PostTwice(s: PeerState, a: seq<Msg>, b: seq<Msg>)
    ensures Post(Post(s, a), b) == Post(s, a + b)
  {
  }

  lemma BitOf(raw: seq<byte>, i: nat, j: nat)
    requires i < |raw| && j < 8
    ensures Bitfields.BitAt(raw, 8 * i + j) == Bitfields.Test(raw[i], j)
  {
  }

  lemma Started(m: Meta, s: PeerState, i: nat)
    ensures var s1 := Post(s, [Interested]).(amInterested := true);
      var s2 := s1.(queue := s1.queue + [FreshInFlight(m, i)]);
      StartPiece(m, s, i) == if s2.peerChoking then s2 else Post(s2, Requests(m, i))
  {
  }

  lemma FixedFrames()
    ensures Encode(Unchoke) == [0, 0, 0, 1, UNCHOKE]
    ensures Encode(Interested) == [0, 0, 0, 1, INTERESTED]
  {
    assert WriteBE32(Low32(1)) == [0, 0, 0, 1];
    hide WriteBE32;
  }

  lemma ThreeFieldBytes(msg: Msg, a: u32, b: u32, c: u32)
    requires msg == Request(a, b, c) || msg == Cancel(a, b, c)
    ensures [] + WriteBE32(13) + [Id(msg)] + WriteBE32(a) + WriteBE32(b) + WriteBE32(c) == Encode(msg)
  {
    hide WriteBE32;
    assert Payload(msg) == WriteBE32(a) + WriteBE32(b) + WriteBE32(c);
  }

  lemma BlockBytes(index: u32, begin: u32, block: seq<byte>)
    ensures [] + WriteBE32(Low32(9 + |block|)) + [PIECE_BLOCK] + WriteBE32(index) + WriteBE32(begin) + block
         == Encode(Block(index, begin, block))
  {
  }

  /** The block that the request loop has come to. */
  lemma BlockAt(size: nat, k: nat, begin: nat, length: nat)
    requires begin == k * MAX_BLOCK_REQUEST_SIZE && begin + length == size && 0 < length
    ensures k < BlockCount(size) == |Spans(size)|
    ensures Spans(size)[k] == Span(begin, if length < MAX_BLOCK_REQUEST_SIZE then length else MAX_BLOCK_REQUEST_SIZE)
    ensures MAX_BLOCK_REQUEST_SIZE < length <==> k + 1 < BlockCount(size)
  {
  }

  lemma MessageAt(m: Meta, i: nat, k: nat)
    requires k < |Spans(PieceSize(m, i))|
    ensures |Requests(m, i)| == |Cancels(m, i)| == |Spans(PieceSize(m, i))|
    ensures Requests(m, i)[k] == AsRequest(i, Spans(PieceSize(m, i))[k])
    ensures Cancels(m, i)[k] == AsCancel(i, Spans(PieceSize(m, i))[k])
  {
  }

  lemma PostNothing(s: PeerState)
    ensures Post(s, []) == s
  {
  }

  lemma PostOneMore(s: PeerState, msgs: seq<Msg>, k: nat)
    requires k < |msgs|
    ensures Post(Post(s, msgs[..k]), [msgs[k]]) == Post(s, msgs[..k + 1])
  {
  }

  lemma FirstMessage(m: Meta, i: nat, s: PeerState)
    ensures 0 < PieceSize(m, i) && Post(s, Requests(m, i)[..0]) == Post(s, Cancels(m, i)[..0]) == s
  {
    PostNothing(s);
    hide Post;
    assert Requests(m, i)[..0] == [] && Cancels(m, i)[..0] == [];
  }

  /** The next turn of the request loop and of the cancel loop sends the next message. */
  lemma NextMessage(m: Meta, i: nat, s: PeerState, k: nat, begin: nat, length: nat)
    requires begin == k * MAX_BLOCK_REQUEST_SIZE && begin + length == PieceSize(m, i) && 0 < length
    ensures k < |Requests(m, i)| == |Cancels(m, i)|
    ensures var size := if length < MAX_BLOCK_REQUEST_SIZE then length else MAX_BLOCK_REQUEST_SIZE;
      && Post(Post(s, Requests(m, i)[..k]), [Request(Low32(i), Low32(begin), Low32(size))])
         == Post(s, Requests(m, i)[..k + 1])
      && Post(Post(s, Cancels(m, i)[..k]), [Cancel(Low32(i), Low32(begin), Low32(size))])
         == Post(s, Cancels(m, i)[..k + 1])
    ensures length <= MAX_BLOCK_REQUEST_SIZE ==>
      Requests(m, i)[..k + 1] == Requests(m, i) && Cancels(m, i)[..k + 1] == Cancels(m, i)
  {
    hide Spans, BlockCount, PieceSize, Requests, Cancels, Post, Low32;
    BlockAt(PieceSize(m, i), k, begin, length);
    MessageAt(m, i, k);
    PostOneMore(s, Requests(m, i), k);
    PostOneMore(s, Cancels(m, i), k);
  }

  class Torrent {
    const meta: Meta
    var pieces: seq<Piece>
    var bitfield: seq<bool>
    var completedPieces: nat
    var uploadedBytes: nat
    var downloadedBytes: nat
    var wastedBytes: nat
    var pieceHashMisses: nat
    /** The bytes of the output file. */
    var file: seq<byte>
    var activePeers: seq<Peer>
    var blackListed: set<u32>

    /** Every peer created, kept alive by its pending callbacks. */
    var peers: seq<Peer>
    /** Every piece buffer. */
    ghost var buffers: set<PieceBuffer>
    ghost var state: World

    /** The state after parseFile, over whatever the output file holds. */
    constructor (meta: Meta, file: seq<byte>)
      ensures this.meta == meta && this.file == file
      ensures Valid() && state == Start(meta, file) && Repr() == {this}
    {
      this.meta := meta;
      pieces, bitfield := [], [];
      completedPieces, uploadedBytes, downloadedBytes, wastedBytes, pieceHashMisses := 0, 0, 0, 0, 0;
      this.file := file;
      activePeers, blackListed, peers, buffers := [], {}, [], {};
      state := Start(meta, file);
      new;
      for i := 0 to |meta.hashes|
        invariant pieces == seq(i, _ => Piece(false, 0))
        invariant completedPieces == uploadedBytes == downloadedBytes == wastedBytes == pieceHashMisses == 0
        invariant this.file == file && activePeers == [] && blackListed == {} && peers == [] && buffers == {}
        invariant state == Start(meta, file)
      {
        pieces := pieces + [Piece(false, 0)];
      }
      bitfield := seq(|pieces|, _ => false);
    }

    ghost function Repr(): set<object>
      reads this
    {
      {this as object} + (set p: Peer | p in peers :: p as object) + (set b: PieceBuffer | b in buffers :: b as object)
      + (set b: PieceBuffer | b in buffers :: b.blocks as object)
    }

    ghost predicate Owns(p: Peer)
      reads this
    {
      p.id < |peers| && peers[p.id] == p
    }

    ghost predicate LedgerValid()
      reads this
    {
      && state == World(pieces, bitfield, completedPieces, uploadedBytes, downloadedBytes, wastedBytes, pieceHashMisses,
                        file, state.peers, state.active, blackListed)
      && |pieces| == |bitfield| == |meta.hashes|
      && |activePeers| == |state.active|
      && forall k | 0 <= k < |activePeers| :: state.active[k] < |peers| && activePeers[k] == peers[state.active[k]]
    }

    ghost predicate BuffersValid()
      reads this, peers
    {
      && (forall k, b | 0 <= k < |peers| && b in peers[k].pieceQueue :: b in buffers)
      && forall b, c | b in buffers && c in buffers && b != c :: b.blocks != c.blocks
    }

    /** Valid, except that the state may not know yet what has happened to peer x. */
    ghost predicate ValidBut(x: Peer?)
      reads this, peers, buffers, set b: PieceBuffer | b in buffers :: b.blocks
    {
      && LedgerValid()
      && |peers| == |state.peers|
      && BuffersValid()
      && forall k | 0 <= k < |peers| ::
           && peers[k].id == k && peers[k].torrent == this
           && peers[k].Valid()
           && (peers[k] != x ==> peers[k].state == state.peers[k])
    }

    ghost predicate Valid()
      reads this, peers, buffers, set b: PieceBuffer | b in buffers :: b.blocks
    {
      ValidBut(null)
    }

    /** Only peer p, its buffers and new buffers have changed. */
    twostate predicate OnlyChanged(p: Peer)
      reads this, peers, buffers, set b: PieceBuffer | b in buffers :: b.blocks
    {
      && unchanged(this`pieces, this`bitfield, this`completedPieces, this`uploadedBytes, this`downloadedBytes,
                   this`wastedBytes, this`pieceHashMisses, this`file, this`activePeers, this`blackListed,
                   this`peers, this`state)
      && old(buffers) <= buffers
      && (forall k | 0 <= k < |peers| && peers[k] != p :: unchanged(peers[k]))
      && forall b | b in old(buffers) && b.owner != p :: unchanged(b) && unchanged(b.blocks)
    }

    twostate lemma PeerChanged(p: Peer)
      requires old(Valid()) && OnlyChanged(p) && Owns(p)
      requires BuffersValid() && p.Valid()
      ensures ValidBut(p)
    {
      forall k | 0 <= k < |peers| && peers[k] != p ensures peers[k].Valid() && peers[k].state == state.peers[k] {
        assert old(peers[k].Valid());
        forall b | b in peers[k].pieceQueue ensures b in old(buffers) && b.owner == peers[k] {
        }
      }
    }

    ghost method Sync(p: Peer)
      requires ValidBut(p) && Owns(p)
      modifies this`state
      ensures Valid() && state == Put(old(state), p.id, p.state)
    {
      state := Put(state, p.id, p.state);
    }

    method HandleError(peer: Peer)
      requires Valid() && Owns(peer)
      modifies this`activePeers, this`state, peer`state, peer`stage
      ensures Valid() && state == Fault(old(state), peer.id)
    {
      assert peer in peers;
      RemovePeer(peer);
      label removed:
      peer.Disconnect();
      PeerChanged@removed(peer);
      Sync(peer);
    }

    method RemovePeer(peer: Peer)
      requires Valid() && Owns(peer)
      modifies this`activePeers, this`state
      ensures Valid() && state == Swarm.RemovePeer(old(state), RawIp(old(state).peers[peer.id]))
    {
      hide Valid;
      PeerAt(peer.id);
      var k := FindActivePeer(peer.GetRawIp());
      if k < |activePeers| {
        DropActive(k);
      }
    }

    method DropActive(k: nat)
      requires Valid() && k < |activePeers|
      modifies this`activePeers, this`state
      ensures k < |old(state).active|
      ensures Valid() && state == old(state).(active := RemoveAt(old(state).active, k))
    {
      activePeers := RemoveAt(activePeers, k);
      state := state.(active := RemoveAt(state.active, k));
    }

    lemma PeerAt(p: nat)
      requires Valid() && (p < |state.peers| || p < |peers|)
      ensures |peers| == |state.peers| && |pieces| == |state.pieces|
      ensures Owns(peers[p]) && peers[p].id == p && peers[p].torrent == this && peers[p] in Repr()
      ensures peers[p].stage == state.peers[p].stage && peers[p].GetRawIp() == RawIp(state.peers[p])
    {
      assert peers[p] in peers;
      assert peers[p].Valid();
    }

    /** The first active peer with this address. */
    method FindActivePeer(ip: u32) returns (k: nat)
      requires Valid()
      ensures k <= |activePeers| == |state.active|
      ensures FindActive(state.peers, state.active, ip) == if k < |activePeers| then Some(k) else None
    {
      k := 0;
      while k < |activePeers|
        invariant k <= |activePeers|
        invariant forall j | 0 <= j < k :: RawIpAt(state.peers, state.active[j]) != ip
      {
        if activePeers[k].GetRawIp() == ip {
          return;
        }
        k := k + 1;
      }
    }

    // ---------- the ledger ----------

    method SelectPieceAndRequest(peer: Peer)
      requires Valid() && Owns(peer)
      modifies this`pieces, this`buffers, this`state
      modifies peer`wire, peer`state, peer`amInterested, peer`pieceQueue
      ensures Valid() && state == Select(meta, old(state), peer.id)
      ensures old(buffers) <= buffers && fresh(Repr() - old(Repr()))
    {
      hide Post, WireOf, Requests, PieceSize;
      var index, priority := 0, INT32_MAX;
      ghost var has := peer.hasPieceIndexes;
      for i := 0 to |pieces|
        invariant priority == INT32_MAX <==> Choice(pieces, has, i).None?
        invariant priority != INT32_MAX ==> Choice(pieces, has, i) == Some(index) && priority == pieces[index].priority
        invariant forall j | 0 <= j < i && Candidate(pieces, has, j) :: pieces[j].priority != 0
        invariant priority <= INT32_MAX
      {
        if pieces[i].finished || !peer.HasPiece(i) {
          continue;
        }
        if pieces[i].priority == 0 {
          FirstUnrequested(pieces, has, i);
          Request(peer, i);
          return;
        }
        if pieces[i].priority < priority {
          priority := pieces[i].priority;
          index := i;
        }
      }
      if priority != INT32_MAX {
        Request(peer, index);
      }
    }

    /** The chosen piece: one request more, from this peer. */
    method Request(peer: Peer, index: nat)
      requires Valid() && Owns(peer) && index < |pieces|
      modifies this`pieces, this`buffers, this`state
      modifies peer`wire, peer`state, peer`amInterested, peer`pieceQueue
      ensures Valid()
      ensures state == Put(old(state), peer.id, StartPiece(meta, old(state).peers[peer.id], index))
                       .(pieces := RaisePriority(old(state).pieces, index))
      ensures old(buffers) <= buffers && fresh(Repr() - old(Repr()))
    {
      Raise(index);
      hide StartPiece, Valid, RaisePriority;
      StartWith(peer, index);
    }

    method Raise(index: nat)
      requires Valid() && index < |pieces|
      modifies this`pieces, this`state
      ensures Valid() && state == old(state).(pieces := RaisePriority(old(state).pieces, index))
    {
      pieces := RaisePriority(pieces, index);
      state := state.(pieces := pieces);
    }

    method StartWith(peer: Peer, index: u32)
      requires Valid() && Owns(peer) && index < |meta.hashes|
      modifies this`buffers, this`state
      modifies peer`wire, peer`state, peer`amInterested, peer`pieceQueue
      ensures Valid() && state == Put(old(state), peer.id, StartPiece(meta, old(state).peers[peer.id], index))
      ensures old(buffers) <= buffers && fresh(Repr() - old(Repr()))
    {
      hide StartPiece, WireOf, LedgerValid;
      peer.SendPieceRequest(index);
      ghost var piece := peer.pieceQueue[|peer.pieceQueue| - 1];
      buffers := buffers + {piece};
      assert BuffersValid() by {
        BufferAdded(peer, piece);
      }
      PeerChanged(peer);
      Sync(peer);
    }

    twostate lemma BufferAdded(peer: Peer, new piece: PieceBuffer)
      requires old(BuffersValid()) && Owns(peer)
      requires peers == old(peers) && buffers == old(buffers) + {piece}
      requires fresh(piece.blocks)
      requires forall k | 0 <= k < |peers| && peers[k] != peer :: unchanged(peers[k])
      requires |peer.pieceQueue| == |old(peer.pieceQueue)| + 1
      requires peer.pieceQueue[..|old(peer.pieceQueue)|] == old(peer.pieceQueue)
      requires peer.pieceQueue[|old(peer.pieceQueue)|] == piece
      ensures BuffersValid()
    {
      assert peer.pieceQueue == old(peer.pieceQueue) + [piece];
      forall b | b in old(buffers) ensures old(allocated(b.blocks)) && b.blocks != piece.blocks {
      }
    }

    /** checkPieceHash */
    method CheckPieceHash(data: seq<byte>, index: u32) returns (ok: bool)
      ensures ok <==> Accepts(meta, index, data)
    {
      if |meta.hashes| <= index {
        return false;
      }
      return meta.sha1(data) == meta.hashes[index];
    }

    method HandlePieceCompleted(index: u32, pieceData: seq<byte>)
      requires Valid()
      modifies this, peers`wire, peers`state
      ensures Valid() && state == CompletePiece(meta, old(state), index, pieceData)
      ensures peers == old(peers) && buffers == old(buffers) && activePeers == old(activePeers)
    {
      hide Valid, Accepts, Broadcast, Written, WriteAt;
      var ok := CheckPieceHash(pieceData, index);
      if !ok {
        CountMiss(|pieceData|);
        return;
      }
      AcceptedInRange(meta, index, pieceData);
      SizesAgree();
      WritePiece(index, pieceData);
      TellPeers(index);
      Completed(meta, old(state), index, pieceData);
    }

    method CountMiss(size: nat)
      requires Valid()
      modifies this`pieceHashMisses, this`wastedBytes, this`state
      ensures Valid()
      ensures state == old(state).(hashMisses := old(state).hashMisses + 1, wasted := old(state).wasted + size)
    {
      pieceHashMisses := pieceHashMisses + 1;
      wastedBytes := wastedBytes + size;
      state := state.(hashMisses := pieceHashMisses, wasted := wastedBytes);
    }

    method TellPeers(index: u32)
      requires Valid()
      modifies this`state, peers`wire, peers`state
      ensures Valid() && state == old(state).(peers := Broadcast(old(state).peers, old(state).active, index))
    {
      hide Valid;
      ghost var active := state.active;
      SizesAgree();
      for k := 0 to |activePeers|
        invariant Valid() && |activePeers| == |active|
        invariant state == old(state).(peers := Broadcast(old(state).peers, active[..k], index))
      {
        TellPeer(k, index);
        assert active[..k + 1][..k] == active[..k];
      }
      assert active[..|activePeers|] == active;
    }

    lemma SizesAgree()
      requires Valid()
      ensures |activePeers| == |state.active|
      ensures |pieces| == |state.pieces| == |bitfield| == |state.bitfield| == |meta.hashes|
      ensures file == state.file && pieces == state.pieces && completedPieces == state.completed
    {
    }

    /** HAVE to one active peer. */
    method TellPeer(k: nat, index: u32)
      requires Valid() && k < |activePeers|
      modifies this`state, peers`wire, peers`state
      ensures Valid()
      ensures k < |state.active| == |old(state).active| && state.active == old(state).active
      ensures state == old(state).(peers := var a := old(state).active[k];
                if a < |old(state).peers| then old(state).peers[a := Swarm.SendHave(old(state).peers[a], index)]
                else old(state).peers)
    {
      hide WireOf;
      var peer := activePeers[k];
      assert peer in peers;
      peer.SendHave(index);
      PeerChanged(peer);
      Sync(peer);
    }

    /** The piece goes into the file, the flags and the counters. */
    method WritePiece(index: u32, data: seq<byte>)
      requires Valid() && index < |pieces|
      modifies this`file, this`bitfield, this`pieces, this`downloadedBytes, this`completedPieces, this`state
      ensures Valid() && state == Written(meta, old(state), index, data)
    {
      hide WriteAt, PieceStart, Peer.Valid;
      file := WriteAt(file, PieceStart(meta, index), data);
      bitfield := bitfield[index := true];
      pieces := pieces[index := pieces[index].(finished := true)];
      downloadedBytes := downloadedBytes + |data|;
      completedPieces := completedPieces + 1;
      state := Written(meta, state, index, data);
    }

    method HandleBlockRequest(peer: Peer, pIndex: u32, begin: u32, length: u32, heap: seq<byte>)
      requires Valid() && Owns(peer)
      modifies this`uploadedBytes, this`state, peer`wire, peer`state, peer`stage
      ensures Valid() && state == Serve(meta, old(state), peer.id, pIndex, begin, length, heap)
    {
      hide PieceSize, ReadAt, BlockBuffer, Post, Low32, PieceStart, Valid;
      SizesAgree();
      if |pieces| <= pIndex {
        Disconnect(peer);
        return;
      }
      var blockEnd := Low32(begin + length);
      if PieceSize(meta, pIndex) < blockEnd {
        Disconnect(peer);
        return;
      }
      var blockBegin := begin + PieceStart(meta, pIndex);
      var read := ReadAt(file, blockBegin, length);
      if |read| <= 0 {
        return;
      }
      SendBlock(peer, pIndex, begin, BlockBuffer(read, length, heap));
      CountUpload(length);
    }

    method CountUpload(length: nat)
      requires Valid()
      modifies this`uploadedBytes, this`state
      ensures Valid() && state == old(state).(uploaded := old(state).uploaded + length)
    {
      uploadedBytes := uploadedBytes + length;
      state := state.(uploaded := uploadedBytes);
    }

    method SendBlock(peer: Peer, pIndex: u32, begin: u32, block: seq<byte>)
      requires Valid() && Owns(peer)
      modifies this`state, peer`wire, peer`state
      ensures Valid()
      ensures state == Put(old(state), peer.id, Post(old(state).peers[peer.id], [Block(pIndex, begin, block)]))
    {
      hide WireOf, Post;
      peer.SendPieceBlock(pIndex, begin, block);
      PeerChanged(peer);
      Sync(peer);
    }

    method Disconnect(peer: Peer)
      requires Valid() && Owns(peer)
      modifies this`state, peer`state, peer`stage
      ensures Valid() && state == Put(old(state), peer.id, Close(old(state).peers[peer.id]))
    {
      hide WireOf;
      peer.Disconnect();
      PeerChanged(peer);
      Sync(peer);
    }

    method GetRawBitfield() returns (raw: seq<byte>)
      requires Valid()
      ensures raw == Bitfields.RawBitfield(state.bitfield)
    {
      hide Bitfields.Reverse, Bitfields.LsbBlock;
      var rBitfield := Bitfields.LsbBlocks(bitfield);
      for i := 0 to |rBitfield|
        invariant |rBitfield| == Bitfields.ByteCount(|bitfield|)
        invariant forall k | 0 <= k < i :: rBitfield[k] == Bitfields.Reverse(Bitfields.LsbBlock(bitfield, k))
        invariant forall k | i <= k < |rBitfield| :: rBitfield[k] == Bitfields.LsbBlock(bitfield, k)
      {
        rBitfield := rBitfield[i := Bitfields.Reverse(rBitfield[i])];
      }
      raw := seq(|rBitfield|, (k: nat) requires k < |rBitfield| => Bitfields.ToByte(rBitfield[k]));
    }

    /** buildTrackerQuery: the subtraction does not wrap. */
    method BuildTrackerQuery(event: TrackerEvent) returns (q: TrackerQuery)
      requires Valid()
      ensures q.event == event && q.uploaded == 0
      ensures q.downloaded == FinishedBytes(meta, state.pieces)
      ensures q.downloaded + q.remaining == meta.totalSize
    {
      hide PieceSize;
      var downloaded := 0;
      for i := 0 to |pieces|
        invariant downloaded == FinishedBytes(meta, pieces[..i])
      {
        assert pieces[..i + 1][..i] == pieces[..i];
        if pieces[i].finished {
          downloaded := downloaded + PieceSize(meta, i);
        }
      }
      assert pieces[..|pieces|] == pieces;
      AllFinished(meta, pieces);
      SizesSumToTotal(meta, |meta.hashes|);
      return TrackerQuery(event, downloaded, 0, meta.totalSize - downloaded);
    }

    // ---------- one peer ----------

    /** A message has been received. */
    ghost method Note(peer: Peer, msg: Msg)
      requires Valid() && Owns(peer)
      modifies this`state, peer`state
      ensures Valid() && state == Put(old(state), peer.id, Receive(old(state).peers[peer.id], msg))
    {
      hide WireOf;
      WireAppended(peer.state.log, Received(msg));
      peer.state := Receive(peer.state, msg);
      PeerChanged(peer);
      Sync(peer);
    }

    /** The messages that concern the peer only, and the piece list of a bitfield. */
    method React(peer: Peer, msg: Msg)
      requires Valid() && Owns(peer)
      modifies this`state, peer
      ensures Valid() && state == Put(old(state), peer.id, Hear(meta, old(state).peers[peer.id], msg))
      ensures peer.pieceQueue == old(peer.pieceQueue) && peer.stage == old(peer.stage)
    {
      hide WireOf, Hear;
      PeerReacts(peer, msg);
      PeerChanged(peer);
      Sync(peer);
    }

    method PeerReacts(peer: Peer, msg: Msg)
      requires peer.Valid() && peer.torrent == this
      modifies peer
      ensures peer.Valid() && peer.state == Hear(meta, old(peer.state), msg)
      ensures peer.pieceQueue == old(peer.pieceQueue) && peer.stage == old(peer.stage)
    {
      hide WireOf;
      match msg
      case Choke => peer.OnChoke();
      case Unchoke => peer.OnUnchoke();
      case Interested => peer.OnInterested();
      case NotInterested => peer.OnNotInterested();
      case Have(p) => peer.OnHave(p);
      case Bitfield(raw) => peer.OnBitfield(raw);
      case _ =>
    }

    method StoreIn(peer: Peer, k: nat, slot: nat, data: seq<byte>)
      requires Valid() && Owns(peer) && k < |peer.pieceQueue| && slot < peer.pieceQueue[k].totalBlocks
      modifies this`state, peer`state, peer.pieceQueue[k], peer.pieceQueue[k].blocks
      ensures Valid()
      ensures var s := old(state).peers[peer.id];
        state == WithQueue(old(state), peer.id, s.queue[k := Fill(s.queue[k], slot, data)])
    {
      hide WireOf, Fill;
      peer.StoreBlock(k, slot, data);
      PeerChanged(peer);
      Sync(peer);
    }

    method EraseFrom(peer: Peer, k: nat)
      requires Valid() && Owns(peer) && k < |peer.pieceQueue|
      modifies this`state, peer`state, peer`pieceQueue
      ensures Valid()
      ensures state == WithQueue(old(state), peer.id, RemoveAt(old(state).peers[peer.id].queue, k))
    {
      hide WireOf;
      peer.Erase(k);
      PeerChanged(peer);
      Sync(peer);
    }

    method CancelIn(peer: Peer, k: nat)
      requires Valid() && Owns(peer) && k < |peer.pieceQueue|
      modifies this`state, peer`state, peer`wire
      ensures Valid()
      ensures var s := old(state).peers[peer.id];
        state == Put(old(state), peer.id, Post(s, Cancels(meta, peer.pieceQueue[k].index)))
    {
      hide WireOf, Post, Cancels;
      peer.SendCancelRequest(peer.pieceQueue[k]);
      PeerChanged(peer);
      Sync(peer);
    }

    /** The last block of entry k is in: join, hand over, take the entry out, select. */
    method AssembleFrom(peer: Peer, k: nat)
      requires Valid() && Owns(peer) && k < |peer.pieceQueue|
      modifies Repr()
      ensures Valid() && peers == old(peers)
      ensures state == Assemble(meta, old(state), peer.id, k)
      ensures fresh(Repr() - old(Repr()))
    {
      hide Gather, CompletePiece, SelectUnlessComplete, RemoveAt, Assemble, Valid, ValidBut, Peer.Valid,
        PieceBuffer.Valid;
      assert peer in peers;
      var piece := peer.pieceQueue[k];
      Entry(peer, k);
      var pieceData := piece.Join();
      AssembleInSteps(meta, state, peer.id, k);
      assert forall p | p in peers :: p in Repr();
      HandlePieceCompleted(piece.index, pieceData);
      EraseAndSelect(peer, k);
    }

    lemma Known(peer: Peer)
      requires Valid() && Owns(peer)
      ensures peer in peers && peer.id < |state.peers| && peer.Valid() && peer.state == state.peers[peer.id]
      ensures |peer.pieceQueue| == |peer.state.queue|
    {
    }

    lemma Entry(peer: Peer, k: nat)
      requires Valid() && Owns(peer) && k < |peer.pieceQueue|
      ensures peer.id < |state.peers| && k < |state.peers[peer.id].queue|
      ensures peer.pieceQueue[k].Valid() && peer.pieceQueue[k].View() == state.peers[peer.id].queue[k]
      ensures peer.pieceQueue[k] in buffers && peer.pieceQueue[k].index < |pieces| <= TWO32
      ensures peer.pieceQueue[k].totalBlocks == |state.peers[peer.id].queue[k].slots|
    {
    }

    method EraseAndSelect(peer: Peer, k: nat)
      requires Valid() && Owns(peer) && k < |peer.pieceQueue|
      modifies this`pieces, this`buffers, this`state
      modifies peer`wire, peer`state, peer`amInterested, peer`pieceQueue
      ensures Valid()
      ensures state == SelectUnlessComplete(meta,
                         WithQueue(old(state), peer.id, RemoveAt(old(state).peers[peer.id].queue, k)), peer.id)
      ensures fresh(Repr() - old(Repr()))
    {
      hide SelectUnlessComplete, WireOf;
      EraseFrom(peer, k);
      SelectUnlessDone(peer);
    }

    method SelectUnlessDone(peer: Peer)
      requires Valid() && Owns(peer)
      modifies this`pieces, this`buffers, this`state
      modifies peer`wire, peer`state, peer`amInterested, peer`pieceQueue
      ensures Valid() && state == SelectUnlessComplete(meta, old(state), peer.id)
      ensures old(buffers) <= buffers && fresh(Repr() - old(Repr()))
    {
      hide Select;
      if completedPieces != |pieces| {
        SelectPieceAndRequest(peer);
      }
    }

    /** pieceDone: the index must be in range. */
    predicate PieceDone(index: nat)
      requires index < |pieces|
      reads this
    {
      pieces[index].finished
    }

    // ---------- connections ----------

    method NewConnection(ip: u32, incoming: bool) returns (peer: Peer)
      requires Valid()
      modifies this`peers, this`blackListed, this`state
      ensures Valid() && fresh(peer) && peers == old(peers) + [peer] && Owns(peer) && buffers == old(buffers)
      ensures state == old(state).(peers := old(state).peers + [NewPeer(ip, incoming)],
                                   blackListed := old(state).blackListed + {ip})
    {
      peer := new Peer(this, ip, incoming, |peers|);
      peers := peers + [peer];
      blackListed := blackListed + {ip};
      state := state.(peers := state.peers + [peer.state], blackListed := blackListed);
    }

    method ConnectToPeers(records: seq<byte>)
      requires Valid() && |records| % 6 == 0
      modifies this`peers, this`blackListed, this`state
      ensures Valid() && state == DialUpTo(old(state), records, |records| / 6)
      ensures old(peers) <= peers && buffers == old(buffers) && fresh(Repr() - old(Repr()))
    {
      hide Valid, RecordIp, FindActive;
      var i := 0;
      ghost var k := 0;
      while i < |records|
        invariant Valid() && i == 6 * k <= |records|
        invariant state == DialUpTo(old(state), records, k)
        invariant old(peers) <= peers && buffers == old(buffers) && fresh(Repr() - old(Repr()))
      {
        ConnectToOne(ReadLE32(records[i..i + 4]));
        assert ReadLE32(records[i..i + 4]) == RecordIp(records, k) by {
          RecordAt(records, k);
        }
        i := i + 6;
        k := k + 1;
      }
    }

    method ConnectToOne(ip: u32)
      requires Valid()
      modifies this`peers, this`blackListed, this`state
      ensures Valid() && state == DialOne(old(state), ip)
      ensures old(peers) <= peers && buffers == old(buffers) && fresh(Repr() - old(Repr()))
    {
      if ip == 0 || ip in blackListed {
        return;
      }
      var k := FindActivePeer(ip);
      if k < |activePeers| {
        return;
      }
      var peer := NewConnection(ip, false);
    }

    /** The TCP connection of a dialled peer is up. */
    method Connected(peer: Peer)
      requires Valid() && Owns(peer) && peer.stage.Dialling?
      modifies this`state, peer`state, peer`stage
      ensures Valid() && state == Put(old(state), peer.id, old(state).peers[peer.id].(stage := Greeting))
    {
      hide WireOf;
      peer.SetStage(Greeting);
      PeerChanged(peer);
      Sync(peer);
    }

    /** handshaked: the peer becomes active and is no longer black-listed. */
    method Handshaked(peer: Peer)
      requires Valid() && Owns(peer)
      modifies this`activePeers, this`blackListed, this`state
      ensures Valid()
      ensures state == old(state).(active := old(state).active + [peer.id],
                                   blackListed := old(state).blackListed - {RawIp(old(state).peers[peer.id])})
    {
      activePeers := activePeers + [peer];
      var ip := peer.GetRawIp();
      if ip in blackListed {
        blackListed := blackListed - {ip};
      }
      state := state.(active := state.active + [peer.id], blackListed := blackListed);
    }

    /** The end of connect or authenticate: only an incoming peer is sent our bitfield. */
    method Authenticated(peer: Peer)
      requires Valid() && Owns(peer) && peer.stage.Greeting?
      modifies this`activePeers, this`blackListed, this`state, peer`state, peer`stage, peer`wire
      ensures Valid() && state == Welcome(old(state), peer.id)
    {
      hide Post, WireOf;
      SetTalking(peer);
      Handshaked(peer);
      if peer.incoming {
        var raw := GetRawBitfield();
        SendBitfieldTo(peer, raw);
      }
      hide Valid;
      Welcomed(old(state), peer.id);
    }

    method SetTalking(peer: Peer)
      requires Valid() && Owns(peer)
      modifies this`state, peer`state, peer`stage
      ensures Valid() && state == Put(old(state), peer.id, old(state).peers[peer.id].(stage := Talking))
      ensures peer.incoming == state.peers[peer.id].incoming
    {
      hide WireOf;
      peer.SetStage(Talking);
      PeerChanged(peer);
      Sync(peer);
    }

    method SendBitfieldTo(peer: Peer, raw: seq<byte>)
      requires Valid() && Owns(peer)
      modifies this`state, peer`state, peer`wire
      ensures Valid() && state == Put(old(state), peer.id, Post(old(state).peers[peer.id], [Bitfield(raw)]))
    {
      hide WireOf, Post;
      peer.SendBitfield(raw);
      PeerChanged(peer);
      Sync(peer);
    }

    method DisconnectPeers()
      requires Valid()
      modifies this`state, peers`state, peers`stage
      ensures Valid() && state == old(state).(peers := CloseAll(old(state).peers, old(state).active))
    {
      hide Valid;
      ghost var active := state.active;
      SizesAgree();
      for i := 0 to |activePeers|
        invariant Valid() && |activePeers| == |active|
        invariant state == old(state).(peers := CloseAll(old(state).peers, active[..i]))
      {
        DisconnectOne(i);
        assert active[..i + 1][..i] == active[..i];
      }
      assert active[..|activePeers|] == active;
    }

    method DisconnectOne(k: nat)
      requires Valid() && k < |activePeers|
      modifies this`state, peers`state, peers`stage
      ensures Valid()
      ensures k < |state.active| == |old(state).active| && state.active == old(state).active
      ensures state == old(state).(peers := var a := old(state).active[k];
                if a < |old(state).peers| then old(state).peers[a := Close(old(state).peers[a])] else old(state).peers)
    {
      var peer := activePeers[k];
      assert peer in peers;
      Disconnect(peer);
    }

    // ---------- events ----------

    /** One event of the io_context. */
    method Dispatch(e: Event)
      requires Valid() && Enabled(state, e)
      modifies Repr()
      ensures Valid() && state == Step(meta, old(state), e)
      ensures fresh(Repr() - old(Repr()))
    {
      hide OnFrame, Welcome, Fault, DialUpTo, CloseAll, ReadsOutOfRange, Valid;
      assert forall p | p in peers :: p in Repr();
      if e.Connected? || e.Handshaken? || e.Lost? || e.Arrived? {
        PeerAt(e.p);
      }
      match e
      case TrackerResponse(records) => ConnectToPeers(records);
      case Accepted(ip) => var peer := NewConnection(ip, true);
      case Connected(p) => Connected(peers[p]);
      case Handshaken(p) => Authenticated(peers[p]);
      case Lost(p) => HandleError(peers[p]);
      case Arrived(p, frame, heap) =>
        var inMsg := new IncomingMessage(frame.payload);
        peers[p].HandleMessage(frame.id, inMsg, heap);
      case Shutdown => DisconnectPeers();
    }

    /** download: unless the tracker fails to answer, the events are handled one by one until every piece is complete,
        or none is left. COMPLETED is reported exactly if they complete the download; then the active peers are closed,
        unless it goes on seeding, and no others, and the tracker is told that nothing remains. The file starts with
        the content, whatever the content, as long as only its pieces pass the hash check. */
    method Download(events: seq<Event>, seedAfter: bool, trackerAnswers: bool)
      returns (result: Option<DownloadError>, queries: seq<TrackerQuery>, ghost handled: nat)
      requires Valid() && state == Start(meta, file) && CanRun(meta, state, events)
      modifies Repr()
      ensures Valid()
      ensures queries != [] && queries[0] == TrackerQuery(TrackerEvent.STARTED, 0, 0, meta.totalSize)
      ensures !trackerAnswers ==> result == Some(TRACKER_QUERY_FAILURE) && state == old(state) && |queries| == 1
      ensures trackerAnswers ==>
        && StopsAt(meta, old(state), events, handled)
        && var w := RunTo(meta, old(state), events, handled);
           && result == (if w.completed == |w.pieces| then Some(DownloadError.COMPLETED) else None)
           && if result.None? || seedAfter then state == w
              else
                && state == w.(peers := state.peers) && |state.peers| == |w.peers|
                && forall q | 0 <= q < |w.peers| ::
                     state.peers[q] == if q in w.active then w.peers[q].(stage := Closed) else w.peers[q]
      ensures result == Some(DownloadError.COMPLETED) ==>
        && (forall content | Genuine(meta, content) :: content <= file)
        && queries[1..] == [TrackerQuery(TrackerEvent.COMPLETED, meta.totalSize, 0, 0)]
    {
      hide Valid, Start, Step, SwarmInvariant.Inv, Enabled, FinishedBytes, Genuine, RunTo, CanRun, StopsAt;
      StartInv(meta, file);
      var q := BuildTrackerQuery(TrackerEvent.STARTED);
      NothingDownloaded(meta, file);
      queries, handled := [q], 0;
      if !trackerAnswers {
        return Some(TRACKER_QUERY_FAILURE), queries, handled;
      }
      HandleEvents(events);
      handled := HandledTo(meta, old(state), events, state);
      SizesAgree();
      if completedPieces != |pieces| {
        return None, queries, handled;
      }
      FileComplete();
      if !seedAfter {
        DisconnectAll();
      }
      q := BuildTrackerQuery(if completedPieces == |pieces| then TrackerEvent.COMPLETED else TrackerEvent.STOPPED);
      queries := queries + [q];
      SizesAgree();
      return Some(if q.event.COMPLETED? then DownloadError.COMPLETED else NETWORK_ERROR), queries, handled;
    }

    /** The loop of download. */
    method HandleEvents(events: seq<Event>)
      requires Valid() && CanRun(meta, state, events)
      requires forall content | |content| == meta.totalSize :: SwarmInvariant.Inv(meta, content, state)
      modifies Repr()
      ensures Valid() && fresh(Repr() - old(Repr()))
      ensures exists n :: StopsAt(meta, old(state), events, n) && state == RunTo(meta, old(state), events, n)
      ensures forall content | |content| == meta.totalSize :: SwarmInvariant.Inv(meta, content, state)
    {
      hide Valid, Step, SwarmInvariant.Inv, Enabled;
      ghost var n := 0;
      for i := 0 to |events|
        invariant n == i && Valid() && fresh(Repr() - old(Repr()))
        invariant state == RunTo(meta, old(state), events, n)
        invariant forall j | 0 <= j < n :: !Complete(RunTo(meta, old(state), events, j))
        invariant forall content | |content| == meta.totalSize :: SwarmInvariant.Inv(meta, content, state)
      {
        SizesAgree();
        if completedPieces == |pieces| {
          break;
        }
        RunOn(meta, old(state), events, i);
        StepInv(meta, state, events[i]);
        Dispatch(events[i]);
        n := n + 1;
      }
      assert StopsAt(meta, old(state), events, n);
    }

    method DisconnectAll()
      requires Valid()
      modifies Repr()
      ensures Valid() && file == old(file) && pieces == old(pieces) && completedPieces == old(completedPieces)
      ensures state == old(state).(peers := state.peers) && |state.peers| == |old(state).peers|
      ensures forall q | 0 <= q < |state.peers| ::
        state.peers[q] == if q in state.active then old(state).peers[q].(stage := Closed) else old(state).peers[q]
    {
      assert forall p | p in peers :: p in Repr();
      DisconnectPeers();
      forall q | 0 <= q < |state.peers| ensures state.peers[q]
        == if q in state.active then old(state).peers[q].(stage := Closed) else old(state).peers[q] {
        CloseAllExactly(old(state).peers, old(state).active, q);
      }
    }

    lemma FileComplete()
      requires Valid() && completedPieces == |pieces|
      requires forall content | |content| == meta.totalSize :: SwarmInvariant.Inv(meta, content, state)
      ensures forall content | Genuine(meta, content) :: content <= file
      ensures FinishedBytes(meta, pieces) == meta.totalSize
    {
      assert SwarmInvariant.Inv(meta, AnyContent(meta), state);
      AllFinished(meta, pieces);
      SizesSumToTotal(meta, |meta.hashes|);
      forall content | Genuine(meta, content) ensures content <= file {
        assert SwarmInvariant.Inv(meta, content, state);
        CompleteFile(meta, content, state);
      }
    }
  }

  datatype DownloadError = COMPLETED | TRACKER_QUERY_FAILURE | NETWORK_ERROR
  datatype TrackerEvent = NONE | COMPLETED | STARTED | STOPPED
  datatype TrackerQuery = TrackerQuery(event: TrackerEvent, downloaded: nat, uploaded: nat, remaining: nat)

  /** The events can happen, one after the other. */
  ghost predicate CanRun(m: Meta, w: World, events: seq<Event>)
    decreases |events|
  {
    events == [] || (Enabled(w, events[0]) && CanRun(m, Step(m, w, events[0]), events[1..]))
  }

  /** The state after the first n events. */
  ghost function RunTo(m: Meta, w: World, events: seq<Event>, n: nat): World
    requires n <= |events| && CanRun(m, w, events)
    decreases n
  {
    if n == 0 then w else RunTo(m, Step(m, w, events[0]), events[1..], n - 1)
  }

  ghost predicate Complete(w: World) {
    w.completed == |w.pieces|
  }

  /** n is the first number of events after which every piece is complete, or that of all events. */
  ghost predicate StopsAt(m: Meta, w: World, events: seq<Event>, n: nat)
    requires CanRun(m, w, events)
  {
    && n <= |events|
    && (forall j | 0 <= j < n :: !Complete(RunTo(m, w, events, j)))
    && (n < |events| ==> Complete(RunTo(m, w, events, n)))
  }

  /** One event more. */
  lemma {:induction false} RunOn(m: Meta, w: World, events: seq<Event>, n: nat)
    requires n < |events| && CanRun(m, w, events)
    ensures Enabled(RunTo(m, w, events, n), events[n])
    ensures RunTo(m, w, events, n + 1) == Step(m, RunTo(m, w, events, n), events[n])
    decreases n
  {
    hide Step, Enabled;
    if n != 0 {
      RunOn(m, Step(m, w, events[0]), events[1..], n - 1);
    }
  }

  lemma HandledTo(m: Meta, w: World, events: seq<Event>, w': World) returns (n: nat)
    requires CanRun(m, w, events)
    requires exists n :: StopsAt(m, w, events, n) && w' == RunTo(m, w, events, n)
    ensures StopsAt(m, w, events, n) && w' == RunTo(m, w, events, n)
  {
    n :| StopsAt(m, w, events, n) && w' == RunTo(m, w, events, n);
  }

  lemma StartInv(m: Meta, file: seq<byte>)
    ensures forall content | |content| == m.totalSize :: SwarmInvariant.Inv(m, content, Start(m, file))
  {
    forall content | |content| == m.totalSize ensures SwarmInvariant.Inv(m, content, Start(m, file)) {
      Safety.StartOk(m, content, file);
    }
  }

  lemma NothingDownloaded(m: Meta, file: seq<byte>)
    ensures FinishedBytes(m, Start(m, file).pieces) == 0
  {
    NothingFinished(m, Start(m, file).pieces);
  }

  lemma StepInv(m: Meta, w: World, e: Event)
    requires Enabled(w, e)
    requires forall content | |content| == m.totalSize :: SwarmInvariant.Inv(m, content, w)
    ensures forall content | |content| == m.totalSize :: SwarmInvariant.Inv(m, content, Step(m, w, e))
  {
    forall content | |content| == m.totalSize ensures SwarmInvariant.Inv(m, content, Step(m, w, e)) {
      Safety.StepOk(m, content, w, e);
    }
  }

  lemma Welcomed(w: World, p: nat)
    requires p < |w.peers|
    ensures var s := w.peers[p].(stage := Talking);
      var s1 := if s.incoming then Post(s, [Bitfield(Bitfields.RawBitfield(w.bitfield))]) else s;
      Welcome(w, p) == Put(w, p, s1).(active := w.active + [p], blackListed := w.blackListed - {RawIp(s)})
  {
  }

  lemma RecordAt(records: seq<byte>, k: nat)
    requires 6 * k + 6 <= |records|
    ensures RecordIp(records, k) == ReadLE32(records[6 * k..6 * k + 4])
  {
  }

  lemma AssembleInSteps(m: Meta, w: World, p: nat, k: nat)
    requires p < |w.peers| && k < |w.peers[p].queue|
    ensures var q := w.peers[p].queue[k];
      var w1 := CompletePiece(m, w, q.index, Gather(q.slots));
      && w1.peers[p].queue == w.peers[p].queue
      && Assemble(m, w, p, k) == SelectUnlessComplete(m, WithQueue(w1, p, RemoveAt(w1.peers[p].queue, k)), p)
  {
    hide CompletePiece, SelectUnlessComplete, Gather;
    var q := w.peers[p].queue[k];
    CompleteKeeps(m, w, q.index, Gather(q.slots), p);
  }

  function Written(m: Meta, w: World, i: nat, data: seq<byte>): World
    requires i < |w.pieces| == |w.bitfield|
  {
    w.(file := WriteAt(w.file, PieceStart(m, i), data),
       bitfield := w.bitfield[i := true],
       pieces := w.pieces[i := w.pieces[i].(finished := true)],
       downloaded := w.downloaded + |data|,
       completed := w.completed + 1)
  }

  lemma AcceptedInRange(m: Meta, i: nat, data: seq<byte>)
    requires Accepts(m, i, data)
    ensures i < |m.hashes|
  {
  }

  lemma Completed(m: Meta, w: World, i: nat, data: seq<byte>)
    requires i < |w.pieces| == |w.bitfield| && Accepts(m, i, data)
    ensures Written(m, w, i, data).peers == w.peers && Written(m, w, i, data).active == w.active
    ensures CompletePiece(m, w, i, data) == Written(m, w, i, data).(peers := Broadcast(w.peers, w.active, i))
  {
  }
}
