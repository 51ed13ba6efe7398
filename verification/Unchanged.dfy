/** What the parts of a step leave alone. */
module Unchanged {
  import opened Transcoder
  import opened Layout
  import opened Wire
  import opened Protocol
  import opened Swarm

  lemma PostKeeps(s: PeerState, msgs: seq<Msg>)
    ensures Post(s, msgs) == s.(log := Post(s, msgs).log)
  {
  }

  lemma HearKeeps(m: Meta, s: PeerState, msg: Msg)
    ensures var s' := Hear(m, s, msg); s'.ip == s.ip && s'.stage == s.stage && s'.queue == s.queue
  {
    hide QueueRequests;
  }

  lemma RequestCases(m: Meta, w: World, p: nat, i: u32, begin: u32, length: u32, heap: seq<byte>)
    requires p < |w.peers|
    ensures var s, w' := w.peers[p], OnRequest(m, w, p, i, begin, length, heap);
      if s.peerInterested && !s.amChoking && length <= MAX_BLOCK_REQUEST_SIZE then
        w' == if Done(w.pieces, i) then Serve(m, w, p, i, begin, length, heap) else w
      else
        p < |w'.peers| && w'.peers[p] == Close(s) && w'.uploaded == w.uploaded
  {
  }

  lemma StartKeeps(m: Meta, s: PeerState, i: nat)
    ensures var s' := StartPiece(m, s, i); s'.has == s.has && s'.queue == s.queue + [FreshInFlight(m, i)]
  {
  }

  lemma FillKeeps(q: InFlight, slot: nat, data: seq<byte>)
    requires slot < |q.slots|
    ensures var q' := Fill(q, slot, data);
      q'.index == q.index && |q'.slots| == |q.slots| && q'.haveBlocks == q.haveBlocks + 1
  {
  }

  /** HAVEs only add to the logs. */
  lemma {:induction false} BroadcastKeeps(peers: seq<PeerState>, active: seq<nat>, i: nat, p: nat)
    requires p < |peers|
    ensures Broadcast(peers, active, i)[p] == peers[p].(log := Broadcast(peers, active, i)[p].log)
  {
    if active != [] {
      BroadcastKeeps(peers, active[..|active| - 1], i, p);
    }
  }

  lemma CompleteKeeps(m: Meta, w: World, i: nat, data: seq<byte>, p: nat)
    requires p < |w.peers|
    ensures var s, s' := w.peers[p], CompletePiece(m, w, i, data).peers[p]; s' == s.(log := s'.log)
  {
    hide Broadcast, WriteAt;
    BroadcastKeeps(w.peers, w.active, i, p);
  }

  /** disconnectPeers closes the active peers and leaves the others alone. */
  lemma {:induction false} CloseAllExactly(peers: seq<PeerState>, list: seq<nat>, p: nat)
    requires p < |peers|
    ensures CloseAll(peers, list)[p] == if p in list then Close(peers[p]) else peers[p]
  {
    if list != [] {
      CloseAllExactly(peers, list[..|list| - 1], p);
      assert list == list[..|list| - 1] + [list[|list| - 1]];
    }
  }
}
