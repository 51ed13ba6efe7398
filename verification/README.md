# ytorrent: the transfer engine, modelled and proved

ytorrent downloads one file from any number of BitTorrent peers at a time and serves it to others. This project
models the engine that does it: the piece ledger of `Torrent` (flags, priorities, bitfield, counters, output
file), the state machine of `Peer` (choke and interest flags, announced pieces, pieces in flight with their
block slots) and the wire codec between them (BEP 3, "peer protocol" and "peer messages").

It has two layers and the proofs that tie them together.

- **The engine as a value** (`Swarm.dfy`). A `World` is the whole state; each handler is a function on it;
  `Step` handles one event (a tracker response, an accepted connection, a completed connection or handshake, a
  lost connection, a frame from a peer, a shutdown), and a run is any sequence of events. The io_context runs
  on one thread, so a handler is one step (main.cpp:93-94, src/net/connection.cpp:18-21). Each peer keeps a log
  of what it has sent and received, which is what the protocol properties are about (`Protocol.dfy`).
- **The classes, updated in place** (`Engine.dfy`, `Buffers.dfy`). `Torrent`, `Peer`, `PieceBuffer`,
  `IncomingMessage` and `OutgoingMessage` with the fields and loops of the C++ classes. A fixed buffer (the block
  slots) is an array; vectors, the bit set and the file are sequences that the methods reassign. Each object has
  a ghost `state`, tied to its fields by `Valid()`, and each method is proved to change that state as the
  function of the same handler does. The bytes written on a connection are a real field, equal to the encoding
  of the messages the log says were sent.

`Unchanged.dfy` says what the parts of a step leave alone. The properties are proved about the functions, for every
run, any number of peers and any order of events: `PeerInvariant.dfy`, `LedgerInvariant.dfy`, `SwarmInvariant.dfy`
and `Safety.dfy` carry one invariant through every handler; `Guarantees.dfy`, `Conservation.dfy`, `Balance.dfy`,
`Views.dfy`, `Dialling.dfy`, `Reassembly.dfy` and `Replies.dfy` state what follows; `Effects.dfy` and `Reactions.dfy`
state in full, by the protocol's own numbers, what each event changes; and `Runs.dfy` builds runs in
which the code departs from its intent. `Engine.Torrent.Download` brings the two layers together: when `download`
reports COMPLETED, the file starts with the content.

## Hypotheses

- `Layout.Meta`: well-formed metainfo (positive piece length and size, as many digests as pieces, at most 2^32
  of them, because indices travel as 32-bit values).
- SHA-1 is an uninterpreted function to twenty bytes. `Genuine` says that nothing but piece i has the digest of piece
  i; `Hashed` says that piece i has it. Only statements about the content require them; what is said of requests,
  announcements, queues, flags, counters, dialling and the wire holds for any hash. `Layout.HypothesesConsistent`
  shows that both can be met for every content.
- What a peer sends is arbitrary bytes, cut into frames by their length prefixes. A frame is delivered whole.
- A peer keeps one address while connected. An accepted connection has a nonzero address. Tracker responses
  are whole 6-byte records; `connectToPeers` would read past the end of others.

## Where the code departs from its intent

The model keeps what the code does. Each departure has a run or an input that shows it and, where only some inputs
meet it, the exact condition.

- A block that arrives twice is counted twice (src/torrent/peer.cpp:270-272). When the count reaches the number of
  slots, the piece is complete exactly when no block was repeated, and thrown away otherwise
  (`Reassembly.LastBlockDecides`). The engine brings this on itself: after CHOKE and UNCHOKE it requests every block
  of a piece in flight again, those already stored included (src/torrent/peer.cpp:131-137), so a peer that answers
  each REQUEST once repeats blocks (`Runs.RepeatedBlock`). The file is safe all the same
  (`Guarantees.DownloadCorrect`), because the hash check follows.
- The end of a requested range is a 32-bit sum (src/torrent/torrent.cpp:531). A sent block is the content at its
  range whenever the range lies inside the piece; for a piece below 2^32 bytes that is exactly when the sum does not
  wrap (`Guarantees.UploadCorrect`). A run ends with the answer to a wrapped range (`Runs.WrappedRangeAnswered`).
- A short read from the file leaves the rest of the block to whatever the heap held
  (src/torrent/torrent.cpp:535-561). The event carries those bytes as a parameter (`Swarm.BlockBuffer`). The answer
  depends on them exactly when the range is answered and crosses the end of the file
  (`Replies.HeapIrrelevantExactly`), which a wrapped range can (`Runs.HeapByteSent`) and a range inside a finished
  piece cannot (`Safety.ServedContent`).
- On REQUEST the piece's flag is read before its index is checked (src/torrent/peer.cpp:228 against
  src/torrent/torrent.cpp:528). What then happens is undefined, so runs leave those frames out
  (`Swarm.ReadsOutOfRange`), and only those (`Replies.OutOfRangeExactly`); a run of three events reaches one
  (`Runs.OutOfRangeReachable`).
- `removePeer` goes by address, not by identity. It takes out the right peer exactly when no connected peer of the
  same address stands before it in the list (`Dialling.RemovalExactly`), and can take out a wrong one
  (`Runs.WrongPeerRemoved`).
- An incoming connection is accepted whatever its address (src/torrent/torrent.cpp:193-198). Dialling stays in order
  exactly as long as no live peer has that address (`Dialling.AcceptedExactly`, `Dialling.DialledExactly`).
- `sendPieceRequest` takes the piece size as a 32-bit value (src/torrent/peer.cpp:352), `requestPiece` does not
  (src/torrent/peer.cpp:432). Slots and requests agree exactly below 2^32 bytes (`Layout.SlotsMatchBlocksExactly`).
- `writeAsBE16` casts before it shifts (src/utils/transcoder.hpp:59): it loses the high byte, and the round trip holds
  for exactly the one-byte values (`Transcoder.BE16RoundTripExactly`).

## Main results

- Download: `Guarantees.DownloadCorrect`, and over the classes `Engine.Torrent.Download` and `Engine.Torrent.Dispatch`.
- Upload: `Guarantees.UploadDiscipline`, `Guarantees.UploadCorrect`, `Guarantees.UploadCounted`,
  `Replies.RequestAnswered`, `Replies.HeapIrrelevantExactly`.
- Every event in full: `Reactions.ArrivalExactly`, `Effects.ConnectionsExactly`.
- Protocol: `Guarantees.RequestDiscipline`, `Guarantees.FlagsSayWhatWasSaid`, `Guarantees.InFlightInRun`,
  `Replies.ClosesExactly`, `Replies.LateBlockCancelled`.
- Announcements: `Guarantees.AdvertisementTrue`, `Guarantees.HaveOnce`, `Views.ViewExact`.
- Accounting: `Guarantees.RemainderExact`, `Conservation.RunBooked`, `Conservation.BytesConserved`,
  `Conservation.Progress`.
- Selection: `Reactions.SelectionExact`, `Balance.RunBalanced`, `Guarantees.PrioritiesCountRequests`.
- Reassembly: `Reassembly.Collects`, `Reassembly.LastBlockDecides`.
- Dialling and removal: `Dialling.DialledOnce`, `Dialling.DialledExactly`, `Dialling.RemovalExactly`.
- Wire: `Wire.StreamRoundTrip`, `Wire.WrittenExactly`, `Wire.ReadExactly`, `Guarantees.WireReadableInRun`, `Bitfields.BitfieldRoundTrip`.
- Departures: the five runs of `Runs.dfy`, listed above.

## Model

The table gives the results and the departures first. From `Guarantees.PeerOkInRun` on come the steps they rest on: what single
handlers and events keep or bring about. From `Protocol.ConformantAt` on, facts of the protocol, the wire and the layout; from
`Buffers.IncomingMessage.ExtractNextU32` on, the class methods, each proved to change the ghost state as the function of the same handler does.

| member | source | states |
|---|---|---|
| Guarantees.DownloadCorrect | src/torrent/torrent.cpp:487-523 | in every reachable state each finished piece's range of the file is the reference content, and when the completed count reaches the number of pieces the file starts with the whole content |
| Engine.Torrent.Download | src/torrent/torrent.cpp:178-220 | over the classes: the events are handled one by one up to the first after which every piece is complete; COMPLETED is reported exactly if there is one; then exactly the active peers are closed unless it goes on seeding, the tracker is told that nothing remains, and the file starts with every content that only passes its own hash checks; if the tracker does not answer at first, TRACKER_QUERY_FAILURE and nothing else happens |
| Engine.Torrent.Dispatch | src/net/connection.cpp:18-21 | any event, handled on the classes, is the step of the specification |
| Safety.RunOk | src/torrent/peer.cpp:88-315 | the whole invariant holds in every reachable state |
| Reactions.ArrivalExactly | src/torrent/peer.cpp:88-315 | over every run, all that a frame brings about, by the numbers and sizes of the protocol: nothing above 8, the end of the connection for a wrong size, and else exactly the stated reaction to its message |
| Reactions.ReactionExactly | src/torrent/peer.cpp:112-313 | the reaction to each of the nine messages in full: the state of the sender, the ledger, what it and the others are sent |
| Effects.ConnectionsExactly | src/torrent/torrent.cpp:293-376 | over every run, what each event does to the connections: who is new, connected, active and black-listed; a failure takes out the first active peer with the address and no other, a range past the end closes and takes nobody out |
| Guarantees.UploadDiscipline | src/torrent/peer.cpp:209-236 | every block ever sent has the length asked for, directly answers a REQUEST of an interested peer we had unchoked, and belongs to a finished piece |
| Guarantees.UploadCorrect | src/torrent/torrent.cpp:525-564 | a block sent is the content at its range whenever the range lies inside the piece; below 2^32 bytes that is so exactly when the 32-bit end did not wrap |
| Guarantees.UploadCounted | src/torrent/torrent.cpp:561-562 | the upload counter is the sum over all peers of the block bytes sent |
| Guarantees.RequestDiscipline | src/torrent/peer.cpp:425-441 | every REQUEST ever sent follows our INTERESTED, an UNCHOKE with no CHOKE after it, and an announcement of its piece, which is in range and of which it names a block |
| Guarantees.AdvertisementTrue | src/torrent/torrent.cpp:514-522 | whatever a peer has been told by HAVE or bitfield is finished and correct in the file |
| Guarantees.HaveOnce | src/torrent/peer.cpp:325-336 | no peer is sent HAVE twice for a piece, nor for one its bitfield named |
| Guarantees.InFlightInRun | src/torrent/peer.cpp:349-366 | every queue entry of every peer is in range, has the right number of slots, is not full, has been announced and, while unchoked, requested in full since the UNCHOKE |
| Guarantees.PrioritiesCountRequests | src/torrent/torrent.cpp:378-408 | the sum of the priorities is the number of piece requests started, and no piece is in flight more often, over all peers, than its priority |
| Guarantees.RemainderExact | src/torrent/torrent.cpp:159-176 | the byte counter is what the tracker query recomputes, never exceeds the total, and equals it exactly when the download is complete |
| Guarantees.FlagsSayWhatWasSaid | src/torrent/peer.cpp:114-207 | in every reachable state the four flags and the piece list are what the messages exchanged say, and whoever showed interest has been unchoked |
| Guarantees.WireReadableInRun | src/torrent/peer.cpp:325-423 | the bytes written to a peer read back as exactly the messages sent to it, with nothing left over |
| Conservation.BytesConserved | src/torrent/torrent.cpp:487-517 | over any run the bytes of all assembled pieces are downloaded plus wasted, and the assemblies are completed pieces plus hash misses |
| Conservation.RunBooked | src/torrent/torrent.cpp:514-517 | flags, bitfield and completed count agree in every reachable state, without any hypothesis on the hash |
| Conservation.Progress | src/torrent/torrent.cpp:515-517 | finished pieces stay finished and the completed count never goes down |
| Conservation.OneMoreExactly | src/torrent/torrent.cpp:489-517 | the completed count goes up by one exactly at an assembly that passes its check |
| Views.ViewExact | src/torrent/torrent.cpp:519-522 | what a peer has been told is exactly what was finished at its handshake, if it connected to us, plus what was finished while it was active, connected and unchoked |
| Balance.RunBalanced | src/torrent/torrent.cpp:378-408 | if every selecting peer has all pieces, the priorities of unfinished pieces never differ by more than one |
| Reactions.SelectionExact | src/torrent/torrent.cpp:378-408 | a piece is selected exactly when a bitfield or the last block of an entry comes in: of the unfinished pieces the peer has that were requested less than 2^31 - 1 times, the first of the least requested is started, counted and asked for; if there is none, nothing happens |
| Dialling.DialledOnce | src/torrent/torrent.cpp:293-345 | as long as no connection comes in from an address that a live peer has: live and pending peers have distinct addresses, black-listed and active addresses are disjoint, and each nonzero address of a response ends up in one of the two |
| Dialling.DialledExactly | src/torrent/torrent.cpp:193-198 | in every run all states so far are in order exactly when every incoming connection so far came from an address no live peer had |
| Dialling.AcceptedExactly | src/torrent/torrent.cpp:193-198 | an incoming connection keeps the dialling invariant exactly when no live peer has its address, and black-listed and active addresses disjoint exactly when no connected active peer has it |
| Dialling.RemovalExactly | src/torrent/torrent.cpp:347-363 | in every reachable state removal by address takes out the failed peer and no other connected one exactly when no connected peer of that address stands before it in the list |
| Reassembly.AnyOrder | src/torrent/peer.cpp:268-284 | blocks stored once each in any order: the count is the number stored, full exactly at the last, and the joined slots are the piece |
| Reassembly.FullEntryExactly | src/torrent/peer.cpp:270-272 | of one entry: when the count reaches the number of slots, the joined slots are the piece exactly when no block was repeated |
| Reassembly.Collects | src/torrent/peer.cpp:250-272 | over a run, among any other messages of any peers, the first entry for a piece holds exactly the blocks delivered and counts repeated ones again |
| Reassembly.LastBlockDecides | src/torrent/peer.cpp:274-288 | over a run, when the count reaches the number of slots the joined data is the piece exactly when no block was repeated; then the piece is finished, otherwise all of it is a hash miss |
| Replies.RequestAnswered | src/torrent/peer.cpp:209-236 | a REQUEST inside a piece: exactly the content is sent if the peer is interested, unchoked and modest and the piece finished; nothing if it is not finished; disconnection otherwise |
| Replies.LateBlockCancelled | src/torrent/peer.cpp:261-267 | a block of a piece finished meanwhile: every block that was requested is cancelled, one entry leaves the queue, nothing else changes |
| Replies.ClosesExactly | src/torrent/peer.cpp:108-315 | a message costs a peer its connection exactly when its size is wrong for its number or it is one of the listed offences, and one with a number above 8 does nothing at all |
| Replies.HeapIrrelevantExactly | src/torrent/torrent.cpp:531-561 | the answer to a request does not depend on the heap exactly when nothing is asked for, the 32-bit end lies behind the piece, the range begins behind the end of the file, or the range lies in the file |
| Replies.OutOfRangeExactly | src/torrent/peer.cpp:209-261 | in every reachable state the frames left out of the runs are exactly those that make handleMessage read a finished flag outside the vector |
| Runs.RepeatedBlock | src/torrent/peer.cpp:131-137 | a run in which a peer answers every REQUEST at most once and yet a block is repeated, because UNCHOKE requests again what is stored, and the piece is thrown away |
| Runs.WrappedRangeAnswered | src/torrent/torrent.cpp:531-533 | a run from the start that ends with a REQUEST whose end wraps and its answer, far behind the piece |
| Runs.HeapByteSent | src/torrent/torrent.cpp:535-561 | two runs that differ only in what the heap held differ in the block sent |
| Runs.OutOfRangeReachable | src/torrent/peer.cpp:228-231 | a run of three events after which a REQUEST for the piece past the last gets as far as reading its flag |
| Runs.WrongPeerRemoved | src/torrent/torrent.cpp:347-363 | a run of four events at whose end a connected peer is no longer active, because another with its address failed |
| Wire.StreamRoundTrip | src/torrent/peer.cpp:88-106 | any messages, keep-alives between them, are read back as the same messages, and bytes after them as if alone |
| Bitfields.BitfieldRoundTrip | src/torrent/torrent.cpp:410-423 | the sent payload has ceil(n/8) bytes, zero spare bits, and reads back as exactly the bit set |
| Guarantees.PeerOkInRun | src/torrent/peer.cpp:108-315 | every peer of every reachable state keeps the peer invariant and has been told nothing that is not finished |
| Conservation.StepBooked | src/torrent/peer.cpp:268-297 | what one event does to the ledger: nothing, or exactly one piece verified and booked, or one counted as wasted |
| Views.StepTold | src/torrent/peer.cpp:76-81 | each event tells each peer exactly its news |
| Balance.StepRaises | src/torrent/torrent.cpp:389-407 | an event raises at most one priority, by one, and one that is least among the peer's unfinished pieces |
| Dialling.ResponseOk | src/torrent/torrent.cpp:293-328 | a tracker response keeps the dialling invariant and leaves each nonzero address in one of the two sets |
| Effects.DialsUpTo | src/torrent/torrent.cpp:293-328 | a response makes one new, dialled, blank peer for each distinct nonzero address that was neither black-listed nor active, black-lists exactly those, and does nothing else |
| Effects.OnFrameConnections | src/torrent/peer.cpp:108-323 | which frames close the sender and which of those take it out of the active list |
| Effects.FaultRemoves | src/torrent/peer.cpp:317-323 | a failure closes the peer and takes out the first active entry with its address, the others keep their order |
| Effects.GreetsExactly | src/torrent/torrent.cpp:330-345 | a handshake: talking, last in the active list, no longer black-listed, and the bitfield bit by bit for a peer that connected to us |
| Effects.FirstRemoved | src/torrent/torrent.cpp:347-363 | in every reachable state a failing peer that stands first among its address is gone and everyone else keeps their place |
| Reactions.FullExactly | src/torrent/peer.cpp:274-297 | the last block of an entry: checked, booked, announced to exactly the listening peers, taken out, and a piece selected |
| Reactions.AskedExactly | src/torrent/peer.cpp:209-236 | a REQUEST of any range: refused, passed over, or answered with as many bytes as asked for, those of the file as far as it goes |
| Reactions.QueueInOrder | src/torrent/peer.cpp:131-137 | the requests after UNCHOKE are those of the queue entries, each once, in order |
| Balance.SelectsBest | src/torrent/torrent.cpp:378-408 | the selection in terms of flags, piece list and priorities only |
| Unchanged.CloseAllExactly | src/torrent/torrent.cpp:365-376 | exactly the listed peers are closed |
| Reassembly.HonestAnswer | src/torrent/peer.cpp:431-440 | the block that fills slot k is what the k-th request asked for |
| Reassembly.OtherStepFirst | src/torrent/peer.cpp:237-299 | no event but a block of the piece from that peer changes the first entry for it |
| Reassembly.BlockFirst | src/torrent/peer.cpp:250-274 | a block let through is stored in the first entry for its piece, or completes it |
| Safety.StepOk | src/torrent/peer.cpp:88-315 | every event keeps the whole invariant |
| Safety.OnFrameOk | src/torrent/peer.cpp:108-315 | every frame, of any content, keeps the whole invariant |
| Safety.OnBlockOk | src/torrent/peer.cpp:237-299 | the PIECE_BLOCK case keeps it, in each of its outcomes |
| Safety.OnRequestOk | src/torrent/peer.cpp:209-236 | the REQUEST case keeps it |
| Safety.ServeOk | src/torrent/torrent.cpp:525-564 | serving a block keeps it, wrapped ranges and short reads included |
| Safety.ServedContent | src/torrent/torrent.cpp:551-561 | what is read of a finished piece has the requested length and is the content when the range lies inside |
| Safety.FaultOk | src/torrent/peer.cpp:317-323 | dropping a peer keeps it |
| Safety.HandshakenOk | src/torrent/torrent.cpp:330-345 | welcoming a peer keeps it |
| SwarmInvariant.SelectOk | src/torrent/torrent.cpp:378-408 | selection keeps it |
| SwarmInvariant.CompleteOk | src/torrent/torrent.cpp:487-523 | handling a complete piece keeps it |
| SwarmInvariant.CompletePeer | src/torrent/torrent.cpp:519-522 | a verified piece adds itself to what exactly the active, connected, unchoked peers know, and changes nothing else of any peer |
| SwarmInvariant.BroadcastAt | src/torrent/torrent.cpp:519-522 | each active peer gets the HAVE and the others nothing |
| SwarmInvariant.AssembleReordered | src/torrent/peer.cpp:286-295 | taking the full entry out before or after the piece is handled makes no difference |
| LedgerInvariant.CompletePieceBook | src/torrent/torrent.cpp:487-523 | whatever the data, the books stay right and bytes and assemblies are accounted for |
| LedgerInvariant.CompletePieceFile | src/torrent/torrent.cpp:497-517 | each finished piece is still in the file afterwards, the new one included, and the byte counter counts them |
| LedgerInvariant.OthersUndisturbed | src/torrent/torrent.cpp:500-507 | the write of a piece disturbs no other piece in the file |
| LedgerInvariant.CompleteFile | src/torrent/torrent.cpp:200-219 | all pieces finished: the first totalSize bytes are the content |
| LedgerInvariant.ExactRemainder | src/torrent/torrent.cpp:174-174 | the subtraction does not wrap and gives zero exactly when all is complete |
| LedgerInvariant.WriteAtRange | src/torrent/torrent.cpp:502-507 | a write puts its data at its position, leaves ranges beside it alone, and makes the file no longer than it must |
| LedgerInvariant.ChoiceExactly | src/torrent/torrent.cpp:380-401 | the choice is the lowest-indexed piece of least priority among the unfinished ones the peer has, requested less than 2^31 - 1 times, and there is none exactly when all those have been requested so often |
| PeerInvariant.HearOk | src/torrent/peer.cpp:112-207 | every message that concerns the peer alone keeps the peer invariant |
| PeerInvariant.UnchokeOk | src/torrent/peer.cpp:123-140 | after UNCHOKE every block of every piece in the queue has been requested |
| PeerInvariant.HasAfter | src/torrent/peer.cpp:168-202 | the piece list grows by exactly what the message announces |
| PeerInvariant.StartPieceOk | src/torrent/peer.cpp:349-366 | starting a piece keeps the invariant, counts as one start, appends one entry and tells nothing |
| PeerInvariant.SendHaveOk | src/torrent/peer.cpp:325-336 | a HAVE for a piece not told yet keeps the invariant and tells exactly that piece, unless we choke the peer |
| PeerInvariant.CancelOk | src/torrent/peer.cpp:261-267 | giving a piece up keeps the invariant |
| PeerInvariant.FilledOk | src/torrent/peer.cpp:270-274 | a stored block keeps sizes and slots right; the entry is full only at the last count |
| PeerInvariant.AnswerOk | src/torrent/peer.cpp:368-378 | answering the request just received keeps the invariant and counts exactly its bytes |
| PeerInvariant.WelcomeOk | src/torrent/peer.cpp:76-81 | an incoming peer is told exactly the bit set, an outgoing one nothing |
| Dialling.StepDialOk | src/torrent/torrent.cpp:293-376 | every event but an incoming connection keeps the dialling invariant |
| Protocol.ConformantAt | src/torrent/peer.cpp:325-441 | each message of a conformant log was allowed when it was sent |
| Protocol.Batch | src/torrent/peer.cpp:434-440 | a batch of requests or cancels, each allowed at the start, is allowed as a whole and leaves every other record alone |
| Protocol.CancelsMirrorRequests | src/torrent/peer.cpp:400-441 | requests and cancels of a piece are the same list, one for each block |
| Protocol.WireReadable | src/torrent/peer.cpp:88-106 | the bytes of a conformant log read back as exactly its messages |
| Protocol.AllowedIsSendable | src/torrent/peer.cpp:114-307 | whatever may be sent passes the receiver's size checks |
| Wire.DecodeEncoded | src/torrent/peer.cpp:325-423 | the field extraction undoes the field writing, for all nine kinds |
| Wire.FirstFrame | src/torrent/peer.cpp:93-105 | an encoded message is exactly the first frame, whatever follows |
| Wire.WrittenExactly | src/torrent/peer.cpp:325-423 | length, number 0 to 8 and fields of every message lie where BEP 3 has them |
| Wire.ReadExactly | src/torrent/peer.cpp:108-313 | a frame is refused exactly for a wrong size, ignored exactly for a number above 8, and its fields are read where BEP 3 has them |
| Transcoder.BE32RoundTrip | src/utils/transcoder.hpp:47-69 | reading back a written 32-bit value gives it |
| Transcoder.ReadsDigits | src/utils/transcoder.hpp:14-50 | the readers give the bytes their places as digits, highest first or lowest first |
| Transcoder.WritesDigits | src/utils/transcoder.hpp:63-69 | the writer gives the value its big-endian digits |
| Transcoder.BE16RoundTripExactly | src/utils/transcoder.hpp:57-61 | the 16-bit round trip holds for exactly the values below 256 |
| Bitfields.ReversedBlock | src/torrent/torrent.cpp:416-420 | after the three steps bit j from the top is bit j of the block |
| Bitfields.IndicesExactly | src/torrent/peer.cpp:188-201 | reading a bitfield takes exactly the set bits in range |
| Bitfields.IndexSet | src/torrent/peer.cpp:188-201 | the same as a set |
| Bitfields.SentBits | src/torrent/torrent.cpp:410-423 | piece k is the bit of weight 2^(7 - k % 8) of byte k / 8 of the payload sent |
| Bitfields.ReadBits | src/torrent/peer.cpp:188-201 | exactly the pieces in range are taken whose bit, counted so, is set |
| Layout.PieceFits | src/torrent/torrent.cpp:446-457 | pieces are not empty, lie inside the content, and only the last is short and ends it |
| Layout.PiecesDisjoint | src/torrent/torrent.cpp:446-457 | pieces do not overlap |
| Layout.PieceCovering | src/torrent/torrent.cpp:446-457 | every byte belongs to a piece |
| Layout.SizesSumToTotal | src/torrent/torrent.cpp:446-457 | the sizes of the first k pieces sum to the start of piece k, and of all to the total |
| Layout.SpansPartition | src/torrent/peer.cpp:431-440 | requested blocks are non-empty, at most 16384 bytes, contiguous from 0 to the end of the piece, and the k-th begin divides back to slot k |
| Layout.SlotsMatchBlocksExactly | src/torrent/peer.cpp:352-353 | slots and requested blocks agree in number exactly for pieces below 2^32 bytes |
| Layout.CutThenFlatten | src/torrent/peer.cpp:276-284 | cutting into blocks and joining them are inverse |
| Layout.HypothesesConsistent | src/torrent/torrent.cpp:140-157 | the hypotheses on the hash can be met with digests of twenty bytes, for every content, repeated pieces included |
| Buffers.IncomingMessage.ExtractNextU32 | src/net/incomingmessage.hpp:61-66 | the four bytes at the cursor, which moves past them and stays inside the buffer |
| Buffers.IncomingMessage.CpyBuffer | src/net/incomingmessage.hpp:35-43 | a copy of what follows the cursor, none when there is less than asked for |
| Buffers.OutgoingMessage.AddU32 | src/net/outgoingmessage.hpp:39-45 | the big-endian bytes are appended |
| Buffers.OutgoingMessage.AddCustom | src/net/outgoingmessage.hpp:23-26 | the bytes are appended |
| Engine.ReadFrames | src/torrent/peer.cpp:88-106 | the reading loop cuts a stream exactly into its frames and an incomplete rest |
| Engine.Extract | src/torrent/peer.cpp:108-307 | the size checks and cursor reads stay inside the buffer and give the decoded message |
| Engine.PieceBuffer.Store | src/torrent/peer.cpp:270-272 | one slot filled, the count one up |
| Engine.PieceBuffer.Join | src/torrent/peer.cpp:276-284 | the pushed bytes are the slots joined in order |
| Engine.Peer.Write | src/net/connection.cpp:105-119 | exactly the encoded message is written, or nothing on a closed connection |
| Engine.Peer.RequestPiece | src/torrent/peer.cpp:425-441 | unchoked: exactly the requests of the piece are sent; choked: the error branch |
| Engine.Peer.RequestBlocks | src/torrent/peer.cpp:431-440 | the loop sends exactly the requests of the piece, in order |
| Engine.Peer.SendCancelRequest | src/torrent/peer.cpp:400-411 | the loop sends exactly the cancels of the piece, in order |
| Engine.Peer.SendPieceRequest | src/torrent/peer.cpp:349-366 | INTERESTED, a fresh entry at the end of the queue, and the requests if unchoked |
| Engine.Peer.SendHave | src/torrent/peer.cpp:325-336 | a HAVE unless we choke the peer |
| Engine.Peer.SendBitfield | src/torrent/peer.cpp:338-347 | exactly the encoded bitfield is written |
| Engine.Peer.SendPieceBlock | src/torrent/peer.cpp:368-378 | exactly the encoded block is written |
| Engine.Peer.RequestQueued | src/torrent/peer.cpp:131-137 | the requests of every piece in the queue, in order |
| Engine.Peer.OnBitfield | src/torrent/peer.cpp:187-201 | the two loops append exactly the set bits in range, in order |
| Engine.Peer.HandleMessage | src/torrent/peer.cpp:108-315 | all nine cases and their errors, as a step of the whole engine |
| Engine.Peer.HandleRequest | src/torrent/peer.cpp:209-236 | the REQUEST case |
| Engine.Peer.HandlePieceBlock | src/torrent/peer.cpp:237-299 | the PIECE_BLOCK case |
| Engine.Torrent.constructor | src/torrent/torrent.cpp:13-27 | with the loop of parseFile: the initial state, over whatever the output file holds |
| Engine.Torrent.HandleEvents | src/torrent/torrent.cpp:200-208 | the loop stops after the first event that completes the download, or after the last |
| Engine.Torrent.HandlePieceCompleted | src/torrent/torrent.cpp:487-523 | verified, written, flagged, counted and announced, or counted as wasted |
| Engine.Torrent.SelectPieceAndRequest | src/torrent/torrent.cpp:378-408 | the early-exit scan finds the specified choice, raises its priority and starts it |
| Engine.Torrent.HandleBlockRequest | src/torrent/torrent.cpp:525-564 | the block is read, sent and counted, or the peer disconnected |
| Engine.Torrent.GetRawBitfield | src/torrent/torrent.cpp:410-423 | the loop reverses every byte of the bit set's blocks |
| Engine.Torrent.BuildTrackerQuery | src/torrent/torrent.cpp:159-176 | downloaded is the size of the finished pieces, downloaded plus remaining the total, uploaded always zero |
| Engine.Torrent.ConnectToPeers | src/torrent/torrent.cpp:293-328 | each record dialled unless zero, black-listed or active |
| Engine.Torrent.Handshaked | src/torrent/torrent.cpp:330-345 | the peer becomes active and leaves the black list |
| Engine.Torrent.RemovePeer | src/torrent/torrent.cpp:347-363 | the first active peer with the address leaves the list |
| Engine.Torrent.HandleError | src/torrent/peer.cpp:317-323 | removed first, then disconnected |
| Engine.Torrent.DisconnectPeers | src/torrent/torrent.cpp:365-376 | every active peer is closed |

## Left out

- Sockets, resolver, accept loop, stream buffers and callback lifetimes: Asio's behaviour. Delivery is an arbitrary sequence of whole frames for each peer.
- The 68-byte handshake and its comparison: a completed handshake is an event, a failed one a lost connection, and `Peer.wire` starts after it.
- The tracker's HTTP exchange, URL parsing and bencoding: whether the tracker answers, its responses and the parsed metainfo are inputs.
- SHA-1 itself: an uninterpreted function.
- Errors of the file system (`fopen`, `fseek`, `fwrite`, `chdir`): the file is a sequence of bytes that can always be read and written.
- Progress display, speed, ETA, logging, option parsing and `seed`'s endless loop: user interface. `customDownload` is never called.
- Heap management and mutexes: handlers are atomic steps, and the main thread only reads counters.
- Readers and writers of 8, 16 and 64 bits that the engine does not call, and `parseIp`: they would only add easy members.
- Counters of 64 bits: unbounded here. A priority is bounded by INT32_MAX, which is proved.
- Liveness: the code does not give it (a block of a finished piece drops the piece without selecting another, and HAVE never selects one).
- Engine.Torrent.Download: the 10 ms polling loop is modelled as handling events until all pieces are complete, and when the given events end before that it returns nothing rather than polling on; of the tracker queries it makes the first and the last, not the periodic ones between.
- Engine.Torrent.HandlePieceCompleted: the exceptions for a failed seek or write, which end the program, are not modelled.
- Engine.Torrent.HandleBlockRequest: reopening a closed file, and failing to, is not modelled; the file stays open in `download`.
- Engine.Torrent.ConnectToPeers: the port of each record only goes into the connection attempt and is dropped.
- Engine.Torrent.DisconnectPeers: stopping the acceptor is not modelled, so runs may accept connections after a shutdown that the code would not.
- Engine.Peer.Write: a write that fails later calls the error callback; that is the event of a lost connection, at any time.
- Engine.Peer.RequestPiece: its error branch is kept although no caller reaches it choked, as the preconditions of its callers show.
- Engine.Torrent.GetRawBitfield: the bytes are rewritten in a sequence, not in an array, because the vector it stands for is local.
- Reassembly.LastBlockDecides: says nothing of pieces of 2^32 bytes or more, whose slots and requests do not agree in number.
