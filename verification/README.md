# mini-p2p in Dafny

A model of the deterministic cores of mini-p2p, a small libp2p stack in Rust, with proofs of what its design promises. Every core takes bytes, time and results as explicit inputs, so a model is a state and functions on it, and a theorem speaks of all inputs, all runs or all interleavings.

Five cores are modelled.

- **Peer discovery book** (`PeerBook`, `PeerBookQueue`, `PeerBookRuns`, `PeerBookDials`, `PeerBookEntries`, `RateWindow`, `PeerDiscoveryAgent`). Two sources feed a bounded address book; changes wait in a queue that coalesces per peer; observations start dials under backoff and rate limits. The queue loses intermediate states on purpose, and still a client that replays the polled events ends up with exactly the book.
- **Circuit transport** (`Circuit`, `CircuitRuns`, `CircuitSteps`, `CircuitArbitration`, `CircuitTransport`). Relay bridges become connections, compete with direct connections, and report through one event feed over several cross-indexed maps.
- **Codec tower and DCUtR** (`Varint`, `Frame`, `Multiaddr`, `HolePunch`, `Utf8`, `Radix`, `Base58`, `Base32`, `PeerIdText`, `PublicKey`, `Dcutr`, `DcutrExchange`, `DcutrProgress`, `DcutrMachines`, `Beacon`, `BeaconAgent`). Byte formats are bijections onto well-formed values, and the two-party hole-punch exchange agrees and completes whatever way the bytes are cut.
- **mDNS** (`Dns`, `DnsMessages`, `DnsSegments`, `DnsCodec`, `MdnsAgent`, `MdnsDriver`). A bounded DNS codec, lossless segmentation of answers, and a driver with a send budget that parks what does not go.
- **FFI event carry and doorbell** (`Carry`, `EventQueue`, `EndpointQueue`, `Doorbell`). A bounded queue kept as a map and a deque refines a plain list, and an edge-triggered wakeup between two threads and a consumer.

Each core has specification functions on values and lemmas over runs of them. Where the source updates fields in place or loops, a class or method with the same fields and loops is proved equal to the specification function, so the run lemmas hold of it too. `Bytes` holds machine integers, `Option` and `Result`; `Sequences` holds lists without repeats.

Inputs that the model does not compute are parameters: time, randomness, what the network carries, what a session or a carrier answers, SHA-256 (any function with 32-byte results), and whether a signature was valid. Peers and addresses of the discovery book are their ranks in the order of the source's maps. Histories such as `log`, `delivered`, `handled`, `emitted` and `discarded` are written by the model and read by no operation.

Where the code and its own promise part, the code is modelled and the exact condition is proved:

- The driver's failure report can leave queued events without a wakeup: an iteration that has already put events into an empty carry and then fails rings nobody, because the report rings only into an empty carry (`Doorbell.FailureIsAnnouncedIff`, `Doorbell.LostWakeup`, `Doorbell.LostStaysLost`). A callback that panics at both attempts loses its wakeup the same way, exactly when the carry is not empty and the driver is not ringing, no token waits and the consumer is neither notified nor draining (`Doorbell.StepCovered`, `Doorbell.PanickedTwice`).
- The dial limiter forgets every attempt on the last value of the 64-bit clock (`RateWindow.LastTickOverfull`, `RateWindow.LastTickBreaksLimitIff`).
- Base58 decoding narrows each character to a byte, so texts outside ASCII can alias (`Base58.NonAsciiAliases`, `Base58.EncodeDecode`).
- A printed peer id of an unusual multihash code parses back only if it happens to look like a legacy id (`PeerIdText.DisplayRoundTripIff`, `PeerIdText.UnusualCodeFails`).
- Delivery order is the order of 64-bit arrival numbers, which wrap: a push is listed last exactly when no live number is at or above the next one (`Carry.OrderKeptIff`, `Carry.WrapReorders`).

## Model

| member | source | states |
|---|---|---|
| `PeerBookRuns.EveryRunReplays` | crates/discovery/src/book.rs:184-519 | over every run, each peer's pending transition is the difference between what was reported and what the book shows, the order lists the pending peers once each, and the polled events replay without an illegal step to exactly what was reported |
| `PeerBookRuns.EveryRunConverges` | crates/discovery/src/book.rs:441-561 | at any point of any run, polling until empty returns exactly the counted number of events, and a client that replayed everything from the start then holds exactly the merged addresses of the known peers |
| `PeerBookRuns.DrainReplaysToBook` | crates/discovery/src/book.rs:441-519 | draining terminates after exactly the pending event count, then yields nothing, and takes the client from what it was told to the book |
| `PeerBookRuns.DrainedMatches` | crates/discovery/src/book.rs:540-561 | with no transition pending, what the client was told equals the book's merged views |
| `PeerBookRuns.PollReplays` | crates/discovery/src/book.rs:455-519 | the polled event is legal for the client and is exactly the change of what it holds; without an event nothing changes |
| `PeerBookRuns.PollCounts` | crates/discovery/src/book.rs:441-519 | an event is returned if and only if one is counted, and exactly one is used up |
| `PeerBookRuns.PendingIsBounded` | crates/discovery/src/book.rs:736-770 | the queue holds at most the peers known or reported, plus one at the head that carries only a dial failure |
| `PeerBookRuns.RunConfig` | crates/discovery/src/book.rs:160-181 | no run changes the configuration or the local id |
| `PeerBookQueue.MarkStateInv` | crates/discovery/src/book.rs:698-725 | after one peer's entry changed in any way, marking that peer restores the queue invariant for all peers |
| `PeerBookQueue.AnnounceFits` | crates/discovery/src/book.rs:455-497 | a pending transition can always be announced, fits what the client holds, and leaves no difference behind |
| `PeerBookQueue.CleanupInv` | crates/discovery/src/book.rs:743-756 | emptying the head's slot keeps the invariant, including a peer that is gone and has only a dial failure left |
| `PeerBookQueue.ObserveBeaconInv` | crates/discovery/src/book.rs:184-219 | a beacon observation, with any eviction and dial it causes, keeps pending transitions equal to the differences |
| `PeerBookQueue.ObserveMdnsInv` | crates/discovery/src/book.rs:226-302 | an mDNS observation keeps pending transitions equal to the differences, also when the claims withdraw the peer |
| `PeerBookQueue.TickInv` | crates/discovery/src/book.rs:371-433 | expiry keeps pending transitions equal to the differences |
| `PeerBookQueue.DialFailedInv` | crates/discovery/src/book.rs:346-356 | a dial failure joins a peer's slot without disturbing its transition |
| `PeerBookDials.DialsAreDisciplined` | crates/discovery/src/book.rs:324-696 | over every run, between two dials of a peer there is a connect, success, failure, reset or removal; no dial precedes a backoff deadline unless the peer connected, was removed or announced other beacon addresses; every queued dial names a peer in the book; and each dial state is what that history says |
| `PeerBookDials.MdnsDialsAreLimited` | crates/discovery/src/book.rs:627-679 | on a clock that never runs backwards, every interval of the window's length holds at most the global limit of mDNS dials over the whole run |
| `PeerBookDials.PeerDialsAreLimited` | crates/discovery/src/book.rs:644-676 | over every run, since a peer's last removal no interval of the window's length holds more of its mDNS dials than the peer limit |
| `PeerBookDials.RemovalForgetsWindow` | crates/discovery/src/book.rs:226-302 | a claim, its withdrawal and the same claim again dial the peer twice at one instant whatever the peer limit, as far as the global limit reaches |
| `PeerBookDials.RemovalPurges` | crates/discovery/src/book.rs:681-696 | removing a peer leaves no queued dial to it, cancels exactly when a dial was queued or in flight, and otherwise leaves the actions alone |
| `PeerBookDials.BeaconChangeRedials` | crates/discovery/src/book.rs:200-219 | a beacon with other addresses overrides a backoff: the peer is dialed at once, deadline or not, wherever dialing is allowed |
| `PeerBookDials.MaybeDialSafe` | crates/discovery/src/book.rs:627-679 | a dial that policy permits keeps discipline, known targets and the rate limit |
| `PeerBookEntries.EveryRunBounded` | crates/discovery/src/book.rs:103-114 | over every run the book stays within its peer cap, never lists the local peer, and each entry has a source, at most the capped addresses per source and an exact duplicate-free address order |
| `PeerBookEntries.TickExpires` | crates/discovery/src/book.rs:371-433 | a tick leaves each visited peer with exactly its unexpired records, removes it exactly when none is left, and touches no other peer |
| `PeerBookEntries.TickLeavesFresh` | crates/discovery/src/book.rs:371-433 | after a tick over the whole book nothing in it is due |
| `PeerBookEntries.TickKeepsFresh` | crates/discovery/src/book.rs:371-433 | a beacon or record that is not due survives a tick unchanged |
| `PeerBookEntries.MakeRoomEvicts` | crates/discovery/src/book.rs:594-625 | a peer makes room only when the book is full, and only the one least worth keeping: disconnected before connected, without beacon before with, longest unseen first |
| `PeerBookEntries.MdnsSparesBeaconPeers` | crates/discovery/src/book.rs:594-625 | an unauthenticated claim never evicts a peer known by signed beacon |
| `PeerBookEntries.ViewBounded` | crates/discovery/src/book.rs:563-592 | merged addresses are distinct and within the cap |
| `PeerBookEntries.MergeDistinct` | crates/discovery/src/book.rs:563-592 | merging starts with the beacon addresses in order, adds exactly the missing mDNS ones, and repeats none |
| `PeerBookEntries.ViewDetermines` | crates/discovery/src/book.rs:563-592 | equal views mean the same sources address by address, so no change of provenance goes unreported |
| `PeerBookEntries.ClaimsSourced` | crates/discovery/src/book.rs:246-288 | any list of claims keeps the record map, its order and the cap consistent |
| `PeerBookEntries.ClaimExact` | crates/discovery/src/book.rs:246-288 | a claim of zero withdraws its address and nothing else, one below the cap or for a known address is recorded, the addresses that stay keep their order and a new one comes last |
| `PeerBookEntries.CapDropsSoonest` | crates/discovery/src/book.rs:268-287 | at the cap the old records and the claim compete and exactly one that expires first is dropped |
| `PeerBookEntries.NormalizeFacts` | crates/discovery/src/book.rs:773-787 | observed addresses come out distinct and within the cap |
| `PeerBook.Victim` | crates/discovery/src/book.rs:594-625 | there is an eviction candidate exactly when some peer is evictable, and it is the minimum of the eviction order |
| `PeerBook.VictimUnique` | crates/discovery/src/book.rs:603-616 | the eviction order leaves no choice |
| `PeerBook.Soonest` | crates/discovery/src/book.rs:270-276 | the record dropped at the address cap expires first, ties by address |
| `PeerBook.LastMdns` | crates/discovery/src/book.rs:88-101 | the latest observation time, attained by some record, zero without records |
| `RateWindow.WindowIsLimited` | crates/discovery/src/book.rs:43-62 | over every non-decreasing clock below its last value no interval of the window's length is overfull |
| `RateWindow.AllowsAsHistory` | crates/discovery/src/book.rs:44-50 | the pruned deque answers, now and later, as the whole history of attempts would |
| `RateWindow.ChargeRefines` | crates/discovery/src/book.rs:52-61 | charging prunes only attempts that can never count again |
| `RateWindow.LastTickOverfull` | crates/discovery/src/book.rs:44-50 | two attempts on the last clock value pass a limit of one |
| `RateWindow.LastTickBreaksLimitIff` | crates/discovery/src/book.rs:44-61 | on the last clock value the limiter always allows, and the limit is kept exactly when the true window was not yet full |
| `RateWindow.CountLive` | crates/discovery/src/book.rs:44-50 | the counting loop decides whether the live attempts are below the limit |
| `RateWindow.ChargeLoop` | crates/discovery/src/book.rs:52-61 | the pruning loop yields the deque whose relation to the history is proved |
| `PeerDiscoveryAgent.PeerDiscoveryAgent.ObserveBeaconAt` | crates/discovery/src/book.rs:184-219 | the agent's whole new state is the specified one, eviction, marking and dialing included |
| `PeerDiscoveryAgent.PeerDiscoveryAgent.ObserveMdnsAt` | crates/discovery/src/book.rs:226-302 | the agent's whole new state is the specified one for any list of claims |
| `PeerDiscoveryAgent.PeerDiscoveryAgent.HandleTick` | crates/discovery/src/book.rs:371-433 | the loop visits every peer once in map order and ends in the specified state |
| `PeerDiscoveryAgent.PeerDiscoveryAgent.NextEvent` | crates/discovery/src/book.rs:455-519 | the polling loop terminates with the specified event and state |
| `PeerDiscoveryAgent.PeerDiscoveryAgent.PendingCount` | crates/discovery/src/book.rs:441-449 | the sum over the slots is the number of transitions, failures and violations |
| `PeerDiscoveryAgent.PeerDiscoveryAgent.FindVictim` | crates/discovery/src/book.rs:598-619 | the search finds the unique eviction candidate or none |
| `PeerDiscoveryAgent.PeerDiscoveryAgent.TryDial` | crates/discovery/src/book.rs:627-679 | dials exactly when policy, connection state, backoff, both windows and a non-empty view allow it |
| `PeerDiscoveryAgent.PeerDiscoveryAgent.DropPeer` | crates/discovery/src/book.rs:681-696 | removal, purge, cancellation and marking give the specified state |
| `PeerDiscoveryAgent.PeerDiscoveryAgent.MarkPeerState` | crates/discovery/src/book.rs:698-725 | the slot and order updates give the specified queue |
| `PeerDiscoveryAgent.PeerDiscoveryAgent.OnDialFailed` | crates/discovery/src/book.rs:346-356 | only a dial in flight enters backoff and is reported |
| `PeerDiscoveryAgent.PeerDiscoveryAgent.OnConnected` | crates/discovery/src/book.rs:324-329 | a connection settles the peer's dial state |
| `PeerDiscoveryAgent.PeerDiscoveryAgent.ResetAllDials` | crates/discovery/src/book.rs:361-368 | queued work is dropped and every dial in flight becomes retryable |
| `PeerDiscoveryAgent.PeerDiscoveryAgent.Report` | crates/discovery/src/book.rs:305-321 | violations stay within their slots, later ones counted on the newest |
| `PeerDiscoveryAgent.ClaimsLoop` | crates/discovery/src/book.rs:246-288 | the claim loop applies withdrawals, refreshes and replacements as specified |
| `PeerDiscoveryAgent.MergeLoop` | crates/discovery/src/book.rs:569-574 | the merging loop yields the list characterised by `MergeDistinct` |
| `PeerDiscoveryAgent.NormalizeLoop` | crates/discovery/src/book.rs:773-787 | the loop stops at the cap with the first distinct usable addresses |
| `PeerDiscoveryAgent.LatestMdns` | crates/discovery/src/book.rs:94-99 | the maximum over the records |
| `CircuitSteps.DirectBeatsCircuits` | crates/circuit/src/lib.rs:497-537 | over every run the two direct maps are exact inverses without empty sets, and no negotiating circuit leads to a directly connected peer |
| `CircuitSteps.PumpStopsOnlyOnWrites` | crates/circuit/src/lib.rs:418-473 | a legal session's pump ends early only on a refused write, so the arbitration inside it never fires |
| `CircuitArbitration.AnnouncedOnlyWithoutDirect` | crates/circuit/src/lib.rs:418-525 | over every run, each circuit announced as connected was announced by a step before and after which its peer had no recorded direct connection |
| `CircuitArbitration.DoGrows` | crates/circuit/src/lib.rs:227-862 | every operation, whatever the session says, only appends to the feed and announces circuits only to peers without a direct connection |
| `CircuitSteps.BridgesAreExact` | crates/circuit/src/lib.rs:227-318 | over every run the bridge index is the exact inverse of the live circuits, each rides an active inner connection, and retired bridges stay within 1024 |
| `CircuitSteps.EventsFollowProtocol` | crates/circuit/src/lib.rs:475-659 | with inner ids outside the circuit namespace, each circuit id's public events are the announcement exactly for responders, at most one Connected, stream events only while connected, at most one Error, exactly one Closed once it is gone, and nothing after |
| `CircuitSteps.AdoptInv` | crates/circuit/src/lib.rs:227-318 | adoption keeps every invariant and never meets an index entry without its circuit |
| `CircuitSteps.SessionInv` | crates/circuit/src/lib.rs:375-387 | a call on a session leaves its circuit open in the protocol, and a complete pump leaves it exactly where the session is |
| `CircuitSteps.HandleInnerInv` | crates/circuit/src/lib.rs:555-659 | any event of the wrapped transport keeps the invariants |
| `CircuitSteps.RecordDirectInv` | crates/circuit/src/lib.rs:497-525 | a recorded direct connection ends every negotiating circuit to that peer and keeps the maps inverse |
| `CircuitSteps.InnerClosedInv` | crates/circuit/src/lib.rs:637-656 | a closed inner connection takes its riding circuits with it |
| `CircuitSteps.CollisionInv` | crates/circuit/src/lib.rs:539-553 | an inner event in the circuit namespace is refused without touching a circuit or an index |
| `CircuitSteps.OperateInv` | crates/circuit/src/lib.rs:667-711 | stream operations keep the invariants whether they succeed, are refused or kill the session |
| `CircuitSteps.SilentOnlyAfterGoodbye` | crates/circuit/src/lib.rs:321-346 | a circuit that data ends goes without an Error event exactly when it was established and the peer said goodbye |
| `CircuitSteps.CloseInv` | crates/circuit/src/lib.rs:805-838 | a local close emits exactly the one Closed and keeps the invariants |
| `CircuitRuns.FailInv` | crates/circuit/src/lib.rs:475-495 | tearing down a circuit restores all invariants, even halfway through establishing |
| `CircuitRuns.FailTrace` | crates/circuit/src/lib.rs:475-495 | the optional Error and the Closed end the circuit's events |
| `CircuitRuns.NoteDirectOk` | crates/circuit/src/lib.rs:497-511 | re-recording a connection under another peer keeps the maps inverse |
| `CircuitRuns.RemoveDirectOk` | crates/circuit/src/lib.rs:527-537 | forgetting a connection keeps the maps inverse and leaves no empty set |
| `CircuitRuns.RetireOk` | crates/circuit/src/lib.rs:389-399 | the tombstone set and its order stay a duplicate-free listing within 1024 |
| `CircuitRuns.PumpTrace` | crates/circuit/src/lib.rs:418-473 | the events of a legal session continue the circuit's protocol |
| `CircuitTransport.CircuitTransport.AdoptBridge` | crates/circuit/src/lib.rs:227-318 | every outcome of adoption, the five refusals and the idempotent repeat included, with the specified state |
| `CircuitTransport.CircuitTransport.OpenCircuit` | crates/circuit/src/lib.rs:276-296 | the id is consumed, the indexes updated and only a responder announced |
| `CircuitTransport.CircuitTransport.PumpOutputs` | crates/circuit/src/lib.rs:418-473 | the drain loop queues exactly the specified events and reports whether it got to the end |
| `CircuitTransport.CircuitTransport.InjectBridgeData` | crates/circuit/src/lib.rs:321-346 | data, session failure and the choice of reporting an error give the specified state |
| `CircuitTransport.CircuitTransport.InjectBridgeClosed` | crates/circuit/src/lib.rs:366-373 | the tombstone is released and a live circuit ends |
| `CircuitTransport.CircuitTransport.Fail` | crates/circuit/src/lib.rs:475-495 | unhooking, retiring and the final events give the specified state |
| `CircuitTransport.CircuitTransport.RecordDirectConn` | crates/circuit/src/lib.rs:497-525 | exactly the negotiating circuits to the peer are torn down, in map order |
| `CircuitTransport.CircuitTransport.RemoveDirectConn` | crates/circuit/src/lib.rs:527-537 | both maps forget the connection |
| `CircuitTransport.CircuitTransport.RetireKey` | crates/circuit/src/lib.rs:389-399 | retiring is idempotent and forgets the oldest over the cap |
| `CircuitTransport.CircuitTransport.OnInnerClosed` | crates/circuit/src/lib.rs:637-656 | exactly the riding circuits are torn down, in map order |
| `CircuitTransport.CircuitTransport.OnInnerEvent` | crates/circuit/src/lib.rs:555-659 | each inner event reaches the specified state, retired bridges' stream events swallowed |
| `CircuitTransport.CircuitTransport.OperateSession` | crates/circuit/src/lib.rs:667-711 | succeeds exactly when the circuit is known, the call was fine and every write was taken; a known circuit is gone exactly after a dead session or a refused write |
| `CircuitTransport.CircuitTransport.Close` | crates/circuit/src/lib.rs:805-838 | closes exactly known circuits, with one Closed |
| `CircuitTransport.CircuitTransport.PollCircuit` | crates/circuit/src/lib.rs:847-862 | only established circuits are timed |
| `CircuitTransport.CircuitTransport.DrainPending` | crates/circuit/src/lib.rs:713-715 | queued events are handed over once |
| `Varint.ReadEncode` | crates/identity/src/peer_id.rs:228-291 | every 64-bit value reads back from its encoding whatever follows |
| `Varint.ReadCanonical` | crates/identity/src/peer_id.rs:253-291 | nothing but the minimal encoding of a 64-bit value is accepted |
| `Varint.ReadExtends` | crates/identity/src/peer_id.rs:259-291 | a verdict other than too short is final |
| `Varint.ReadShort` | crates/identity/src/peer_id.rs:259-291 | too short is only said of fewer than ten bytes |
| `Varint.ReadUvarintWithRemainder` | crates/identity/src/peer_id.rs:259-291 | the shift loop accepts exactly those encodings, stays within 64 bits and returns the rest |
| `Varint.WriteUvarint` | crates/identity/src/peer_id.rs:238-249 | the loop appends the minimal encoding |
| `Varint.UvarintLen` | crates/identity/src/peer_id.rs:228-235 | the predicted length is the encoded length |
| `Frame.DecodeEncode` | crates/core/src/frame.rs:37-74 | a frame reads back with its exact length whatever follows |
| `Frame.DecodeExact` | crates/core/src/frame.rs:37-66 | a complete frame is the encoding of its payload |
| `Frame.DecodeExtends` | crates/core/src/frame.rs:37-66 | more bytes never change a verdict other than incomplete |
| `Frame.IncompleteIsShort` | crates/core/src/frame.rs:37-66 | an incomplete buffer is shorter than the largest frame |
| `HolePunch.DecodeEncode` | crates/dcutr/src/message.rs:86-193 | a message decodes to itself |
| `HolePunch.DecodeLoop` | crates/dcutr/src/message.rs:110-193 | the field loop computes the specified decoding, every error included |
| `HolePunch.EncodeLoop` | crates/dcutr/src/message.rs:88-107 | the appending loop writes the encoding that decodes back |
| `Multiaddr.FromToBytes` | crates/core/src/multiaddr.rs:157-184 | decoding undoes encoding for every well-formed address |
| `Multiaddr.ToFromBytes` | crates/core/src/multiaddr.rs:175-184 | every accepted byte string is the one encoding of its well-formed result |
| `Multiaddr.FromBytesLoop` | crates/core/src/multiaddr.rs:175-184 | the component loop accepts exactly the encodings of well-formed addresses |
| `Multiaddr.ReadBinaryEncoded` | crates/core/src/protocol.rs:85-200 | each component reads back whatever follows |
| `Multiaddr.ReadBinaryExact` | crates/core/src/protocol.rs:108-200 | each accepted component is the one encoding of a well-formed component |
| `Multiaddr.PeerRoundTrip` | crates/identity/src/peer_id.rs:67-89 | peer-id bytes read back |
| `Multiaddr.PeerExact` | crates/identity/src/peer_id.rs:67-78 | accepted peer-id bytes are the one encoding of a valid id |
| `Utf8.ValidSplit` | crates/mdns/src/dns.rs:393-396 | valid text cut at an ASCII byte gives valid text on both sides |
| `Radix.ConvertInverse` | crates/identity/src/peer_id.rs:315-405 | converting a number between two bases and back restores its digits |
| `Radix.Unique` | crates/identity/src/peer_id.rs:315-405 | a number has one digit vector without leading zero |
| `Radix.MulAddInPlace` | crates/identity/src/peer_id.rs:329-338 | the in-place carry loop computes multiply-and-add |
| `Radix.InRange` | crates/identity/src/peer_id.rs:329-334 | the 32-bit accumulator never overflows and the carry stays below the multiplier |
| `Radix.LeadingDigits` | crates/identity/src/peer_id.rs:315-366 | a number between two multiples of a power starts with the digits of the multiplier |
| `Base58.DecodeEncode` | crates/identity/src/peer_id.rs:315-405 | decoding the text of any non-empty bytes gives them back |
| `Base58.EncodeDecodeAlphabet` | crates/identity/src/peer_id.rs:315-415 | every non-empty text over the alphabet is accepted and is the text of its bytes |
| `Base58.EncodeDecode` | crates/identity/src/peer_id.rs:368-415 | an accepted text is the text of its bytes exactly when it stays inside the alphabet |
| `Base58.NonAsciiAliases` | crates/identity/src/peer_id.rs:410-415 | a concrete non-ASCII character is accepted as the digit zero |
| `Base58.EncodeBase58` | crates/identity/src/peer_id.rs:315-366 | the digit-vector loops write that text |
| `Base58.DecodeBase58` | crates/identity/src/peer_id.rs:368-405 | the digit-vector loops read it back, or name the first bad character |
| `Base32.DecodeEncode` | crates/identity/src/peer_id.rs:420-484 | base32 text of any bytes decodes to them |
| `Base32.DecodeAccepts` | crates/identity/src/peer_id.rs:458-493 | a text is accepted exactly when every character is a base32 digit of either case |
| `Base32.EncodeDecode` | crates/identity/src/peer_id.rs:420-493 | an accepted text is the text of its bytes exactly when it is lower case, has no character too many and no bit set beyond its last byte |
| `Base32.SpareBitAliases` | crates/identity/src/peer_id.rs:458-484 | two different texts that decode to the same byte |
| `Base32.RegroupLoop` | crates/identity/src/peer_id.rs:420-484 | the narrow unmasked bit buffer loses no bit that still matters |
| `Base32.GroupsRoundTrip` | crates/identity/src/peer_id.rs:420-484 | regrouping to five bits and back restores the bytes |
| `Base32.EncodeBase32` | crates/identity/src/peer_id.rs:420-455 | the bit-buffer loop writes that text |
| `Base32.DecodeBase32` | crates/identity/src/peer_id.rs:458-484 | the bit-buffer loop reads it back |
| `PeerIdText.DisplayRoundTrip` | crates/identity/src/peer_id.rs:173-189 | every identity or SHA-256 peer id prints to a text that parses back to it |
| `PeerIdText.DisplayRoundTripIff` | crates/identity/src/peer_id.rs:173-189 | any valid peer id parses back from its text exactly when the text looks like a legacy id |
| `PeerIdText.UnusualCodeFails` | crates/identity/src/peer_id.rs:123-189 | the valid peer id of multihash code one with an empty digest prints a text that is refused |
| `PeerIdText.Sha256StartsWithQm` | crates/identity/src/peer_id.rs:182-188 | every SHA-256 peer id prints starting with Qm |
| `PeerIdText.IdentityStartsWithOne` | crates/identity/src/peer_id.rs:182-188 | every identity peer id prints starting with 1 |
| `PeerIdText.CidRoundTrip` | crates/identity/src/peer_id.rs:104-170 | the CID text of any peer id parses back to it |
| `PublicKey.DecodeEncode` | crates/identity/src/key.rs:67-139 | the key protobuf decodes to the key |
| `PublicKey.EncodeDecode` | crates/identity/src/key.rs:79-139 | only the deterministic encoding is accepted |
| `Dcutr.ChunkIndependence` | crates/dcutr/src/lib.rs:457-566 | the responder's events, reply bytes, final state and first error depend only on the bytes received, not on how they are cut |
| `Dcutr.BackstopUnreached` | crates/dcutr/src/lib.rs:644-659 | a stalled receive buffer never reaches the size backstop |
| `Dcutr.NeverMessageTooLarge` | crates/dcutr/src/lib.rs:495-566 | no wire input makes the responder report an oversized message |
| `Dcutr.OversizedConnectFails` | crates/dcutr/src/lib.rs:431-450 | an initiator stays silent over every sequence of inputs and polls exactly when its own CONNECT does not fit; a responder in that case does too, and the first input reports the size |
| `DcutrExchange.ExchangeIsSafe` | crates/dcutr/src/lib.rs:166-327 | over every interleaving and chunking neither side errs, each learns exactly the other's addresses, and SYNC is seen only after CONNECT and after the initiator dialled |
| `DcutrExchange.QuiescentIsComplete` | crates/dcutr/src/lib.rs:166-327 | when nothing is left to poll, deliver or feed, both sides are done and have heard each other |
| `DcutrProgress.ExchangeCompletes` | crates/dcutr/src/lib.rs:166-327 | in every run a bounded number of steps change anything, twice the bytes of the three frames and four, and when no step would both sides are done and have heard each other |
| `DcutrProgress.StepAdvances` | crates/dcutr/src/lib.rs:166-566 | every poll, delivery, feed or close either changes nothing or makes progress |
| `DcutrProgress.QuiescentIff` | crates/dcutr/src/lib.rs:166-566 | nothing left to poll, deliver or feed means exactly that no step would change anything |
| `DcutrExchange.PrefixIncomplete` | crates/core/src/frame.rs:37-66 | nothing but the whole frame completes it |
| `DcutrMachines.DcutrResponder.HandleInput` | crates/dcutr/src/lib.rs:613-623 | the responder's fields and error become the specified ones |
| `DcutrMachines.DcutrResponder.TryDecodeLoop` | crates/dcutr/src/lib.rs:495-566 | the buffer-draining loop ends in the specified state |
| `DcutrMachines.DcutrResponder.PollOutput` | crates/dcutr/src/lib.rs:625-631 | bytes first, then events in order |
| `DcutrMachines.DcutrInitiator.HandleInput` | crates/dcutr/src/lib.rs:574-585 | the initiator's fields and error become the specified ones |
| `DcutrMachines.DcutrInitiator.DecodeReply` | crates/dcutr/src/lib.rs:274-329 | the reply decoder ends in the specified state |
| `DcutrMachines.DcutrInitiator.PollOutput` | crates/dcutr/src/lib.rs:587-599 | bytes first, then the outcome once |
| `Beacon.DecodeEncode` | crates/discovery/src/message.rs:49-99 | a beacon within the wire's caps decodes to itself |
| `Beacon.EncodedLenExact` | crates/discovery/src/message.rs:37-46 | the predicted length is the encoded length |
| `Beacon.DecodeLoop` | crates/discovery/src/message.rs:61-99 | the field loop computes the specified decoding, caps and unknown fields included |
| `BeaconAgent.PublishedIsAccepted` | crates/discovery/src/beacon.rs:62-93 | every published beacon is accepted by any other agent without a violation, and the observation lists exactly the announced addresses in order up to the receiver's cap |
| `BeaconAgent.BuildIsMaximal` | crates/discovery/src/beacon.rs:122-146 | what is announced is the longest front of the distinct supported addresses that the cap and the beacon size allow |
| `BeaconAgent.BuildAnnounceable` | crates/discovery/src/beacon.rs:122-146 | announced addresses are supported, distinct, short, within the cap, and the beacon fits |
| `BeaconAgent.NormalizeWire` | crates/discovery/src/beacon.rs:156-186 | the receiver recovers the announced addresses without their suffix, in order |
| `BeaconAgent.BuildLoop` | crates/discovery/src/beacon.rs:122-146 | the publishing loop, with its last address taken back when too large, announces that list |
| `BeaconAgent.NormalizeLoop` | crates/discovery/src/beacon.rs:168-186 | the receiving loop yields the specified list |
| `Dns.DecodeNameBounds` | crates/mdns/src/dns.rs:364-418 | decoding a name terminates with the cursor strictly advanced and in bounds, after any chain of pointers, and an expanded name of at most 255 octets |
| `Dns.DecodeEncodedName` | crates/mdns/src/dns.rs:364-484 | a written name reads back wherever it lies |
| `Dns.JoinLen` | crates/mdns/src/dns.rs:364-418 | the text of a decoded name is two octets shorter than its wire form |
| `DnsMessages.DecodeEncodeIff` | crates/mdns/src/dns.rs:105-140 | an encodable message within 9000 bytes decodes to itself exactly when every record's type number matches its data |
| `DnsMessages.MistypedRecord` | crates/mdns/src/dns.rs:420-466 | a TXT record that carries a name encodes and does not decode to itself |
| `DnsMessages.DecodeEncode` | crates/mdns/src/dns.rs:420-466 | every well-typed message within the cap survives the round trip |
| `DnsMessages.DecodedTyped` | crates/mdns/src/dns.rs:303-362 | the decoder returns only well-typed records |
| `DnsSegments.SegmentsAreLossless` | crates/mdns/src/dns.rs:228-301 | decoding the packets yields in order exactly the values that fit a packet alone; each packet is within the limit and carries the PTR record |
| `DnsSegments.GroupIsLossless` | crates/mdns/src/dns.rs:259-291 | greedy grouping keeps exactly the fitting values, in order, in groups that fit |
| `DnsSegments.PacketsMatchGroups` | crates/mdns/src/dns.rs:296-300 | the final size filter drops nothing, whatever the flush bit |
| `DnsSegments.PacketSize` | crates/mdns/src/dns.rs:420-466 | a packet's size is its head plus each value's record, independent of the flush bit |
| `DnsSegments.CacheEndsComplete` | crates/mdns/src/dns.rs:292-300 | a cache honouring the flush bit of section 10.2 of RFC 6762 ends holding every sendable value, and nothing else when flushed |
| `DnsSegments.FlushingFragmentsForgets` | crates/mdns/src/dns.rs:292-295 | with the flush bit on every fragment a cache would keep all values exactly when the last fragment repeats all the others |
| `DnsSegments.BareSegment` | crates/mdns/src/dns.rs:254-259 | without values the PTR record alone is sent when it fits |
| `DnsSegments.BuiltDecodes` | crates/mdns/src/dns.rs:200-301 | every message the crate builds, query or response, is well typed and, once encoded, decodes to itself exactly when it is within the decoder's cap |
| `DnsSegments.QueryDecodes` | crates/mdns/src/dns.rs:200-214 | the constant query always encodes, to 33 bytes, and decodes to itself |
| `DnsCodec.DecodeNameLoop` | crates/mdns/src/dns.rs:364-418 | the pointer-chasing loop terminates by jumps left and bytes left, and computes the specified name and cursor |
| `DnsCodec.DecodeRecordsLoop` | crates/mdns/src/dns.rs:303-362 | the record loop computes the specified section, skipped types included |
| `DnsCodec.DecodeStringsLoop` | crates/mdns/src/dns.rs:329-347 | the character-string loop computes the specified list or error |
| `DnsCodec.WriteName` | crates/mdns/src/dns.rs:468-484 | appends the name, or refuses a bad label or length |
| `DnsCodec.WriteRecord` | crates/mdns/src/dns.rs:444-466 | appends the record with its length patched in afterwards |
| `DnsCodec.GroupLoop` | crates/mdns/src/dns.rs:259-291 | the grouping loop yields the lossless groups |
| `DnsCodec.EncodeSegments` | crates/mdns/src/dns.rs:228-301 | the packets are the specified ones |
| `MdnsAgent.TickBounded` | crates/mdns/src/agent.rs:198-248 | a tick only appends to the action queue and keeps an open agent within 128 answers and 256 actions |
| `MdnsAgent.EmitConserves` | crates/mdns/src/agent.rs:203-224 | emission moves datagrams from scheduled answers to the queue and loses none |
| `MdnsAgent.EmitBounded` | crates/mdns/src/agent.rs:203-224 | a tick emits at most 128 answers and never overfills the queue |
| `MdnsAgent.FastPhaseDoubles` | crates/mdns/src/agent.rs:226-247 | ticked at any times, a fresh agent that hears nobody waits after its n-th query a second doubled n - 1 times, or the interval once that is shorter |
| `MdnsAgent.HeardPaceIsSteady` | crates/mdns/src/agent.rs:440-444 | once a live peer was heard the fast phase is over and queries are an interval apart, counted from the hearing |
| `MdnsAgent.MinDue` | crates/mdns/src/agent.rs:280-293 | the earliest scheduled answer |
| `MdnsAgent.EmitLoop` | crates/mdns/src/agent.rs:203-224 | the nested emission loops end in the specified queues |
| `MdnsDriver.EveryRunInOrder` | crates/mdns/src/driver.rs:140-210 | over every run, everything the agent ever emitted was handled, is parked, is queued or was discarded with its snapshot, the first three in the order of emission, an open agent's queues are within their caps and its queries keep their pace |
| `MdnsDriver.EveryRunWakes` | crates/mdns/src/driver.rs:140-238 | after any run, a turn that leaves anything parked, queued or overdue makes the next turn due at once |
| `MdnsDriver.SteadyTurnExtends` | crates/mdns/src/driver.rs:140-210 | while no snapshot changes nothing is discarded and the histories only grow, a turn handles at most its budget and one dropped retry, and a parked datagram that is still refused holds back everything behind it |
| `MdnsDriver.LeftoverWakes` | crates/mdns/src/driver.rs:140-238 | after a turn anything parked, queued or overdue makes the next turn due at once |
| `MdnsDriver.FreeCarrierDrains` | crates/mdns/src/driver.rs:339-365 | a carrier that neither fills nor breaks takes everything the budget allows |
| `MdnsDriver.SendBatchInv` | crates/mdns/src/driver.rs:339-365 | a batch keeps order, stays in its limit, and reports nothing left only when nothing is |
| `MdnsDriver.MdnsDriver.Turn` | crates/mdns/src/driver.rs:140-210 | one turn gives the specified state and success |
| `MdnsDriver.MdnsDriver.SendUpTo` | crates/mdns/src/driver.rs:339-365 | the send loop parks what does not go and ends in the specified state |
| `MdnsDriver.MdnsDriver.Retry` | crates/mdns/src/driver.rs:172-188 | the parked datagram is tried first and only a sent one uses the budget |
| `MdnsDriver.MdnsDriver.Stop` | crates/mdns/src/driver.rs:368-378 | a failure discards pending work and stops for good |
| `Carry.Carry.Push` | crates/ffi-core/src/driver.rs:64-83 | with no live number at or above the next one, the list gets the event last and, over the cap, loses its oldest payload event or else its oldest; with an unused number, wrapped or not, deque and count stay exact |
| `Carry.OrderKeptIff` | crates/ffi-core/src/driver.rs:64-71 | a push lists every event last if and only if no live number is at or above the next arrival number |
| `Carry.PushInOrder` | crates/ffi-core/src/driver.rs:64-83 | under that condition map and deque do what the list does, the retired attempts included |
| `Carry.PushIndexed` | crates/ffi-core/src/driver.rs:64-83 | an unused number keeps the deque the exact listing of payload events by arrival, across a wrap, and the carry within 4096 |
| `Carry.EmptiedIsInOrder` | crates/ffi-core/src/driver.rs:85-95 | once emptied the carry is in order again whatever its next number |
| `Carry.Carry.Take` | crates/ffi-core/src/driver.rs:85-95 | removes and returns exactly the oldest events up to the limit |
| `Carry.Carry.SuppressCancelled` | crates/ffi-core/src/driver.rs:97-103 | removes exactly the events of cancelled attempts and counts them |
| `Carry.DropIsVictim` | crates/ffi-core/src/driver.rs:74-78 | in a carry in order the front payload number, or else the smallest key, is the list's victim |
| `Carry.WrapReorders` | crates/ffi-core/src/driver.rs:64-71 | from an empty carry at the last number, the first event is in order and the second is listed before it |
| `EventQueue.QueueIsBoundedOrderedAndAccounted` | crates/ffi-core/src/driver.rs:270-305 | over every run the carry stays within 4096, delivery and queue are in arrival order, and every arrival is counted once as dispatched, dropped or queued, with each drop reported once |
| `EventQueue.CancelSilences` | crates/ffi-core/src/endpoint.rs:685-698 | after a live attempt is cancelled none of its events is delivered, neither those queued nor those of the next pump |
| `EventQueue.EmptyDrainMeansEmpty` | crates/ffi-core/src/endpoint.rs:383-416 | a drain returns nothing exactly when nothing deliverable is queued and no drop is unreported, and then the carry is empty |
| `EventQueue.DiagnosticIsCumulative` | crates/ffi-core/src/driver.rs:288-305 | a diagnostic tells every drop since the last one and the running total of all told so far |
| `EventQueue.PushAllFacts` | crates/ffi-core/src/driver.rs:270-286 | ingesting keeps arrival order and drops exactly what does not fit |
| `EndpointQueue.EndpointQueue.Ingest` | crates/ffi-core/src/driver.rs:270-286 | while the arrival numbers last the loop gives the specified queue; with unused numbers, wrapped or not, every event is queued or counted as dropped |
| `EndpointQueue.AllInOrder` | crates/ffi-core/src/driver.rs:270-286 | a batch that fits before the wrap is pushed as on the list, drops and retirements included |
| `EndpointQueue.EndpointQueue.Pump` | crates/ffi-core/src/driver.rs:216-262 | while the arrival numbers last one iteration's events, filters and retirements give the specified state |
| `EndpointQueue.EndpointQueue.DrainEvents` | crates/ffi-core/src/endpoint.rs:383-416 | on any queue the returned events and the state are the specified ones, the diagnostic taking one slot |
| `EndpointQueue.EndpointQueue.TakeDelivery` | crates/ffi-core/src/driver.rs:288-305 | a pending diagnostic takes the first slot and is used up, the oldest events the rest |
| `EndpointQueue.EndpointQueue.CancelConnect` | crates/ffi-core/src/endpoint.rs:685-698 | a known attempt is forgotten and its events suppressed and counted; an unknown one changes nothing |
| `Doorbell.NoLostWakeup` | crates/ffi-core/src/driver.rs:185-268 | over every interleaving without a careless step, queued events always have a ring owed, a token, a callback, a notification or a draining consumer, and no ring meets a closed channel |
| `Doorbell.StepCovered` | crates/ffi-core/src/endpoint.rs:765-789 | a step keeps the wakeup guarantee exactly when it is neither a failure just after events reached an empty carry nor a second callback panic over a non-empty carry with no ring, token, notification or drain under way |
| `Doorbell.PanickedTwice` | crates/ffi-core/src/endpoint.rs:765-789 | one event, one ring and two panics on a fresh endpoint leave the event queued and no wakeup |
| `Doorbell.FailureIsAnnouncedIff` | crates/ffi-core/src/driver.rs:138-181 | a failing iteration and its report leave a wakeup if and only if one was already on its way or the iteration had collected nothing |
| `Doorbell.LostWakeup` | crates/ffi-core/src/driver.rs:166-181 | one collected event and a failure on a fresh endpoint leave two queued events and no wakeup |
| `Doorbell.LostStaysLost` | crates/ffi-core/src/driver.rs:185-268 | without a cancellation no later step repairs a lost wakeup and no drain follows |
| `Doorbell.WakeupDelivers` | crates/ffi-core/src/endpoint.rs:765-789 | left to itself a wakeup finishes within a bounded number of steps, and at rest the carry is empty |
| `Doorbell.HelpfulProgress` | crates/ffi-core/src/endpoint.rs:765-789 | every step of the wakeup shrinks the outstanding work |

## Left out

- Noise, Yamux, TLS, Ed25519, SHA-256, HKDF and the multihash crate: cryptography and external code; sessions, digests and signatures are parameters.
- Sockets and network stacks (`crates/mdns/src/socket.rs`, `crates/mdns/src/smoltcp_io.rs`): the carrier is a parameter of each turn.
- `Endpoint`, swarm and NAT agent internals: only the events they hand over appear.
- `crates/autonat`: its buffer limit is checked before decoding, so it depends on chunking, and its codec repeats the shape of `HolePunch`.
- `crates/identify`, candidate selection, event conversions and the FFI shells: one-branch mappings that would only add easy members.
- Text forms of multiaddrs and IPv6, error texts and log messages: standard-library or cosmetic.
- Trailing data under re-chunking in DCUtR: bytes of later chunks are dropped by design, so the property does not hold there.
- The bound of twice the peer cap in a debug assertion of the discovery book: it is not kept by every run; `PeerBookRuns.PendingIsBounded` states what is.
- `next_timeout` of the discovery book, timers of the beacon agent and of circuits, and the high-water and iteration counters of the FFI driver: easy members.
- mDNS answer contents, response parsing and goodbye delivery on shutdown: answers are opaque datagrams, a response counts as a live peer or as nothing, and a shutdown is only modelled as the end of a failed driver.
- EventQueue.CancelSilences: speaks of the next pump only, because the set of cancelled attempts is cleared after it and later suppression is left to the endpoint.
- EndpointQueue.EndpointQueue.Ingest: the list order is stated for batches that do not cross the wrap of the arrival number; `Carry.OrderKeptIff` gives the exact condition of one push.
- PeerBookDials.PeerDialsAreLimited: counts from the peer's last removal, because the window lives in the peer's entry; `PeerBookDials.RemovalForgetsWindow` shows what a removal does.
- PeerBookDials.MdnsDialsAreLimited: assumes a clock that neither runs backwards nor reaches its last 64-bit value; `RateWindow.LastTickBreaksLimitIff` gives the exact behaviour there.
- CircuitSteps.EventsFollowProtocol: assumes that the wrapped transport stays outside the circuit id namespace; a colliding event adds an Error for that id.
- CircuitTransport.CircuitTransport.WithCircuit: the session itself is not stored, only whether it is established; its outputs and fate arrive as arguments.
