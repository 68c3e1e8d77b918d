# Verified model of the Peat chat system

Peat chat carries text, voice and map positions over three kinds of links: WebSocket servers,
Bluetooth links between phones, and TAK (ATAK) networks. This project models the parts of it that
hold state or speak a binary format, and proves what they promise over every input and every run.

Two layers run through all of it. The specification layer consists of functions and of state
machines whose steps are functions; its lemmas are the results. The second layer follows the
program's own imperative form: classes whose methods update fields, and loops with invariants. Each
method's contract equates the new state with the step function applied to the old state, so that
every result about the functions is a result about the methods.

- **TAK codec** (`TakVarint`, `TakRecords`, `WireFormat`, `PositionLoop`, `TakEnvelope`, `TakProto`, `LastRecordWins`,
  `DecodeOutcomes`, `TakDecoder`): the hand-written encoder and
  the index-driven decoders for TAK protobuf packets, in the terms of the Protocol Buffers Encoding
  specification, sections "Base 128 Varints" and "Message Structure". A `float64` is its 64 bits.
- **Mesh gossip** (`MeshNode`, `MeshGossip`, `MeshComeback`, `MeshHistory`, `MeshService`, `PeerDirectory`,
  `PeerNames`, `OrphanPeers`, `BridgeToHub`): phones that flood
  messages over Bluetooth and an upstream relay, with one shared seen-set. The network is a
  transition system in which a packet that was written may be lost, delivered late, or delivered
  many times, in any topology.
- **Hub and rooms** (`HubRoom`, `HubState`, `HubRuns`, `HubMembership`, `HubRequests`, `HubSpeaking`, `HubStrays`,
  `RoomVoice`, `HubService`, `RoomHistory`, `RoomEntries`, `PeerList`): the server. Each request is one atomic step, although the Go methods
  give up locks in between; iteration over a map takes its keys in any order.
- **Bluetooth link layer** (`BleChunks`, `BleReassembly`, `BleWriteQueue`, `BleService`, `BleDelivery`,
  `BleBatch`): fragmentation, the two-priority write queue, and audio batches.
- **Streams** (`TcpFraming`, `Resampler`, `VoiceRelay`): TCP framing of events, and the resampler
  and frame pump between Web Audio and Bluetooth, over exact rationals.
- **Client store** (`MessageMerge`, `MergeOutcome`): the merge of histories and single messages.

`dafny verify dfyconfig.toml` checks everything.

## Where the code does less than one would expect

For each of these the project has a lemma with an input that shows it, or the exact condition.

- `DecodeTakProto` does not return on every input. A declared length of 2^63 or more is a panic where
  the data is sliced, but in the envelope a field that is only passed over leads the scan backwards,
  and then it may loop for ever, or end with nil after all. `DecodeOutcomes.DecodeExactly` gives the
  exact condition for each outcome; `DecodeOutcomes.NeverReturns`, `DecodeOutcomes.OverflowsToNil` and
  `DecodeOutcomes.LengthOverflowPanics` are inputs.
- A message of more than 64 chunks is sent but never received (`BleChunks.TooManyChunksLost`), and a
  duplicate chunk that comes after completion opens a buffer that lingers (`BleChunks.LateDuplicateLingers`).
  Buffers are kept by chunk id alone. With two senders under one id, or an old chunk before a new
  message, the first chunk fixes the number of slots and later ones overwrite each other, so that
  what is delivered may be cut short, mixed, lengthened, or nothing. `BleReassembly.IntactExactly` says
  for any packets when it is the message; `BleReassembly.OldChunkFirst` and
  `BleReassembly.OldChunkIntactExactly` say it for one old chunk before the message.
- The queue bound 20 is exceeded by one, since the trim comes before the add (`BleWriteQueue.AudioBoundMet`).
- Audio frames of 65536 bytes and more do not survive batching (`BleBatch.BatchRoundTrip`).
- The number and the positions of resampled samples do not depend on the buffers, but their values
  do, at positions between the last sample of one buffer and the first of the next
  (`Resampler.ChunkingShows`, `Resampler.OddRatioShows`). Only rates that are multiples of 8000 spare
  every split (`Resampler.AnySplitExactly`).
- Eviction from a full history does not clean `PinnedMessages` (`RoomHistory.PinsAgreeExactly` says when
  the two agree, `RoomHistory.PinnedEvicted` is a run in which they do not).
- Two messages with equal timestamps stay in arrival order, which differs between clients
  (`MessageMerge.ArrivalOrderExactly`).
- A Bluetooth source that announces a second node leaves the first registered, and a node shared by
  two sources is lost with the first (`PeerDirectory.SecondHelloOrphans`, `PeerDirectory.SharedNodeLost`);
  `OrphanPeers.OrphanExactly` and `OrphanPeers.UnheldExactly` say over runs when such an entry or such a
  source exists. The server keeps only one peer of a relay: `BridgeToHub.ServerKnowsAtMostOne` says when
  it knows the bridge's directory, and `BridgeToHub.LastOneLeaves` is a run in which it knows none of it.
  A source without an id is registered upstream but not in the directory
  (`PeerDirectory.LedgerAgreesExactly`).
- Positions of Bluetooth peers outlive their relay (`HubRuns.PositionsOutliveRelay`). A peer id taken
  over from another relay can stay in a voice channel when its new relay registers another id or
  unregisters it: `HubStrays.StepRegisteredExactly` says when, `HubStrays.StrayReached` is a run from
  the empty hub.
- A message that a room has evicted can be pushed again: from Bluetooth if within the epoch of the
  seen-set neither its id nor its text has come in or gone out by Bluetooth, from upstream if its id
  has not come in from there (`MeshComeback.ComesBackExactly`);
  `MeshComeback.ComesBack` is a run of two phones in which it happens within one epoch.

## Model

| member | source | states |
|---|---|---|
| TakVarint.VarintRoundTrip | server/tak_proto.go:377-402 | decoding an encoded varint, whatever follows it, gives the value back and the exact byte count, at most 10, for every 64-bit value |
| TakVarint.OrGroup | server/tak_proto.go:388-402 | the shift-and-or of one byte adds that byte's group to the number read so far, modulo 2^64 |
| TakVarint.LeRoundTrip | server/tak_proto.go:368-375 | the eight little-endian bytes of a double read back as its bits |
| TakVarint.LeLayout | server/tak_proto.go:368-375 | byte k written for a double is digit k of its bits to the base 256 |
| TakVarint.DecodeVarint | server/tak_proto.go:388-402 | the loop returns the value and length of the varint at the front, or zero length when none ends within ten bytes |
| TakRecords.RunIsFold | server/tak_proto.go:62-290 | every decoder loop is the fold of its per-record update over the longest well-formed prefix, unless a length overflows |
| TakRecords.RunConcat | server/tak_proto.go:62-134 | after whole records the decoder goes on from the state they left |
| TakRecords.MalformedTail | server/tak_proto.go:66-134 | bytes that do not start a record leave the result of the records before them |
| TakRecords.InsertIgnored | server/tak_proto.go:120-134 | a well-formed record the decoder does not use may stand at any record boundary |
| TakRecords.OverflowExactly | server/tak_proto.go:93-100 | a message level meets an overflowing length exactly when, after some whole records, a declared length ends past 2^63 |
| WireFormat.ReadsExactly | server/tak_proto.go:65-134 | a decoder reads a record of n bytes at a position exactly if by the format these bytes are a tag and a payload of wire type 0, 1, 2 or 5 for it (for type 2 ending before 2^63) |
| WireFormat.GivesUpExactly | server/tak_proto.go:66-134 | it gives up exactly where no tag ends, the payload is cut off, or the wire type is none of these |
| WireFormat.OverflowsOnly | server/tak_proto.go:93-100 | it meets an overflow exactly where a declared length ends at 2^63 or later, with that field, header and length |
| WireFormat.UnusedAnywhere | server/tak_proto.go:62-134 | any record by the format that the event does not use, at any record boundary of an encoded event: the message decodes to the same event |
| WireFormat.SendTimeIgnored | server/tak_proto.go:75-83 | so does a sendTime of any value at any record boundary |
| WireFormat.OtherRecords | server/tak_proto.go:75-134 | a varint after a tag of type 0, and four bytes after a tag of type 5, are such records, for every field |
| TakProto.CodecRoundTrip | server/tak_proto.go:50-60 | decoding an encoded event gives back all eleven fields, empty strings included, through all nested messages |
| TakProto.EncodeInjective | server/tak_proto.go:294-354 | two different events never have the same encoding |
| LastRecordWins.DecodedFields | server/tak_proto.go:62-290 | each of the eleven decoded fields comes from the last record that sets it, in the event or in any nested message, with the droid attribute filling in an empty callsign |
| LastRecordWins.EventLastWins | server/tak_proto.go:85-118 | the eight fields of the event itself come from their last records |
| LastRecordWins.NestedLastWins | server/tak_proto.go:136-290 | callsign, team and role come from the last Contact and Group records of all Details together |
| TakProto.UnusedRecordIgnored | server/tak_proto.go:76-134 | a record with an unused field number or wire type anywhere in the event changes nothing |
| TakProto.DetailKeeps | server/tak_proto.go:136-191 | a Detail message writes callsign, team and role only |
| TakProto.ContactKeeps | server/tak_proto.go:193-239 | a Contact message writes the callsign only |
| TakProto.GroupKeeps | server/tak_proto.go:241-290 | a Group message writes team and role only |
| TakProto.FindDroid | server/tak_proto.go:45-46 | the droid callsign is the captured group of the leftmost match of the expression, and absent exactly if nothing matches |
| TakDecoder.ReadRecord | server/tak_proto.go:65-134 | the switch on the wire type, with its bounds tests in wrapping int arithmetic: what it returns is the next record, and by the bytes it is a record of the format, a place where none is, or an overflowing length |
| TakDecoder.DecodeContact | server/tak_proto.go:193-239 | the loop writes into the event what the fold over the Contact records says, and panics exactly when it does |
| TakDecoder.DecodeGroup | server/tak_proto.go:241-290 | the same for Group |
| TakDecoder.DecodeDetail | server/tak_proto.go:136-191 | the same for Detail with its nested messages |
| TakDecoder.DecodeCotEvent | server/tak_proto.go:62-134 | the same for the whole event, in a new object |
| TakEnvelope.ExtractExactly | server/tak_proto.go:406-452 | the envelope scan goes on for ever exactly when its records lead in a circle, panics exactly when they lead to an overflowing length of the field itself or one that wraps below zero, and otherwise returns what they lead to |
| PositionLoop.EndlessExactly | server/tak_proto.go:408-450 | a loop over positions never ends exactly when it has not ended after one turn more than there are positions to go on from |
| PositionLoop.OutcomeExactly | server/tak_proto.go:408-450 | it is endless exactly when its path comes back to where it has been, and ends with a result exactly when the path leads to where a turn ends it so |
| TakEnvelope.ForwardReturns | server/tak_proto.go:408-450 | where it meets no overflowing length it only moves forward and returns |
| TakDecoder.ExtractMessage | server/tak_proto.go:406-452 | the loop with its signed, wrapping position does what the scan does, for every input |
| TakDecoder.WrapExactly | server/tak_proto.go:93-100 | the int sum of a position and a converted length is the one signed 64-bit number that differs from the exact sum by a multiple of 2^64 |
| DecodeOutcomes.DecodeExactly | server/tak_proto.go:50-60 | for every buffer, exactly when the decoder returns nil, returns an event, panics, or never ends, in terms of the records in the bytes |
| DecodeOutcomes.EventBreaksExactly | server/tak_proto.go:62-290 | an event makes the decoders panic exactly when a length overflows in it, in a Detail, or in a Contact or Group of a Detail |
| DecodeOutcomes.NoOverflowReturns | server/tak_proto.go:50-60 | without overflowing lengths the decoder returns |
| DecodeOutcomes.NeverReturns | server/tak_proto.go:433-442 | fourteen bytes, whatever follows, on which it loops for ever |
| DecodeOutcomes.OverflowsToNil | server/tak_proto.go:433-442 | fourteen bytes on which it steps back and returns nil |
| TakDecoder.DecodeTakProto | server/tak_proto.go:50-60 | nil, an event, a panic or no end, as the specification decides for every input |
| TakDecoder.EncodeTakProto | server/tak_proto.go:294-354 | writes the encoding of the specification |
| TakDecoder.RoundTrip | server/tak_proto.go:294-354 | the encoder followed by the decoder, as programs, returns an equal event and does not panic |
| DecodeOutcomes.LengthOverflowPanics | server/tak_proto.go:433-441 | a CotEvent with a declared length of 2^63 or more is a panic |
| MeshGossip.GossipBounded | crates/peatlink-mobile/src/bridge.rs:285-343 | in any topology, under loss, duplication and reordering, while no room has evicted a message each room holds at most one copy, each node writes it to Bluetooth from a room broadcast at most once, and all those writes together are at most the number of nodes; what a new connection is sent of the room's history is not counted |
| MeshGossip.PotentialFalls | crates/peatlink-mobile/src/bridge.rs:831-883 | the explicit measure of a message's flood never grows and falls with every push and every write |
| MeshGossip.WeightFalls | crates/peatlink-mobile/src/ws_server.rs:194-216 | the same at one node |
| MeshGossip.RunKeeps | crates/peatlink-mobile/src/bridge.rs:285-343 | in every run every node keeps its room, epoch and upstream invariants |
| MeshGossip.EpochBounded | crates/peatlink-mobile/src/upstream_relay.rs:485-509 | within one epoch, evictions or not: at most two injections from outside, one pass-through, and at most one message to upstream under an id, none after it was accepted from there |
| MeshComeback.ComesBackExactly | crates/peatlink-mobile/src/bridge.rs:285-343 | a message a node has had already is pushed again exactly by an event that opens a way in: Bluetooth or upstream, with none of that way's keys set, and the room not holding it |
| MeshComeback.OnlyAfterEviction | crates/peatlink-mobile/src/ws_server.rs:194-216 | and only if the room has evicted it |
| MeshComeback.ComesBack | crates/peatlink-mobile/src/upstream_relay.rs:309-370 | there is a run of two phones without a clean-up in which a message received from Bluetooth is evicted and comes back from upstream |
| MeshHistory.KeysExactly | crates/peatlink-mobile/src/bridge.rs:285-322 | over every run, each kind of key is in a phone's seen-set exactly if since the last clean-up an event has set it: the bridge took a broadcast of the id; a text, or an id, came from Bluetooth that was not known there; an id came from upstream, or was offered to it |
| MeshHistory.LogExactly | crates/peatlink-mobile/src/bridge.rs:285-343 | over every run, the room holds the last 1000 of the messages let in, bodies and order included, and the outbox those the bridge has not handled; what each event lets in is told by the events before it |
| MeshHistory.ForwardedExactly | crates/peatlink-mobile/src/bridge.rs:840-882 | over every run, the bridge puts the next message in the air exactly if no packet with its text was taken from Bluetooth since the last clean-up |
| MeshHistory.AirExactly | crates/peatlink-mobile/src/bridge.rs:840-882 | over every run, exactly the packets so forwarded and those synced to a new connection are ever in the air |
| MeshHistory.EchoIgnored | crates/peatlink-mobile/src/bridge.rs:288-300 | a packet whose id the bridge has taken since the last clean-up changes nothing when it comes from Bluetooth |
| MeshHistory.PassesExactly | crates/peatlink-mobile/src/upstream_relay.rs:494-530 | a complete message passes to upstream exactly if since the last clean-up it has neither come from there nor been offered to it |
| MeshNode.PushKeepsRoom | crates/peatlink-mobile/src/ws_server.rs:203-216 | pushing into the 1000-message window keeps the count of every message not evicted |
| MeshNode.InjectKeeps | crates/peatlink-mobile/src/ws_server.rs:194-216 | an injected message cannot become a second copy, and other ids are not counted |
| MeshNode.BleReceiveKeeps | crates/peatlink-mobile/src/bridge.rs:285-343 | both dedup stages keep the node invariant for any packet |
| MeshNode.ForwardKeeps | crates/peatlink-mobile/src/bridge.rs:831-883 | forwarding keeps it, and counts as one write exactly when a packet is written |
| MeshNode.UpstreamMessageKeeps | crates/peatlink-mobile/src/upstream_relay.rs:309-370 | a message from upstream keeps it |
| MeshNode.UpstreamHistoryKeeps | crates/peatlink-mobile/src/upstream_relay.rs:381-420 | a history of any length keeps it |
| MeshNode.FilterKeeps | crates/peatlink-mobile/src/upstream_relay.rs:485-509 | the upstream filter keeps it |
| MeshNode.CleanupKeeps | crates/peatlink-mobile/src/upstream_relay.rs:273-278 | clearing the seen-set begins an epoch in which it holds again |
| MeshNode.LocalSendKeeps | crates/peatlink-mobile/src/ws_server.rs:526-571 | a message of a local user, under a fresh id, keeps it |
| MeshService.PhoneHub.SendMessage | crates/peatlink-mobile/src/ws_server.rs:526-571 | an empty text changes nothing; any other is pushed and broadcast |
| MeshService.PhoneHub.InjectExternalMessage | crates/peatlink-mobile/src/ws_server.rs:194-216 | the scan of the room refuses exactly the ids it holds |
| MeshService.PhoneHub.ReceiveFromBle | crates/peatlink-mobile/src/bridge.rs:285-343 | the receiving step, the node invariant, and whether the message was passed to upstream |
| MeshService.PhoneHub.ForwardToBle | crates/peatlink-mobile/src/bridge.rs:831-883 | the forwarding step and what is written; it is written exactly if its text is not among the texts heard |
| MeshService.PhoneHub.HandleUpstreamMessage | crates/peatlink-mobile/src/upstream_relay.rs:309-370 | the step for a message from upstream |
| MeshService.PhoneHub.HandleUpstreamHistory | crates/peatlink-mobile/src/upstream_relay.rs:381-420 | the loop over a history is the step for each entry in turn |
| MeshService.PhoneHub.FilterMessageForUpstream | crates/peatlink-mobile/src/upstream_relay.rs:485-509 | a message passes only if nothing under its id passed or was accepted in this epoch |
| PeerDirectory.LedgerAgrees | crates/peatlink-mobile/src/bridge.rs:356-451 | over every run the ids registered upstream and not unregistered are, up to the empty id, exactly the keys of the directory, with the same names |
| PeerDirectory.LedgerAgreesExactly | crates/peatlink-mobile/src/bridge.rs:356-451 | the two are the same exactly on the runs in which no source without an id connects |
| PeerDirectory.ResolvesKnown | crates/peatlink-mobile/src/bridge.rs:183-205 | a resolved sender is a known id with the name known for it |
| PeerDirectory.PromotedResolves | crates/peatlink-mobile/src/bridge.rs:143-159 | right after a hello the source resolves to the announced node |
| PeerDirectory.DisconnectRemovesExactly | crates/peatlink-mobile/src/bridge.rs:161-181 | a disconnect removes the source's own entry and the node last bound to it, nothing else |
| PeerDirectory.SecondHelloOrphans | crates/peatlink-mobile/src/bridge.rs:143-181 | after two different hellos the first node survives the disconnect |
| PeerDirectory.SharedNodeLost | crates/peatlink-mobile/src/bridge.rs:161-205 | when one of two sources of a node leaves, the node is gone and the other source resolves at most to a different, only peer |
| PeerDirectory.RemovedInOrder | crates/peatlink-mobile/src/bridge.rs:161-181 | the ids a disconnect returns are those it removed, each once, the node before the source |
| PeerNames.NamesExactly | crates/peatlink-mobile/src/bridge.rs:355-716 | over every run, a peer is known under a name exactly if connecting, a hello (its callsign, or node- and the first eight characters of the id if it has none) or a change of name gave it, and no event since gave another or took the peer out |
| PeerNames.ResolvesExactly | crates/peatlink-mobile/src/bridge.rs:183-205 | a source speaks for its own entry, else for the node it is bound to, else for the only peer |
| PeerNames.TickExactly | crates/peatlink-mobile/src/bridge.rs:437-451 | the periodic registrations are exactly those of the peers walked whose id has no colon, with their names |
| OrphanPeers.OrphanExactly | crates/peatlink-mobile/src/bridge.rs:355-595 | over every run: an id is in the directory with no connected source behind it exactly if a hello left it behind (its only connected source announced another node, or nobody connected is behind the announced one) and no event has ended that since |
| OrphanPeers.OrphanAfter | crates/peatlink-mobile/src/bridge.rs:355-595 | the same for one event; a disconnect never leaves an id behind |
| OrphanPeers.UnheldExactly | crates/peatlink-mobile/src/bridge.rs:143-181 | over every run: a source is bound to a node that is not in the directory exactly if another source took the node out and nothing has restored it since |
| OrphanPeers.UnheldAfter | crates/peatlink-mobile/src/bridge.rs:143-181 | the same for one event |
| BridgeToHub.ServerKnowsAtMostOne | server/hub.go:434-530 | a bridge's commands carried out on the hub, among any events of other clients: the server knows at most one of the peers in the directory, and none that is not in it; the two agree exactly if the directory is empty, or holds just the peer that the bridge registered last and nobody has registered since |
| BridgeToHub.KnownExactly | server/hub.go:434-530 | over every run: a client's peer is known exactly if the client registered it and has since neither registered another, unregistered it nor disconnected, and nobody has registered the same id |
| BridgeToHub.LastOneLeaves | server/hub.go:434-530 | two sources connect and the second leaves: the directory holds the first, the server knows none |
| BridgeToHub.OwnedStands | server/hub.go:434-530 | over every run of the hub, what a client owns is among the ids it registered and did not unregister |
| BridgeToHub.KnownUntilTaken | server/hub.go:434-463 | the one peer known stays known under every event of others except a registration of the same id |
| PeerDirectory.BlePeerDirectory.DoPromoteSource | crates/peatlink-mobile/src/bridge.rs:143-159 | the provisional entry is replaced and returned if there was one |
| PeerDirectory.BlePeerDirectory.DoDisconnectSource | crates/peatlink-mobile/src/bridge.rs:161-181 | the ids removed are returned once each, in order |
| PeerDirectory.BlePeerDirectory.DoResolveSender | crates/peatlink-mobile/src/bridge.rs:183-205 | own entry first, then the bound node, then the only peer |
| HubState.RunKeeps | server/hub.go:42-110 | over every run: clients and their index agree, rooms of clients and members of rooms mirror each other, voice members are room members, speakers are members, Bluetooth members are keyed by their own id, every registered peer's relay is a live client with at most one peer, contacts carry their own key, conversations hold only their two participants and are unique per pair |
| HubState.StepKeeps | server/hub.go:42-110 | each single request keeps all of that |
| HubState.JoinKeeps | server/hub.go:175-239 | joining a room, existing or new, by anyone the room admits or not |
| HubState.CreateRoomKeeps | server/client.go:161-172 | creating a room whose name may already be taken, by a conversation even |
| HubState.StartDMKeeps | server/hub.go:938-978 | starting a conversation with anyone, oneself included |
| HubState.JoinDMKeeps | server/hub.go:1052-1078 | rejoining one |
| HubState.RegisterKeeps | server/hub.go:434-470 | registering a peer, whatever its id belonged to before |
| HubState.UnregisterKeeps | server/hub.go:495-530 | unregistering one |
| HubState.VoiceStepKeeps | server/hub.go:585-688 | joining, leaving and speaking in a voice channel; who speaks afterwards is HubRequests.WhatElse |
| HubState.PeerVoiceStepKeeps | server/hub.go:623-713 | the same by a relay for its peer |
| HubState.ConnectKeeps | server/hub.go:48-52 | a new connection |
| HubState.DisconnectKeeps | server/hub.go:54-94 | a lost connection |
| HubState.PairIsUnordered | server/hub.go:957-963 | two requests name the same conversation exactly when they name the same two people, whoever asks |
| HubState.LessExactly | server/hub.go:957-963 | ids are compared as Go strings: a proper prefix first, else by the first difference |
| HubMembership.WhoIsWhere | server/hub.go:175-815 | after every request, exactly who is to be in each room, in each voice channel, and which peers sit in each channel; nobody but those named moves |
| HubRequests.WhatElse | server/hub.go:567-817 | for every request, exactly who is speaking (clients and Bluetooth peers), which rooms and channels there are, which rooms are public, and which positions are shown afterwards |
| HubRequests.SeatAfter | server/room.go:366-400 | for every request, exactly which Bluetooth peers are seated, and behind which relay |
| HubRequests.DmAfter | server/hub.go:938-978 | only starting a conversation makes a room one, for its two people in the order of their ids |
| HubRequests.ConnectedAfter | server/hub.go:42-110 | exactly connecting and disconnecting change who is connected |
| HubSpeaking.SpeakingExactly | server/room.go:481-495 | over every run, a client speaks in a channel exactly if as a member of it it has said so, and has since neither said otherwise, left the channel nor been disconnected |
| HubSpeaking.PeerSpeakingExactly | server/room.go:405-421 | over every run, a Bluetooth peer is shown speaking exactly if a relay in the room has said so of it while it was seated, or of an id whose mark it has taken on by promotion, and nothing took the mark away |
| HubMembership.Joined | server/hub.go:175-192 | a join adds the client to that room only, unless it is a conversation of others |
| HubMembership.Started | server/hub.go:938-978 | a conversation takes in its two participants and nobody else, anywhere |
| HubMembership.TornDown | server/hub.go:54-94 | a disconnect removes the client and its peers from every place and nobody else from any |
| HubMembership.Forgotten | server/hub.go:495-530 | unregistering takes the peer out of the channels of its relay's rooms only |
| HubRuns.Teardown | server/hub.go:54-94 | after a disconnect the client is in no room, channel, speaking set or index, no peer entry points to it, and no id it owned is in any channel; all other clients keep rooms, channels and peers |
| HubRuns.PositionsOutliveRelay | server/room.go:654-684 | but a contact of its peer is still shown exactly if there was one, and positions of clients stay |
| HubRuns.PromotionConserves | server/room.go:584-624 | in every room of the relay the provisional ids are gone from membership, speaking and positions, the new id is exactly where it or they were, contacts carry their key, and the rest and all other rooms are untouched |
| HubRuns.RegisterOwns | server/hub.go:434-454 | afterwards the relay owns the new id and no other, and other relays' entries are unchanged |
| HubRuns.OneConversation | server/hub.go:938-978 | in every reachable state two people share at most one conversation and only they are in it |
| HubRuns.NeverListed | server/hub.go:138-156 | once a conversation, always that conversation, and never in the room list, whatever requests follow |
| HubRuns.StepLasts | server/hub.go:112-123 | no request deletes a room or turns a conversation into anything else |
| HubRuns.RegisteredExactly | server/hub.go:434-470 | a registration leaves an unknown peer in a channel exactly when another id of the relay sits in a room the relay is not in |
| HubStrays.UnregisteredExactly | server/hub.go:495-530 | unregistering leaves a peer in a channel, unknown, exactly when it sits in a room its relay is not in |
| HubStrays.StepRegisteredExactly | server/hub.go:434-530 | request by request, all peers in channels stay known exactly when no id that leaves the hub sits in a room its relay is not in |
| HubStrays.StrayReached | server/hub.go:434-530 | six requests on an empty hub lead to a state in which either further request leaves such a peer |
| HubRuns.TakenOverPeerLingers | server/hub.go:434-470 | in general: an id taken over by a relay that is not in its room is left there when that relay registers another |
| HubRuns.OnlyKnownPeers | server/hub.go:415-530 | in every run without such a take-over, each Bluetooth member of a channel is registered to a relay that is in that room |
| HubRoom.PromotionMoves | server/room.go:584-624 | promotion of any number of ids, in any order, moves keys without losing or doubling any |
| HubRoom.PromoteEachKeeps | server/room.go:584-624 | and keeps the room's invariant and its other fields |
| HubRoom.RemovalKeeps | server/hub.go:532-563 | leaving the channels and then the room keeps voice members within room members |
| RoomVoice.ServerRoom.LeaveAllVoiceChannels | server/room.go:423-443 | the loop, in any order, takes the client out of every channel and returns exactly those it was in |
| RoomVoice.ServerRoom.LeaveAllBleVoiceChannels | server/room.go:446-479 | the nested loops, in any order, drop every listed id and return exactly the channels concerned |
| RoomVoice.ServerRoom.PromoteBlePeer | server/room.go:584-624 | the loop over the channels, in any order, and the move of the position are the promotion step |
| HubService.ServerHub.Unregister | server/hub.go:54-94 | the loops over peers, rooms and the client's rooms, in any order, are the disconnecting step |
| HubService.ServerHub.RemoveFromAllRooms | server/hub.go:532-563 | the client leaves the channels and the membership of each of its rooms, and the rooms leave its set |
| HubService.ServerHub.GetOrCreateRoom | server/hub.go:112-123 | the room under the name, new exactly if there was none |
| HubService.ServerHub.JoinRoomNamed | server/hub.go:175-192 | the joining step, refused exactly to strangers of a conversation |
| HubService.ServerHub.CreateRoomNamed | server/client.go:161-172 | the creating step |
| HubService.ServerHub.FindExistingDM | server/hub.go:1032-1050 | the scan, in any order, finds a conversation of the two exactly if there is one |
| HubService.ServerHub.FindOrCreateDM | server/hub.go:945-966 | that conversation, or a new one of exactly these two |
| HubService.ServerHub.StartDMWith | server/hub.go:938-978 | the step that starts a conversation |
| HubService.ServerHub.ResolveBlePeer | server/hub.go:415-424 | a relay gets only the peer registered to itself |
| HubService.ServerHub.JoinVoiceFromRelay | server/hub.go:623-639 | the step of a relay's peer joining a channel |
| HubService.ServerHub.TakeStalePeers | server/hub.go:441-447 | the scan, in any order, takes exactly the relay's other entries off the map |
| HubService.ServerHub.RegisterBlePeer | server/hub.go:434-470 | the registering step, for the order in which the map yielded the stale ids |
| HubService.ServerHub.UnregisterBlePeer | server/hub.go:495-530 | the unregistering step |
| PeerList.DeduplicatePeers | server/hub.go:324-342 | one entry per peer, and it is the first of those with its best transport; every peer is there |
| PeerList.ChosenIsUnique | server/hub.go:324-342 | there is only one such entry, so the list is determined up to order |
| PeerList.PriorityExactly | server/hub.go:304-320 | the preferred transport is best, then tcp, wifi-direct and btle, and any other last |
| PeerList.ShownExactly | server/hub.go:322-342 | an entry is shown exactly if no entry of its peer has a better transport and none before it is as good |
| RoomHistory.WindowOfLog | server/room.go:85-97 | the history is always the last min(1000, n) of the n accepted messages, in order, with id, sender and timestamp |
| RoomHistory.RunKeepsInv | server/room.go:85-235 | over every run: unique ids, deleted entries empty and unpinned, reaction lists non-empty without duplicates, pinned flags recorded |
| RoomHistory.OneEntryTouched | server/room.go:109-235 | an edit, deletion, reaction or pin changes at most the entry it names and nothing of its identity or place |
| RoomHistory.AddKeepsEntries | server/room.go:85-97 | an add changes no entry, and at most lets the oldest go |
| RoomHistory.DeletedForGood | server/room.go:130-148 | a deleted entry stays deleted, empty and unpinned for as long as it is in the window |
| RoomEntries.TextExactly | server/room.go:85-147 | over every run, an entry of the window has the key it was last added with; its text is that of the last accepted edit since, else the one it was added with, empty once deleted; its edit time is that edit's, or none |
| RoomEntries.MarksExactly | server/room.go:130-234 | over every run, it is deleted exactly if a deletion was accepted since its add, pinned exactly if a pin was with no unpin or deletion after it, and someone is listed for a reaction exactly if they reacted so and have not taken it back |
| RoomEntries.InOrder | server/room.go:150-206 | who is listed before another for a reaction has entered the list before |
| RoomHistory.PinsAgreeExactly | server/room.go:85-234 | over every run: flags and PinnedMessages agree exactly if every id evicted while pinned has since been pinned, unpinned or deleted again |
| RoomHistory.PinsAgreeAfter | server/room.go:85-234 | of all operations exactly the adds that evict a pinned message end the agreement |
| RoomHistory.PinnedEvicted | server/room.go:85-97 | one pinned message and 1000 others: PinnedMessages names a message that is gone |
| RoomHistory.Room.AddMessage | server/room.go:85-97 | the adding step: duplicates refused, window kept |
| RoomHistory.Room.EditMessage | server/room.go:109-127 | accepted exactly for the sender's own message that is not deleted, and then the message has the new text and the edit time |
| RoomHistory.Room.DeleteMessage | server/room.go:130-147 | accepted exactly for the sender's own message |
| RoomHistory.Room.AddReaction | server/room.go:150-177 | accepted exactly on messages that are not deleted; returns the reactions after it |
| RoomHistory.Room.RemoveReaction | server/room.go:180-206 | accepted exactly if the sender had reacted so; an emptied list disappears |
| RoomHistory.Room.PinMessage | server/room.go:209-220 | accepted exactly on messages that are not deleted |
| RoomHistory.Room.UnpinMessage | server/room.go:223-234 | accepted exactly on messages in the window |
| BleChunks.FragmentationRoundTrip | mobile/android/app/src/main/kotlin/com/peatlink/app/ble/PeatBleService.kt:698-836 | for a message of at most 64 chunks: in any order, with duplicates and other traffic in between, null until the last missing chunk, then exactly the payload, and the buffer entry is gone |
| BleChunks.HoldsSeen | mobile/android/app/src/main/kotlin/com/peatlink/app/ble/PeatBleService.kt:805-836 | before that the receiver holds exactly the chunks that arrived |
| BleChunks.LastChunkDelivers | mobile/android/app/src/main/kotlin/com/peatlink/app/ble/PeatBleService.kt:818-836 | the chunk that completes the set delivers the payload |
| BleChunks.PiecesJoin | mobile/android/app/src/main/kotlin/com/peatlink/app/ble/PeatBleService.kt:710-729 | the pieces put end to end are the payload |
| BleChunks.PacketFits | mobile/android/app/src/main/kotlin/com/peatlink/app/ble/PeatBleService.kt:698-732 | every packet carries payload and fits the write size |
| BleChunks.SentExactly | mobile/android/app/src/main/kotlin/com/peatlink/app/ble/PeatBleService.kt:698-732 | a payload goes out as it is if it fits or chunks would be too small, not at all if it is audio that does not fit, else in packets of header and piece that cover it, at most 255 |
| BleChunks.TooManyChunksLost | mobile/android/app/src/main/kotlin/com/peatlink/app/ble/PeatBleService.kt:805-816 | every packet of a message of more than 64 chunks is thrown away |
| BleChunks.SingleWrite | mobile/android/app/src/main/kotlin/com/peatlink/app/ble/PeatBleService.kt:698-709 | a payload that fits one write arrives as it is exactly when it does not look like a chunk |
| BleChunks.LateDuplicateLingers | mobile/android/app/src/main/kotlin/com/peatlink/app/ble/PeatBleService.kt:805-836 | a duplicate after completion opens a buffer that holds it alone |
| BleChunks.SameIdMixes | mobile/android/app/src/main/kotlin/com/peatlink/app/ble/PeatBleService.kt:805-836 | if all chunks of a message but one are in its buffer and the missing one comes from another sender under the same id, something is delivered, and it is the message exactly if the two pieces are equal; BleReassembly has the general case |
| BleReassembly.BufferExactly | mobile/android/app/src/main/kotlin/com/peatlink/app/ble/PeatBleService.kt:805-819 | whatever packets arrive after the buffers were empty or cleaned up: the buffer of an id is there exactly if an accepted chunk came since the last completion; it has as many slots as its first chunk declares, each with the last piece of its number since then |
| BleReassembly.DeliveredExactly | mobile/android/app/src/main/kotlin/com/peatlink/app/ble/PeatBleService.kt:818-836 | a chunk delivers exactly if it is accepted and leaves no slot empty, and then the pieces in the slots, joined |
| BleReassembly.IntactExactly | mobile/android/app/src/main/kotlin/com/peatlink/app/ble/PeatBleService.kt:805-836 | whatever packets arrive: a message is delivered as sent exactly if the pieces in the slots are consecutive slices of it up to its end; it is so with pieces cut evenly to its size exactly if the first chunk declares its count and every last piece is its own |
| BleReassembly.AlikeIntactExactly | mobile/android/app/src/main/kotlin/com/peatlink/app/ble/PeatBleService.kt:710-836 | among any messages of one write size and one chunk count under an id, delivered as sent exactly if every last piece is the message's own |
| BleReassembly.OldChunkFirst | mobile/android/app/src/main/kotlin/com/peatlink/app/ble/PeatBleService.kt:710-836 | an old chunk of any message, then all chunks of a message under the same id: what is delivered is a prefix of the message as long as the old count says, with the old piece behind it if it is the last of that count, or nothing |
| BleReassembly.OldChunkIntactExactly | mobile/android/app/src/main/kotlin/com/peatlink/app/ble/PeatBleService.kt:710-836 | the message comes through exactly if the old chunk declares the message's count and is not the last of it, or is the last of its own count and carries exactly the rest of the message |
| BleWriteQueue.RunDisciplined | mobile/android/app/src/main/kotlin/com/peatlink/app/ble/PeatBleService.kt:734-799 | over every run: at most 21 audio and 101 data packets wait, no stall, and each class is sent in order, with offered = sent + dropped + waiting |
| BleWriteQueue.Conservation | mobile/android/app/src/main/kotlin/com/peatlink/app/ble/PeatBleService.kt:734-799 | the same balance in numbers |
| BleWriteQueue.AudioFirst | mobile/android/app/src/main/kotlin/com/peatlink/app/ble/PeatBleService.kt:751-799 | a data packet leaves only when no audio waits |
| BleWriteQueue.DropsExactly | mobile/android/app/src/main/kotlin/com/peatlink/app/ble/PeatBleService.kt:734-749 | over every run, an offer drops a packet, the oldest of its class, exactly if more than 20 audio or 100 data packets wait; a timer drops none |
| BleWriteQueue.TimersDrain | mobile/android/app/src/main/kotlin/com/peatlink/app/ble/PeatBleService.kt:751-799 | left alone, the queue sends all waiting audio, then all waiting data, and comes to rest |
| BleWriteQueue.AudioBoundMet | mobile/android/app/src/main/kotlin/com/peatlink/app/ble/PeatBleService.kt:734-749 | 21 waiting audio packets are reached |
| BleService.PeatBleService.EnqueueForSend | mobile/android/app/src/main/kotlin/com/peatlink/app/ble/PeatBleService.kt:734-749 | the enqueueing step; the pending counter stays right |
| BleService.PeatBleService.DrainWriteQueue | mobile/android/app/src/main/kotlin/com/peatlink/app/ble/PeatBleService.kt:751-799 | the sending step; the pending counter stays right |
| BleService.PeatBleService.BroadcastToAllPeers | mobile/android/app/src/main/kotlin/com/peatlink/app/ble/PeatBleService.kt:698-732 | exactly the message's packets are offered in order, and the chunk id is used up if it was needed |
| BleService.PeatBleService.ReassembleOrPassthrough | mobile/android/app/src/main/kotlin/com/peatlink/app/ble/PeatBleService.kt:805-836 | the receiving step, for any bytes |
| BleService.BuildChunk | mobile/android/app/src/main/kotlin/com/peatlink/app/ble/PeatBleService.kt:716-729 | a packet is the header followed by its piece |
| BleService.Assemble | mobile/android/app/src/main/kotlin/com/peatlink/app/ble/PeatBleService.kt:826-836 | the copy loop joins the chunks |
| BleDelivery.DeliveredEndToEnd | mobile/android/app/src/main/kotlin/com/peatlink/app/ble/PeatBleService.kt:698-836 | a message broadcast on an idle link goes through fragmentation, queue and reassembly and comes out whole at its last chunk |
| BleDelivery.QueuedInOrder | mobile/android/app/src/main/kotlin/com/peatlink/app/ble/PeatBleService.kt:734-799 | its packets wait in order behind the first one, none dropped |
| BleBatch.BatchRoundTrip | mobile/android/app/src/main/kotlin/com/peatlink/app/ble/BleVoiceService.kt:417-429 | reading a batch gives back exactly the frames and uses up the packet, if and only if every frame is shorter than 65536 bytes |
| BleBatch.ParseExact | mobile/android/app/src/main/kotlin/com/peatlink/app/ble/BleVoiceService.kt:527-557 | on any packet the frames read are its own bytes in order and no whole frame is left over |
| BleBatch.LongFrameCut | mobile/android/app/src/main/kotlin/com/peatlink/app/ble/BleVoiceService.kt:417-429 | a longer frame is read as a shorter one |
| BleBatch.BuildBatchPacket | mobile/android/app/src/main/kotlin/com/peatlink/app/ble/BleVoiceService.kt:417-429 | the array filled at a moving offset is the batch |
| BleBatch.PlayBatchPacket | mobile/android/app/src/main/kotlin/com/peatlink/app/ble/BleVoiceService.kt:527-557 | the loop stays in bounds, ends, and yields the frames |
| TcpFraming.SegmentationIrrelevant | server/cot_bridge.go:247-278 | however the stream is split into reads, events and residual are those of cutting it at once |
| TcpFraming.SplitsAgree | server/cot_bridge.go:247-278 | two splits of one stream give the same pieces and the same residual |
| TcpFraming.CutExact | server/cot_bridge.go:257-277 | events and residual are the bytes received, every event ends with its only end tag, the residual holds none |
| TcpFraming.CutUnique | server/cot_bridge.go:257-277 | there is no other way to cut the stream so |
| TcpFraming.CutContinues | server/cot_bridge.go:247-278 | later bytes only continue what the residual began |
| TcpFraming.EventsExactly | server/cot_bridge.go:257-277 | the bytes received determine the events handed on: of pieces that each end with their only end tag, each hands on its part from its first start tag on, or nothing if it has none, in order |
| TcpFraming.EventsWellFormed | server/cot_bridge.go:270-276 | every event handed on begins with a start tag and ends with its only end tag |
| TcpFraming.SameEvents | server/cot_bridge.go:247-278 | two splits of one stream hand on the same events, those of the stream |
| TcpFraming.TcpConn.OnRead | server/cot_bridge.go:247-278 | the buffer that is written, reset and refilled holds the residual after each read, and the events handed on so far are exactly those of all bytes received |
| Resampler.OutputCount | web/src/voice/VoiceManager.ts:688-705 | for any buffers the number of samples is ceil(N / ratio) less the carried offset, which is what is left of the last step and never negative |
| Resampler.OutputPositions | web/src/voice/VoiceManager.ts:688-705 | sample k is taken at position k times the ratio, within the stream |
| Resampler.DueReaches | web/src/voice/VoiceManager.ts:688-705 | the carried position is past the end by less than one step |
| Resampler.LerpOnLine | web/src/voice/VoiceManager.ts:695-701 | samples on a line are resampled to points of that line |
| Resampler.ChunkingShows | web/src/voice/VoiceManager.ts:695-701 | its value is the one of the unsplit stream exactly when its position does not straddle two buffers or the samples around it are equal |
| Resampler.WholeRatioUnaffected | web/src/voice/VoiceManager.ts:688-705 | at rates that are multiples of 8000 any split gives the same samples |
| Resampler.AnySplitExactly | web/src/voice/VoiceManager.ts:688-705 | every split of every stream gives the same samples exactly at the rates that are multiples of 8000 |
| Resampler.OddRatioShows | web/src/voice/VoiceManager.ts:625-705 | at 44100 Hz and with the 1024-sample buffers of the script processor, the fifth buffer shows whenever the samples at its seam differ |
| VoiceRelay.RelayConserves | web/src/voice/VoiceManager.ts:643-670 | 320 frames + dropped + pending = produced, in order, with fewer than 320 pending |
| VoiceRelay.NothingDropped | web/src/voice/VoiceManager.ts:652-655 | with 1024-sample buffers at 8000 Hz or more the cap drops nothing |
| VoiceRelay.CapExactly | web/src/voice/VoiceManager.ts:652-670 | one event drops all but the last 1600 samples exactly if more than 3200 are pending with the new ones; all else that leaves is frames |
| VoiceRelay.SplitsSendTheSame | web/src/voice/VoiceManager.ts:643-670 | at rates that are multiples of 8000, two splits of a stream send the same frames and keep the same samples pending |
| VoiceRelay.PcmRoundTrip | web/src/voice/VoiceManager.ts:714-725 | the bytes of a frame decode to the same samples |
| VoiceRelay.QuantisationError | web/src/voice/VoiceManager.ts:707-712 | a sample in range survives encoding and decoding within two quantisation steps |
| VoiceRelay.RoundedExactly | web/src/voice/VoiceManager.ts:707-712 | every sample is clamped to [-1, 1], scaled by 32768 below zero and 32767 above, and rounded to the nearest integer, halves upwards |
| VoiceRelay.SampleLayout | web/src/voice/VoiceManager.ts:714-725 | the two bytes are the 16-bit two's complement, low byte first |
| VoiceRelay.Int16SamplesToBytes | web/src/voice/VoiceManager.ts:714-725 | the loop writes two bytes a sample, low byte first |
| VoiceRelay.DecodePcm | web/src/voice/VoiceManager.ts:585-602 | the loop reads them back, ignoring an odd byte |
| VoiceRelay.BleRelayChain.AppendResampledPcm16 | web/src/voice/VoiceManager.ts:688-705 | the loop appends the samples due and carries the offset |
| VoiceRelay.BleRelayChain.OnAudioProcess | web/src/voice/VoiceManager.ts:643-670 | one event is one step of the relay, and what is sent are the frames |
| MessageMerge.Convergence | web/src/store/chatStore.ts:196-220 | any order, batching and duplication of identical copies with distinct timestamps gives the same list |
| MessageMerge.ArrivalOrderExactly | web/src/store/chatStore.ts:207-220 | two new messages may arrive in either order exactly when their timestamps differ |
| MessageMerge.MergeShape | web/src/store/chatStore.ts:4-11 | one entry per id, sorted by timestamp, ids the union |
| MessageMerge.MergeIdempotent | web/src/store/chatStore.ts:4-11 | merging a list again changes nothing, whatever copies it holds |
| MergeOutcome.OutcomeExactly | web/src/store/chatStore.ts:4-11 | each merged message has the fields of its last known copy, overlaid by every incoming one in turn, and the last copy's time |
| MergeOutcome.TiesExactly | web/src/store/chatStore.ts:4-11 | messages of the same time stand in the order in which their ids first occurred, in the old list and then the new one |
| MessageMerge.MergeLists | web/src/store/chatStore.ts:4-11 | the loop over the Map followed by the stable sort is the merge |
| MessageMerge.RoomStore.AddMessage | web/src/store/chatStore.ts:207-220 | the same for one message, and unread counts it exactly when it is new, from someone else, and the room is not open |

## Left out

- Sockets, pumps, HTTP, UDP, mDNS, TLS, GATT callbacks, user interface, WebRTC, codecs: they hold no logic of their own; what they deliver is an input here.
- JSON, XML and base64: messages are already parsed values.
- Hash functions, UUIDs and keys: the packet hash of the mesh is an arbitrary function, room ids are the room names (an injective hash), and generated ids are fresh.
- Short room ids: a request names its room directly, so a clash of 16-digit prefixes in getRoomByHex is not modelled.
- Lock interleavings inside a Go or Rust method: every request is one atomic step.
- Clocks: the time of an edit is a parameter, and periodic timers are events that may come at any time.
- Display names, transports, markers and external ATAK contacts of the hub, and everything that is only broadcast: they steer nothing that is modelled.
- Voice channels of the hub as objects of their own: a channel is a value in its room's map, so aliasing between channels is not modelled; shared pointers to a Bluetooth peer are values too, which only their names would tell apart.
- Several rooms on a phone, direct messages passed downstream, the history sync of a new connection beyond its packets, and the relay's other message kinds: the mesh model follows one room's chat messages.
- Sample values as doubles: they are exact rationals, and the input rate is an integer number of hertz.
- Returned reaction maps as shared references: they are values.
- Methods that are one assignment or one guarded step of the hub, the room, the directory or the link: they are in the project, each tied to its step, but have no row of their own.
- HubService.ServerHub.RegisterBlePeer: relies on a connected relay and a non-empty id, which its only caller checks.
- HubService.ServerHub.JoinVoiceFromRelay: relies on the peers' part of the hub's invariant, which HubState.RunKeeps shows every run keeps.
- HubState.RunKeeps: takes fresh identities and generated ids as given, as the key and UUID generators promise.
- MeshGossip.GossipBounded: says nothing of a message once a room has evicted it; MeshGossip.EpochBounded covers that case per epoch.
- TakDecoder.ExtractMessage: counts its turns, which the source does not, and reports the loop that never ends instead of not ending.
- BridgeToHub.ServerKnowsAtMostOne: takes every command of the bridge to reach the server in order; a registration lost while the relay is down is repeated periodically, a lost unregistration is not.
- TakProto.CodecRoundTrip: speaks of events whose encoding is shorter than 2^63 bytes, as every Go slice is.
