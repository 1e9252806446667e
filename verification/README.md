# Medium: verified models of the transport and its surroundings

Medium connects a phone or desktop client to services published by a home node, over a
reliable byte stream on UDP, a relay, or a WebSocket. This project models the parts of it
where the difficulty lies and proves what they keep over every input and every run.

**The UDP byte stream** (`PacketCodec`, `Receiver`, `PacketInbox`, `SessionProtocol`,
`SessionSafety`, `SessionLedger`, `SessionPolicy`, `SessionProgress`, `HandshakeDedupe`). Two endpoints, each with
a reading handle and a writing handle, run as a transition system: every lock section, queue
removal and socket call is a step of its own, and the network delivers any datagram ever sent,
any number of times, in any order, or never, and may also deliver stray datagrams that the peer
did not send in this session. ChaCha20-Poly1305 (section 2.8 of RFC 8439) is a
pair of functions of nonce and text of which only "opening undoes sealing" and the tag length
are used. `Receiver.SessionState` is the mutable session state; its methods are proved against
the same functions the transition system uses.

A write that times out leaves the sequence number where it was, so the next chunk goes out under
the same number, and an ack is accepted by its number alone. Where stray datagrams do not open as
data, every run is faithful **if and only if** callers offer a chunk whose write did not succeed
again or stop, and no stray datagram is an ack (`SessionPolicy.SafeIffOnlyRepeats`). Even with
stray acks nothing but the offered bytes comes out, in order and without gaps
(`SessionSafety.StreamIntegrity`). And no run gets stuck: from every reachable world a waiting
write can still return Ok, because data is acked again however often it arrives
(`SessionProgress.WaitingWriteCanComplete`, `SessionProgress.RepeatedAckCompletes`).

**The phone on top of it** (`Backends`, `PhoneWrites`, `PhoneStreams`). The phone cuts its chunks
from a queue that may have grown since a write did not complete in time; such a queue keeps every
run intact **if and only if**, whenever that happens, nothing is added before the next write or a
full chunk is pending (`PhoneWrites.QueueSafeIff`). `PhoneWrites.QueuedBytesLost` starts from any
run of the phone that breaks this and gives a run of the session in which the added bytes are
reported written and never arrive. Above the session the pieces fit: what a backend has
accepted, with what is pending, is exactly what the network stack reported received under its
stream id (`PhoneStreams.PhoneForwards`).

**Around it**: the connection race of the Apple client (`ConnectRace`), the relay's pool of
waiting node sockets (`RelayPool`), the virtual network with its DNS responder and indexes
(`VirtualNetwork`, `Dns`), its TCP slots with their ids, connections, events and listening
addresses (`TcpSlots`, `TcpRuns`, `TcpBinding`, `TcpEvents`, `TcpEnds`, `TcpListeners`), hostname labels and
the tunnel's route table (`Hostname`, `RouteTable`), candidate grants, checklists and connection
order (`Sorting`, `Candidates`, `ConnectOrder`), and the hello line over bytes and over WebSocket
frames (`Framing`). `Base` holds shared definitions.

Several properties that a reader might expect do not hold in the model. Each has the exact
condition under which it holds, and where that alone names no failing input, a run that fails:

- the byte stream is intact whatever the caller of `write` does and whatever arrives:
  `SessionPolicy.MismatchRun`, `SessionPolicy.StrayAckRun`, `SessionPolicy.SafeIffOnlyRepeats`;
- the phone's write queue keeps it intact: `PhoneWrites.QueuedBytesLost`,
  `PhoneWrites.QueueSafeIff`;
- the WebSocket hello reader enforces the 16384-byte limit of the byte reader:
  `Framing.LongLineInOneFrame`, `Framing.ReadersAgreeIff`;
- a WebSocket read of 0 bytes means the end of the stream: `Framing.ZeroMeansEndIff`;
- a stream id stays with its connection, where the sockets may change in any way during an
  interface poll: `TcpBinding.SecondConnectionUnderOldId`, `TcpBinding.PollBindsIff`,
  `TcpBinding.RunBindsIff`;
- every stream that ends was announced: `TcpEvents.UnannouncedEnd`,
  `TcpEvents.EndAnnouncedIffHttps`;
- every published address has a listener: `TcpListeners.AddressListensIff`;
- every published service can be asked for by name: `Dns.PublishedAskableIff`;
- different route requests get different entries: `RouteTable.SlashCollision`,
  `RouteTable.KeysAgreeIff`, `RouteTable.SameAddressIff`;
- every datagram fits the receive buffer: `SessionLedger.DatagramsFit`.

Two more observations where the code decides: a client without an inbox reads its bare socket,
so its reading handle discards acks it meets (they are counted as skipped in
`SessionLedger.PacketsConsumedOnce`, while the node's inbox skips none); and
`connect_session_service_tls` tries every legacy candidate, also those that
`connect_legacy_candidate` would have passed over as unusable.

## Model

| member | source | states |
|---|---|---|
| PacketCodec.DecodeEncode | crates/overlay-transport/src/udp_session.rs:862-890 | encoding succeeds exactly up to 65535 payload bytes, and decoding then gives the packet back |
| PacketCodec.WireFormat | crates/overlay-transport/src/udp_session.rs:862-873 | byte by byte: "MDU1", kinds 1 to 5, a 64-bit number and a 16-bit length most significant byte first, the payload |
| PacketCodec.EncodeDecode | crates/overlay-transport/src/udp_session.rs:875-890 | re-encoding any accepted datagram gives the same bytes |
| PacketCodec.AcceptedIffEncoding | crates/overlay-transport/src/udp_session.rs:862-890 | the accepted datagrams are exactly the encodings of packets; everything else is rejected |
| PacketCodec.TruncationRejected | crates/overlay-transport/src/udp_session.rs:875-884 | a proper prefix of an encoding is never accepted as a packet |
| PacketCodec.NonceInjective | crates/overlay-transport/src/udp_session.rs:801-806 | no nonce stands for two different (direction, sequence number) pairs |
| PacketCodec.NonceFormat | crates/overlay-transport/src/udp_session.rs:801-806 | byte by byte: 0 towards the node and 1 towards the client, three zeros, the sequence number |
| Receiver.SessionState.constructor | crates/overlay-transport/src/udp_session.rs:331-336 | a new session starts at sequence number 0 with nothing received |
| Receiver.SessionState.Store | crates/overlay-transport/src/udp_session.rs:512-552 | the lock section that stores a packet and drains the reorder buffer yields the specified receiver state, and its loop terminates |
| Receiver.SessionState.Write | crates/overlay-transport/src/udp_session.rs:622-665 | however the attempts go, a failing send included: the first that is not a timeout decides, at most five transmissions, and the sequence number advances exactly on an ack |
| Receiver.SessionState.DrainPending | crates/overlay-transport/src/udp_session.rs:808-814 | the bytes put into the buffer followed by what stays pending are the bytes that were pending; the rest of the buffer is untouched |
| Receiver.DrainedReflects | crates/overlay-transport/src/udp_session.rs:540-548 | the drain loop stops at the least missing number with every earlier payload output once, in order |
| Receiver.StoredReflects | crates/overlay-transport/src/udp_session.rs:512-552 | storing any packet, new, early or duplicate, leaves the state determined by the set of arrivals |
| Receiver.ReceivedReflects | crates/overlay-transport/src/udp_session.rs:512-552 | for any arrival sequence the next number is the least missing one, the output is the contiguous prefix and the buffer holds exactly the arrivals above it |
| Receiver.OrderIndependence | crates/overlay-transport/src/udp_session.rs:512-552 | arrival sequences with the same set of packets leave the same state, whatever their order and repetition |
| Receiver.FirstArrivalCounts | crates/overlay-transport/src/udp_session.rs:512-552 | even if packets with one number carry different texts, the state is the one the first packet of each number determines |
| PacketInbox.Inbox.Push | crates/overlay-transport/src/udp_session.rs:292-297 | a packet goes to the back of the queue |
| PacketInbox.Inbox.RecvMatching | crates/overlay-transport/src/udp_session.rs:299-328 | the waiting loop computes the specified receive over whatever the queue is at each wake-up |
| PacketInbox.RecvTakesFirstWanted | crates/overlay-transport/src/udp_session.rs:299-328 | a receive takes the first wanted packet of the first queue seen to hold one and keeps the others in order; a timed-out receive takes nothing and the queue it leaves holds no wanted packet |
| PacketInbox.RecvGivesUpIff | crates/overlay-transport/src/udp_session.rs:299-328 | a receive gives up exactly if no queue it sees, up to its deadline or to a wait that reports a timeout, holds a wanted packet |
| PacketInbox.TakingIsReceiving | crates/overlay-transport/src/udp_session.rs:554-576 | the packet-taking steps of the transition system are exactly successful receives of the inbox |
| SessionProtocol.FirstMatch | crates/overlay-transport/src/udp_session.rs:310-312 | the index removed is the first whose packet the handle wants |
| SessionSafety.StoringKeeps | crates/overlay-transport/src/udp_session.rs:512-552 | a data packet that opens opens to the chunk logged under its number, and storing it, early, late or expected, keeps the stream |
| SessionSafety.StepKeepsLinks | crates/overlay-transport/src/udp_session.rs:463-665 | every step of either handle keeps the stream sent and the stream received, with or without stray acks |
| SessionSafety.RunKeepsInv | crates/overlay-transport/src/udp_session.rs:463-665 | the two-endpoint invariant holds after any run |
| SessionSafety.StreamIntegrity | crates/overlay-transport/src/udp_session.rs:487-665 | whatever stray datagrams arrive, acks included, the output is always the concatenation of the first chunks offered, and so is what was reported written |
| SessionSafety.StreamSafety | crates/overlay-transport/src/udp_session.rs:487-665 | in every run with loss, duplication, reordering and strays other than acks, bytes read plus bytes ready are the concatenation of the chunks below the receive number, and bytes reported written are among them exactly once, in order, in both directions |
| SessionSafety.StopAndWait | crates/overlay-transport/src/udp_session.rs:487-665 | the receiver is level with the sender or one ahead, its reorder buffer stays empty, and a write completes only when the peer has stored exactly its chunk, so a leftover ack never completes a later write |
| SessionLedger.PacketsConsumedOnce | crates/overlay-transport/src/udp_session.rs:282-330 | under every interleaving each arrived packet is still queued or was taken by exactly one handle, the reading handle never takes an ack, and the inbox discards nothing |
| SessionLedger.DatagramsFit | crates/overlay-transport/src/udp_session.rs:622-641 | every datagram of every run fits the 1500-byte receive buffer and decodes to what was sent, except exactly a Hello with more than 1485 payload bytes |
| SessionPolicy.MismatchRun | crates/overlay-transport/src/udp_session.rs:643-664 | whatever two chunks a caller may offer one after the other's timeout, from any calm point some run reports the second written while the peer has the first |
| SessionPolicy.StrayAckRun | crates/overlay-transport/src/udp_session.rs:487-510 | with a stray ack of any number some run reports a byte written that the peer never received |
| SessionPolicy.SafeIffOnlyRepeats | crates/overlay-transport/src/udp_session.rs:643-664 | where strays do not open as data, every run is faithful if and only if callers only repeat the chunk whose write did not succeed and no stray is an ack |
| SessionProgress.TakesNext | crates/overlay-transport/src/udp_session.rs:554-576 | with an inbox a handle takes the first packet of the kinds it looks for, on the bare socket the head, which it holds exactly if it is of such a kind |
| SessionProgress.TakesNothing | crates/overlay-transport/src/udp_session.rs:554-576 | without such a packet no handle takes anything |
| SessionProgress.ReaderStoresAndAcks | crates/overlay-transport/src/udp_session.rs:512-552 | whatever number is expected, data in the reading handle that opens is stored and then acked under its own number |
| SessionProgress.WriterStoresAndAcks | crates/overlay-transport/src/udp_session.rs:487-510 | the same in the writing handle, which then goes on waiting for its own ack |
| SessionProgress.OtherwiseInHand | crates/overlay-transport/src/udp_session.rs:487-510 | a close or data that does not open ends the call, the ack awaited completes the write, a stale ack is passed over; nothing else changes |
| SessionProgress.ReadReturns | crates/overlay-transport/src/udp_session.rs:587-612 | a read that finds bytes returns as many as asked for, or all, and the output stays the same |
| SessionProgress.ReadEndsIff | crates/overlay-transport/src/udp_session.rs:587-619 | exactly which steps end a read; without bytes it goes on waiting |
| SessionProgress.WriteEndsIff | crates/overlay-transport/src/udp_session.rs:643-664 | exactly which steps end a write, and that only its own ack advances the number and reports bytes |
| SessionProgress.RepeatedAckCompletes | crates/overlay-transport/src/udp_session.rs:527-531 | from any reachable world in which a write waits for a chunk the peer has stored and a handle of the peer holds another copy, some run completes the write without changing what was received |
| SessionProgress.WaitingWriteCanComplete | crates/overlay-transport/src/udp_session.rs:622-665 | from every reachable world in which a write waits, in either direction and whatever is queued, some run lets it return Ok with its chunk in the output |
| SessionProgress.UnansweredWrite | crates/overlay-transport/src/udp_session.rs:643-664 | a write that is never answered sends the same packet five times, waits out each and then gives up with the number unchanged |
| HandshakeDedupe.RecentHandshakes.constructor | crates/overlay-transport/src/udp_session.rs:244-263 | the window starts empty |
| HandshakeDedupe.RecentHandshakes.EvictExpired | crates/overlay-transport/src/udp_session.rs:249-254 | exactly the expired entries at the front are dropped |
| HandshakeDedupe.RecentHandshakes.TrimToLimit | crates/overlay-transport/src/udp_session.rs:259-261 | exactly the newest 256 entries stay |
| HandshakeDedupe.RecentHandshakes.IsDuplicate | crates/overlay-transport/src/udp_session.rs:244-263 | a hello is a duplicate exactly if its key was accepted among the last 256 acceptances and at most 30 s ago; exactly the others are recorded |
| HandshakeDedupe.EvictionIsExact | crates/overlay-transport/src/udp_session.rs:249-254 | with monotone time, evicting from the front only equals filtering the whole history |
| HandshakeDedupe.AppendTrims | crates/overlay-transport/src/udp_session.rs:258-262 | append and trim give the window of the longer history |
| HandshakeDedupe.WindowHolds | crates/overlay-transport/src/udp_session.rs:244-263 | the window holds exactly the keys of the last 256 acceptances that are at most 30000 ms old |
| HandshakeDedupe.Listen | crates/overlay-transport/src/udp_session.rs:244-263 | over any run of hellos the bounded queue makes the decisions the full history makes |
| HandshakeDedupe.AcceptancesSeparated | crates/overlay-transport/src/udp_session.rs:23-24 | two acceptances of one key are more than 30 s or more than 256 acceptances apart |
| ConnectRace.RaceVariables.OnConnected | apps/apple/MediumApp/ForegroundBrowserProxy.swift:196-206 | under the lock the first success becomes the winner and later ones do not |
| ConnectRace.RaceVariables.OnRefused | apps/apple/MediumApp/ForegroundBrowserProxy.swift:207-211 | a failure is added to the list and changes nothing else |
| ConnectRace.RaceVariables.OnFinished | apps/apple/MediumApp/ForegroundBrowserProxy.swift:185-194 | the failure signal is decided on the count after this task and only without a winner |
| ConnectRace.RunKeepsInv | apps/apple/MediumApp/ForegroundBrowserProxy.swift:166-227 | the race invariant holds under every interleaving of lock sections |
| ConnectRace.RaceIsSafe | apps/apple/MediumApp/ForegroundBrowserProxy.swift:166-227 | at most one signal in every reachable state; a returned winner's stream is open; a return without winner means every candidate failed and each is listed once |
| ConnectRace.RaceOutcome | apps/apple/MediumApp/ForegroundBrowserProxy.swift:166-227 | when nothing can move any more: exactly one signal, a winner exactly if some connect succeeded, and every other opened stream closed |
| ConnectRace.RaceIsBounded | apps/apple/MediumApp/ForegroundBrowserProxy.swift:166-227 | no run is longer than five steps per candidate plus two, so the race always ends |
| RelayPool.WaitingNodes.Register | services/relay/src/lib.rs:433-441 | the socket goes on top of its node's stack |
| RelayPool.WaitingNodes.PollRound | services/relay/src/lib.rs:467-502 | the pop loop hands out, keeps and drops what the specification of a round says, and removes an emptied stack |
| RelayPool.PollStack | services/relay/src/lib.rs:473-492 | the stack splits into kept, chosen and dropped entries; the chosen one is unexpired, all dropped ones expired, and without a choice nothing is kept |
| RelayPool.RelayConserves | services/relay/src/lib.rs:433-502 | over any interleaving every socket is in exactly one of waiting, paired and discarded, exactly once; pairings match node ids, respect the time-to-live and are one to one with served clients; no stack is empty |
| RelayPool.RoundOutcome | services/relay/src/lib.rs:565-599 | a round fails exactly when every socket waiting for the node is older than 60000 ms; otherwise it takes the newest and discards nothing |
| RelayPool.PollServes | services/relay/src/lib.rs:467-502 | after any run a poll gives the client the newest socket of its node if one joined at most 60000 ms ago, else discards all of them; other clients and nodes are untouched |
| RelayPool.FiftyRounds | services/relay/src/lib.rs:473-501 | in any run a client gives up after exactly fifty rounds, polls on before that, and is served by the fiftieth if at all |
| Hostname.Normalize | crates/medium-netstack/src/lib.rs:637-656 | the streaming loop equals: split on non-alphanumerics, drop empty pieces, join with hyphens, default to "service" |
| Hostname.SanitizeLabel | apps/apple/PacketTunnel/MediumRouteTable.swift:59-75 | the variant that may emit a leading hyphen and trims afterwards computes the same label |
| Hostname.LabelIdempotent | services/home-node/src/proxy.rs:1064-1084 | normalising a label changes nothing |
| Hostname.LabelKeepsLetters | services/home-node/src/proxy.rs:1064-1084 | a label has exactly the letters and digits of the name, in order; a name without any becomes "service" |
| Hostname.LabelChars | services/home-node/src/proxy.rs:1064-1084 | a label is never empty and has only lower-case letters, digits and hyphens |
| RouteTable.MediumRouteTable.constructor | apps/apple/PacketTunnel/MediumRouteTable.swift:16-24 | the table starts empty at host 10 |
| RouteTable.MediumRouteTable.Assign | apps/apple/PacketTunnel/MediumRouteTable.swift:26-48 | outcome and new table are those of the specification, error order included |
| RouteTable.RunKeepsInv | apps/apple/PacketTunnel/MediumRouteTable.swift:26-48 | after any requests each entry is that of its key's first request, hosts are pairwise distinct and handed out consecutively |
| RouteTable.FirstComeOwns | apps/apple/PacketTunnel/MediumRouteTable.swift:26-48 | whoever is served gets the entry of the first request with that key, at a host from 10 to 254; refusal happens exactly for a new key when 245 keys have addresses |
| RouteTable.HostnameReads | apps/apple/PacketTunnel/MediumRouteTable.swift:26-48 | a hostname reads back as the label of the service, then of the node, then "medium", and in no other way |
| RouteTable.SameAddressIff | apps/apple/PacketTunnel/MediumRouteTable.swift:26-57 | across any run two served requests get the same address text exactly when their keys agree, and then the same entry |
| RouteTable.KeysAgreeIff | apps/apple/PacketTunnel/MediumRouteTable.swift:27-27 | keys agree exactly when the port and the text "node/service" agree |
| RouteTable.KeyInjective | apps/apple/PacketTunnel/MediumRouteTable.swift:27-27 | node ids without a slash make the key identify the request |
| RouteTable.SlashCollision | apps/apple/PacketTunnel/MediumRouteTable.swift:26-30 | with slashes a different request is handed the first one's entry |
| VirtualNetwork.New | crates/medium-netstack/src/lib.rs:571-605 | succeeds exactly for up to 201 services, with consecutive addresses and both indexes agreeing with scans |
| VirtualNetwork.InsertKeepsIndexed | crates/medium-netstack/src/lib.rs:586-594 | inserting a service keeps the hostname index equal to a last-match scan and the address index to a scan |
| VirtualNetwork.AddressesDistinct | crates/medium-netstack/src/lib.rs:658-666 | service i has address 10.88.0.(10 + i); addresses are pairwise distinct and differ from the client and DNS addresses |
| VirtualNetwork.ResolvedRoutesBack | crates/medium-netstack/src/lib.rs:623-634 | a hostname resolves to the last service of that name or to nothing, and the address routes back to that service |
| Dns.ReadName | crates/medium-netstack/src/lib.rs:324-337 | the label loop computes the specified name with every access in bounds |
| Dns.ParseQuery | crates/medium-netstack/src/lib.rs:320-349 | parsing agrees with the recursive specification on every packet, malformed ones included |
| Dns.EmitResponse | crates/medium-netstack/src/lib.rs:284-310 | overwriting the header in place gives the section-by-section response |
| Dns.ParseEncoded | crates/medium-netstack/src/lib.rs:320-349 | encoded labels of 1 to 63 bytes parse back to themselves wherever they stand |
| Dns.ParsedIsEncoding | crates/medium-netstack/src/lib.rs:320-349 | whatever labels are accepted, the bytes are their encoding |
| Dns.ParseQuestion | crates/medium-netstack/src/lib.rs:320-368 | writing a question and parsing it gives the lowercased name, type and class, whatever follows |
| Dns.AcceptedIsQuestion | crates/medium-netstack/src/lib.rs:320-349 | every accepted packet announces one question and starts with the canonical encoding of what it is read as |
| Dns.ResponseIsFaithful | crates/medium-netstack/src/lib.rs:275-310 | for every accepted packet the response keeps id and question, re-parses to the same query, counts exactly the records it carries, and those carry the resolved address for A/IN questions only |
| Dns.NameErrorOtherwise | crates/medium-netstack/src/lib.rs:275-310 | a question of another type or class, or for a name nobody publishes, gets flags 0x8183, a zero count and no record |
| Dns.AddressOfLastNamed | crates/medium-netstack/src/lib.rs:275-318 | a question for the IPv4 address of a published name gets flags 0x8180 and one record, given byte by byte, with the address of the last service of that name |
| Dns.QueryReachesService | crates/medium-netstack/src/lib.rs:275-310 | asking for a published hostname in any letter case yields the address of the last service of that name, and that address leads back to it |
| Dns.AskableIff | crates/medium-netstack/src/lib.rs:320-349 | some packet is read as a question for a hostname if and only if its label has at most 63 characters |
| Dns.PublishedAskableIff | crates/medium-netstack/src/lib.rs:637-656 | a published service can be asked for by name exactly if its normalised label has at most 63 characters |
| TcpSlots.MediumStack.constructor | crates/medium-netstack/src/lib.rs:34-79 | a new stack has the initial slots of the runs, two per service with unused sockets, and starts numbering at 0 |
| TcpSlots.MediumStack.Poll | crates/medium-netstack/src/lib.rs:91-100 | slots, counter and events become those of one poll step of the runs, whatever the interface does to the sockets |
| TcpSlots.MediumStack.EnsureListeners | crates/medium-netstack/src/lib.rs:132-200 | the two loops compute the specified slots, listening addresses included |
| TcpSlots.MediumStack.PumpTcp | crates/medium-netstack/src/lib.rs:222-262 | the pump loop computes the pump of the runs, whose slots and events TcpEnds describes on socket states alone |
| TcpSlots.MediumStack.CloseTcp | crates/medium-netstack/src/lib.rs:112-122 | closing succeeds exactly for a known id, frees the first slot that holds it and leaves the others |
| TcpSlots.EveryServiceListens | crates/medium-netstack/src/lib.rs:162-200 | afterwards every published service id has a stream-free listening slot on both ports |
| TcpSlots.OnlyClosedRelisten | crates/medium-netstack/src/lib.rs:132-160 | only closed sockets of published services listen again, at the first such service, and the slot keeps its stream |
| TcpSlots.EnsuredOnce | crates/medium-netstack/src/lib.rs:132-200 | a second call changes nothing: a listener is added only where one is missing |
| TcpSlots.FindStream | crates/medium-netstack/src/lib.rs:102-107 | lookup finds the first slot with that id, or none if there is none |
| TcpSlots.StreamIdInjective | crates/medium-netstack/src/lib.rs:226-236 | different stream numbers give different id texts |
| TcpSlots.PumpAllFate | crates/medium-netstack/src/lib.rs:222-262 | one pump keeps, ends or newly numbers each stream, and new numbers and announcements are above all earlier ones |
| TcpRuns.RunKeepsInv | crates/medium-netstack/src/lib.rs:91-122 | the slot invariant holds after any polls and closes |
| TcpRuns.StreamIdsUnique | crates/medium-netstack/src/lib.rs:91-122 | over any run live ids are pairwise distinct, so the first match is the only one, closing leaves none, and each id is announced at most once |
| TcpRuns.IdsNeverReused | crates/medium-netstack/src/lib.rs:91-122 | once a stream is gone its id stays gone for the rest of the run |
| TcpRuns.OnlyHttpsAnnounced | crates/medium-netstack/src/lib.rs:226-236 | a connection is announced only for a newly established slot on port 443 |
| TcpBinding.PollBindsIff | crates/medium-netstack/src/lib.rs:91-100 | a poll keeps every id with its connection, whatever the interface does, if and only if no slot enters it with an id on a closed socket |
| TcpBinding.RunBindsIff | crates/medium-netstack/src/lib.rs:91-122 | polls at all points of a run are sure to keep ids with their connections if and only if at no point a slot has an id on a closed socket |
| TcpBinding.DanglesIffUnread | crates/medium-netstack/src/lib.rs:252-258 | with a quiet second interface poll, an id is left on a closed socket exactly if more bytes were buffered than the pump read on a socket that was not open, or on an HTTP socket the pump closed before it was connected |
| TcpBinding.SecondConnectionUnderOldId | crates/medium-netstack/src/lib.rs:144-160 | for any services, in three polls that leave the socket alone the second time: a connection is announced and closes with unread bytes, and the next one's bytes are reported under its id |
| TcpEvents.RunPhase | crates/medium-netstack/src/lib.rs:222-262 | over any run each id's events follow the order and a live id has been announced exactly on port 443 |
| TcpEvents.EventOrder | crates/medium-netstack/src/lib.rs:222-262 | in any history an announcement is the first event of its id, bytes come only under an announced id, and nothing follows an end |
| TcpEvents.EndAnnouncedIffHttps | crates/medium-netstack/src/lib.rs:226-257 | the id whose end is reported was held by a slot before the pump, and it had been announced exactly if that slot is on port 443 |
| TcpEvents.UnannouncedEnd | crates/medium-netstack/src/lib.rs:226-257 | for any services, a connection to port 80 that opens and closes without a byte is reported ended although never announced |
| TcpEnds.SlotReports | crates/medium-netstack/src/lib.rs:222-262 | which events a slot with an id, old or new, reports: each of the three if and only if |
| TcpEnds.SlotKeeps | crates/medium-netstack/src/lib.rs:253-258 | afterwards such a slot has lost its id exactly if its socket is Closed, TimeWait or Listen with nothing to read |
| TcpEnds.SlotSocket | crates/medium-netstack/src/lib.rs:241-251 | the HTTPS port only reads; the HTTP port closes what it reads from, state by state |
| TcpEnds.PumpEnds | crates/medium-netstack/src/lib.rs:222-262 | over all slots: an id is lost exactly from such a socket, and its end reported exactly then |
| TcpEnds.PollEnds | crates/medium-netstack/src/lib.rs:91-100 | a poll loses an id exactly if the interface left its socket closed or listening with at most one read buffered, and reports its end exactly then |
| TcpEnds.CloseEnds | crates/medium-netstack/src/lib.rs:112-122 | closing a live id closes our side, state by state, and frees its slot; other slots, and with an unknown id all, stay |
| TcpEnds.IdsLostIff | crates/medium-netstack/src/lib.rs:91-122 | in any run a live id is lost exactly by being closed or in such a poll, and its end is reported exactly in the second case |
| TcpListeners.AddressListensIff | crates/medium-netstack/src/lib.rs:132-200 | after any run, once listeners are prepared, a published address listens on both ports exactly if no earlier service has the same id |
| TcpListeners.ResolvedAddressListensIff | crates/medium-netstack/src/lib.rs:623-634 | the address a hostname resolves to listens exactly if the service it names is the first with its id |
| Sorting.SortIsStable | crates/medium-session/src/lib.rs:341-382 | the sort orders, keeps the contents and keeps equivalent elements in input order |
| Sorting.StableSortUnique | crates/medium-session/src/lib.rs:341-382 | those three facts leave one result, whatever the algorithm |
| Sorting.SortedPermutationUnique | crates/medium-session/src/lib.rs:358-382 | where the order separates the elements, contents alone decide the result |
| Candidates.ChecklistPreorder | crates/medium-session/src/lib.rs:371-380 | the checklist comparator is total and transitive |
| Candidates.ChecklistUnique | crates/medium-session/src/lib.rs:358-382 | with distinct foundations the checklist is the only ordered arrangement of the UDP candidates |
| Candidates.ChecklistOrderIndependent | crates/medium-session/src/lib.rs:358-382 | with distinct foundations it does not depend on the order of the grant |
| Candidates.OrderIndependentIffTieFree | crates/medium-session/src/lib.rs:358-382 | the checklist is the same for every order of the grant if and only if no two different UDP candidates of it tie |
| Candidates.PreferredFirst | crates/medium-session/src/lib.rs:677-698 | matches of the preferred candidate come before all others |
| Candidates.StrLeIsAlphabetical | crates/medium-session/src/lib.rs:378-378 | the order of foundations: a prefix, or the smaller character at the first difference |
| Candidates.ChecklistRules | crates/medium-session/src/lib.rs:371-380 | of two entries the earlier is preferred if the later is; else never a reflexive or relayed one before a local one, nor a relayed before a reflexive one; then higher priority; then foundation |
| Candidates.NodeCandidates | services/control-plane/src/routes/sessions.rs:104-124 | the endpoint loop fails exactly if some address does not parse, else lists every endpoint in order under its kind and position |
| Candidates.BuildIceGrant | services/control-plane/src/routes/sessions.rs:104-150 | an error exactly if some address does not parse, no grant exactly if there is nothing to list, else every endpoint in order and the relay, if any, last under distinct foundations |
| Candidates.GrantFields | services/control-plane/src/routes/sessions.rs:104-139 | every field of every candidate of a grant, from the endpoint it stands for, and the relay with priority 10 |
| Candidates.GrantNamesDiffer | services/control-plane/src/routes/sessions.rs:104-150 | the naming scheme never gives two candidates of a grant the same foundation |
| Candidates.GrantChecklistUnique | crates/medium-session/src/lib.rs:358-382 | however any grant, with or without a relay, is reordered on its way, the client's checklist is the same and the only ordered arrangement |
| ConnectOrder.LegacyOrder | crates/medium-session/src/lib.rs:341-356 | legacy candidates come by descending priority, ties in grant order, nothing lost, and no other list meets that |
| ConnectOrder.TryIce | crates/medium-session/src/lib.rs:273-296 | the ICE loop stops at the first success among usable candidates with one failure entry per earlier one |
| ConnectOrder.TryPeer | crates/medium-session/src/lib.rs:299-321 | the retry loop for one legacy candidate advances the plan by exactly its attempts |
| ConnectOrder.ConnectServiceTls | crates/medium-session/src/lib.rs:263-339 | against any oracle the result is the first success of the planned attempts, and the failures are exactly the attempts before it, one entry each |
| ConnectOrder.UsableAppend | crates/medium-session/src/lib.rs:273-296 | exactly the usable candidates are tried, each where the checklist has it |
| ConnectOrder.PlanShape | crates/medium-session/src/lib.rs:263-321 | position by position: usable ICE candidates once each, except in relay-only mode, then every legacy candidate max(1, attempts) times in a row |
| ConnectOrder.RelayOnlyStaysOnRelays | crates/medium-session/src/lib.rs:341-356 | relay-only mode never tries ICE or direct TCP |
| Framing.ReadLine | crates/overlay-transport/src/session.rs:72-92 | the byte-at-a-time loop's line, rest and three errors in terms of the position of the newline |
| Framing.ReadWssHello | services/home-node/src/proxy.rs:1086-1116 | the frame loop computes the specified outcome for every message sequence |
| Framing.WsReaderExact | services/home-node/src/proxy.rs:1086-1116 | the frame reader yields the stream's first line exactly when it is not empty and no frame ends between limit and newline, and then leaves exactly the stream after the newline |
| Framing.WsFailuresExact | services/home-node/src/proxy.rs:1086-1116 | without a hello: "missing" exactly for a leading newline; "closed" and "ended" exactly without a newline, told apart by a close frame |
| Framing.LineOutcome | crates/overlay-transport/src/session.rs:72-92 | the byte reader: too large beyond 16384 bytes, end of stream, empty line or the line and the rest |
| Framing.FramingIndependence | services/home-node/src/proxy.rs:1086-1116 | for lines within the limit every split into frames gives the line and remainder of the byte reader |
| Framing.ReadersAgreeIff | services/home-node/src/proxy.rs:1086-1116 | the two readers agree if and only if every over-long line has a frame end between limit and newline |
| Framing.LongLineInOneFrame | services/home-node/src/proxy.rs:1086-1116 | any over-long line in a single frame is accepted by the frame reader |
| Framing.Forward | services/home-node/src/proxy.rs:598-611 | what is forwarded is the initial remainder followed by all later frames, in order |
| Framing.WssByteStream.Read | crates/medium-session/src/lib.rs:135-173 | a read hands out the front of what remains and keeps every byte it does not hand out; it returns 0 exactly for an empty buffer, or when nothing is left over and the next payload is empty or missing |
| Framing.ZeroMeansEndIff | crates/medium-session/src/lib.rs:143-165 | a zero-length read means the end of the stream, wherever reading has got to, if and only if no empty payload has bytes behind it |
| Backends.FlushPending | crates/medium-android-netstack/src/lib.rs:514-549 | against any sequence of writer answers the loop computes the flush whose outcome Backends.FlushExact states on the answers alone |
| Backends.FlushConserves | crates/medium-android-netstack/src/lib.rs:514-549 | accepted bytes followed by pending bytes are unchanged whatever the writer does |
| Backends.FlushExact | crates/medium-android-netstack/src/lib.rs:514-549 | on the answers alone: the writer takes as much as the answers before the first that stops the flush allow, 8192 bytes at most each, and the flush fails exactly if that answer is an error and bytes are left |
| Backends.FlushLeaves | crates/medium-android-netstack/src/lib.rs:398-411 | after a flush a live stream has a queue exactly if bytes are left, namely those the writer did not take; nothing else changes |
| Backends.QueueRemovesIff | crates/medium-android-netstack/src/lib.rs:274-278 | queueing removes a live stream exactly if its writer breaks with bytes left |
| Backends.PumpRemovesIff | crates/medium-android-netstack/src/lib.rs:413-430 | a write pump removes a live stream exactly if it has bytes pending and its writer breaks with some of them left |
| Backends.SpareIsKeptAndUsed | crates/medium-android-netstack/src/lib.rs:351-384 | a removed stream leaves a spare if there was none and a connect succeeds, and the next stream of the service gets that spare |
| Backends.OpensWithoutSpare | crates/medium-android-netstack/src/lib.rs:288-347 | without a spare a stream opens exactly if the connect succeeds |
| PhoneWrites.StalledLeaves | crates/medium-android-netstack/src/lib.rs:514-549 | a flush whose write does not complete in time, reported as timeout or as blocking, leaves at the head of the queue exactly that chunk |
| PhoneWrites.NextOfferSameIff | crates/medium-android-netstack/src/lib.rs:386-411 | in any run of the phone, whatever other streams do in between, the next write after a stalled one offers the same chunk if and only if nothing is queued with it or a full chunk is pending |
| PhoneWrites.QueueSafeIff | crates/medium-android-netstack/src/lib.rs:386-411 | a queue keeps every run of the UDP session intact if and only if, after every stalled write, nothing is added before the next one or a full chunk is pending |
| PhoneWrites.PhoneQueueUnsafe | crates/medium-android-netstack/src/lib.rs:386-411 | a queue that is flushed only when not empty and may grow at any time, as the phone's, does not keep every run intact |
| PhoneWrites.QueuedBytesLost | crates/medium-android-netstack/src/lib.rs:386-411 | for any run of the phone with a short chunk stalled and more bytes queued, and any calm point of the session, a run reports the longer chunk written while the peer has only the shorter one |
| PhoneWrites.AnyGrowthArises | crates/medium-android-netstack/src/lib.rs:386-411 | every such situation is reached by opening a stream and queueing the bytes |
| Backends.IdlePool.Push | crates/medium-android-netstack/src/lib.rs:488-495 | a spare is kept exactly below the limit, at the end of its service's queue, and nothing else changes |
| Backends.IdlePool.Pop | crates/medium-android-netstack/src/lib.rs:497-504 | the oldest spare of the service or none if there is none; an emptied entry is removed and nothing else changes |
| Backends.StreamBackends.OpenBackend | crates/medium-android-netstack/src/lib.rs:288-347 | the maps become those of the specification, with a spare preferred to a connect |
| Backends.StreamBackends.QueueWrite | crates/medium-android-netstack/src/lib.rs:386-396 | the bytes are queued and flushed and a failing stream removed, as specified |
| Backends.StreamBackends.FlushPendingBackend | crates/medium-android-netstack/src/lib.rs:398-411 | a flush of one stream changes that stream's queue only, and reports failure exactly when the first answer that stops the flush is an error and bytes are left |
| Backends.StreamBackends.EnsureIdle | crates/medium-android-netstack/src/lib.rs:351-384 | the pool gains the new spare exactly if the service had none and the connect succeeded |
| Backends.StreamBackends.PumpWrites | crates/medium-android-netstack/src/lib.rs:413-430 | flushes every stream that has something pending, each once in some order, and then removes exactly those that failed |
| Backends.StreamBackends.RemoveStream | crates/medium-android-netstack/src/lib.rs:466-472 | all three maps forget the stream, and a spare is made for its service |
| Backends.PumpIsRun | crates/medium-android-netstack/src/lib.rs:413-430 | a whole write pump is a sequence of the steps that runs consist of |
| Backends.MapsStayConsistent | crates/medium-android-netstack/src/lib.rs:288-472 | in every reachable state streams and services have the same keys, pending writes only live streams, and no service more than its spare |
| Backends.WritesConserved | crates/medium-android-netstack/src/lib.rs:386-430 | a step adds to a live stream's account exactly the bytes queued for it, and no step touches another stream's account |
| Backends.RunConserves | crates/medium-android-netstack/src/lib.rs:386-430 | over any run accepted plus pending bytes of a live stream are exactly the bytes queued since it was opened |
| PhoneStreams.OpensAreFresh | crates/medium-android-netstack/src/lib.rs:261-285 | a phone that handles events in which ids are announced at most once never opens a live stream |
| PhoneStreams.PhoneForwards | crates/medium-android-netstack/src/lib.rs:261-285 | for any run of the network stack and any run of the phone that handles its events in order, accepted plus pending bytes of a live stream are exactly the bytes reported received under its id |

## Left out

- SessionSafety.StreamSafety: holds for callers that repeat a chunk whose write did not succeed and without stray acks (SessionPolicy.SafeIffOnlyRepeats is the exact condition); sequence numbers are unbounded, so wrap-around of the 64-bit counter is not modelled.
- SessionSafety.StreamIntegrity: stray datagrams are taken not to open as data, which is what the cipher is for.
- SessionLedger.DatagramsFit: speaks of packets whose number fits 64 bits.
- Backends.RunConserves: requires that a stream id is opened only while it is not live; PhoneStreams.OpensAreFresh derives that from the order of the stack's events.
- TcpSlots.MediumStack.PumpTcp: errors returned by `listen`, `recv` and `send_slice` are not modelled; the calls are made only on sockets in states that allow them.
- TcpBinding.PollBindsIff: an interface poll may leave a socket in any state with or without buffered bytes, also where smoltcp would not.
- The handshake itself (`connect`, ack bursts, UDP rendezvous, a session restarted by a repeated Hello outside the window): runs start after it.
- That a write does return Ok, which depends on fairness and timeouts; proved are safety, loop termination and that a waiting write always still can (SessionProgress.WaitingWriteCanComplete).
- Sockets, clocks, threads and timeout values: parameters, oracles and monotone time.
- TLS, JSON, HMAC, SHA-256, base64 and the cipher's internals.
- The Swift UDP client (`ForegroundUdpSession.swift`), whose ack wait appends data without comparing its sequence number.
- Backend-to-phone bytes in `pump_reads` and the WebSocket arm of `ActiveBackend::read`, where the code itself does not conserve bytes.
- `selected_ice_paths`, the diagnostic 502 response and the `warm_up` loop of the phone's backends: they do not touch the stream maps or the write queue.
- The host named in the redirect of the HTTP port.
- Unicode lower-casing (a parameter of the hostname functions) and the parsing of host, port and subnet text (parameters).
- The `component` and `related` fields of ICE candidates, which the checklist does not look at, and the classification of local addresses (a parameter).
- `complete_http_request`, `copy_bidirectional`, and the idle stream pool and warm waiters of the Apple client.
- The SQL registry, installers, command lines and user interfaces.
