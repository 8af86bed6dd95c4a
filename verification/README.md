# MQTT client: session protocol and wire codec

A model of an MQTT 3.1.1 / 5.0 client library, in two halves that meet at packets and packet ids, and proofs about both.

**The wire.** Variable byte integers, the fixed header, the property blocks with their running cursor, the packet
writers with their precomputed lengths, and the loop that drains the receive buffer. Buffers are the objects `BytesMut`
and `Reader`, changed in place by methods; every method is tied to a function on byte sequences, and the round trips are
proved about those functions. Bytes are the numbers 0 to 255, text is a byte sequence with a UTF-8 predicate.

**The session.** `TaskHub` owns the ring of 65535 packet ids, the resend list, the two maps of incoming messages, the
connection phase and the keep-alive counter. It is a class whose methods are proved to perform the steps of module
`HubSteps`. Module `Session` puts the hub together with its FIFO queue, the live tasks (one program counter each), and a
broker and network that may do anything, as a transition system. A run is any sequence of actions; the results hold
for every run. The fields of `System` from `log` on are history: no step reads them to decide what to do.

**The references.** What the bytes mean is said a second time, apart from the readers and writers and with the numbers of
the standards: `Numerals` (integers and text), `PropertyValues` and `PropertyBytes` (properties), `PacketBytes` (all that
is received), `SentBytes` and `ConnectBytes` (what is sent). Reader and writer are compared with these, not only with each
other.

How the files depend on each other: `Wire`, `VarInt`, `Properties`, `PropertyLists` → `PublishProps`, `AckProps`,
`Framing` → the packet files → `Framer` → `Streaming`, `RoundTrips`; and `HubSteps` → `TaskHubObject`, `Session` →
`Projections` → `PacketIds`, `RequestLog`, `Receiving`, `KeepAliveChain`, `Lifecycle`, `Handshakes` → `CleanRuns`,
`Strikes`, `LeftoverSenders`, `Deliveries` (on `Receiving` and `Lifecycle`) → `Fates` → `Arrivals`, `HubOutputs` (on
`RequestLog` and `Lifecycle`), `TokenAges` (on `KeepAliveChain`), `PingFailures`; `Transmit`, `PingTask` and
`TaskRuns` are the bodies of the tasks, and `SessionTasks` shows that the tasks of `Session` follow them.

## What turned out

Where a promised property does not hold of the code, the code is kept as it is, the exact condition is proved, and an
input that fails is given. For RecoverId the condition is proved from its two sides, not as one equivalence.

- PUBLISH properties: the cursor gains one byte per subscription identifier. A record reads back exactly when the drift
  is smaller than the last property (`PublishProps.Survives`): always for up to two identifiers, never for three
  one-byte identifiers with no content type behind them.
- DISCONNECT in MQTT 5.0: a reason other than normal without properties is written one byte longer than declared.
- A set of properties that is present but empty reads back as absent.
- The size check in `publish` forgets the property length byte of MQTT 5.0: a QoS 1 or 2 message of exactly the
  limit passes, and its remaining length cannot be encoded. Nor does it look at the topic, whose length has two bytes on
  the wire: in both versions a topic of more than 65535 bytes passes. A message that passes is transmittable otherwise.
- What has been parsed after a read can depend on how the stream was cut. A frame that fails to read ends the drain loop
  with the frames behind it still in the buffer; and a malformed length discards all that is in the buffer, so the bytes
  behind it are lost if they came with it and read if they came later. All cuts agree exactly when no frame before the
  last is bad; for a stream that runs into a malformed length, exactly when every frame is good and that length ends it.
- A RecoverId names only a packet id. After a reconnection with a sender still alive, or when an id is issued between
  the two RecoverIds of a QoS 1 publish, it strikes a request it was not sent for: a QoS 2 publish can then complete
  without PUBCOMP or turn to PUBREL without PUBREC. Reachable states are given for both. A run that is clean for an id,
  with nothing left over for it when a connection is made or the id issued, never strikes a request with that id, and its
  handshake is kept. On the other side, every connection that is unclean for an unacknowledged QoS 2 publish has a
  continuation that strikes it, and every unclean issue has one that strikes the new request.
- An incoming message can be acknowledged and never delivered, and its id held for good. From the moment the hub accepts
  it, at QoS 1 and 2 and so before and after PUBACK, PUBREC and PUBCOMP, no continuation delivers it exactly in these
  cases: its task has died before it sent the affirmation; the hub has stopped for good or is on its way there; or,
  without automatic reconnection, a failed ping is queued in front of the affirmation, or anywhere if that is still to
  be sent. A broker that closes the connection right after PUBACK or PUBCOMP is enough.
- `TaskPing::run` reports a failure twice if all three attempts are spent on sending. The second report outlives the
  reconnection and ends another connection.
- `LastWill::write` writes a property length in MQTT 3.1.1 too. The client's own `read` takes it back, but a reader that
  follows section 3.1.3 of MQTT 3.1.1 never does: a CONNECT decodes to what was written exactly if everything in it fits,
  its login has at least one credential, and it has no will in MQTT 3.1.1.
- An incoming QoS 0 message waits in the hub's queue like any event: no continuation delivers it exactly if the hub has
  stopped or is bound to before it comes to it.

## Model

| member | source | states |
|---|---|---|
| `VarInt.Length` | src/protocol/packet/mod.rs:217-257 | the shifting loop computes the mathematical decoding, with its three outcomes |
| `VarInt.WriteRemainingLength` | src/protocol/packet/mod.rs:299-325 | the writing loop appends the encoding and returns its width |
| `VarInt.DecodeEncode` | src/protocol/packet/mod.rs:217-325 | written lengths up to 268435455 read back with their width whatever follows; greater ones are malformed |
| `VarInt.WidthIsLenLen` | src/protocol/mod.rs:421-435 | `len_len` is the number of bytes written exactly up to 268435455 |
| `VarInt.EncodeMinimal` | src/protocol/packet/mod.rs:299-325 | no accepted encoding of a number is shorter than the one written (section 1.5.5 of MQTT 5.0) |
| `VarInt.DecodeStable` | src/protocol/packet/mod.rs:217-257 | a verdict on a prefix, success or malformed, is the verdict on every extension |
| `Numerals.DecodeMeans` | src/protocol/packet/mod.rs:217-257 | which one to four bytes are which number, written out for each width; four bytes with the high bit are malformed, fewer wait |
| `Numerals.U16IsBigEndian` | src/protocol/packet/mod.rs:333-339 | two bytes are read most significant first |
| `Numerals.WritesBigEndian` | src/protocol/packet/mod.rs:287-291 | 16-bit and 32-bit integers are written so |
| `Numerals.FieldMeans` | src/protocol/packet/mod.rs:259-291 | a field is a two-byte length and exactly that many bytes |
| `Numerals.TextIsUtf8` | src/protocol/packet/mod.rs:276-284 | text is taken exactly if it is the UTF-8 encoding of some scalar values |
| `Framing.SplitDeclared` | src/protocol/packet/mod.rs:88-115 | what the header splitter does with a header and any bytes: garbage, wait, or exactly the declared frame |
| `Framing.SplitStable` | src/protocol/packet/mod.rs:199-212 | once a frame is whole, or a length malformed, more bytes only lengthen what is left |
| `Properties.Reader.GetItem` | src/protocol/packet/publish.rs:217-268 | one turn of a property loop takes the item off the front, and adds its length plus its drift to the cursor |
| `Properties.Reader.GetBlock` | src/protocol/packet/publish.rs:205-281 | the cursor loop reads the block that the recursive reader reads, on every input |
| `Properties.ReadItemExact` | src/protocol/packet/disconnect.rs:207-241 | a property is read from exactly its own encoding |
| `Properties.ReadItemsLanguage` | src/protocol/packet/disconnect.rs:194-248 | readers other than that of PUBLISH: which byte strings read as which items, both ways; the length consumed is at least the declared one, and less without the last item |
| `Properties.ReadWrittenBlock` | src/protocol/packet/disconnect.rs:194-274 | a written block reads back as its items, and an empty one as no properties |
| `PropertyBytes.ItemSpelled` | src/protocol/mod.rs:382-417 | a property is read from exactly the bytes that spell it: its identifier number, and a value of the kind the standard has for it |
| `PropertyBytes.BlockLanguage` | src/protocol/packet/publish.rs:205-281 | for every property reader, that of PUBLISH included: which bytes read as which properties, both ways; before each property the cursor, which counts a subscription identifier one byte too long, falls short of the declared length, and behind the last it does not |
| `PublishProps.WriteProperties` | src/protocol/packet/publish.rs:283-329 | appends the length that `len` adds up, then the properties that are present, in the order of the source; by their numbers they spell out the record |
| `PublishProps.GetProperties` | src/protocol/packet/publish.rs:205-281 | the in-place reader agrees with the reading function; the record is what the items spell out by the numbers 1, 2, 3, 8, 9, 11, 35 and 38 |
| `PublishProps.PropertiesMean` | src/protocol/packet/publish.rs:205-281 | for all bytes that read: each field is the last value with its own number, user properties and subscription identifiers are all of them in order |
| `PublishProps.PropertiesRoundTrip` | src/protocol/packet/publish.rs:205-329 | write then read gives the record and the payload back exactly for the records that survive the drift |
| `PublishProps.DriftFitsExact` | src/protocol/packet/publish.rs:256-261 | the drift condition on the record is the loop's own: the cursor is still short before the last item |
| `PublishProps.DriftThreshold` | src/protocol/packet/publish.rs:256-261 | up to two identifiers always survive; three one-byte ones, or more than five, with no content type never do |
| `PublishPacket.WritePublish` | src/protocol/packet/publish.rs:123-154 | appends the frame and returns its length |
| `PublishPacket.GetPublish` | src/protocol/packet/publish.rs:75-121 | the in-place reader agrees with the reading function, with each error |
| `PublishPacket.ReadBody` | src/protocol/packet/publish.rs:75-154 | the body of a written PUBLISH reads back exactly when topic, properties and id survive |
| `PublishPacket.ReadPublishSound` | src/protocol/packet/publish.rs:75-121 | what any bytes can read as: the right protocol version and only readable properties |
| `PublishPacket.LenIsWritten` | src/protocol/packet/publish.rs:57-73 | the length added up beforehand is the length written exactly when four bytes can encode every identifier and the property length |
| `PublishPacket.DupChangesOneBit` | src/traits/packet_dup.rs:13-26 | the duplicate differs in bit 3 of the first byte and nowhere else |
| `PacketBytes.PublishLanguage` | src/protocol/packet/publish.rs:75-121 | which bytes are which PUBLISH, both ways: flag bits, topic, packet id, properties by number, payload |
| `RoundTrips.PublishRoundTrip` | src/protocol/packet/mod.rs:88-180 | written and read through the framer a PUBLISH returns, leaving exactly the bytes behind it, if and only if it is transmittable |
| `RoundTrips.SizeCheckExact` | src/tasks/task_client/mod.rs:83-85 | a message that the client's size check admits is transmittable exactly if its topic fits in two bytes of length and it is not of the one size too many, in MQTT 5.0 above QoS 0 |
| `RoundTrips.PublishesArrive` | src/tasks/task_network/mod.rs:247-373 | any list of transmittable PUBLISHes, cut anyhow, is dispatched in order with nothing left over |
| `RoundTrips.DisconnectThroughFramer` | src/protocol/packet/disconnect.rs:59-127 | DISCONNECT through the framer, if and only if it is transmittable |
| `RoundTrips.AckThroughFramer` | src/protocol/packet/pubcommon.rs:128-260 | PUBACK, PUBREC, PUBREL and PUBCOMP as built by `new`, in both versions, with every id |
| `RoundTrips.WriteRequest` | src/protocol/packet/subscribe.rs:36-76 | SUBSCRIBE and UNSUBSCRIBE append their frame |
| `SentBytes.RequestWritten` | src/protocol/packet/subscribe.rs:36-76 | the bytes of a SUBSCRIBE (0x82) or UNSUBSCRIBE (0xA2): first byte, length, packet id, properties behind their length, filters |
| `SentBytes.RequestIdUnique` | src/protocol/packet/unsubscribe.rs:36-76 | such bytes have one first byte and one packet id |
| `RoundTrips.RequestSelfDelimiting` | src/protocol/packet/unsubscribe.rs:36-76 | they are one frame exactly when four bytes can announce their length |
| `RoundTrips.ConnectSelfDelimiting` | src/protocol/packet/connect.rs:64-146 | so is CONNECT, whatever its flags byte |
| `DisconnectPacket.WriteDisconnect` | src/protocol/packet/disconnect.rs:98-127 | appends the frame, short or long, and returns the number of bytes |
| `DisconnectPacket.GetDisconnect` | src/protocol/packet/disconnect.rs:59-91 | the in-place reader agrees with the reading function |
| `DisconnectPacket.DisconnectRoundTrip` | src/protocol/packet/disconnect.rs:59-274 | exactly which DISCONNECTs read back unchanged with nothing left over |
| `DisconnectPacket.DeclaresWhatItWrites` | src/protocol/packet/disconnect.rs:31-57 | the declared length is the written one unless the reason is not normal and there are no properties |
| `DisconnectPacket.PropertiesMean` | src/protocol/packet/disconnect.rs:194-248 | for all bytes that read: each field is the last value with its number, 17, 28 or 31, and the user properties are all with 38 |
| `PacketBytes.DisconnectLanguage` | src/protocol/packet/disconnect.rs:59-91 | which bytes are which DISCONNECT, both ways |
| `Acks.GetAck` | src/protocol/packet/pubcommon.rs:128-223 | the in-place reader of the four acknowledgements agrees with the reading function, down to the property record |
| `Acks.AckRoundTrip` | src/protocol/packet/pubcommon.rs:55-260 | a new acknowledgement splits off as one frame and reads back as itself |
| `SentBytes.PlainAckWritten` | src/protocol/packet/pubcommon.rs:231-260 | the four bytes of a new acknowledgement: 0x40, 0x50, 0x62 or 0x70, a length of two, the packet id |
| `PacketBytes.AckLanguage` | src/protocol/packet/pubcommon.rs:128-223 | which bytes are which acknowledgement, both ways: its id, its reason from the third byte on, its properties from the fourth on |
| `Acks.GetListAck` | src/protocol/packet/suback.rs:32-86 | the in-place reader of SUBACK and UNSUBACK agrees with the reading function, down to the property record |
| `Acks.AckPropertiesMean` | src/protocol/packet/pubcommon.rs:183-223 | in the record read the reason string is that of the last such property and the user properties are all of them, in order |
| `Acks.ReadCodesExact` | src/protocol/packet/unsuback.rs:50-90 | the return codes are all the bytes left, accepted exactly if each is known |
| `Acks.SubAckLanguageV4` | src/protocol/packet/suback.rs:32-86 | which bodies are a SUBACK in MQTT 3.1.1 |
| `PacketBytes.SubAckLanguage` | src/protocol/packet/suback.rs:32-86 | the same in both versions, with properties and the codes of each |
| `PacketBytes.UnsubAckLanguage` | src/protocol/packet/unsuback.rs:50-90 | the same for UNSUBACK; in MQTT 3.1.1 only the id is looked at |
| `PacketBytes.ConnAckLanguage` | src/protocol/packet/connack.rs:17-52 | which bytes are which CONNACK: session-present bit, code, properties by number |
| `Acks.GetConnAck` | src/protocol/packet/connack.rs:17-52 | the in-place reader of CONNACK agrees with the reading function, in both versions, down to the property record |
| `Acks.ConnAckPropertiesMean` | src/protocol/packet/connack.rs:191-324 | every field of the CONNACK record is the value of the last property with its identifier, and the user properties are all of them, in order |
| `ConnectPacket.WriteConnect` | src/protocol/packet/connect.rs:64-146 | the whole buffer after writing and patching, on any buffer |
| `ConnectPacket.PatchHitsFlags` | src/protocol/packet/connect.rs:88-143 | on an empty buffer the patch makes the frame with the right flags, and disturbs no other byte |
| `ConnectPacket.FlagsAreDisjoint` | src/protocol/packet/connect.rs:90-143 | each group of flags is recovered from the union, and the reserved bit is clear |
| `ConnectBytes.FlagsAreNumber` | src/protocol/packet/connect.rs:90-143 | the flags byte as a number: 2, 4, 8 times the QoS, 32, 64 and 128 |
| `ConnectBytes.ConnectDecodes` | src/protocol/packet/connect.rs:64-146 | an independent decoder of the whole packet gives back what was written if and only if everything fits, the login has a credential, and there is no will in MQTT 3.1.1 |
| `ConnectPacket.LenIsWritten` | src/protocol/packet/connect.rs:68-104 | the length added up beforehand is the length written exactly when four bytes can encode the length of the will properties |
| `ConnectPacket.WriteWill` | src/protocol/packet/connect/will.rs:83-104 | appends topic, message and properties and returns the will's flags |
| `ConnectPacket.WillPropertiesRoundTrip` | src/protocol/packet/connect/willproperties.rs:54-165 | will properties read back exactly when there are some and each is readable |
| `ConnectPacket.PropertiesMean` | src/protocol/packet/connect/willproperties.rs:54-165 | for all bytes that read: each will property is the last value with its number, 1, 2, 3, 8, 9 or 24, and the user properties are all with 38 |
| `ConnectPacket.WriteLogin` | src/protocol/packet/connect/login.rs:51-64 | appends the credentials that are not empty and returns their flags |
| `ConnectPacket.GetWill` | src/protocol/packet/connect/will.rs:53-81 | the in-place reader of the will agrees with the reading function, with each error |
| `ConnectPacket.GetLogin` | src/protocol/packet/connect/login.rs:19-35 | the same for the login |
| `ConnectPacket.TailRoundTrip` | src/protocol/packet/connect.rs:132-143 | with the patched flags the tail reads back as the will and login written, exactly when each survives |
| `Framer.TakePacket` | src/protocol/packet/mod.rs:88-180 | `read_from_network` on the buffer object, with what it consumes in every case |
| `PacketBytes.SplitLanguage` | src/protocol/packet/mod.rs:88-115 | the splitter cuts off exactly a first byte, a length in one to four bytes, and a body of that length |
| `PacketBytes.NetworkLanguage` | src/protocol/packet/mod.rs:88-180 | a packet is received from a stream if and only if the stream starts with a frame that denotes it, by type number, and the rest is untouched |
| `PacketBytes.NetworkOtherwise` | src/protocol/packet/mod.rs:88-180 | without a whole frame: when it waits, when it asks for a header, when it throws the buffer away |
| `PacketBytes.FrameIsTaken` | src/protocol/packet/mod.rs:88-180 | a whole frame is taken off alone, and is an error exactly if it denotes no packet |
| `Framer.DealConnectedNetworkPacket` | src/tasks/task_network/mod.rs:247-373 | the drain loop leaves the specified rest, and puts on the bus the packets of exactly the frames that read and are no CONNACK, each once and in order |
| `PacketBytes.PacketsArrive` | src/tasks/task_network/mod.rs:247-373 | any packets of any kind but CONNACK, cut anyhow, are put on the bus as they are, in order |
| `Framer.DrainTurn` | src/tasks/task_network/mod.rs:247-373 | one turn of the loop against the splitter: what is consumed, when it goes on |
| `Streaming.FeedTakesPrefix` | src/tasks/task_network/mod.rs:247-373 | for every stream and every cut: frames read plus buffer are all the bytes fed, unless a malformed length discarded the buffer |
| `Streaming.ChunkIndependence` | src/tasks/task_network/mod.rs:247-373 | for every stream: all cuts give the same result if and only if no frame before the last is bad; for one that runs into a malformed length, if and only if every frame is good and the length is its end |
| `Streaming.WrittenPacketsArrive` | src/tasks/task_network/mod.rs:247-373 | any well-formed frames in any chunks are all read, in order, with an empty buffer after |
| `Streaming.BadFrameHidesNext` | src/tasks/task_network/mod.rs:247-373 | a bad frame with a good one behind it: two cuts with different results |
| `Streaming.MalformedLengthTakesNext` | src/tasks/task_network/mod.rs:247-373 | a malformed length with a good frame behind it: two cuts with different results |
| `TaskHubObject.TaskHub.constructor` | src/tasks/task_hub/mod.rs:76-97 | the ring is filled with 1 to 65535 in order |
| `TaskHubObject.TaskHub.RequestId` | src/tasks/task_client/data/traces/mod.rs:174-182 | takes the oldest free id; an empty ring changes nothing |
| `TaskHubObject.TaskHub.DealClientData` | src/tasks/task_hub/mod.rs:481-528 | accepting a request, as the step function says |
| `TaskHubObject.TaskHub.IndexOf` | src/tasks/task_hub/mod.rs:378-382 | the search finds the first entry with the id |
| `TaskHubObject.TaskHub.Recover` | src/tasks/task_hub/mod.rs:376-397 | completing or turning an entry, freeing the id, restarting the keep-alive timer |
| `TaskHubObject.TaskHub.Receive` | src/tasks/task_hub/mod.rs:418-461 | taking an incoming message by its QoS: QoS 0 is delivered at once, above it a new id is held and started, a held one ignored |
| `TaskHubObject.TaskHub.DealHubMsg` | src/tasks/task_hub/mod.rs:369-479 | every message to the hub, as the step function says; a QoS 0 message is delivered at once |
| `TaskHubObject.TaskHub.DealClientCommand` | src/tasks/task_hub/mod.rs:530-547 | commands while connected |
| `TaskHubObject.TaskHub.UpdateConnectedState` | src/tasks/task_hub/mod.rs:221-267 | network events while connected |
| `TaskHubObject.TaskHub.FinishConnect` | src/tasks/task_hub/mod.rs:305-365 | the end of a connection attempt, and the loop that restarts the resend list |
| `TaskHubObject.TaskHub.CloseConnection` | src/tasks/task_hub/mod.rs:134-157 | where the hub goes from ToDisconnect, by reason |
| `PacketIds.ConservedInEveryRun` | src/tasks/task_hub/mod.rs:376-397 | ring and resend list together hold each of 1 to 65535 exactly once, in every reachable state |
| `PacketIds.RecoverConserves` | src/tasks/task_hub/mod.rs:386-397 | giving an id back keeps that and never finds the ring full |
| `PacketIds.RequestConserves` | src/tasks/task_hub/mod.rs:486-525 | allocation keeps it, and changes nothing on an empty ring |
| `PacketIds.ConservedMeans` | src/tasks/task_hub/mod.rs:89-97 | hence ids in flight are distinct, not zero, and exactly those not in the ring (section 2.3.1 of MQTT 3.1.1) |
| `PacketIds.OneHolder` | src/tasks/task_hub/mod.rs:378-385 | a RecoverId has at most one target |
| `PacketIds.IssuedInRingOrder` | src/tasks/task_client/data/traces/mod.rs:174-182 | over any run ids are issued in ring order |
| `PacketIds.ReuseDistance` | src/tasks/task_publish/publish_qos_1.rs:68-81 | an id freed with n requests in flight is not issued again until 65534 - n others have been, and then is the next |
| `PacketIds.SecondRecoverIsNoOp` | src/tasks/task_publish/publish_qos_1.rs:77-81 | within that window the second RecoverId of a QoS 1 publish does nothing, over every run |
| `RequestLog.RefinesInEveryRun` | src/tasks/task_hub/unacknowledged.rs:19-48 | the resend list is the accepted and not completed requests, in acceptance order, PUBREL in place of PUBLISH |
| `RequestLog.ReconnectRestartsLog` | src/tasks/task_hub/mod.rs:125-129 | a connection starts exactly these, in that order (section 4.6 of MQTT 3.1.1) |
| `RequestLog.RunOnlyForward` | src/tasks/task_hub/unacknowledged.rs:30-48 | over any run no request goes back from PUBREL to PUBLISH or from completed to open |
| `Receiving.ReceiveInEveryRun` | src/tasks/task_hub/mod.rs:418-476 | the invariant of the receiving side, in every reachable state |
| `Receiving.AtMostOnce` | src/tasks/task_hub/mod.rs:418-476 | no message is handed to the user twice; held messages lie inside held ids; one receive task and one pair of affirmations per id |
| `Receiving.RepeatIgnored` | src/tasks/task_hub/mod.rs:427-450 | a repeat of an id still held changes nothing at all |
| `Receiving.CompletedIsNotLost` | src/tasks/task_publish/publish_rx_qos_2.rs:49-71 | whenever PUBCOMP has been written the message is delivered or its AffirmRxPublish is queued, first for its id |
| `Receiving.ReleasedAfterDelivery` | src/tasks/task_hub/mod.rs:462-475 | when the hub comes to release an id, any message ever accepted under it has been delivered and acknowledged, the id is held with no message, and no task or further event concerns it |
| `Receiving.HeldUntilDone` | src/tasks/task_publish/publish_rx_qos_2.rs:49-71 | from acceptance on, over every run, the id stays held until the message is delivered and its PUBCOMP or PUBACK is written |
| `Receiving.StrandedForever` | src/tasks/task_hub/mod.rs:462-475 | an id whose task died with nothing queued stays held in every continuation, and its message is never delivered |
| `Receiving.PubAckThenLost` | src/tasks/task_publish/publish_rx_qos_1.rs:43-53 | a run after which a QoS 1 message is acknowledged and never delivered, whatever follows |
| `Deliveries.AcknowledgedFate` | src/tasks/task_publish/publish_rx_qos_1.rs:43-53 | over every run, after PUBACK a message is delivered, or its affirmation is queued or about to be, or else it is left behind: exactly if its task died on the receipt of the PUBACK |
| `Deliveries.LostForGood` | src/tasks/task_hub/mod.rs:462-475 | a message left behind is so in every continuation, and never delivered |
| `Deliveries.DeliveredExactlyWhenTaken` | src/tasks/task_hub/mod.rs:467-475 | with k events in front of its affirmation, a message is delivered in exactly the continuations in which the hub takes more than k events |
| `Deliveries.CompletedFate` | src/tasks/task_publish/publish_rx_qos_2.rs:49-71 | over every run, after PUBCOMP a message is delivered, or waits behind k events as above; then no continuation delivers it if and only if the hub has stopped for good or is bound to before it gets there |
| `Deliveries.CompletedThenLost` | src/tasks/task_hub/mod.rs:221-267 | a run with PUBCOMP written after which no continuation delivers the message or frees its id |
| `Fates.AcceptedFate` | src/tasks/task_hub/mod.rs:418-476 | over every run, for every message accepted or answered for, wherever its task stands: no continuation delivers it if and only if it is left behind, or the hub has stopped or is bound to before it has taken what is in front of the affirmation |
| `Fates.AnsweredIsAccepted` | src/tasks/task_publish/publish_rx_qos_1.rs:43-53 | over every run, a message that PUBACK, PUBREC or PUBCOMP has been written for is held by the hub or delivered |
| `Fates.AcknowledgedThenClosed` | src/tasks/task_hub/mod.rs:221-267 | a run with PUBACK written and the task alive after which no continuation delivers the message or frees its id |
| `Arrivals.QoS0Taken` | src/tasks/task_hub/mod.rs:419-426 | taking a QoS 0 message delivers it in that step and changes nothing else |
| `Arrivals.HigherQoSTaken` | src/tasks/task_hub/mod.rs:427-460 | taking a QoS 1 or 2 message with a free id holds it, starts one task of its QoS and id, and changes nothing else |
| `Arrivals.QoS0TakenOnce` | src/tasks/task_hub/mod.rs:419-426 | over every run, a QoS 0 message that is queued has not been delivered before |
| `Arrivals.QoS0Fate` | src/tasks/task_hub/mod.rs:419-426 | over every run, with k events in front of it: delivered in exactly the continuations in which the hub takes more than k, and in none if and only if the hub has stopped or is bound to before |
| `KeepAliveChain.ChainNeverBreaks` | src/tasks/task_hub/data.rs:33-46 | while connected, the latest token is asleep or queued, or a ping task runs, or its result is queued |
| `KeepAliveChain.OneLatest` | src/tasks/task_hub/data.rs:33-46 | for the first 2^32 - 1 timers no two in flight carry the same token |
| `TokenAges.NumberedInEveryRun` | src/tasks/task_hub/data.rs:33-46 | over every run each pending timer belongs to one reset, no two to the same, and its token is the number of that reset modulo 2^32 |
| `TokenAges.OneLatestByAge` | src/tasks/task_hub/data.rs:33-46 | over every run of any length: if each pending timer was started within the last 2^32 - 1 resets, at most one carries the latest token |
| `KeepAliveChain.StaleTokenIgnored` | src/tasks/task_hub/mod.rs:412-417 | a token that is not the latest changes nothing |
| `KeepAliveChain.TimersExactlyOnReset` | src/tasks/task_hub/mod.rs:307-400 | a timer starts exactly on a completed request, an answered ping and a new connection |
| `KeepAliveChain.ResetOutdatesTheRest` | src/tasks/task_hub/data.rs:33-46 | such a reset makes every timer in flight stale but the one it starts, over every run, for the first 2^32 - 1 timers |
| `Lifecycle.CommandIsFinal` | src/tasks/task_hub/mod.rs:113-161 | after a disconnect command the hub is never connected or connecting again and otherwise frozen; with automatic reconnection it stops only by command |
| `Lifecycle.DisconnectedIsAbsorbing` | src/tasks/task_hub/mod.rs:113-161 | Disconnected is absorbing |
| `Lifecycle.NoReturnWithoutAutoReconnect` | src/tasks/task_hub/mod.rs:134-157 | without automatic reconnection a hub that has left Connected never tries again |
| `Lifecycle.PhaseChangesAreTold` | src/tasks/task_hub/mod.rs:221-365 | the user is told of a connection exactly when one is made, and of its loss exactly when it is lost other than by command |
| `HubOutputs.PhaseDiagram` | src/tasks/task_hub/mod.rs:113-365 | every change of phase there is, with its cause, both ways |
| `HubOutputs.RequestAccepted` | src/tasks/task_hub/mod.rs:481-528 | what each request is kept and logged as, and the task that starts for it |
| `HubOutputs.RecoveryTaken` | src/tasks/task_hub/mod.rs:376-397 | in every run a RecoverId for an unfinished request starts the PUBREL task of an open QoS 2 publish in that step, and completes any other: its id goes to the end of the ring and the timer starts again |
| `HubOutputs.QoS0Request` | src/tasks/task_hub/mod.rs:507-513 | a QoS 0 publish is handed on with its own trace and nothing is kept |
| `HubOutputs.SessionFlagIsTold` | src/tasks/task_hub/mod.rs:305-322 | the user is told of a connection with the flag the broker sent |
| `HubOutputs.ClosesExactly` | src/tasks/task_hub/mod.rs:134-157 | the network is told to disconnect exactly when the hub leaves ToDisconnect |
| `HubOutputs.FailsExactly` | src/tasks/task_hub/mod.rs:305-577 | a step ends in an error exactly when no id is free for a request, on a forced stop, or after a failed connection attempt without automatic reconnection; giving an id back never does |
| `HubOutputs.OrderlyStop` | src/tasks/task_hub/mod.rs:530-547 | a disconnect command stops the hub, which then closes the connection and is disconnected |
| `Handshakes.CompleteOnlyWhenAcknowledged` | src/tasks/task_hub/unacknowledged.rs:30-48 | over every run, for a request that is not struck: complete only after its own acknowledgement; for QoS 2 its PUBREC and a later PUBCOMP |
| `Handshakes.PubRelOnlyAfterPubRec` | src/tasks/task_publish/publish_qos_2_rel.rs:53-74 | no PUBREL is written before the PUBREC of its publish was consumed |
| `Handshakes.EveryCopyCarriesItsId` | src/tasks/task_publish/publish_qos_2.rs:46-74 | everything written for a request carries the id it was given |
| `CleanRuns.CleanInEveryRun` | src/tasks/task_publish/publish_qos_1.rs:59-84 | id by id: in a run that connects, and issues the id, only with no sender for it left over and no RecoverId for it queued, no request with that id is ever struck, whatever happens to other ids |
| `CleanRuns.CleanRunsCompleteInOrder` | src/tasks/task_publish/publish_qos_2_rel.rs:53-74 | so the handshake of a request holds in every run that is clean for its id |
| `CleanRuns.FirstConnectionIsClean` | src/tasks/task_hub/mod.rs:123-130 | the first connection never breaks that condition, for any id |
| `LeftoverSenders.UncleanConnectionStrikes` | src/tasks/task_hub/mod.rs:123-130 | the converse, over every run: a connection that is not clean for the id of a QoS 2 publish still unacknowledged has a continuation that strikes it |
| `LeftoverSenders.UncleanIssueStrikes` | src/tasks/task_hub/mod.rs:486-525 | an id that is not issued cleanly has a continuation that strikes the request that gets it, of any kind, if the hub can come to the end of its queue |
| `LeftoverSenders.TurnedInEveryRun` | src/tasks/task_hub/unacknowledged.rs:30-48 | over every run, a PUBREL task or a report of its PUBCOMP exists only for a publish that has turned to PUBREL |
| `Strikes.ReconnectStrikes` | src/tasks/task_hub/mod.rs:125-129 | a reachable state with a QoS 2 publish complete and no PUBCOMP ever sent |
| `Strikes.ReissueStrikes` | src/tasks/task_publish/publish_qos_1.rs:68-81 | a reachable state with a QoS 2 publish turned to PUBREL and no PUBREC ever sent |
| `Transmit.Packet.DupData` | src/traits/packet_dup.rs:20-25 | sets the flag on the packet and returns its bytes |
| `Transmit.TimeoutRx` | src/tasks/utils.rs:42-53 | skips every acknowledgement of another id |
| `Transmit.CompleteToTxPacket` | src/tasks/utils.rs:11-40 | the packet, then one cached copy after each timeout; how it ends and with how many copies is what the moments and receipts lead to (`Transmit.Delivers`); what it leaves of the receipts |
| `Transmit.DeliveryMeans` | src/tasks/utils.rs:11-53 | completed, failed or waiting, and after how many copies, said moment by moment from before the first write, both ways |
| `Transmit.CompletesExactlyOnItsAck` | src/tasks/utils.rs:11-53 | from before the first write: it succeeds if and only if the first receipt is given and its own acknowledgement comes before the channel closes or a receipt is bad or outstanding, with one copy per timeout before that |
| `Transmit.CopyDiffersInDupBit` | src/traits/packet_dup.rs:13-71 | a copy differs only in the DUP bit, and only for PUBLISH (section 3.3.1.1 of MQTT 3.1.1) |
| `Transmit.CopyReadsBack` | src/traits/packet_dup.rs:13-26 | every copy of a transmittable PUBLISH reads back as the same message and id, marked DUP |
| `TaskRuns.RunSender` | src/tasks/task_publish/publish_qos_1.rs:46-85 | what a sending task writes, tells the hub and reports, in order; on the bytes: every write reads back as the user's message with its own QoS and id, DUP only on copies, or is the PUBREL, SUBSCRIBE or UNSUBSCRIBE with the id |
| `TaskRuns.WritesMean` | src/tasks/task_publish/publish_qos_2.rs:46-74 | the bytes of the first write and of every copy, for all five senders |
| `TaskRuns.RunQos0` | src/tasks/task_publish/publish_qos_0.rs:33-49 | one write that reads back as the message at QoS 0, reported once it has its receipt |
| `TaskRuns.RunRxQos2` | src/tasks/task_publish/publish_rx_qos_2.rs:49-71 | the same for the QoS 2 receiver, PUBREC and PUBCOMP with the id by their bytes |
| `TaskRuns.RunRxQos1` | src/tasks/task_publish/publish_rx_qos_1.rs:43-53 | the same for the QoS 1 receiver, PUBACK with the id by its bytes |
| `TaskRuns.RxQos2Order` | src/tasks/task_publish/publish_rx_qos_2.rs:62-69 | however the exchange goes: delivery is ordered before PUBCOMP, PUBCOMP before the release |
| `SessionTasks.SenderFollows` | src/tasks/task_publish/publish_qos_2.rs:46-74 | at every point of any sequence of turns, a send task of the transition system has put out what its body would have by then |
| `SessionTasks.EndedSenderDidItsBody` | src/tasks/task_publish/publish_qos_2_rel.rs:53-74 | once it has ended, exactly what the body does from start to end in an exchange that is given and completes |
| `SessionTasks.EndedReceiverDidItsBody` | src/tasks/task_publish/publish_rx_qos_2.rs:49-71 | the same for the QoS 2 receive task |
| `SessionTasks.EndedReceiver1DidItsBody` | src/tasks/task_publish/publish_rx_qos_1.rs:43-53 | the same for the QoS 1 receive task, with its receipt arrived |
| `SessionTasks.LiveReceiver1IsInItsBody` | src/tasks/task_publish/publish_rx_qos_1.rs:43-53 | at every point of any sequence of turns it has put out an initial part of that |
| `PingTask.Run` | src/tasks/task_ping/mod.rs:36-70 | the two loops report what the ping task of module Session reports, turn by turn |
| `PingTask.PingOutcome` | src/tasks/task_ping/mod.rs:36-70 | success, failure or failure twice, by which of the attempts succeed |
| `PingFailures.SecondFailureEndsAnotherConnection` | src/tasks/task_hub/mod.rs:401-408 | of two failures anywhere in the queue each ends the connection on which the hub comes to it, and between the two a new connection has been made |
| `PingFailures.FailureIsDoubled` | src/tasks/task_ping/mod.rs:36-70 | a reachable state with both failures at the front |

## Left out

- Tokio, sockets, TLS and real time: reads are arbitrary chunks, timeouts and deaths of tasks are steps of the environment.
- The event bus: FIFO queues that lose nothing; a write whose receipt never comes ends the task (`TaskDies`).
- The public client API, options, logging and error conversions; `HubError` is one flag in `Effects`.
- The builders of SUBSCRIBE and UNSUBSCRIBE: their property and filter bytes are given; no reader for them exists in the repository.
- `ConnectProperties`, which `Connect::new` never sets, and the MQTT 5.0 writing of acknowledgements with a reason string or user properties, whose lengths disagree with the bytes written.
- The names of reason and return codes: which bytes are codes is modelled, what each is called is not.
- The property loops of the repository are one loop over a set of accepted properties; only the identifier of PUBLISH drifts.
- What a reader object holds after a failed read: nothing looks at it again.
- The first read of a connection attempt, where one byte is an error rather than a wait.
- QoS 0 sending takes no packet id and is never acknowledged; its task is not among those of module Session.
- Eventual delivery, and what a broker makes of any of this.
- `ConnectPacket.WriteConnect`: on a buffer that is not empty the patch hits an earlier byte, as its contract says; `PatchHitsFlags` is for the empty buffer that the caller always uses.
- `KeepAliveChain.OneLatest`: says nothing once the 32-bit counter has wrapped; `TokenAges.OneLatestByAge` does, by the age of the timers.
- `CleanRuns.CleanInEveryRun`: goes one way, as an unclean run need not strike anything; `LeftoverSenders` says when it can.
- `LeftoverSenders.UncleanConnectionStrikes`: for QoS 2 publishes not yet turned to PUBREL; for the others a leftover of the same request does no harm until its id is issued again, which is the other theorem.
