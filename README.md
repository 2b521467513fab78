# meshtastic-forwarder, modelled in Dafny

meshtastic-forwarder sits between a Meshtastic radio and the applications that use it. The server talks to the radio over its serial client API:
- inbound, a byte-oriented frame reader;
- outbound, a frame writer with two paced lanes.

On top of that link the server keeps:
- a link manager that assigns packet ids and waits for routing acknowledgements;
- a stamping step applied to every outgoing packet;
- caches of the radio's channel table, config sections, node database and own-node cells;
- an MQTT proxy that bridges the radio's client-proxy messages to a broker;
- bearer-token access control for its HTTP and web-socket endpoints.

A client library gives chat bots helpers to build, slice and send text messages and to keep per-user conversation history.

This project models that core:
- The state machines and pure decisions are functions over datatypes.
- The components that update fields in place are classes whose methods state their whole new state.
- Each operation is tied by a lemma or a method postcondition to its partner: the reader and the writer's frames, the id generator and its successor rule, the subscription diff and the set it must reach, the CSV token list and its rendering, hex rendering and its reading.

Notes on the model:
- Protobuf messages are datatypes that hold only the fields the forwarder reads.
- Parsing and serialising are function parameters.
- Clock readings, random seeds and the answers of the HTTP server or MQTT broker are inputs.
- Packet ids and node numbers are the unsigned reading of Kotlin's 32-bit `Int`. So the broadcast id, Kotlin's `-1`, is `0xFFFFFFFF` here.
- The two copies of the serial-port configuration read their URI identically:
  - `meshtastic-forwarder-server/.../MeshtasticClientPortConfig.kt`
  - `server/.../MeshtasticClientConfig.kt`

  One module, `PortConfig`, models both; the table cites the first, and lines 16-33 of the second are the same code.

## Model

| member | source | states |
|---|---|---|
| FrameConstants.Repeat | src/main/kotlin/info/skyblond/meshtastic/forwarder/api/client/Constants.kt:26 | `n` copies of a byte: the length is `n` and every element is that byte |
| FrameConstants.WakeUpShape | src/main/kotlin/info/skyblond/meshtastic/forwarder/api/client/Constants.kt:16-26 | the magic bytes differ, the wake-up preamble is 32 copies of `0x94`, and `0xC3` never occurs in it |
| FrameConstants.LimitsFitLengthField | src/main/kotlin/info/skyblond/meshtastic/forwarder/api/client/Constants.kt:6-11 | both 512-byte limits are positive and fit the 16-bit length field |
| FrameReader.Zeros | server/src/main/kotlin/info/skyblond/meshtastic/forwarder/api/client/MeshtasticClientApiReader.kt:106-109 | a fresh `ByteArray(length)` has that length and holds only zeros |
| FrameReader.ProcessByte | server/src/main/kotlin/info/skyblond/meshtastic/forwarder/api/client/MeshtasticClientApiReader.kt:55-128 | the reader's step never emits a body outside 1..512 bytes, and every state it reaches is well formed (position inside the buffer) |
| FrameReader.TransitionTable | server/src/main/kotlin/info/skyblond/meshtastic/forwarder/api/client/MeshtasticClientApiReader.kt:66-128 | Each next state is characterised, in both directions. Start1 advances only on `0x94`; Start2 advances only on `0xC3`; the MSB is stored; a length in 1..512 opens a buffer of exactly that size at position 0. A body is emitted exactly at the last position, holding the byte just written; otherwise the position advances by one. |
| FrameReader.FeedAppend | server/src/main/kotlin/info/skyblond/meshtastic/forwarder/api/client/MeshtasticClientApiReader.kt:30-53 | feeding is compositional, so a stream can be cut anywhere, as the read buffer cuts it |
| FrameReader.FeedSnoc | server/src/main/kotlin/info/skyblond/meshtastic/forwarder/api/client/MeshtasticClientApiReader.kt:41-43 | one more byte is one `processByte` step after the bytes so far, and adds at most its emitted body |
| FrameReader.Feed | server/src/main/kotlin/info/skyblond/meshtastic/forwarder/api/client/MeshtasticClientApiReader.kt:41-43 | feeding bytes emits at most one body per byte |
| FrameReader.FilledPrefix | server/src/main/kotlin/info/skyblond/meshtastic/forwarder/api/client/MeshtasticClientApiReader.kt:117-118 | storing the next body byte extends the filled prefix by that byte |
| FrameReader.FeedRest | server/src/main/kotlin/info/skyblond/meshtastic/forwarder/api/client/MeshtasticClientApiReader.kt:117-128 | the rest of a body, fed into a partly filled buffer, completes and emits it and returns the reader to idle |
| FrameReader.FeedHeader | server/src/main/kotlin/info/skyblond/meshtastic/forwarder/api/client/MeshtasticClientApiReader.kt:66-110 | `0x94 0xC3` and a valid big-endian length bring an idle reader to an empty buffer of that length |
| FrameReader.FeedWholeBody | server/src/main/kotlin/info/skyblond/meshtastic/forwarder/api/client/MeshtasticClientApiReader.kt:117-128 | a whole body fed into a fresh buffer is emitted unchanged |
| FrameReader.FrameRoundTrip | server/src/main/kotlin/info/skyblond/meshtastic/forwarder/api/client/MeshtasticClientApiReader.kt:66-128 | round trip: a header followed by its body, read from idle, emits exactly that body and leaves the reader idle |
| FrameReader.Start1Run | server/src/main/kotlin/info/skyblond/meshtastic/forwarder/api/client/MeshtasticClientApiReader.kt:66-84 | a run of `0x94` bytes only toggles between the two start states, and emits nothing |
| FrameReader.WakeUpIsNeutral | server/src/main/kotlin/info/skyblond/meshtastic/forwarder/api/client/MeshtasticClientApiReader.kt:66-84 | the 32-byte wake-up preamble leaves an idle reader idle |
| FrameReader.BadLengthResyncs | server/src/main/kotlin/info/skyblond/meshtastic/forwarder/api/client/MeshtasticClientApiReader.kt:100-104 | a header announcing length 0 or more than 512 is dropped, and the reader is idle again |
| FrameReader.DoubledStart1LosesHeader | server/src/main/kotlin/info/skyblond/meshtastic/forwarder/api/client/MeshtasticClientApiReader.kt:76-84 | `0x94 0x94 0xC3` does not start a frame, because a second `0x94` returns to idle |
| FrameReader.ParseAllAppend | server/src/main/kotlin/info/skyblond/meshtastic/forwarder/api/client/MeshtasticClientApiReader.kt:121-127 | the parsed messages of two runs of bodies are the two runs' messages in order; a body that fails to parse is dropped |
| FrameReader.ParsedStep | server/src/main/kotlin/info/skyblond/meshtastic/forwarder/api/client/MeshtasticClientApiReader.kt:41-43 | one more byte of a read adds exactly the parsed body it completes, if any |
| FrameReader.ParseAll | server/src/main/kotlin/info/skyblond/meshtastic/forwarder/api/client/MeshtasticClientApiReader.kt:121-127 | a body that fails to parse is dropped, so there are never more messages than bodies |
| FrameReader.ParseAllComplete | server/src/main/kotlin/info/skyblond/meshtastic/forwarder/api/client/MeshtasticClientApiReader.kt:121-127 | when every body parses, the messages are the bodies' messages, one each, in order |
| FrameReader.ReadAll | server/src/main/kotlin/info/skyblond/meshtastic/forwarder/api/client/MeshtasticClientApiReader.kt:30-53 | reading chunk by chunk and carrying the state across reads is the same as feeding the concatenated stream from idle |
| FrameReader.ParsedChunk | server/src/main/kotlin/info/skyblond/meshtastic/forwarder/api/client/MeshtasticClientApiReader.kt:36-47 | one more read extends the state and the parsed messages by what that chunk yields |
| FrameReader.ApiReader.constructor | server/src/main/kotlin/info/skyblond/meshtastic/forwarder/api/client/MeshtasticClientApiReader.kt:14-28 | a new reader is open and has handed on no message |
| FrameReader.ApiReader.Close | server/src/main/kotlin/info/skyblond/meshtastic/forwarder/api/client/MeshtasticClientApiReader.kt:130-148 | Only the first close tears down and records its cause; later calls change nothing. No message is lost. |
| FrameReader.ApiReader.ReadLoop | server/src/main/kotlin/info/skyblond/meshtastic/forwarder/api/client/MeshtasticClientApiReader.kt:30-53 | An open reader hands on every parsed body of the whole stream, in order. The end of the stream closes the reader with the cause "end of stream", and the teardown has run exactly once. |
| FrameReader.ApiReader.ProcessChunk | server/src/main/kotlin/info/skyblond/meshtastic/forwarder/api/client/MeshtasticClientApiReader.kt:41-43 | the byte loop over one read ends in the fed state and hands on exactly the parsed bodies of that read |
| FrameWriter.FrameBytes | server/src/main/kotlin/info/skyblond/meshtastic/forwarder/api/client/MeshtasticClientApiWriter.kt:95-103 | the bytes written for a body are the 32-byte preamble, `0x94 0xC3`, the big-endian length and then the body: `32 + 4 + size` bytes in all |
| FrameWriter.FramePieces | server/src/main/kotlin/info/skyblond/meshtastic/forwarder/api/client/MeshtasticClientApiWriter.kt:95-103 | the frame is exactly the six stream writes, in order |
| FrameWriter.WrittenFrameDecodes | server/src/main/kotlin/info/skyblond/meshtastic/forwarder/api/client/MeshtasticClientApiWriter.kt:95-103 | round trip with the reader: an idle reader fed a written frame emits exactly the body and is idle again |
| FrameWriter.WrittenFramesDecode | server/src/main/kotlin/info/skyblond/meshtastic/forwarder/api/client/MeshtasticClientApiWriter.kt:80-106 | frames written back to back are read back as the same bodies, in order |
| FrameWriter.Cap | server/src/main/kotlin/info/skyblond/meshtastic/forwarder/api/client/MeshtasticClientApiWriter.kt:95-103 | the stream holds the written bytes, or, past its capacity, exactly the prefix that fitted |
| FrameWriter.CapOverflow | server/src/main/kotlin/info/skyblond/meshtastic/forwarder/api/client/MeshtasticClientApiWriter.kt:95-103 | once the stream has failed, later bytes change nothing |
| FrameWriter.WriteEffect | server/src/main/kotlin/info/skyblond/meshtastic/forwarder/api/client/MeshtasticClientApiWriter.kt:80-106 | A successful write appends exactly the frame. An I/O failure leaves a proper prefix of the frame. A body over 512 bytes is refused with nothing written. |
| FrameWriter.TextMessageAppIff | server/src/main/kotlin/info/skyblond/meshtastic/forwarder/api/client/MeshtasticClientApiWriter.kt:108-112 | the text-lane test holds exactly for a packet message whose packet is a decoded text message |
| FrameWriter.TextDelay | server/src/main/kotlin/info/skyblond/meshtastic/forwarder/api/client/MeshtasticClientApiWriter.kt:41-51 | a text write that took 2050 ms or more is followed by no pause |
| FrameWriter.TextPacing | server/src/main/kotlin/info/skyblond/meshtastic/forwarder/api/client/MeshtasticClientApiWriter.kt:41-51 | With a monotone clock, the next text write starts at least 2050 ms after the previous one started. It starts exactly 2100 ms after when the write was quick. A negative delay does not wait. |
| FrameWriter.PushFresh | server/src/main/kotlin/info/skyblond/meshtastic/forwarder/api/client/MeshtasticClientApiWriter.kt:114-122 | a fresh handle keeps a lane's results pending and its handles increasing (FIFO) |
| FrameWriter.DisjointFresh | server/src/main/kotlin/info/skyblond/meshtastic/forwarder/api/client/MeshtasticClientApiWriter.kt:114-122 | a freshly enqueued handle is in no lane yet, so the lanes stay disjoint |
| FrameWriter.DisjointSym | server/src/main/kotlin/info/skyblond/meshtastic/forwarder/api/client/MeshtasticClientApiWriter.kt:114-122 | lane disjointness is symmetric |
| FrameWriter.PopResolve | server/src/main/kotlin/info/skyblond/meshtastic/forwarder/api/client/MeshtasticClientApiWriter.kt:38-78 | resolving the head of a lane leaves every other queued result pending |
| FrameWriter.Pop | server/src/main/kotlin/info/skyblond/meshtastic/forwarder/api/client/MeshtasticClientApiWriter.kt:38-78 | dropping a lane's head keeps it tracked, increasing and disjoint from the other lane |
| FrameWriter.ApiWriter.constructor | server/src/main/kotlin/info/skyblond/meshtastic/forwarder/api/client/MeshtasticClientApiWriter.kt:17-36 | a new writer is open, both lanes are empty, and nothing has been written |
| FrameWriter.ApiWriter.Put | server/src/main/kotlin/info/skyblond/meshtastic/forwarder/api/client/MeshtasticClientApiWriter.kt:95-103 | One stream write of the next piece of a frame: it succeeds exactly when the piece fits. On failure the stream holds what writing the whole frame would have left. |
| FrameWriter.ApiWriter.WriteMessage | server/src/main/kotlin/info/skyblond/meshtastic/forwarder/api/client/MeshtasticClientApiWriter.kt:80-106 | `writeMessage`'s outcome and the new stream contents are those of `WriteOutcome`/`WireAfter`, whose meaning `WriteEffect` states |
| FrameWriter.ApiWriter.Close | server/src/main/kotlin/info/skyblond/meshtastic/forwarder/api/client/MeshtasticClientApiWriter.kt:124-134 | both lanes stop and no message is accepted any more; nothing written or queued is touched |
| FrameWriter.ApiWriter.Enqueue | server/src/main/kotlin/info/skyblond/meshtastic/forwarder/api/client/MeshtasticClientApiWriter.kt:114-122 | An open writer puts the message in exactly one lane with a fresh pending result: text messages in the text lane, everything else in the default lane. A closed writer refuses it. |
| FrameWriter.ApiWriter.SendNextDefault | server/src/main/kotlin/info/skyblond/meshtastic/forwarder/api/client/MeshtasticClientApiWriter.kt:63-78 | The oldest default message is written (FIFO). Success completes its result. Any failure fails it and closes the writer. |
| FrameWriter.ApiWriter.SendNextText | server/src/main/kotlin/info/skyblond/meshtastic/forwarder/api/client/MeshtasticClientApiWriter.kt:38-58 | The oldest text message is written; success completes it and returns the pacing delay. An I/O error fails it and closes the writer. Any other failure ends the text lane and leaves the result pending. |
| LinkManager.PacketIdOf | src/main/kotlin/info/skyblond/meshtastic/forwarder/component/MeshtasticComponent.kt:117-124 | a packet id is `counter mod 0xFFFFFFFF + 1`, so it lies in `[1, 0xFFFFFFFF]` and is never 0 |
| LinkManager.AsWrittenRepeatsAtWrap | src/main/kotlin/info/skyblond/meshtastic/forwarder/component/MeshtasticComponent.kt:115-124 | as written, the `Long` counter's wrap from -1 to 0 hands out id 1 twice in a row |
| LinkManager.NextCounter | src/main/kotlin/info/skyblond/meshtastic/forwarder/component/MeshtasticComponent.kt:115-124 | the corrected counter stays below `0xFFFFFFFF` |
| LinkManager.ConsecutiveIds | src/main/kotlin/info/skyblond/meshtastic/forwarder/component/MeshtasticComponent.kt:119-123 | With the corrected counter, consecutive ids are consecutive numbers, except that `0xFFFFFFFF` is followed by 1. Two consecutive ids always differ. |
| LinkManager.AsWrittenAgreesBelowWrap | src/main/kotlin/info/skyblond/meshtastic/forwarder/component/MeshtasticComponent.kt:115-124 | away from the wrap, the counter as written and the corrected one give the same ids |
| LinkManager.Settle | src/main/kotlin/info/skyblond/meshtastic/forwarder/component/MeshtasticComponent.kt:242-272 | a future takes a new outcome only while unresolved, so it resolves at most once |
| LinkManager.AckResolutionCases | src/main/kotlin/info/skyblond/meshtastic/forwarder/component/MeshtasticComponent.kt:242-272 | An error reason fails the future. A broadcast packet is completed. A private packet is completed only when the responder is its destination; otherwise it stays unresolved. |
| LinkManager.AckResolutionOnce | src/main/kotlin/info/skyblond/meshtastic/forwarder/component/MeshtasticComponent.kt:242-272 | a later acknowledgement does not change a resolved future |
| LinkManager.WithId | src/main/kotlin/info/skyblond/meshtastic/forwarder/component/MeshtasticComponent.kt:202-205 | the registered packet differs from the input in its id alone |
| LinkManager.Link.constructor | src/main/kotlin/info/skyblond/meshtastic/forwarder/component/MeshtasticComponent.kt:29-54 | A new component has run `connect`: it is connected and its only message so far is `WantConfigId` with the given id. Nothing is pending, and the counter starts from the seed, reduced modulo `0xFFFFFFFF`. |
| LinkManager.Link.GeneratePacketId | src/main/kotlin/info/skyblond/meshtastic/forwarder/component/MeshtasticComponent.kt:117-124 | the id is the one the counter gives, and the counter advances by the corrected successor rule |
| LinkManager.Link.Connect | src/main/kotlin/info/skyblond/meshtastic/forwarder/component/MeshtasticComponent.kt:39-54 | the new link is installed and its first message asks for the configuration |
| LinkManager.Link.Disconnect | src/main/kotlin/info/skyblond/meshtastic/forwarder/component/MeshtasticComponent.kt:56-71 | the link is dropped, and the radio is told to disconnect only when a link was installed |
| LinkManager.Link.EnsureSend | src/main/kotlin/info/skyblond/meshtastic/forwarder/component/MeshtasticComponent.kt:94-113 | a connected link hands the message to the writer; without a link the call fails and nothing is sent |
| LinkManager.Link.NewFuture | src/main/kotlin/info/skyblond/meshtastic/forwarder/component/MeshtasticComponent.kt:182-224 | a new future gets the next handle, in the given state |
| LinkManager.Link.SendDataMeshPacket | src/main/kotlin/info/skyblond/meshtastic/forwarder/component/MeshtasticComponent.kt:182-224 | An id already pending gives a failed future: nothing is sent and the existing entry is kept. Otherwise the packet's destination and a new future are registered under its id before sending, and that future is returned. |
| LinkManager.Link.SendMeshPacket | src/main/kotlin/info/skyblond/meshtastic/forwarder/component/MeshtasticComponent.kt:147-168 | A decoded packet keeps its nonzero id, or takes the next generated one. An id already pending fails with a collision, sending nothing. Otherwise the packet is registered under its id and, when connected, sent with that id; not connected, it fails and nothing is sent. Any other packet is sent with an already completed future, or, not connected, fails and changes nothing. |
| LinkManager.Link.SendMessage | src/main/kotlin/info/skyblond/meshtastic/forwarder/component/MeshtasticComponent.kt:131-140 | Non-packet messages are sent with a completed future, or fail when not connected. A packet message has exactly the effect `SendMeshPacket` states, case by case. |
| LinkManager.Link.ProcessMessageForAck | src/main/kotlin/info/skyblond/meshtastic/forwarder/component/MeshtasticComponent.kt:228-273 | Only a decoded routing packet acts. A known request id's entry is removed, whatever the outcome, and its future is settled by the acknowledgement rule. An unknown id changes nothing. |
| PacketSender.DeviceHopLimit | server/src/main/kotlin/info/skyblond/meshtastic/forwarder/service/MeshPacketSender.kt:66-72 | the replacement hop limit is the LoRa config's, or 3 when none has been received |
| PacketSender.Stamp | server/src/main/kotlin/info/skyblond/meshtastic/forwarder/service/MeshPacketSender.kt:39-74 | `from` is always the own node number; `to`, the payload, `wantAck` and the priority pass through unchanged |
| PacketSender.IdRule | server/src/main/kotlin/info/skyblond/meshtastic/forwarder/service/MeshPacketSender.kt:43-49 | An unacknowledged private packet gets id 0. Otherwise a nonzero id is kept and a zero id is replaced by a generated one. |
| PacketSender.IdZeroIff | server/src/main/kotlin/info/skyblond/meshtastic/forwarder/service/MeshPacketSender.kt:43-49 | with ids from the link manager's generator, a stamped packet has id 0 exactly when it is unacknowledged and private |
| PacketSender.GeneratorUnused | server/src/main/kotlin/info/skyblond/meshtastic/forwarder/service/MeshPacketSender.kt:43-49 | the generated id matters only when the generator would have been called |
| PacketSender.PkiRule | server/src/main/kotlin/info/skyblond/meshtastic/forwarder/service/MeshPacketSender.kt:51-65 | The result is PKI-encrypted exactly when the packet already was, carried a key, or auto-encryption found its destination in the node map. A carried key also moves the packet to channel 0. |
| PacketSender.AutoEncryptMayLeaveEmptyKey | server/src/main/kotlin/info/skyblond/meshtastic/forwarder/service/MeshPacketSender.kt:57-65 | the copied key is not checked: a known destination whose user has no key yields a PKI packet with an empty key |
| PacketSender.HopRule | server/src/main/kotlin/info/skyblond/meshtastic/forwarder/service/MeshPacketSender.kt:66-72 | a zero hop limit becomes the device's when asked to, and any other hop limit is kept |
| PacketSender.StampAgain | server/src/main/kotlin/info/skyblond/meshtastic/forwarder/service/MeshPacketSender.kt:39-74 | stamping twice equals stamping once, except when auto-encryption copied a key onto a packet off channel 0 |
| MqttTopics.ParseAddress | server/src/main/kotlin/info/skyblond/meshtastic/forwarder/component/MqttComponent.kt:65-67 | An empty address means `mqtt.meshtastic.org`. The text is cut at the first `:` only, and the host never holds a `:`. A missing or non-numeric port is the default. |
| MqttTopics.Scheme | server/src/main/kotlin/info/skyblond/meshtastic/forwarder/component/MqttComponent.kt:65 | the scheme is `ssl` exactly when TLS is on (otherwise `tcp`), and it holds no `:` |
| MqttTopics.TargetUriInjective | server/src/main/kotlin/info/skyblond/meshtastic/forwarder/component/MqttComponent.kt:69-73 | two `scheme://host:port` strings are equal only for the same scheme, host and port, when neither scheme nor host holds a `:` |
| MqttTopics.DefaultAddressHasNoPort | server/src/main/kotlin/info/skyblond/meshtastic/forwarder/component/MqttComponent.kt:257 | the public broker's name holds no `:` |
| MqttTopics.AddressRoundTrip | server/src/main/kotlin/info/skyblond/meshtastic/forwarder/component/MqttComponent.kt:65-67 | `host:port`, for a host without `:` and an `Int` port, reads back as that host and port |
| MqttTopics.BadPortIsDefault | server/src/main/kotlin/info/skyblond/meshtastic/forwarder/component/MqttComponent.kt:65-67 | a port text that is not an `Int` gives the default port |
| MqttTopics.RootOrDefault | server/src/main/kotlin/info/skyblond/meshtastic/forwarder/component/MqttComponent.kt:92 | the root topic is the configured one, or `msh` when it is empty; it is never empty |
| MqttTopics.TopicInjective | server/src/main/kotlin/info/skyblond/meshtastic/forwarder/component/MqttComponent.kt:152-155 | different channel names give different topic filters under one root |
| MqttTopics.WildcardLevel | server/src/main/kotlin/info/skyblond/meshtastic/forwarder/component/MqttComponent.kt:155 | every filter ends in the level `/+`, with the single-level wildcard alone in it, as section 4.7.1.2 of MQTT 3.1.1 requires |
| MqttTopics.ChannelTopics | server/src/main/kotlin/info/skyblond/meshtastic/forwarder/component/MqttComponent.kt:152-155 | there is at most one filter per channel |
| MqttTopics.ChannelTopicsMembers | server/src/main/kotlin/info/skyblond/meshtastic/forwarder/component/MqttComponent.kt:152-155 | a filter is listed exactly when some channel that is not disabled and has downlink on has that name |
| MqttTopics.DesiredTopicList | server/src/main/kotlin/info/skyblond/meshtastic/forwarder/component/MqttComponent.kt:152-159 | the server's desired list contains the direct-message filter `root/2/e/PKI/+` |
| MqttTopics.PkiIsTheDifference | server/src/main/kotlin/info/skyblond/meshtastic/forwarder/component/MqttComponent.kt:152-159 | the two component versions' filter sets differ by the direct-message filter alone |
| MqttTopics.PublishPayload | server/src/main/kotlin/info/skyblond/meshtastic/forwarder/component/MqttComponent.kt:181-185 | data is published as is, text as its UTF-8 encoding (of that size), and an unset payload as no bytes |
| MqttTopics.LegacyPayload | meshtastic-forwarder-server/src/main/kotlin/info/skyblond/meshtastic/forwarder/component/MqttComponent.kt:149 | the older component publishes the `data` field, which is empty unless the message holds data |
| MqttTopics.PayloadVersions | server/src/main/kotlin/info/skyblond/meshtastic/forwarder/component/MqttComponent.kt:181-185 | the two versions publish the same bytes except for non-empty text, which the older one publishes as empty |
| MqttTopics.NewInOrder | server/src/main/kotlin/info/skyblond/meshtastic/forwarder/component/MqttComponent.kt:168-174 | the subscribe walk subscribes exactly the desired topics not yet tracked, each once |
| MqttTopics.ElemsEmpty | server/src/main/kotlin/info/skyblond/meshtastic/forwarder/component/MqttComponent.kt:161-175 | a list of calls is empty exactly when its set of topics is |
| MqttTopics.ElemsSnoc | server/src/main/kotlin/info/skyblond/meshtastic/forwarder/component/MqttComponent.kt:161-175 | recording one more call adds its topic, and a new topic keeps the calls distinct |
| MqttTopics.NewInOrderSeen | server/src/main/kotlin/info/skyblond/meshtastic/forwarder/component/MqttComponent.kt:168-174 | only the tracked topics that are desired affect the subscribe walk |
| MqttTopics.NothingNew | server/src/main/kotlin/info/skyblond/meshtastic/forwarder/component/MqttComponent.kt:168-174 | when every desired topic is tracked, no subscribe call is made |
| MqttTopics.DropStep | server/src/main/kotlin/info/skyblond/meshtastic/forwarder/component/MqttComponent.kt:162-166 | each unsubscribe step keeps the loop's invariant: the dropped topics leave the set, once each |
| MqttTopics.SyncedCalls | server/src/main/kotlin/info/skyblond/meshtastic/forwarder/component/MqttComponent.kt:161-175 | After a pass the tracked set is the desired set. Exactly old-minus-new is unsubscribed and new-minus-old subscribed, each once. A set already in step makes no call. |
| MqttTopics.SubscriptionSet.constructor | server/src/main/kotlin/info/skyblond/meshtastic/forwarder/component/MqttComponent.kt:34 | the tracked set starts empty |
| MqttTopics.SubscriptionSet.Clear | server/src/main/kotlin/info/skyblond/meshtastic/forwarder/component/MqttComponent.kt:195 | clearing empties the tracked set |
| MqttTopics.SubscriptionSet.Sync | server/src/main/kotlin/info/skyblond/meshtastic/forwarder/component/MqttComponent.kt:161-175 | one pass of the diff satisfies `Synced`, whose consequences `SyncedCalls` states |
| MqttTopics.SubscriptionSet.DropAllBut | server/src/main/kotlin/info/skyblond/meshtastic/forwarder/component/MqttComponent.kt:162-166 | every tracked topic outside the wanted set is unsubscribed once, and the rest are kept |
| MqttTopics.SubscriptionSet.SubscribeMissing | server/src/main/kotlin/info/skyblond/meshtastic/forwarder/component/MqttComponent.kt:168-174 | the desired topics not yet tracked are subscribed in order, each once, and added to the set |
| MqttProxy.TruncDiv | server/src/main/kotlin/info/skyblond/meshtastic/forwarder/component/MqttComponent.kt:111-121 | Kotlin's `Long` division truncates toward zero, also for negative elapsed times |
| MqttProxy.ReceiveCounterRule | server/src/main/kotlin/info/skyblond/meshtastic/forwarder/component/MqttComponent.kt:111-121 | With a monotone clock, a report is made exactly on the hundredth delivery, or once 60 s have passed, and it counts every delivery since the last one. The counter then restarts and never reaches 100 in between. |
| MqttProxy.OnReceive | server/src/main/kotlin/info/skyblond/meshtastic/forwarder/component/MqttComponent.kt:111-121 | A report restarts the counter at the report time and counts this delivery. Otherwise the count goes up by one and stays below 100. |
| MqttProxy.TargetOf | server/src/main/kotlin/info/skyblond/meshtastic/forwarder/component/MqttComponent.kt:65-67 | The scheme is `ssl` exactly when TLS is on. Neither scheme nor host holds a `:`, and the port is an `Int`. An empty address is the public broker on port 1883. |
| MqttProxy.IsCurrent | server/src/main/kotlin/info/skyblond/meshtastic/forwarder/component/MqttComponent.kt:69-76 | A client counts as current only when it is connected. For a well-formed client, it is current exactly when it is connected to the config's scheme, host and port. |
| MqttProxy.MqttComponent.constructor | server/src/main/kotlin/info/skyblond/meshtastic/forwarder/component/MqttComponent.kt:27-37 | no client, no tracked topic, root `msh` |
| MqttProxy.MqttComponent.Disconnect | server/src/main/kotlin/info/skyblond/meshtastic/forwarder/component/MqttComponent.kt:192-206 | with a client, the reference is dropped and the tracked topics are cleared; with none, nothing changes |
| MqttProxy.MqttComponent.ConnectionLost | server/src/main/kotlin/info/skyblond/meshtastic/forwarder/component/MqttComponent.kt:101-104 | a lost connection is a forced disconnect |
| MqttProxy.MqttComponent.Connect | server/src/main/kotlin/info/skyblond/meshtastic/forwarder/component/MqttComponent.kt:59-148 | A disabled proxy changes nothing, and so does a client already connected to the same `scheme://host:port`. Otherwise the old client is dropped and the topics are cleared. A new client for the parsed address is installed with the root topic. A successful connection is current. |
| MqttProxy.MqttComponent.OnChannelChange | server/src/main/kotlin/info/skyblond/meshtastic/forwarder/component/MqttComponent.kt:150-176 | without a client nothing happens; with one, the tracked set becomes the channel filters plus the direct-message filter, through the calls `SyncedCalls` describes |
| MqttProxy.MqttComponent.Publish | server/src/main/kotlin/info/skyblond/meshtastic/forwarder/component/MqttComponent.kt:178-190 | with a client the message goes out on its topic at QoS 1 with `PublishPayload` and its retain flag; without one it is dropped |
| MqttProxy.MqttComponent.MessageArrived | server/src/main/kotlin/info/skyblond/meshtastic/forwarder/component/MqttComponent.kt:109-134 | a delivery is forwarded to the radio as a proxied message and counted by the receive-counter rule |
| MqttProxy.MqttComponent.Consume | server/src/main/kotlin/info/skyblond/meshtastic/forwarder/component/MqttComponent.kt:43-57 | An MQTT module config has exactly the effect `Connect` states. A proxied message is published when a client is installed and dropped without one. Any other message changes nothing. |
| MqttProxyLegacy.AddressVersions | meshtastic-forwarder-server/src/main/kotlin/info/skyblond/meshtastic/forwarder/component/MqttComponent.kt:63-65 | the two versions read the same host from an address, and the same port whenever one is given; only the fallback differs (-1 or 1883) |
| MqttProxyLegacy.MqttComponent.constructor | meshtastic-forwarder-server/src/main/kotlin/info/skyblond/meshtastic/forwarder/component/MqttComponent.kt:25-35 | no client, no tracked topic, root `msh` |
| MqttProxyLegacy.MqttComponent.Disconnect | meshtastic-forwarder-server/src/main/kotlin/info/skyblond/meshtastic/forwarder/component/MqttComponent.kt:153-163 | with a client, the reference is dropped and the topics are cleared; with none, nothing changes |
| MqttProxyLegacy.MqttComponent.Install | meshtastic-forwarder-server/src/main/kotlin/info/skyblond/meshtastic/forwarder/component/MqttComponent.kt:72-73 | the compare-and-set installs the candidate, with the root topic, exactly when no client is installed; otherwise nothing changes |
| MqttProxyLegacy.MqttComponent.Connect | meshtastic-forwarder-server/src/main/kotlin/info/skyblond/meshtastic/forwarder/component/MqttComponent.kt:56-119 | A disabled proxy changes nothing. An enabled config always disconnects the old client and clears the topics. It then installs a new client for the parsed address, with the next serial number and the root topic. |
| MqttProxyLegacy.MqttComponent.OnChannelChange | meshtastic-forwarder-server/src/main/kotlin/info/skyblond/meshtastic/forwarder/component/MqttComponent.kt:121-144 | without a client nothing happens; with one, the tracked set becomes the channel filters, with no direct-message filter |
| MqttProxyLegacy.MqttComponent.Publish | meshtastic-forwarder-server/src/main/kotlin/info/skyblond/meshtastic/forwarder/component/MqttComponent.kt:146-151 | with a client the `data` bytes go out at QoS 1; without one nothing happens |
| MqttProxyLegacy.MqttComponent.MessageArrived | meshtastic-forwarder-server/src/main/kotlin/info/skyblond/meshtastic/forwarder/component/MqttComponent.kt:86-99 | a delivery is forwarded to the radio as a proxied message |
| MqttProxyLegacy.MqttComponent.Consume | meshtastic-forwarder-server/src/main/kotlin/info/skyblond/meshtastic/forwarder/component/MqttComponent.kt:41-54 | An MQTT module config has exactly the effect `Connect` states. A proxied message is published when a client is installed and dropped without one. Any other message changes nothing. |
| ChannelTable.Store | meshtastic-forwarder-server/src/main/kotlin/info/skyblond/meshtastic/forwarder/component/ChannelComponent.kt:27-28 | An index outside 0..7 fails. Otherwise only that slot becomes the channel; the table keeps 8 slots and every other slot is unchanged. |
| ChannelTable.StoreOverwrites | meshtastic-forwarder-server/src/main/kotlin/info/skyblond/meshtastic/forwarder/component/ChannelComponent.kt:28 | a second message for the same slot hides the first |
| ChannelTable.StoreCommutes | meshtastic-forwarder-server/src/main/kotlin/info/skyblond/meshtastic/forwarder/component/ChannelComponent.kt:28 | messages for different slots commute |
| ChannelTable.ChannelComponent.constructor | meshtastic-forwarder-server/src/main/kotlin/info/skyblond/meshtastic/forwarder/component/ChannelComponent.kt:18-20 | eight default channels, published as the first snapshot |
| ChannelTable.ChannelComponent.Consume | meshtastic-forwarder-server/src/main/kotlin/info/skyblond/meshtastic/forwarder/component/ChannelComponent.kt:24-44 | A CHANNEL message overwrites its slot as `Store` says, and the snapshot equals the new table. A bad index fails with nothing changed. Other messages change nothing. |
| ConfigStore.Put | src/main/kotlin/info/skyblond/meshtastic/forwarder/component/ConfigStoreComponent.kt:34-36 | the config is stored under its variant number, replacing the earlier one; every other key is kept |
| ConfigStore.PutKeyed | src/main/kotlin/info/skyblond/meshtastic/forwarder/component/ConfigStoreComponent.kt:34-36 | storing keeps every entry under its own variant number |
| ConfigStore.PutThenLoraLookup | src/main/kotlin/info/skyblond/meshtastic/forwarder/component/ConfigStoreComponent.kt:34-36 | after a LoRa config is stored, the LoRa lookup finds exactly it; storing another section leaves the lookup unchanged |
| ConfigStore.PutThenSecurityLookup | src/main/kotlin/info/skyblond/meshtastic/forwarder/component/ConfigStoreComponent.kt:34-36 | the same for the security section |
| ConfigStore.ConfigStoreComponent.constructor | src/main/kotlin/info/skyblond/meshtastic/forwarder/component/ConfigStoreComponent.kt:22-24 | the map starts empty |
| ConfigStore.ConfigStoreComponent.Consume | src/main/kotlin/info/skyblond/meshtastic/forwarder/component/ConfigStoreComponent.kt:26-40 | a CONFIG message is stored by `Put` and the snapshot equals the new map; other messages change nothing |
| Mesh.ConfigCase | src/main/kotlin/info/skyblond/meshtastic/forwarder/component/ConfigStoreComponent.kt:32-34 | a config's variant number is 0 exactly when no section is set |
| NodeDb.ReplaceNode | src/main/kotlin/info/skyblond/meshtastic/forwarder/component/NodeInfoComponent.kt:46-59 | the entry under the info's number becomes the info; other entries are kept |
| NodeDb.MergeUser | src/main/kotlin/info/skyblond/meshtastic/forwarder/component/NodeInfoComponent.kt:61-75 | The sender's entry, or the default entry when there is none, gets the new user. Its other fields and every other entry are kept. |
| NodeDb.AnnouncedUser | src/main/kotlin/info/skyblond/meshtastic/forwarder/component/NodeInfoComponent.kt:35-39 | a user is announced exactly by a decoded NODEINFO_APP packet whose payload parses |
| NodeDb.MergeAfterReplace | src/main/kotlin/info/skyblond/meshtastic/forwarder/component/NodeInfoComponent.kt:46-75 | a user update after a full entry changes only the user |
| NodeDb.ReplaceAfterMerge | src/main/kotlin/info/skyblond/meshtastic/forwarder/component/NodeInfoComponent.kt:46-75 | a full entry after a user update hides the update completely |
| NodeDb.MergeIntoUnknownNode | src/main/kotlin/info/skyblond/meshtastic/forwarder/component/NodeInfoComponent.kt:68-73 | an entry created by a user update has `num` 0, not the key it is stored under |
| NodeDb.NodeInfoComponent.constructor | src/main/kotlin/info/skyblond/meshtastic/forwarder/component/NodeInfoComponent.kt:24-26 | the database starts empty |
| NodeDb.NodeInfoComponent.Consume | src/main/kotlin/info/skyblond/meshtastic/forwarder/component/NodeInfoComponent.kt:29-44 | NODE_INFO replaces and an announced user merges. A payload that does not parse, or any other message, changes nothing. The snapshot equals the map. |
| MyNodeInfoCells.ReportedOwner | server/src/main/kotlin/info/skyblond/meshtastic/forwarder/component/MyNodeInfoComponent.kt:45-54 | Only a decoded ADMIN_APP packet can report an owner, through its GET_OWNER_RESPONSE. An unparsable admin payload is an error. |
| MyNodeInfoCells.MyNodeInfoComponent.constructor | server/src/main/kotlin/info/skyblond/meshtastic/forwarder/component/MyNodeInfoComponent.kt:19-23 | both cells start as default instances |
| MyNodeInfoCells.MyNodeInfoComponent.Consume | server/src/main/kotlin/info/skyblond/meshtastic/forwarder/component/MyNodeInfoComponent.kt:25-54 | A MY_INFO republishes only when it differs from the cell, and never touches the owner. An owner report sets the owner and never touches the node info. A failed parse changes neither. |
| CommonUtils.ToSigned | common/src/main/kotlin/info/skyblond/meshtastic/forwarder/common/Utils.kt:10 | `UInt.toInt()` keeps the 32 bits: the result is congruent to the input modulo 2^32 |
| CommonUtils.ToUnsigned | common/src/main/kotlin/info/skyblond/meshtastic/forwarder/common/Utils.kt:12 | `Int.toUInt()` is the inverse of `ToSigned` |
| CommonUtils.SignedRoundTrip | common/src/main/kotlin/info/skyblond/meshtastic/forwarder/common/Utils.kt:9-12 | reading an unsigned id as signed and back gives it again |
| CommonUtils.BroadcastIsAllOnes | common/src/main/kotlin/info/skyblond/meshtastic/forwarder/common/Utils.kt:9-12 | the broadcast id is -1, and `toNodeIdIsBroadcast` holds exactly for the id whose unsigned reading is `0xFFFFFFFF` |
| CommonUtils.IsBroadcastNumIff | common/src/main/kotlin/info/skyblond/meshtastic/forwarder/common/Utils.kt:12 | the broadcast test on a packet field holds exactly for `0xFFFFFFFF` |
| CommonUtils.HexDigit | common/src/main/kotlin/info/skyblond/meshtastic/forwarder/common/Utils.kt:19-20 | a nibble renders as one lowercase hex digit |
| CommonUtils.HexValue | common/src/main/kotlin/info/skyblond/meshtastic/forwarder/common/Utils.kt:19-20 | a lowercase hex digit reads back to the nibble that renders as it |
| CommonUtils.HexDigitValue | common/src/main/kotlin/info/skyblond/meshtastic/forwarder/common/Utils.kt:19-20 | reading a rendered nibble gives the nibble back |
| CommonUtils.ToHex | common/src/main/kotlin/info/skyblond/meshtastic/forwarder/common/Utils.kt:19-20 | two lowercase hex digits per byte, so the length is twice the input's (and empty for empty input) |
| CommonUtils.HexRoundTrip | common/src/main/kotlin/info/skyblond/meshtastic/forwarder/common/Utils.kt:19-20 | `toHex` is injective: its rendering reads back to the same bytes |
| CommonUtils.HexAppend | common/src/main/kotlin/info/skyblond/meshtastic/forwarder/common/Utils.kt:19-20 | `toHex(a + b) == toHex(a) + toHex(b)` |
| CommonUtils.GetLoraConfig | common/src/main/kotlin/info/skyblond/meshtastic/forwarder/common/Utils.kt:22 | there is a result exactly when the LoRa key is present, and it is the section stored there |
| CommonUtils.GetSecurityConfig | common/src/main/kotlin/info/skyblond/meshtastic/forwarder/common/Utils.kt:23 | there is a result exactly when the security key is present, and it is the section stored there |
| ForwarderUtils.GetLoraConfig | src/main/kotlin/info/skyblond/meshtastic/forwarder/Utils.kt:15 | the whole config stored under the LoRa key, exactly when present |
| ForwarderUtils.GetSecurityConfig | src/main/kotlin/info/skyblond/meshtastic/forwarder/Utils.kt:16 | the whole config stored under the security key, exactly when present |
| ForwarderUtils.LoraLookupsAgree | src/main/kotlin/info/skyblond/meshtastic/forwarder/Utils.kt:15 | on a map keyed by variant number, the two helpers' LoRa lookups agree |
| ForwarderUtils.SecurityLookupsAgree | src/main/kotlin/info/skyblond/meshtastic/forwarder/Utils.kt:16 | on a map keyed by variant number, the two helpers' security lookups agree |
| MeshPacketUtils.UndecodedIsNeither | common/src/main/kotlin/info/skyblond/meshtastic/forwarder/common/MeshPacketUtils.kt:7-15 | a packet that is not decoded is neither a text message nor an emoji reaction |
| MeshPacketUtils.BroadcastIff | common/src/main/kotlin/info/skyblond/meshtastic/forwarder/common/MeshPacketUtils.kt:17-18 | `isBroadcast` holds exactly when `to` is `0xFFFFFFFF`, and `isNotBroadcast` is its negation |
| Utf8.CharSize | client/src/main/kotlin/info/skyblond/meshtastic/forwarder/utils/MeshUtils.kt:7 | one character takes 1 to 4 bytes of UTF-8 |
| Utf8.EncodeChar | client/src/main/kotlin/info/skyblond/meshtastic/forwarder/component/AbstractComponent.kt:137 | One character's encoding has its size and is a single byte below `0x80` exactly when the size is 1. Its lead byte announces the size, and every later byte is a continuation byte. |
| Utf8.EncodeAppend | client/src/main/kotlin/info/skyblond/meshtastic/forwarder/component/AbstractComponent.kt:137 | encoding distributes over concatenation |
| Utf8.Encode | client/src/main/kotlin/info/skyblond/meshtastic/forwarder/component/AbstractComponent.kt:137 | the encoding has the size `Size` gives |
| Utf8.Size | client/src/main/kotlin/info/skyblond/meshtastic/forwarder/utils/MeshUtils.kt:7 | the encoded length lies between the text's length and four times it |
| Utf8.EncodeCharValue | client/src/main/kotlin/info/skyblond/meshtastic/forwarder/component/AbstractComponent.kt:137 | one character's bytes decode back to its code point |
| Utf8.DecodeEncode | client/src/main/kotlin/info/skyblond/meshtastic/forwarder/component/AbstractComponent.kt:137 | round trip: decoding the encoding of a text gives back its code points |
| Utf8.EncodeAscii | server/src/main/kotlin/info/skyblond/meshtastic/forwarder/component/MqttComponent.kt:183 | ASCII text encodes to its own code points, one byte each |
| Utf16.CharUnits | client/src/main/kotlin/info/skyblond/meshtastic/forwarder/utils/MeshUtils.kt:7 | a character below U+10000 is one code unit, and is not a surrogate; any other is a high and a low surrogate that stand for it |
| Utf16.PairValue | client/src/main/kotlin/info/skyblond/meshtastic/forwarder/utils/MeshUtils.kt:7 | a surrogate pair stands for a character in U+10000..U+10FFFF |
| Utf16.Encode | client/src/main/kotlin/info/skyblond/meshtastic/forwarder/utils/MeshUtils.kt:7 | the bytes `toByteArray()` writes for code units have the size `Size` gives: 4 for a pair, 1 (`?`) for a lone surrogate |
| Utf16.ToUnitsAppend | client/src/main/kotlin/info/skyblond/meshtastic/forwarder/utils/MeshUtils.kt:7 | the code units of a concatenation are the two texts' units |
| Utf16.EncodeCharUnits | client/src/main/kotlin/info/skyblond/meshtastic/forwarder/utils/MeshUtils.kt:7 | one character's units encode as that character's UTF-8, whatever follows |
| Utf16.ToUnitsEncode | client/src/main/kotlin/info/skyblond/meshtastic/forwarder/component/AbstractComponent.kt:137 | a string's code units encode exactly as its characters' UTF-8, so a whole string is never written with `?` |
| Utf16.ToUnitsBmp | client/src/main/kotlin/info/skyblond/meshtastic/forwarder/utils/MeshUtils.kt:7 | text below U+10000 has one code unit per character, equal to it |
| MessageSlicer.SizeAppend | client/src/main/kotlin/info/skyblond/meshtastic/forwarder/utils/MeshUtils.kt:7 | the UTF-8 size of a concatenation is the sum of the sizes |
| MessageSlicer.UnitsFindLast | client/src/main/kotlin/info/skyblond/meshtastic/forwarder/utils/MeshUtils.kt:6-7 | as written, on code units: the chosen length is in `1..n`, its prefix fits or it is the `?: 1` fallback, and no longer prefix fits |
| MessageSlicer.AsWrittenSlices | client/src/main/kotlin/info/skyblond/meshtastic/forwarder/utils/MeshUtils.kt:3-12 | as written, on code units: the pieces join back to the units, none is empty, each encodes to at most 200 bytes, and there are none only for an empty text |
| MessageSlicer.RunSize | client/src/main/kotlin/info/skyblond/meshtastic/forwarder/utils/MeshUtils.kt:7 | a run of `a` units in front of others adds one byte per unit |
| MessageSlicer.RunEncode | client/src/main/kotlin/info/skyblond/meshtastic/forwarder/utils/MeshUtils.kt:7 | a run of `a` units in front of others encodes as that many `0x61` bytes in front |
| MessageSlicer.PairTextUnits | client/src/main/kotlin/info/skyblond/meshtastic/forwarder/utils/MeshUtils.kt:3-12 | 199 `a`s and U+1F600 are 199 units `0x61`, then the pair `0xD83D 0xDE00` |
| MessageSlicer.PairUnitsCut | client/src/main/kotlin/info/skyblond/meshtastic/forwarder/utils/MeshUtils.kt:6-9 | as written, those units are cut after the high surrogate: 200 units, then the low surrogate alone |
| MessageSlicer.AsWrittenSplitsPair | client/src/main/kotlin/info/skyblond/meshtastic/forwarder/utils/MeshUtils.kt:3-12 | as written, 199 `a`s and U+1F600 go out as 199 `a`s plus `?`, then `?`: not the text's bytes |
| MessageSlicer.PairPiecesSent | client/src/main/kotlin/info/skyblond/meshtastic/forwarder/utils/MeshUtils.kt:3-12 | those two pieces go out as 201 bytes |
| MessageSlicer.PairTextSize | client/src/main/kotlin/info/skyblond/meshtastic/forwarder/utils/MeshUtils.kt:3-12 | the text itself is 203 bytes of UTF-8 |
| MessageSlicer.PairUnitsSize | client/src/main/kotlin/info/skyblond/meshtastic/forwarder/utils/MeshUtils.kt:7 | its 201 code units are 203 bytes through `toByteArray()` |
| MessageSlicer.PrefixSizeMonotone | client/src/main/kotlin/info/skyblond/meshtastic/forwarder/utils/MeshUtils.kt:7 | a longer prefix never encodes to fewer bytes |
| MessageSlicer.OneCharFits | client/src/main/kotlin/info/skyblond/meshtastic/forwarder/utils/MeshUtils.kt:6-7 | one character always fits in 200 bytes, so the `?: 1` fallback is never needed |
| MessageSlicer.FindLast | client/src/main/kotlin/info/skyblond/meshtastic/forwarder/utils/MeshUtils.kt:6-7 | the chosen length is in `1..n`, its prefix fits, and no longer prefix fits |
| MessageSlicer.Slices | client/src/main/kotlin/info/skyblond/meshtastic/forwarder/utils/MeshUtils.kt:3-12 | The slices join back to the text; each is non-empty and at most 200 bytes of UTF-8. There are no more slices than characters, and none for an empty text. |
| MessageSlicer.SlicesMaximal | client/src/main/kotlin/info/skyblond/meshtastic/forwarder/utils/MeshUtils.kt:6-8 | each slice is as long as will fit: one more character would exceed 200 bytes |
| MessageSlicer.ShortTextIsOnePiece | client/src/main/kotlin/info/skyblond/meshtastic/forwarder/utils/MeshUtils.kt:3-12 | a text that fits is sent as it is, in one piece |
| MessageSlicer.SentConcat | client/src/main/kotlin/info/skyblond/meshtastic/forwarder/utils/MeshUtils.kt:3-12 | pieces cut between characters, encoded one by one, carry the bytes of their concatenation |
| MessageSlicer.SlicesSendWhole | client/src/main/kotlin/info/skyblond/meshtastic/forwarder/utils/MeshUtils.kt:3-12 | cut between characters, the pieces sent one after another carry exactly the bytes of the whole text |
| MessageSlicer.BmpCut | client/src/main/kotlin/info/skyblond/meshtastic/forwarder/utils/MeshUtils.kt:6-8 | on text below U+10000, cutting code units and cutting characters are the same cut, and fit the same way |
| MessageSlicer.FindLastAgree | client/src/main/kotlin/info/skyblond/meshtastic/forwarder/utils/MeshUtils.kt:6-7 | on text below U+10000, the program's length search and the one over characters choose the same length |
| MessageSlicer.SlicesAgreeOnBmp | client/src/main/kotlin/info/skyblond/meshtastic/forwarder/utils/MeshUtils.kt:3-12 | on text below U+10000, the program's pieces are exactly the pieces cut between characters |
| MessageSlicer.SliceMessage | client/src/main/kotlin/info/skyblond/meshtastic/forwarder/utils/MeshUtils.kt:3-12 | the slicing loop yields exactly `Slices` |
| ClientComponent.SendMeshPacket | client/src/main/kotlin/info/skyblond/meshtastic/forwarder/component/AbstractComponent.kt:107-124 | The packet goes out with the chosen id. The call succeeds exactly when the server accepts it, and then returns that id. |
| ClientComponent.SendIdRule | client/src/main/kotlin/info/skyblond/meshtastic/forwarder/component/AbstractComponent.kt:113-117 | Without `wantAck` the id is 0. With it, a zero id is generated and a nonzero id kept. The packet sent differs from the input in its id alone. |
| ClientComponent.ServerKeepsClientId | client/src/main/kotlin/info/skyblond/meshtastic/forwarder/component/AbstractComponent.kt:113-117 | The server keeps a nonzero client id. An unacknowledged broadcast, sent with id 0, is given an id by the server, and an unacknowledged private packet keeps id 0. |
| ClientComponent.BroadcastText | client/src/main/kotlin/info/skyblond/meshtastic/forwarder/component/AbstractComponent.kt:126-141 | a broadcast text message on the given channel, acknowledged, with the UTF-8 text and no reply id |
| ClientComponent.PrivateText | client/src/main/kotlin/info/skyblond/meshtastic/forwarder/component/AbstractComponent.kt:143-157 | a private text message to the given node on channel 0, acknowledged, with the UTF-8 text |
| ClientComponent.Reply | client/src/main/kotlin/info/skyblond/meshtastic/forwarder/component/AbstractComponent.kt:159-191 | A reply is an acknowledged text message naming the original's id. A reply to a broadcast is a broadcast on the same channel. A reply to a private message goes back to its sender on channel 0. |
| ClientComponent.ReplyToStampedReply | client/src/main/kotlin/info/skyblond/meshtastic/forwarder/component/AbstractComponent.kt:159-191 | a private exchange stays between the two nodes: answering a stamped reply addresses its sender |
| ClientComponent.GetConfig | client/src/main/kotlin/info/skyblond/meshtastic/forwarder/component/AbstractComponent.kt:48-55 | the config stored under the variant number, or an error exactly when there is none |
| ClientComponent.StoredConfigIsFound | client/src/main/kotlin/info/skyblond/meshtastic/forwarder/component/AbstractComponent.kt:48-51 | once the server has stored a section, the client finds it under that section's number |
| ChatHistory.TakeLast | client/src/main/kotlin/info/skyblond/meshtastic/forwarder/utils/GeminiMultiuserChat.kt:43 | The last `n` entries, or all when there are fewer. They are a suffix of the history. A negative `n` is an error. |
| ChatHistory.WindowSlides | client/src/main/kotlin/info/skyblond/meshtastic/forwarder/utils/GeminiMultiuserChat.kt:36-45 | after one more entry, the window of `n` is the previous window of `n - 1` plus that entry |
| ChatHistory.AfcTail | client/src/main/kotlin/info/skyblond/meshtastic/forwarder/utils/GeminiMultiuserChat.kt:51-74 | An absent or empty function-call history adds nothing. One shorter than the stored conversation is an error. Otherwise the tail after the stored length is added. |
| ChatHistory.AfcTailCatchesUp | client/src/main/kotlin/info/skyblond/meshtastic/forwarder/utils/GeminiMultiuserChat.kt:51-74 | when the function-call history extends the conversation, appending its tail makes them equal |
| ChatHistory.MultiuserChat.constructor | client/src/main/kotlin/info/skyblond/meshtastic/forwarder/utils/GeminiMultiuserChat.kt:18 | no user has a history |
| ChatHistory.MultiuserChat.GetHistory | client/src/main/kotlin/info/skyblond/meshtastic/forwarder/utils/GeminiMultiuserChat.kt:20-22 | an unknown user's history is empty; a known one's is the stored list |
| ChatHistory.MultiuserChat.AddHistory | client/src/main/kotlin/info/skyblond/meshtastic/forwarder/utils/GeminiMultiuserChat.kt:24-28 | exactly one entry is appended to this user's list, and every other user's is kept |
| ChatHistory.MultiuserChat.Complete | client/src/main/kotlin/info/skyblond/meshtastic/forwarder/utils/GeminiMultiuserChat.kt:36-45 | the contents sent are the last `maxHistory` entries and then the input; the history is not changed |
| ChatHistory.MultiuserChat.AddResponseHistory | client/src/main/kotlin/info/skyblond/meshtastic/forwarder/utils/GeminiMultiuserChat.kt:51-74 | the function-call history's new tail is appended; when that history is too short the call fails and nothing changes |
| ChatHistory.MultiuserChat.RemoveHistory | client/src/main/kotlin/info/skyblond/meshtastic/forwarder/utils/GeminiMultiuserChat.kt:76-78 | this user's history is forgotten, and every other user's is kept |
| ChatHistory.MultiuserChat.RemoveAll | client/src/main/kotlin/info/skyblond/meshtastic/forwarder/utils/GeminiMultiuserChat.kt:80-82 | every history is forgotten |
| AccessControl.AuthoritySets | server/src/main/kotlin/info/skyblond/meshtastic/forwarder/config/SecurityConfig.kt:66-72 | read-write is read-only plus SEND_MESH_PACKET, and read-only lacks it |
| AccessControl.TokensFromCsv | server/src/main/kotlin/info/skyblond/meshtastic/forwarder/config/SecurityConfig.kt:58-62 | no configured token is empty, contains a comma or has surrounding whitespace |
| AccessControl.NoTokensIff | server/src/main/kotlin/info/skyblond/meshtastic/forwarder/config/SecurityConfig.kt:58-62 | the token set is empty exactly when every comma-separated part is blank |
| AccessControl.SeparatorsOnlyIsEmpty | server/src/main/kotlin/info/skyblond/meshtastic/forwarder/config/SecurityConfig.kt:58-62 | an empty or all-comma string configures no token |
| AccessControl.CsvRoundTrip | server/src/main/kotlin/info/skyblond/meshtastic/forwarder/config/SecurityConfig.kt:58-62 | well-formed tokens written comma-separated read back as the same set |
| AccessControl.RequiredAuthority | server/src/main/kotlin/info/skyblond/meshtastic/forwarder/config/SecurityConfig.kt:45-48 | `/ws/packet` needs exactly READ_MESH_PACKET, `/device` and everything under `/device/` exactly READ_DEVICE_INFO, and `/send/meshPacket` exactly SEND_MESH_PACKET. Every demanded authority is one a token can hold. |
| AccessControl.Permitted | server/src/main/kotlin/info/skyblond/meshtastic/forwarder/config/SecurityConfig.kt:44-48 | only an authenticated caller is let through, and one holding all the read-write authorities always is |
| AccessControl.PathAccess | server/src/main/kotlin/info/skyblond/meshtastic/forwarder/config/SecurityConfig.kt:45-54 | A read-write token may use every path. A read-only token may use every path but sending. An unauthenticated caller may use none. |
| Text.FirstIndex | server/src/main/kotlin/info/skyblond/meshtastic/forwarder/component/MqttComponent.kt:67 | the first position of the separator: no separator before it |
| Text.Split | server/src/main/kotlin/info/skyblond/meshtastic/forwarder/config/SecurityConfig.kt:59 | `split` gives at least one piece, and no piece holds the separator |
| Text.JoinSplit | server/src/main/kotlin/info/skyblond/meshtastic/forwarder/config/SecurityConfig.kt:59 | splitting loses nothing: joining the pieces gives the input back |
| Text.SplitJoin | server/src/main/kotlin/info/skyblond/meshtastic/forwarder/config/SecurityConfig.kt:59 | splitting a join of separator-free pieces recovers exactly those pieces |
| Text.SplitOfSeparators | server/src/main/kotlin/info/skyblond/meshtastic/forwarder/config/SecurityConfig.kt:59 | a string of separators only splits into empty pieces |
| Text.FirstIndexIs | server/src/main/kotlin/info/skyblond/meshtastic/forwarder/component/MqttComponent.kt:67 | the first occurrence is the only position holding the character with none before it |
| Text.SplitOnce | server/src/main/kotlin/info/skyblond/meshtastic/forwarder/component/MqttComponent.kt:67 | `split(limit = 2)` cuts at the first separator only, and cuts nothing when there is none |
| Text.TrimStart | server/src/main/kotlin/info/skyblond/meshtastic/forwarder/config/SecurityConfig.kt:60 | only leading whitespace is removed |
| Text.TrimEnd | server/src/main/kotlin/info/skyblond/meshtastic/forwarder/config/SecurityConfig.kt:60 | only trailing whitespace is removed |
| Text.IsWhitespace | server/src/main/kotlin/info/skyblond/meshtastic/forwarder/config/SecurityConfig.kt:60 | space, tab, line feed and carriage return are whitespace, and no other printable ASCII character is |
| Text.Trim | server/src/main/kotlin/info/skyblond/meshtastic/forwarder/config/SecurityConfig.kt:60-61 | the trimmed text has no surrounding whitespace, and is empty exactly when the input is blank |
| Text.TrimBlank | server/src/main/kotlin/info/skyblond/meshtastic/forwarder/config/SecurityConfig.kt:60-61 | trimming both ends leaves nothing exactly for a blank text |
| Text.TrimFixed | server/src/main/kotlin/info/skyblond/meshtastic/forwarder/config/SecurityConfig.kt:60 | a text without surrounding whitespace is its own trim |
| Text.TrimInside | server/src/main/kotlin/info/skyblond/meshtastic/forwarder/config/SecurityConfig.kt:60 | trimming only removes characters |
| Text.ToLowerAscii | meshtastic-forwarder-server/src/main/kotlin/info/skyblond/meshtastic/forwarder/config/MeshtasticClientPortConfig.kt:20 | lowercasing keeps the length |
| Text.DigitChar | server/src/main/kotlin/info/skyblond/meshtastic/forwarder/component/MqttComponent.kt:67 | a digit character's value is the digit it renders |
| Text.NatToString | server/src/main/kotlin/info/skyblond/meshtastic/forwarder/component/MqttComponent.kt:67 | a decimal rendering is one or more digits |
| Text.ToIntOrNull | server/src/main/kotlin/info/skyblond/meshtastic/forwarder/component/MqttComponent.kt:67 | a parsed value fits a 32-bit `Int`, and an empty text is null |
| Text.NatToStringValue | server/src/main/kotlin/info/skyblond/meshtastic/forwarder/component/MqttComponent.kt:67 | the digits of a rendering denote the number |
| Text.IntToStringRoundTrip | server/src/main/kotlin/info/skyblond/meshtastic/forwarder/component/MqttComponent.kt:67 | `toIntOrNull` reads back every `Int` that a string template renders |
| TokenAuth.BearerToken | server/src/main/kotlin/info/skyblond/meshtastic/forwarder/config/TokenAuthFilter.kt:50-53 | a token is found exactly when the header starts with `Bearer `, and it is everything after those 7 characters |
| TokenAuth.BearerRoundTrip | server/src/main/kotlin/info/skyblond/meshtastic/forwarder/config/TokenAuthFilter.kt:50-53 | a header built from a token yields that token |
| TokenAuth.Authenticate | server/src/main/kotlin/info/skyblond/meshtastic/forwarder/config/TokenAuthFilter.kt:32-43 | A token is recognised exactly when it is configured. A read-write token gets the read-write authorities even when it is also read-only. A read-only token gets the read-only ones. |
| TokenAuth.Granted | server/src/main/kotlin/info/skyblond/meshtastic/forwarder/config/TokenAuthFilter.kt:50-64 | A header earns authorities exactly when it starts with `Bearer ` and the rest is a configured token. A read-write token earns the read-write authorities, any other configured token the read-only ones. |
| TokenAuth.TokenAccess | server/src/main/kotlin/info/skyblond/meshtastic/forwarder/config/TokenAuthFilter.kt:45-66 | A configured read-write token may send, and a read-only one may not. A token with whitespace after `Bearer ` is never accepted. |
| TokenAuth.SecurityContext.constructor | server/src/main/kotlin/info/skyblond/meshtastic/forwarder/config/TokenAuthFilter.kt:59-62 | an empty security context |
| TokenAuth.TokenAuthFilter.constructor | server/src/main/kotlin/info/skyblond/meshtastic/forwarder/config/TokenAuthFilter.kt:13-16 | the filter holds the two configured token sets |
| TokenAuth.TokenAuthFilter.DoFilterInternal | server/src/main/kotlin/info/skyblond/meshtastic/forwarder/config/TokenAuthFilter.kt:45-66 | a recognised token's authentication is saved in the context; otherwise the context is left as it was; the chain always continues |
| LegacyTokenAuth.Authenticate | meshtastic-forwarder-server/src/main/kotlin/info/skyblond/meshtastic/forwarder/config/TokenAuthFilter.kt:32-37 | a token is recognised exactly when it is a key of the map, and gets exactly that key's authorities |
| LegacyTokenAuth.AgreesWithServer | meshtastic-forwarder-server/src/main/kotlin/info/skyblond/meshtastic/forwarder/config/TokenAuthFilter.kt:32-37 | with a map that gives read-write and read-only tokens the server's authority sets, the two filters agree |
| LegacyTokenAuth.TokenAuthFilter.constructor | meshtastic-forwarder-server/src/main/kotlin/info/skyblond/meshtastic/forwarder/config/TokenAuthFilter.kt:15-16 | the filter holds the configured token map |
| LegacyTokenAuth.TokenAuthFilter.DoFilterInternal | meshtastic-forwarder-server/src/main/kotlin/info/skyblond/meshtastic/forwarder/config/TokenAuthFilter.kt:18-63 | a recognised token's authentication is saved in the request's store and in the context; otherwise neither changes; the chain always continues |
| PortConfig.QueryItem | meshtastic-forwarder-server/src/main/kotlin/info/skyblond/meshtastic/forwarder/config/MeshtasticClientPortConfig.kt:28-31 | An item is split at its first `=`, and an item without `=` is dropped. The key holds no `=`, and key, `=` and value rebuild the item. |
| PortConfig.IsSerialScheme | meshtastic-forwarder-server/src/main/kotlin/info/skyblond/meshtastic/forwarder/config/MeshtasticClientPortConfig.kt:20 | the scheme is accepted exactly when it is the six letters of `serial`, each in either case |
| PortConfig.QueryMap | meshtastic-forwarder-server/src/main/kotlin/info/skyblond/meshtastic/forwarder/config/MeshtasticClientPortConfig.kt:28-31 | a missing query gives an empty map, and no key holds `=` or `&` |
| PortConfig.Associate | meshtastic-forwarder-server/src/main/kotlin/info/skyblond/meshtastic/forwarder/config/MeshtasticClientPortConfig.kt:28-31 | a key is in the query map exactly when some item parses with that key |
| PortConfig.LastOccurrenceWins | meshtastic-forwarder-server/src/main/kotlin/info/skyblond/meshtastic/forwarder/config/MeshtasticClientPortConfig.kt:31 | for a repeated key the last occurrence's value wins |
| PortConfig.BaudRate | meshtastic-forwarder-server/src/main/kotlin/info/skyblond/meshtastic/forwarder/config/MeshtasticClientPortConfig.kt:33 | a missing or non-integer `baudrate` is 9600; an integer one is its value |
| PortConfig.ClientPort | meshtastic-forwarder-server/src/main/kotlin/info/skyblond/meshtastic/forwarder/config/MeshtasticClientPortConfig.kt:16-41 | The URI is accepted exactly when its scheme lowercases to `serial`, giving its path and the baud rate. Any other scheme, or none, is an error. |
| PortConfig.SchemeCase | meshtastic-forwarder-server/src/main/kotlin/info/skyblond/meshtastic/forwarder/config/MeshtasticClientPortConfig.kt:20-23 | `serial` is accepted in any letter case, and `tcp` or `serial2` is refused |
| PortConfig.BaudItem | meshtastic-forwarder-server/src/main/kotlin/info/skyblond/meshtastic/forwarder/config/MeshtasticClientPortConfig.kt:28-31 | the item `baudrate=<n>` holds no `&` and parses as the pair (`baudrate`, n) |
| PortConfig.BaudRateFromQuery | meshtastic-forwarder-server/src/main/kotlin/info/skyblond/meshtastic/forwarder/config/MeshtasticClientPortConfig.kt:28-33 | a query ending in `baudrate=<n>`, for any `Int` n, sets the baud rate to n whatever comes before |
| PortConfig.IntToStringNoSeparator | meshtastic-forwarder-server/src/main/kotlin/info/skyblond/meshtastic/forwarder/config/MeshtasticClientPortConfig.kt:28-31 | a rendered `Int` holds neither `&` nor `=` |
| PortConfig.DefaultBaud | meshtastic-forwarder-server/src/main/kotlin/info/skyblond/meshtastic/forwarder/config/MeshtasticClientPortConfig.kt:28-33 | no query, or a query without a `baudrate` item, gives 9600 |

## Left out

- Coroutines, the read and write jobs, mutexes, locks and the rendezvous channels are not modelled. Each component is single-threaded, and each lane is drained one message per call. The `ConcurrentHashMap` and `AtomicReference` operations are plain map and field updates.
- Protobuf parsing and serialising (`parseFrom`, `toByteArray`, the builders) are function parameters. Messages hold only the fields the forwarder reads.
- Stream I/O is not modelled directly. The reader's input is the list of chunks the port returns. The writer's output is the `wire` field. An `IOException` is modelled as the stream's capacity, `failAfter`.
- The writer's 60 s `withTimeout` is not modelled, and neither is the 5 s wait in `close`. Only an oversized body and an I/O error fail a write.
- Clock readings (`System.currentTimeMillis`, `nanoTime`) and `Random` values are parameters. So are the `WantConfigId` of `connect` and the counter seed.
- The reconnect retries, `Thread.sleep`, `runBlocking` and the `SharedFlow` fan-out of `MeshtasticComponent` are not modelled. "Connected" is a boolean.
- The Paho MQTT client is reduced to the broker URI it was made for, whether it connected, and a serial number. TLS, connection options and automatic reconnect are not modelled. Subscribe and publish calls are assumed to succeed.
- MqttTopics.SubscriptionSet.DropAllBut: the unsubscribe order is not stated, though `ConcurrentSkipListSet` iterates in sorted order. The model proves only that each unwanted topic is dropped exactly once.
- The receive counter's log line, and all other logging, are not modelled; only the counter and the report's numbers are.
- Spring wiring, the servlet API and `SecurityContextHolder` are reduced to the decisions they carry. So are the web-socket controllers and the HTTP clients.
- AccessControl.RequiredAuthority: Spring's path matcher is modelled as an exact match, plus `/device` and everything under `/device/`. Other Ant-style patterns are not modelled.
- The legacy filter keeps each token's authority list as a set, because duplicates and order do not matter to Spring's authority checks.
- The language-model call inside `complete`, and the Gemini and OpenAI components, are not part of this model. `Complete` returns the contents it would send.
- `createSerialPort`'s operating-system check and the Linux port class are not modelled, because they run `stty` and open device files.
- A URI without a scheme is an `Err` here; the source dereferences the null scheme and throws.
- Text.ToLowerAscii: Java's `lowercase()` is modelled on ASCII letters only, which is all a URI scheme may hold.
- Text.ToIntOrNull: only ASCII digits are accepted; Kotlin's `Character.digit` also accepts other Unicode decimal digits.
- Text.IsWhitespace: the Unicode whitespace set is listed by code point, as Java's `isWhitespace` or `isSpaceChar` defines it.
- Utf8: a Dafny `char` is a Unicode scalar value, never a lone surrogate. Kotlin strings are UTF-16, so the slicer's cuts are modelled on code units in `Utf16`, where `toByteArray()` writes a lone surrogate as `?`. The rest of the model never cuts a string and encodes Dafny strings directly; `Utf16.ToUnitsEncode` proves the two encodings agree on whole strings.
- `toBase64`, `asTimestamp`, the float formatting of the debug reply service, and the scheduled refresh and logging services are not modelled.
- The `MyNodeInfoComponent` of the library (`src/...`) is not modelled: it is a single unconditional overwrite.
- `MeshPacketBus`, the abstract consumer base classes and the configuration-property holders are not part of this model.

## Findings

| source | as written | input that shows it | evidently intended | confidence | as-written member | corrected member |
|---|---|---|---|---|---|---|
| src/main/kotlin/info/skyblond/meshtastic/forwarder/component/MeshtasticComponent.kt:115-124 | The counter is a `Long`, and the id is its unsigned 64-bit value modulo `0xFFFFFFFF`, plus one. Since `2^64 = 0xFFFFFFFF * (2^32 + 1) + 1`, the wrap from `-1` to `0` gives id 1 for both values. | counter `0xFFFFFFFFFFFFFFFF` (`-1L`), then `0` | consecutive ids differ, so a pending acknowledgement cannot collide with the next packet | not executed | LinkManager.AsWrittenRepeatsAtWrap | LinkManager.ConsecutiveIds |
| client/src/main/kotlin/info/skyblond/meshtastic/forwarder/utils/MeshUtils.kt:6-8 | Lengths count UTF-16 code units, so the longest fitting prefix can end between the two halves of a surrogate pair. Each half is then encoded alone, as `?`. | 199 × `a` followed by U+1F600 | cut only between characters, so the pieces together carry the text's bytes | not executed | MessageSlicer.AsWrittenSplitsPair | MessageSlicer.SlicesSendWhole |
