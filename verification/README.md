# LOG721 laboratories: a verified model of the broker, its transit protocol, the map-reduce and the contract

A Dafny model of the hard parts of a small distributed system: a TCP publish/subscribe library
(SmallTransit), the broker that routes publications through a topic trie, the nodes that run k-means as a
map-reduce over that broker, and a Solidity contract with prepaid subscriptions. `dafny verify dfyconfig.toml`
checks everything.

## What is modelled

**Wire protocol** (`ByteExtensions`, `Messages`, `Codec`, `Protocol`, `CodecProofs`, `WireLayout`, `WireParsing`).
A message is a length byte, a type byte, one length slot of 1 or 4 bytes per property in `Order`, then the property
bodies in insertion order. `Codec` says on values what the objects of `Protocol` do with dictionaries, arrays, cached
bytes and C# `int` wrap-around. The main results are the exact round trip, prefix-freeness, stable re-encoding, the
literal bytes of every message type, and the exact outcome of parsing arbitrary bytes. The round trip is keyed:
`PayloadResponse` stores its payload first and lists its type first.

**Streams and receive loops** (`Framing`, `Receiving`). Readers append each chunk to what is left and take out at
most one message. The receive loop is a plain reader followed by message-by-message processing; on every chunking of
every sequence of frames the reader loses nothing, and a tunnel loses nothing even of garbage. The only bound is that
a chunk and the bytes left over fit one array.

**Sending** (`SagaMachine`, `SendingOrchestrators`, `SagaProofs`). `Send`, `PrimeConnection`, `Wire`,
`WaitForValidResponse` and `HandleFailure` call each other over one mutable context. A flat automaton that only
counts the messages still owed is their specification: every method is proved to leave the state, the frames
sent and the responses consumed that the automaton gives. The peer is a finite list of responses, with a separate
result when a call waits for one that never comes.

**End to end** (`EndToEnd`). One publishing context and one broker context over two FIFO byte channels. A run is
any sequence of steps that deliver any number of pending bytes to either side.

**Topics and routing** (`TopicPaths`, `TopicTree`, `TopicRouting`). The trie is linked objects changed in place; a
ghost map from key paths to nodes ties it to a set of paths, on which adding, removing and matching are
specified. Routing through the trie is proved to agree with matching each subscription's pattern against the routing key.

**K-means by map-reduce** (`Lloyd`, `LloydSettles`, `RoundRobin`, `MapReduce`, `MapReduceRuns`, `MapReduceProofs`,
`MapReduceTheorems`, `MapReduceUneven`). The handlers are methods over the shared stores. A world is the stores
and the multiset of messages in flight; a run delivers them in any order. Every run computes the sequential
Lloyd iteration over exact reals, which lowers the squared error and reaches a fixed point.

**Ledger** (`Ledger`, `LedgerProofs`). The contract's loops over arrays that may hold duplicates, in wei and `uint256`.

## Where the code differs from what one would expect

- A publish call whose handshake is refused k times publishes its payload k + 1 times (`SagaProofs.PublishedOnceIff`,
  `SagaProofs.PublishedTwiceExample`): each retry is a complete send, and the interrupted one is resumed after it.
- A property longer than 255 bytes under a one-byte slot is accepted by the encoder and lost
  (`CodecProofs.RoundTripExactly`, `CodecProofs.OverlongExample`); a length of zero throws in `ToBytes`, although a
  comment there says that a single zero byte is returned.
- Removing a topic also removes ancestors that were added explicitly, so removal undoes addition only under the
  condition of `TopicPaths.RemoveAfterAdd`.
- A top-level empty key has the path string of the root; with one in the tree every lookup that starts with `#` throws
  (`TopicTree.Topics.GetTopicNodes`), and a publish then reaches nobody (`TopicRouting.EmptyKeyExample`). Routing agrees with
  matching exactly under the condition of `TopicRouting.IndexAgreementExactly`.
- `InputHandler` never sends the last `count mod n` spaces to a mapper. `ReduceHandler` then throws on them, so no iteration ever
  completes (`MapReduceUneven.CompletesIffEven`); the theorems about runs assume that n divides the count.
- With NbOfIteration = N the nodes make max(1, N - 1) iterations, not N (`MapReduceTheorems.FixedIterationCount`).
- `unsubscribe` leaves the balance in the contract (`LedgerProofs.UnsubscribeKeepsBalance`).

## Model

| member | source | states |
|---|---|---|
| ByteExtensions.ToBytes | SmallTransitNuget/SmallTransit.Domain.ProtoTransit/Extensions/ByteExtensions.cs:5-33 | for every nonzero 32-bit value the shortest little-endian byte string, which decodes to the value again; zero runs the index off the array and throws |
| ByteExtensions.PaddedDigitsRoundTrip | SmallTransitNuget/SmallTransit.Domain.ProtoTransit/Extensions/ByteExtensions.cs:35-62 | a length that fits its slot is read back unchanged from the zero-padded slot |
| ByteExtensions.ShortestIsDigits | SmallTransitNuget/SmallTransit.Domain.ProtoTransit/Extensions/ByteExtensions.cs:14-32 | bytes left after stripping zeros are the unique shortest representation of their value |
| Messages.FromCode | SmallTransitNuget/SmallTransit.Domain.ProtoTransit/MessageTypesEnum.cs:8-32 | a type byte names a message type exactly if it is at most 10, and then is that type's own code |
| Messages.HeaderOrderIsSchema | SmallTransitNuget/SmallTransit.Domain.ProtoTransit/Entities/Header/ProtoHeader.Decode.cs:86-93 | the header lists every property of the message exactly once, sorted by `Order`, and its length fits the length byte |
| CodecProofs.BuildHolds | SmallTransitNuget/SmallTransit.Domain.Services/Sending/Publishing/States/OpenedPublishingSendState.cs:29-38 | setting every property succeeds exactly if none is empty, and the object then holds the given bytes and their lengths |
| CodecProofs.BuiltEncodesToFrame | SmallTransitNuget/SmallTransit.Domain.ProtoTransit/ProtoTransit.Encode.cs:7-46 | an in-bounds message encodes to the reference layout: length byte, type byte, padded slots in header order, bodies in insertion order |
| CodecProofs.FrameParses | SmallTransitNuget/SmallTransit.Domain.ProtoTransit/ProtoTransit.Decode.cs:12-64 | round trip for every in-bounds message followed by any bytes that still fit an array: same type, same bytes under every property, remainder exactly what followed |
| CodecProofs.StrictPrefixIncomplete | SmallTransitNuget/SmallTransit.Domain.ProtoTransit/ProtoTransit.Decode.cs:14-18 | prefix-freeness: every strict prefix of a frame is Incomplete |
| CodecProofs.ParsedReencodes | SmallTransitNuget/SmallTransit.Domain.ProtoTransit/Entities/Header/ProtoHeader.Encode.cs:23-43 | re-encoding a parsed message (whose slots are zero-padded) gives the original frame |
| CodecProofs.OneByteSlotTruncates | SmallTransitNuget/SmallTransit.Domain.ProtoTransit/Entities/Header/ProtoHeader.Encode.cs:31-40 | when length values overflow their slots, each one-byte slot still ends up with the low byte of its own length |
| CodecProofs.RoundTripExactly | SmallTransitNuget/SmallTransit.Domain.ProtoTransit/ProtoTransit.Encode.cs:7-46 | a message survives encoding and parsing if and only if every property is nonempty, one-byte lengths are below 256 and the frame fits an array |
| CodecProofs.OverlongExample | SmallTransitNuget/SmallTransit.Domain.ProtoTransit/Entities/Messages/Data/PayloadResponse.cs:7-15 | a 300-byte type name is accepted by the encoder, written as a truncated length, and does not round-trip |
| CodecProofs.UnsetThrows | SmallTransitNuget/SmallTransit.Domain.ProtoTransit/Entities/Header/ProtoHeader.Encode.cs:33-40 | an object with a property that was never set cannot be encoded |
| CodecProofs.EmptiedIsRefused | SmallTransitNuget/SmallTransit.Domain.ProtoTransit/Protocol.cs:30-37 | setting a property of an encodable object to nothing throws after the bytes were replaced: the header still encodes with the old length, the body is refused |
| CodecProofs.BadHeaders | SmallTransitNuget/SmallTransit.Domain.ProtoTransit/ProtoTransit.Decode.cs:14-22 | data shorter than two bytes or than its header length is Incomplete; a type byte above 10 throws |
| WireParsing.ParseExactly | SmallTransitNuget/SmallTransit.Domain.ProtoTransit/Entities/Header/ProtoHeader.Decode.cs:34-92 | for any bytes that fit an array, by slot offsets and signed 32-bit lengths: exactly when parsing asks for more (a body ends, with overflow, after the data), exactly when it succeeds (known type, complete slots, nonempty bodies inside the data), and that it throws otherwise |
| CodecProofs.ParseTakesApart | SmallTransitNuget/SmallTransit.Domain.ProtoTransit/ProtoTransit.Decode.cs:12-64 | for arbitrary bytes: if parsing succeeds, header, nonempty bodies in insertion order and remainder put together are exactly the bytes |
| WireLayout.PublishLayout | SmallTransitNuget/SmallTransit.Domain.ProtoTransit/Entities/Messages/Data/Publish.cs:7-15 | for all values in bounds the bytes written out: 8, 3, two one-byte lengths, a four-byte little-endian length, routing key, type, payload; and they are read back as the message |
| WireLayout.SendLayout | SmallTransitNuget/SmallTransit.Domain.ProtoTransit/Entities/Messages/Data/Send.cs:7-15 | the bytes written out: 8, 9, lengths of sender id and type, four-byte payload length, sender id, type, payload |
| WireLayout.SubscribeLayout | SmallTransitNuget/SmallTransit.Domain.ProtoTransit/Entities/Messages/Data/Subscribe.cs:7-15 | the bytes written out: 5, 5, three one-byte lengths, routing key, type, queue name |
| WireLayout.PushLayout | SmallTransitNuget/SmallTransit.Domain.ProtoTransit/Entities/Messages/Data/Push.cs:7-13 | the bytes written out: 6, 4, four-byte length, payload |
| WireLayout.PayloadResponseLayout | SmallTransitNuget/SmallTransit.Domain.ProtoTransit/Entities/Messages/Data/PayloadResponse.cs:7-15 | the bytes written out: 7, 10, type length, four-byte payload length, payload, type: header and body orders differ |
| WireLayout.ControlLayouts | SmallTransitNuget/SmallTransit.Domain.ProtoTransit/MessageTypesEnum.cs:8-32 | the two bytes of each message without properties |
| ProtocolObjects.CopyTo | SmallTransitNuget/SmallTransit.Domain.ProtoTransit/ProtoTransit.Encode.cs:38-43 | in-place copy into a byte array: exactly the spliced contents, or unchanged if it does not fit |
| ProtocolObjects.WriteHeaderItems | SmallTransitNuget/SmallTransit.Domain.ProtoTransit/Entities/Header/ProtoHeader.Encode.cs:29-40 | the header buffer after the item loop, overflow into neighbouring slots included; fails exactly on a missing or non-fitting value |
| ProtocolObjects.CutSlots | SmallTransitNuget/SmallTransit.Domain.ProtoTransit/Entities/Header/ProtoHeader.Decode.cs:69-83 | the raw slot bytes in header order, or a throw when the data ends early |
| ProtocolObjects.ProtoHeader.constructor | SmallTransitNuget/SmallTransit.Domain.ProtoTransit/Entities/Header/ProtoHeader.cs:16-26 | a fresh header of its type without specific items and nothing cached |
| ProtocolObjects.ProtoHeader.SetHeaders | SmallTransitNuget/SmallTransit.Domain.ProtoTransit/Entities/Header/ProtoHeader.cs:54-64 | one unset slot per property of the message type |
| ProtocolObjects.ProtoHeader.TrySetValue | SmallTransitNuget/SmallTransit.Domain.ProtoTransit/Entities/Header/ProtoHeader.cs:47-52 | stores the shortest bytes of the length; unknown property is refused, an empty value throws, neither changes the header |
| ProtocolObjects.ProtoHeader.GetHeaderBytes | SmallTransitNuget/SmallTransit.Domain.ProtoTransit/Entities/Header/ProtoHeader.Encode.cs:23-43 | the header bytes of the object's current slots |
| ProtocolObjects.ProtoHeader.GetBytes | SmallTransitNuget/SmallTransit.Domain.ProtoTransit/Entities/Header/ProtoHeader.Encode.cs:10-21 | the first result is cached and returned unchanged ever after |
| ProtocolObjects.ProtoHeader.InitializeFromBytes | SmallTransitNuget/SmallTransit.Domain.ProtoTransit/Entities/Header/ProtoHeader.Decode.cs:12-23 | the slots become exactly those cut from the message, or the failure is reported |
| ProtocolObjects.ProtoHeader.GetPropertyHeaderInfos | SmallTransitNuget/SmallTransit.Domain.ProtoTransit/Entities/Header/ProtoHeader.Decode.cs:34-56 | where each body lies, with 32-bit wrap-around, and Incomplete as soon as one ends past the data |
| ProtocolObjects.Protocol.constructor | SmallTransitNuget/SmallTransit.Domain.ProtoTransit/Entities/Messages/Data/PayloadResponse.cs:7-15 | a fresh object with every property of its schema present and empty |
| ProtocolObjects.Protocol.TrySetProperty | SmallTransitNuget/SmallTransit.Domain.ProtoTransit/Protocol.cs:30-38 | bytes and length are set together; an empty value leaves the object half set |
| CodecProofs.SetThenGet | SmallTransitNuget/SmallTransit.Domain.ProtoTransit/Protocol.cs:30-47 | reading after setting: the value just set under its own key, even if setting threw on an empty value, the old value under every other; setting is refused exactly where reading is |
| CodecProofs.ParsedProperty | SmallTransitNuget/SmallTransit.Domain.ProtoTransit/Protocol.cs:40-47 | whatever property a receiver reads out of a frame, it gets what the sender set, or a refusal exactly for properties the type does not have |
| ProtocolObjects.Protocol.CopyProperties | SmallTransitNuget/SmallTransit.Domain.ProtoTransit/ProtoTransit.Encode.cs:36-43 | the payload array holds the property bytes one after the other in insertion order |
| ProtocolObjects.Protocol.GetBodyBytes | SmallTransitNuget/SmallTransit.Domain.ProtoTransit/ProtoTransit.Encode.cs:27-46 | the body bytes, refused exactly when a property is empty |
| ProtocolObjects.Protocol.GetBytes | SmallTransitNuget/SmallTransit.Domain.ProtoTransit/ProtoTransit.Encode.cs:7-25 | encodes the current state once; later calls return the cached bytes whatever was set since |
| ProtocolObjects.Protocol.StorePortions | SmallTransitNuget/SmallTransit.Domain.ProtoTransit/ProtoTransit.Decode.cs:39-50 | every portion is cut out and stored under its own property, other properties stay |
| ProtocolObjects.Protocol.InitializeFrom | SmallTransitNuget/SmallTransit.Domain.ProtoTransit/ProtoTransit.Decode.cs:33-64 | properties filled from the message and the end of the last body returned, every failure branch included |
| ProtocolObjects.TryParseMessage | SmallTransitNuget/SmallTransit.Domain.ProtoTransit/ProtoTransit.Decode.cs:12-31 | the imperative parser agrees with the parsing function on every input, failures included |
| Framing.ChannelTunnel.WaitForResponse | SmallTransitNuget/SmallTransit.Infrastructure.TcpClient/L4LinkBuffers/ChannelTunnel.cs:37-54 | one chunk per call: storage grows, at most one message is taken out, a failed parse keeps all bytes; blocks on an empty channel |
| Framing.ChannelTunnel.SendMessage | SmallTransitNuget/SmallTransit.Infrastructure.TcpClient/L4LinkBuffers/ChannelTunnel.cs:23-35 | always succeeds and appends exactly the given bytes |
| Framing.FeedTakesNextFrame | SmallTransitNuget/SmallTransit.Application.Services/Orchestrator/Receiving/BrokerReceiveOrchestrator.cs:33-44 | anywhere in a stream of frames of any total length: if left-over and chunk fit an array, the next message comes out exactly when all its bytes have arrived, and no other byte is consumed |
| Framing.ChunkingLosesNothing | SmallTransitNuget/SmallTransit.Application.Services/Orchestrator/Receiving/BrokerReceiveOrchestrator.cs:29-44 | for every frame sequence, however long in all, and every chunking in which each chunk fits an array together with the bytes not yet handled: handled messages are a prefix of those sent, their frames plus the buffer are exactly the bytes received, the reader never fails; how many are handled is given by a separate count |
| Framing.NothingIsLost | SmallTransitNuget/SmallTransit.Infrastructure.TcpClient/L4LinkBuffers/ChannelTunnel.cs:37-54 | for any chunks of any bytes, garbage included: the bytes cut out and the bytes held are together exactly what arrived, every message was cut out with its own nonempty bodies, and a failed parse of any kind takes nothing |
| Framing.LoneFrameEmptiesBuffer | SmallTransitNuget/SmallTransit.Application.Services/Orchestrator/Receiving/BrokerReceiveOrchestrator.cs:29-44 | a frame arriving alone in any number of pieces is handled once and leaves an empty buffer |
| Framing.FirstArrives | SmallTransitNuget/SmallTransit.Application.Services/Orchestrator/Receiving/BrokerReceiveOrchestrator.cs:31-44 | the first message is handled exactly when all its bytes have arrived |
| Receiving.ReceiveOrchestrator.OnMessage | SmallTransitNuget/SmallTransit.Application.Services/Orchestrator/Receiving/BrokerReceiveOrchestrator.cs:46-61 | state, deliveries and answers after one message, for each outcome of deserializer and controller |
| Receiving.ReceiveOrchestrator.Execute | SmallTransitNuget/SmallTransit.Application.Services/Orchestrator/Receiving/BrokerReceiveOrchestrator.cs:25-70 | the whole loop over all chunks of a connection, with its result on every way out |
| Receiving.LoopIsReadThenProcess | SmallTransitNuget/SmallTransit.Application.Services/Orchestrator/Receiving/BrokerReceiveOrchestrator.cs:25-70 | on any chunks at all, garbage included, the loop does what reading all messages first and then processing them one by one does, parse failures included |
| Receiving.ReceiveRefinesProcess | SmallTransitNuget/SmallTransit.Application.Services/Orchestrator/Receiving/SubscriberReceiveOrchestrator.cs:24-59 | refinement: on any such chunking of frames the loop does exactly what processing the counted prefix of the messages does; while it runs it has handled that many and its buffer is the rest of the bytes |
| Receiving.BrokerStates | SmallTransitNuget/SmallTransit.Domain.Services/Receiving/BrokerReceive/States/FreeBrokerState.cs:15-49 | which state a running broker context is in after any messages |
| Receiving.BrokerDeliversPublished | SmallTransitNuget/SmallTransit.Domain.Services/Receiving/BrokerReceive/States/BrokerPrimedState.cs:14-46 | over any messages: deliveries are a prefix of what was published, in order, once; at most one handled message is unacknowledged, none while running |
| Receiving.SubscriberDeliversPushed | SmallTransitNuget/SmallTransit.Domain.Services/Receiving/SubscriberReceive/States/SubscriberSubscribedState.cs:16-36 | the same on the push side; a push sent again after a Nack is delivered again |
| Receiving.BrokerRunsExactly | SmallTransitNuget/SmallTransit.Domain.Services/Receiving/BrokerReceive/States/BrokerPrimedState.cs:14-46 | a broker keeps running exactly through a handshake, accepted publications and possibly a last Close |
| Receiving.SubscriptionExactly | SmallTransitNuget/SmallTransit.Domain.Services/Receiving/BrokerReceive/States/FreeBrokerState.cs:27-45 | over all messages and outcomes: a subscription is returned if and only if the first message is a Subscribe with its three properties that can be deserialized, and routing key, type and queue name are those of the message; one Ack, nothing delivered |
| Receiving.SubscriptionOverChunks | SmallTransitNuget/SmallTransit.Application.Services/Orchestrator/Receiving/BrokerReceiveOrchestrator.cs:50-57 | the same for the byte loop on any chunking, as soon as the whole frame has arrived |
| Receiving.BrokerStops | SmallTransitNuget/SmallTransit.Application.Services/Orchestrator/Receiving/BrokerReceiveOrchestrator.cs:48-64 | the message that ends a conversation: what was delivered, what was acknowledged, what is returned and the state it leaves |
| Receiving.SubscriberStops | SmallTransitNuget/SmallTransit.Application.Services/Orchestrator/Receiving/SubscriberReceiveOrchestrator.cs:24-102 | the message that ends a push conversation: what was delivered, that it is not acknowledged, and that a failure is returned |
| Receiving.SubscriberRunsExactly | SmallTransitNuget/SmallTransit.Domain.Services/Receiving/SubscriberReceive/States/SubscriberSubscribedState.cs:16-36 | a subscriber keeps running exactly through accepted pushes and possibly a last Close |
| Receiving.EndStatesRefuse | SmallTransitNuget/SmallTransit.Domain.Services/Receiving/BrokerReceive/States/BrokerSubscribedState.cs:13-16 | a subscribed or closed context refuses every message and stays |
| SagaMachine.RunEnds | SmallTransitNuget/SmallTransit.Domain.Services/Sending/SendingOrchestrator.cs:23-103 | for every response list a run that does not block ends Ready on success and Closed on refusal, and consumes responses |
| SagaMachine.Compose | SmallTransitNuget/SmallTransit.Domain.Services/Sending/SendingOrchestrator.cs:23-28 | owing a + b messages is owing a and then, if that succeeds, b more: the recursive calls flatten to a counter |
| SagaMachine.ClosingForgets | SmallTransitNuget/SmallTransit.Domain.Services/Sending/SeedWork/States/ClosingSendState.cs:16-25 | once closing, what was still owed no longer matters |
| SagaMachine.ClosingNeverSucceeds | SmallTransitNuget/SmallTransit.Domain.Services/Sending/SeedWork/States/ClosedSendState.cs:20-23 | a closing or closed context can only be refused or block |
| SendingOrchestrators.SendingOrchestrator.constructor | SmallTransitNuget/SmallTransit.Domain.Services/Sending/Publishing/States/CreatedPublishingSendState.cs:15-24 | where a context of each kind starts |
| SendingOrchestrators.SendingOrchestrator.SetState | SmallTransitNuget/SmallTransit.Domain.Services/Sending/SeedWork/StateHolder/SendingStateHolder.cs:12-16 | the state changes, and is recorded, exactly if it differs |
| SendingOrchestrators.SendingOrchestrator.BuildSaga | SmallTransitNuget/SmallTransit.Domain.Services/Sending/SeedWork/StateHolder/SendingStateHolder.cs:18-23 | a saga exactly in the states that can build a message; Closed fails with ConnectionClosed, Subscribed with another error |
| SendingOrchestrators.SendingOrchestrator.Send | SmallTransitNuget/SmallTransit.Domain.Services/Sending/SendingOrchestrator.cs:23-28 | state, frames sent, responses consumed and result are those of the flat automaton, through all mutual recursion; a refused call reports the closed connection, except that an open context reports an unreadable answer itself |
| SendingOrchestrators.SendingOrchestrator.PrimeConnection | SmallTransitNuget/SmallTransit.Domain.Services/Sending/SendingOrchestrator.cs:30-40 | succeeds exactly if the context becomes ready, fails with ConnectionClosed exactly if it ends Closed; so a subscription succeeds iff the context is Subscribed although every inner Send fails |
| SendingOrchestrators.SendingOrchestrator.Wire | SmallTransitNuget/SmallTransit.Domain.Services/Sending/SendingOrchestrator.cs:42-54 | one frame, one wait, and the saga's Ack on success, equal to the automaton's run |
| SendingOrchestrators.SendingOrchestrator.NextResponse | SmallTransitNuget/SmallTransit.Domain.Services/Sending/SendingOrchestrator.cs:60-80 | incomplete reads are skipped without effect on the run |
| SendingOrchestrators.SendingOrchestrator.WaitForValidResponse | SmallTransitNuget/SmallTransit.Domain.Services/Sending/SendingOrchestrator.cs:58-96 | after an inner Send succeeded, the outer Ack leads to the state already reached; every answer drives the automaton's run |
| SendingOrchestrators.SendingOrchestrator.HandleFailure | SmallTransitNuget/SmallTransit.Domain.Services/Sending/SendingOrchestrator.cs:98-103 | the compensating transition followed by a complete new send |
| SendingOrchestrators.SendingOrchestrator.SendAndGetResponse | SmallTransitNuget/SmallTransit.Application.Services/Orchestrator/Sending/SendOrchestrator.cs:45-50 | the request call as a run of the automaton; Ok exactly if it succeeded, and which failure each other end reports |
| SendingOrchestrators.SendingOrchestrator.WireAndGetResponse | SmallTransitNuget/SmallTransit.Application.Services/Orchestrator/Sending/SendOrchestrator.cs:52-68 | one Send frame and its answer as a run of the automaton |
| SendingOrchestrators.SendingOrchestrator.WaitForPayload | SmallTransitNuget/SmallTransit.Application.Services/Orchestrator/Sending/SendOrchestrator.cs:72-115 | only a payload of the expected type is an answer; an Ack closes, a mismatched type fails without changing state |
| SendingOrchestrators.SendingOrchestrator.HandleRequestFailure | SmallTransitNuget/SmallTransit.Application.Services/Orchestrator/Sending/SendOrchestrator.cs:138-143 | the compensating transition followed by a complete new request, which can only close |
| SagaProofs.RunDisciplined | SmallTransitNuget/SmallTransit.Domain.Services/Sending/SendingOrchestrator.cs:23-103 | along every run the state rank Created < Opened = Subscribed < Closing < Closed never falls, every frame is the one its state prescribes, nothing is sent once closed |
| SagaProofs.OneCloseAtMost | SmallTransitNuget/SmallTransit.Domain.Services/Sending/SeedWork/States/ClosingSendState.cs:13-25 | at most one Close frame per run, none if it succeeds |
| SagaProofs.SessionDisciplined | SmallTransitNuget/SmallTransit.Domain.Services/Sending/SendingOrchestrator.cs:23-103 | the same over any number of calls on one context |
| SagaProofs.IncompleteInvisible | SmallTransitNuget/SmallTransit.Domain.Services/Sending/SendingOrchestrator.cs:78-80 | responses that complete no message change nothing but what is consumed |
| SagaProofs.FatalAnswer | SmallTransitNuget/SmallTransit.Domain.Services/Sending/Push/States/OpenedPushSendState.cs:18-27 | for every response list: the complete rest of a run after an answer that ends the conversation, for every kind and state: who sends a Close, who obeys silently, where it ends |
| SagaProofs.PushExactly | SmallTransitNuget/SmallTransit.Domain.Services/Sending/Push/States/OpenedPushSendState.cs:18-27 | for every response list: a push succeeds exactly if the complete answers begin Nack^k Ack, and has then sent k + 1 Push frames and consumed exactly those answers |
| SagaProofs.SubscribeExactly | SmallTransitNuget/SmallTransit.Domain.Services/Sending/Subscribing/States/CreatedSubscribingSendState.cs:19-44 | for every response list: a subscription succeeds exactly if the complete answers begin Nack^k Ack, with k + 1 Subscribe frames |
| SagaProofs.RequestExactly | SmallTransitNuget/SmallTransit.Domain.Services/Sending/Send/States/OpenedSendState.cs:18-27 | for every response list: a request succeeds exactly if the first complete answer is a payload of the expected type; one Send frame, one answer consumed; a payload of another type fails and leaves the context open |
| SagaProofs.FirstFrame | SmallTransitNuget/SmallTransit.Domain.Services/Sending/SeedWork/States/SendState.cs:24-39 | the frame every run starts with, for every kind and state |
| SagaProofs.PayloadTriggers | SmallTransitNuget/SmallTransit.Domain.Services/Sending/Publishing/States/OpenedPublishingSendState.cs:18-27 | a payload keeps an open request context open and makes every other context hang up; the orchestrators raise it nowhere else |
| SagaProofs.PublishOwed | SmallTransitNuget/SmallTransit.Domain.Services/Sending/Publishing/States/OpenedPublishingSendState.cs:18-27 | for every response list: an open publisher that owes n publications needs exactly n Acks and sends exactly n Publish frames |
| SagaProofs.PublishFromCreated | SmallTransitNuget/SmallTransit.Domain.Services/Sending/Publishing/States/CreatedPublishingSendState.cs:15-24 | for every response list: which answers make a publish call on a fresh context succeed, and its exact log, with one extra publication per refused handshake |
| SagaProofs.PublishedOnceIff | SmallTransitNuget/SmallTransit.Domain.Services/Sending/SendingOrchestrator.cs:87-102 | for every response list and outcome how often a publish call sends its payload; at most 1 + (refused handshakes) times, exactly that often on success, so a successful call sends it once if and only if the first handshake was accepted |
| SagaProofs.PublishedTwiceExample | SmallTransitNuget/SmallTransit.Domain.Services/Sending/SendingOrchestrator.cs:87-102 | the answers Nack Ack Ack Ack make one successful call publish twice |
| EndToEnd.PublisherIsSession | SmallTransitNuget/SmallTransit.Domain.Services/Sending/SendingOrchestrator.cs:23-103 | the publisher that reacts response by response sends what the publish calls send, for every response list |
| EndToEnd.EndToEndDelivery | SmallTransitNuget/SmallTransit.Application.Services/Orchestrator/Receiving/BrokerReceiveOrchestrator.cs:25-70 | in every run over two FIFO byte channels with arbitrary chunking: delivered is a prefix of published, in order, no duplicates; acknowledged <= delivered <= acknowledged + 1 |
| EndToEnd.BufferEmptyAfterHandling | SmallTransitNuget/SmallTransit.Application.Services/Orchestrator/Receiving/BrokerReceiveOrchestrator.cs:33-46 | the broker's buffer is empty after every message it handles |
| EndToEnd.QuietMeansDone | SmallTransitNuget/SmallTransit.Application.Services/Orchestrator/Receiving/BrokerReceiveOrchestrator.cs:59-64 | with nothing in flight either everything was delivered and acknowledged or the broker stopped on a failing controller |
| TopicPaths.JoinSplit | Broker/Entities/TopicNode.cs:62-72 | joining the keys of a split pattern gives the pattern back |
| TopicPaths.SplitJoin | Broker/Entities/TopicNode.cs:84-89 | splitting a joined path gives its keys back |
| TopicPaths.JoinApart | Broker/Entities/TopicNode.cs:62-72 | two paths share a path string only if they are equal or the root and the single empty key |
| TopicPaths.SplitAtSlash | Broker/Entities/TopicNode.cs:84-89 | a pattern is cut at every slash: splitting distributes over it |
| TopicPaths.MatchesIsCovers | Broker/Entities/TopicNode.cs:118-153 | the recursive match means, level by level: up to the first # every level is a * or the key itself, a # lets the path be any longer, without one the lengths agree |
| TopicPaths.TreeIsClosure | Broker/Entities/TopicNode.cs:91-109 | a tree is exactly its leaves and their prefixes |
| TopicPaths.AddPresent | Broker/Entities/TopicNode.cs:91-109 | adding changes nothing exactly if the path was there |
| TopicPaths.RemoveIsClosure | Broker/Entities/TopicNode.cs:160-185 | after removing a leaf the nodes are the prefixes of the remaining leaves |
| TopicPaths.RemoveLeaves | Broker/Entities/TopicNode.cs:160-185 | the leaf set becomes exactly the old one without the removed leaf |
| TopicPaths.RemoveAfterAdd | Broker/Entities/TopicNode.cs:91-194 | remove after add restores the tree if and only if the path was an inner node before, or was absent and no proper prefix of it was a leaf |
| TopicTree.AddNodesFrom | Broker/Entities/TopicNode.cs:91-109 | in-place walk that creates missing nodes; old nodes keep their paths and links; true exactly if the last node is new |
| TopicTree.GetTopicPath | Broker/Entities/TopicNode.cs:62-72 | following parent links yields the joined key path |
| TopicTree.GetAllChildren | Broker/Entities/TopicNode.cs:45-55 | appends every node strictly below, each once |
| TopicTree.GetNodesFrom | Broker/Entities/TopicNode.cs:118-153 | the dictionary gains exactly the matching nodes of the subtree under their path strings; fails exactly on the one possible duplicate key |
| TopicTree.RemoveNodesFrom | Broker/Entities/TopicNode.cs:160-194 | true exactly on a leaf path; then the pruned tree, otherwise every object untouched |
| TopicTree.Prune | Broker/Entities/TopicNode.cs:177-183 | the upward loop unhooks exactly the ancestors that led to nothing else, explicitly added ones included |
| TopicTree.Topics.AddTopicNodes | Broker/Entities/TopicNode.cs:84-89 | the node set becomes the old one plus all prefixes; links stay consistent; returns whether the topic was new |
| TopicTree.Topics.GetTopicNodes | Broker/Entities/TopicNode.cs:111-116 | one entry per node whose path the pattern covers level by level (literal, * or the first #), keyed by its path; throws iff the pattern starts with # and a top-level empty key exists |
| TopicTree.Topics.RemoveTopicNodes | Broker/Entities/TopicNode.cs:155-194 | true iff the path is a leaf; the tree then loses it and its dangling ancestors, otherwise nothing changes |
| TopicTree.Topics.GetTopicLeafs | Broker/Entities/TopicNode.cs:201-204 | every leaf exactly once |
| TopicRouting.BrokerHub.Advertise | Broker/Application/Router.cs:17-20 | adds the key path to the trie and nothing else |
| TopicRouting.BrokerHub.UnAdvertise | Broker/Application/Router.cs:33-36 | removes a leaf path, otherwise no effect |
| TopicRouting.BrokerHub.AddSubscription | Broker/Application/SubscriptionService.cs:19-23 | first subscription per queue name wins in both dictionaries |
| TopicRouting.BrokerHub.RemoveSubscription | Broker/Application/SubscriptionService.cs:25-29 | subscription and queue go together |
| TopicRouting.BrokerHub.TopicsContain | Broker/Application/QueueService.cs:53-57 | membership in the looked-up topics is pattern matching of an existing node |
| TopicRouting.BrokerHub.GetQueues | Broker/Application/QueueService.cs:51-58 | exactly the queues whose pattern selects the routing key |
| TopicRouting.BrokerHub.AddPublication | Broker/Application/QueueService.cs:25-49 | appends once, only if the contract agrees |
| TopicRouting.BrokerHub.Publish | Broker/Application/PublisherHandler.cs:24-29 | the new queues after publishing; fails exactly if some lookup throws |
| TopicRouting.RunInvariant | Broker/Application/SubscriptionService.cs:19-29 | in every run the trie is prefix-closed, subscription and queue keys are equal, and without a top-level empty key no publish throws |
| TopicRouting.SubscriptionExactly | Broker/Application/SubscriptionService.cs:19-29 | over any operations: a queue is subscribed exactly if some Subscribe of it has no later Unsubscribe, and to the earliest such one |
| TopicRouting.FreshQueue | Broker/Application/SubscriptionService.cs:19-29 | a queue that subscribes while not subscribed, be it again after an Unsubscribe, starts empty |
| TopicRouting.QueuesKept | Broker/Application/SubscriptionService.cs:21-28 | no other operation touches the contents of a queue |
| TopicRouting.UnadvertisedReachesNobody | Broker/Application/QueueService.cs:51-58 | a publication under a key that is no node changes nothing |
| TopicRouting.AdvertiseExactly | Broker/Application/Router.cs:17-20 | after any operations advertising adds exactly the prefixes of the path |
| TopicRouting.UnAdvertiseExactly | Broker/Application/Router.cs:33-36 | after any operations unadvertising a leaf leaves the prefixes of the other leaves, and of anything else nothing changes |
| TopicRouting.IndexAgreementExactly | Broker/Application/QueueService.cs:25-58 | after any operations, advertise then publish appends the publication once to exactly the queues whose pattern matches and whose contract is equal, and touches nothing else, if and only if no lookup throws or no queue wants it |
| TopicRouting.IndexAgreement | Broker/Application/QueueService.cs:51-58 | without a top-level empty key the trie always agrees with matching |
| TopicRouting.EmptyKeyExample | Broker/Entities/TopicNode.cs:126-132 | a subscription to # misses a publication under /x: the failing lookup leaves the hub unchanged |
| Lloyd.Nearest | Node/Domain.Services/GroupServices.cs:8-11 | a closest centre, and the first of them on a tie |
| Lloyd.NearestIsBest | Node/Domain.Services/GroupServices.cs:8-11 | no assignment has a smaller squared error than the nearest one |
| Lloyd.CostByGroup | Node/Application.Commands.Reducer/Reduce/ReduceHandler.cs:42-56 | the squared error over the spaces equals its sum group by group |
| Lloyd.SpreadAtMean | Node/Application.Commands.Reducer/Reduce/ReduceHandler.cs:51-56 | moving a centre to the average lowers its squared error by size times squared move |
| Lloyd.StepLowersError | Node/Application.Commands.Reducer/Reduce/ReduceHandler.cs:51-64 | every iteration lowers the squared error by at least the sum over the groups of size times delta squared |
| Lloyd.BigMovesBounded | Node/Application.Commands.Reducer/Event/ResultService.cs:67-86 | the iterations that move a nonempty group by more than 1 number at most the floor of the initial error, over any number of iterations |
| LloydSettles.AssignmentRepeats | Node/Domain.Services/GroupServices.cs:8-11 | two of the first m^n + 1 iterations assign every space alike |
| LloydSettles.NoGainNoMove | Node/Application.Commands.Reducer/Reduce/ReduceHandler.cs:49-56 | if an iteration does not lower the error, a group either stays or is empty and goes to 0 |
| LloydSettles.FixedPointReached | Node/Application.Commands.Reducer/Event/ResultService.cs:67-86 | from any start the iteration reaches an exact fixed point within m^n steps for m groups and n spaces |
| RoundRobin.RoundRobinAlgorithm.GetNextElement | Node/Application.Commands/RoundRobinAlgorithm.cs:19-28 | the element in turn, and the cyclic advance of the index |
| RoundRobin.RoundRobinAttributionStrategy.GetTopicFrom | Node/Application.Commands.Orchestrator/Service/RoundRobinAttributionStrategy.cs:19-29 | the object's answers over its whole life are those of the run of all its calls |
| RoundRobin.AnswersAreSticky | Node/Application.Commands.Orchestrator/Service/RoundRobinAttributionStrategy.cs:19-29 | every answer, early or late, is the one reducer the id holds at the end |
| RoundRobin.EqualIdsShareTopic | Node/Application.Commands.Orchestrator/Service/RoundRobinAttributionStrategy.cs:21-22 | equal group ids always get the same reducer |
| RoundRobin.Balanced | Node/Application.Commands/RoundRobinAlgorithm.cs:19-28 | after any calls over m distinct ids each of r distinct reducers holds floor(m/r) or ceil(m/r) of them |
| MapReduce.Node.constructor | Node/Application.Commands.Map/Input/InputHandler.cs:34-53 | empty stores, iteration 1, both round robins at their start |
| MapReduce.Node.HandleInput | Node/Application.Commands.Map/Input/InputHandler.cs:55-125 | csv files loaded only into empty stores, then one chunk per mapper |
| MapReduce.Node.SendSpacesToMappers | Node/Application.Commands.Map/Input/InputHandler.cs:94-124 | mapper j gets chunk j of equal size, and the round robin is back at its start |
| MapReduce.Node.HandleMap | Node/Application.Commands.Map/Map/MapHandler.cs:39-75 | exactly the named spaces get their nearest group, others stay; repeated ids or no groups throw without effect |
| MapReduce.Node.HandleMapFinished | Node/Application.Commands.Map/Event/MapFinishedEventHandler.cs:32-72 | flag raised; with all up they are lowered and one Shuffle sent |
| MapReduce.Node.HandleShuffle | Node/Application.Commands.Orchestrator/Shuffle/ShuffleHandler.cs:28-44 | one Reduce per group, each to the reducer it is attributed to |
| MapReduce.Node.HandleReduce | Node/Application.Commands.Reducer/Reduce/ReduceHandler.cs:38-68 | only this group changes, to the average of its spaces or 0, and the distance moved is reported; an unassigned space or unknown group throws without effect |
| MapReduce.Node.IncrementIteration | Node/Application.Commands.Reducer/Event/ResultService.cs:88-107 | both kinds of flags lowered, deltas kept, counter advanced |
| MapReduce.Node.HandleReduceFinished | Node/Application.Commands.Reducer/Event/ReduceFinishedEventHandler.cs:27-59 | result recorded; with all in, the iteration ends and an Input is sent exactly if there are more iterations |
| MapReduceProofs.ChunksCover | Node/Application.Commands.Map/Input/InputHandler.cs:102-118 | the chunks hold exactly the first n * (count / n) spaces; all of them if and only if n divides the count |
| MapReduceProofs.InGroupIsMembers | Node/Application.Commands.Reducer/Reduce/ReduceHandler.cs:42 | the spaces a reducer finds under a group id are the members of the sequential step, in order |
| MapReduceProofs.SettledIsCalm | Node/Application.Commands.Reducer/Event/ResultService.cs:76-85 | comparing counts is deciding whether no group moved by more than EPSILON |
| MapReduceProofs.ThrowsExactly | Node/Application.Commands.Reducer/Reduce/ReduceHandler.cs:42-47 | on any stores exactly when a handler throws: repeated ids, no group to choose from, a space never mapped, an unknown group |
| MapReduceProofs.InputReloads | Node/Application.Commands.Map/Input/InputHandler.cs:62-89 | on any stores: the csv files are loaded exactly if there are no spaces or no groups; then every csv row is stored under its id and rows of other ids stay |
| MapReduceProofs.ResetExactly | Node/Application.Commands.Reducer/Event/ResultService.cs:88-107 | on any stores: all flags of both kinds down, no entry dropped, deltas kept, counter advanced |
| MapReduceTheorems.RunInv | Node/Application.Commands.Map/Event/MapFinishedEventHandler.cs:38-67 | after any deliveries in any order the stores and the multiset of messages in flight are those of one point of the sequential algorithm, and Shuffle and Input were handled once per iteration |
| MapReduceTheorems.EveryRunIsSequential | Node/Application.Commands.Reducer/Event/ReduceFinishedEventHandler.cs:31-54 | every maximal run has the same length and ends with the groups of the sequential Lloyd iteration; no run is longer or gets stuck before |
| MapReduceTheorems.FixedIterationCount | Node/Application.Commands.Reducer/Event/ResultService.cs:67-70 | with NbOfIteration = N >= 0 a complete run makes exactly max(1, N - 1) iterations |
| MapReduceTheorems.StopsWhenCalm | Node/Application.Commands.Reducer/Event/ResultService.cs:67-86 | with N < 0 a complete run ends with the first iteration in which every group moved by at most 1.0, at the latest after m^n + 1 |
| MapReduceTheorems.BigIterationsPaidFor | Node/Application.Commands.Reducer/Event/ResultService.cs:12 | in every run the completed iterations that moved a nonempty group by more than 1.0 number at most the floor of the initial squared error |
| MapReduceTheorems.Barriers | Node/Application.Commands.Map/Event/MapFinishedEventHandler.cs:44-67 | a Shuffle is alone in flight with every space in its nearest group; an Input is alone in flight with every group reduced; all flags are down in both cases |
| MapReduceTheorems.NothingThrows | Node/Application.Commands.Reducer/Reduce/ReduceHandler.cs:46-47 | no handler throws in any run, and each delivery uses up one of the remaining steps |
| MapReduceUneven.UnevenNeverReduces | Node/Application.Commands.Reducer/Reduce/ReduceHandler.cs:42 | if the mappers do not divide the spaces evenly, every Reduce of every run throws on the space that was never mapped |
| MapReduceUneven.CompletesIffEven | Node/Application.Commands.Map/Input/InputHandler.cs:102-118 | some run completes an iteration if and only if the number of mappers divides the number of spaces |
| Ledger.MessageBroker.Advertise | studentNumberContract/contracts/BrokerPubSub.sol:25-35 | the caller becomes a publisher once more; the name is set on first use |
| Ledger.MessageBroker.Subscribe | studentNumberContract/contracts/BrokerPubSub.sol:37-46 | accepted exactly for 0.5 ether; one more entry and the deposit credited; otherwise nothing changes |
| Ledger.MessageBroker.Publish | studentNumberContract/contracts/BrokerPubSub.sol:48-63 | the loop over the subscriber array, equal to serving each entry in turn; reverts without effect for a non-publisher |
| Ledger.MessageBroker.Unsubscribe | studentNumberContract/contracts/BrokerPubSub.sol:65-73 | one entry deleted, remaining balance reported and left in place; reverts without effect for a non-subscriber |
| Ledger.MessageBroker.IsPublisherInTopic | studentNumberContract/contracts/BrokerPubSub.sol:87-94 | found exactly if the address is in the array |
| Ledger.MessageBroker.IsSubscriberInTopic | studentNumberContract/contracts/BrokerPubSub.sol:96-103 | found exactly if the address is in the array |
| Ledger.MessageBroker.DeleteFromArray | studentNumberContract/contracts/BrokerPubSub.sol:105-115 | swap with the last entry and pop, at the first match |
| LedgerProofs.DeleteRemovesOne | studentNumberContract/contracts/BrokerPubSub.sol:105-115 | one occurrence leaves the multiset and nothing else changes |
| LedgerProofs.DeletedPointwise | studentNumberContract/contracts/BrokerPubSub.sol:105-115 | the last entry stands in place of the first match and every other entry is unmoved |
| LedgerProofs.PublishIsExact | studentNumberContract/contracts/BrokerPubSub.sol:48-63 | each address gets exactly min(its entries, balance / price) copies and pays exactly for those; other topics, subscribers and the ether are untouched |
| LedgerProofs.UnsubscribeKeepsBalance | studentNumberContract/contracts/BrokerPubSub.sol:65-73 | one entry less; balances and messages of everyone stay |
| LedgerProofs.Conservation | studentNumberContract/contracts/BrokerPubSub.sol:37-73 | over every call sequence: balance + price * messages received = deposit * accepted subscriptions, per topic and address; entries = deposits - withdrawals; ether = all deposits |
| LedgerProofs.DeliveriesBounded | studentNumberContract/contracts/BrokerPubSub.sol:54-59 | each deposit buys at most 100 deliveries, and no balance ever wraps around |
| LedgerProofs.PublishRights | studentNumberContract/contracts/BrokerPubSub.sol:48-50 | a publish is accepted exactly from addresses that advertised the topic before |
| LedgerProofs.UnsubscribeRights | studentNumberContract/contracts/BrokerPubSub.sol:65-70 | an unsubscription is accepted exactly while a deposit is not yet withdrawn |
| LedgerProofs.SubscribeRights | studentNumberContract/contracts/BrokerPubSub.sol:37-39 | a subscription is accepted exactly for 500000000000000000 wei |
| LedgerProofs.StorageIsHistory | studentNumberContract/contracts/BrokerPubSub.sol:48-63 | over every call sequence, told from the calls alone: the messages of a topic are those published by its advertisers, in order, and an inbox holds exactly the copies its deposits pay for |
| LedgerProofs.ArraysAreHistory | studentNumberContract/contracts/BrokerPubSub.sol:25-73 | over every call sequence, told from the calls: the publishers array is the advertising callers in order, the subscribers array the standing entries in array order |
| LedgerProofs.IpIsLast | studentNumberContract/contracts/BrokerPubSub.sol:43 | the stored ip of an address is that of its last accepted subscription |
| LedgerProofs.NameIsSetOnce | studentNumberContract/contracts/BrokerPubSub.sol:28-31 | a topic has its name exactly if it was ever advertised |
| LedgerProofs.EtherIsAccountedFor | studentNumberContract/contracts/BrokerPubSub.sol:37-63 | the contract's ether is the sum of all balances plus the price of every delivery |

## Left out

- Sockets, the TCP bridge tasks, Kestrel, dependency injection, loggers, REST and Razor code, the web3 scripts: I/O and plumbing.
- IL-emitting factories and attributes: replaced by the fixed table of message schemas in `Messages`.
- MessagePack and CsvHelper: payloads and keys are opaque byte strings, the data set is given. A message type that fails to
  deserialize is a case of the controller's outcome; in the request orchestrator it is a payload that does not match.
- Exceptions that `TryParseMessage` throws (a type byte above 10, a zero length) leave `WaitForResponse` instead of being
  returned; the sending model treats them as a failed response. Streams of encoded frames never cause one.
- Sending a payload that cannot be encoded: the sending model takes payloads as opaque values that encode; `CodecProofs.BuildHolds`
  says which do.
- Identity of state objects: an outer Ack that replaces an Opened state by a new Opened state is no change here.
- The handover from a subscribing orchestrator to the subscriber's receive loop: bytes left in the tunnel are not carried
  over, so byte conservation is claimed for each reader only.
- The receive loop of the request side, heartbeats and the Unsubscribe message: they have no transitions of their own here.
- The big-endian branches of `ByteExtensions`: the host is little-endian.
- A chunk that does not fit an array together with the bytes left over: concatenating them throws in the source.
- The array limit is taken as 2^31 elements; the .NET limit is slightly lower.
- ProtocolObjects.CutSlots: collects the slots in a local map and stores them at the end; the source stores them one by one, which a
  throw in between would leave half stored in an object that is then dropped.
- `ConcurrentTopicNode`: a lock around each trie operation; operations are atomic here.
- Broker listeners, endpoints and re-subscribing after `RemoveSubscription`.
- SyncStore: a map updated atomically and enumerated in insertion order, the same on every node; replication and `UndoChangesAsync` are not modelled.
  A handler that throws is taken to change nothing.
- MapReduce.Node.HandleReduce: averages are exact reals and a space's normalized value is a given real; `Math.Sqrt` and rounding are not modelled.
- The 32-bit width of the iteration counter and of chunk indices.
- Events emitted by the contract: they repeat what the calls say.
- `Domain.Caching/Cache.cs`, `Result` and `Bind` helpers, metrics, `StudentContract`: not needed by any property above.
