# A verified model of a Kafka proxy

The proxy sits between Kafka clients and brokers that require SASL. For each connection it
forwards requests and responses, authenticates to the broker on the client's behalf, and renews
the session on the live connection (KIP-368). In Metadata and FindCoordinator responses it puts
the addresses of its own listeners in place of those of the brokers. This project models three
parts of it and proves what they are for:

* the per-connection **processor** (`Processor`, `Loops`, `AuthState`): the request loop, the
  response loop, the two bounded channels between them, the authentication state, an in-order
  broker and a clock, as a state machine in which every channel operation, critical section, read
  and write is a step of its own. A run is any list of steps, so a theorem about all runs is a
  theorem about all interleavings. The client's bytes, the wire, the broker's replies and the
  bytes sent to the client are part of the state; frames are real bytes, and what is forwarded is
  what the codec and the rewriter make of them;
* the schema-driven **codec** and the **address rewriter** (`Schema`, `Encoding`, `RealDecoding`,
  `Responses`, with the streaming readers and the frame handlers around them), first as functions
  on schema trees and bytes, then as the cursor, the two encoders and the handlers that the
  program runs, proved equal to the functions. `KafkaLayout` lays the two responses out byte by byte
  as the protocol has them, for every version and without the codec; `LayoutTheorems` and
  `ForwardedMessages` prove that the schemas read and write exactly that, and what is forwarded for
  it. `Limits`, `Refusals` and `StructFields` say what is refused;
* the **listener table** and the **port allocator** (`Listeners`, `ListenerObjects`, `Ports`,
  `ListenerPorts`), and the rewriter with the table that changes under it (`RewrittenListeners`,
  `AskingLoop`).

`WireHistory` says what the requests on the wire demand of the channels, `ProcessorInvariants`
proves what each step keeps, and `ProcessorPairing`, `BrokerStream`, `WireFraming`, `Exchanges`,
`Renewals`, `Delivery`, `Endings` and `ReauthTiming` draw the conclusions. `SampleRuns` and
`TakenListeners` exhibit runs and responses that meet the hypotheses. `dafny verify dfyconfig.toml`
checks everything.

The broker in the runs decides by its own reading of a request whether to answer it
(`ProduceAcks.BrokerReplies`), the proxy by its peek at the acks of a Produce request. Where the
two must agree, a theorem says so with the hypothesis `WireHistory.PeeksRight`; `WireFraming` says
exactly which clients meet it, and `SampleRuns` what happens otherwise.

## Where the code and its comments differ

* `CompleteReauth` does not clear `inFlightStartedAt`, whatever proxy/processor.go:164-165 and
  :581-582 say. The timing theorems rely on its staying.
* A read timeout throws away up to seven bytes of a header that has arrived in part
  (proxy/processor_default.go:50-63). `BrokerStream.NothingMissingIffNothingLost` says exactly
  when the client's stream survives, `BrokerStream.HeaderBytesCanBeLost` gives runs that lose them.
* From Produce version 9 on the header has tagged fields and the transactional id is compact; the
  peek skips no tagged fields and reads an int16 length. `ProduceAcks.FlexibleAcksPeekIsRightWhen`
  says for which requests the answer is right all the same, `ProduceAcks.FlexibleAcksPeekCanBeWrong`
  gives one for which it is wrong, and `SampleRuns.MetadataReplyIsMispaired` a run in which this
  puts the marker of a Produce request before a Metadata reply.
* With deterministic ports an address in a rewritten response may belong to another broker's
  listener by the time the client gets it. `RewrittenListeners.RewrittenWhileAsking` says exactly
  when, `TakenListeners.TakenListenerMisleads` gives the responses: a broker that has come back
  under the address that another broker had before.
* The raw SASL v0 response handler forwards four bytes of length and no payload
  (proxy/processor_sasl_auth_v0.go:79-88). `ResponseFrames.RawReplyAlignment` says what that does
  to a reply with a payload; the runs of the processor have brokers that answer with an empty one.
* A schema with zero-width array elements can be encoded into bytes that its decoder refuses
  (`SchemaTheorems.ZeroWidthElementsAreRefused`); no Kafka schema here has such elements.

## Model

| member | source | states |
|---|---|---|
| ProcessorInvariants.RunKeeps | proxy/processor.go:216-421 | every state of every run with `PeeksRight` keeps the invariants: shape of the wire, both queues paired with it, in-order answers, and the place of the response loop |
| ProcessorInvariants.RunShape | proxy/processor.go:216-421 | with no hypothesis: turns, exchanges in flight and their places on the wire are in order in every state of every run, whatever the broker answers |
| ProcessorInvariants.StepKeeps | proxy/processor.go:335-436 | each single step of either loop, the broker or the clock keeps them while the peek is right |
| ProcessorInvariants.PushNextHandlersKeeps | proxy/processor.go:290-311 | handing over the turn and pushing the handler keeps one handler more than replies to expect |
| ProcessorInvariants.PushReauthMarkerKeeps | proxy/processor.go:389-403 | the markers of an exchange go into the queue where its two replies will need them |
| ProcessorInvariants.PushReauthHandlerKeeps | proxy/processor.go:404-421 | a default handler pushed with each marker keeps the queues in step |
| ProcessorInvariants.SentPairing | proxy/processor_default.go:90-131 | putting a request on the wire turns its early marker into a due one and makes a handler due |
| ProcessorInvariants.HandlerFits | proxy/processor_sasl_auth_v0.go:17-32 | the handler next in the queue is the raw one exactly when the next reply is raw |
| ProcessorInvariants.MarkerFits | proxy/processor_default.go:186-200 | the marker next in the queue belongs to the request that the frame in hand answers |
| ProcessorPairing.QueuesFollowTheWire | proxy/processor.go:397-421 | if the acks peek is right for all requests on the wire (`PeeksRight`): between requests the marker queue is the unpopped markers in wire order, and handlers pushed are replies expected plus one |
| ProcessorPairing.HandlersFitReplies | proxy/processor.go:468-495 | if the acks peek is right for all requests on the wire (`PeeksRight`): in every run the handler taken for a reply is of the reply's kind; a handler never meets a reply of the other kind |
| ProcessorPairing.MarkersFitReplies | proxy/processor_default.go:294-310 | if the acks peek is right for all requests on the wire (`PeeksRight`): in every run the popped marker carries key and version of the request that is answered |
| ProcessorPairing.OneTurn | proxy/processor.go:280-320 | at the top of an iteration there is exactly one request handler, SASL v0 exactly after a SASL v0 handshake |
| ProcessorPairing.HandlerBacklog | proxy/processor.go:216-219 | in every run, where a handler is pushed: handlers waiting are at most markers waiting plus raw handlers waiting, and with the one a reply has taken exactly that many |
| ProcessorPairing.HandlersAlwaysFit | proxy/processor.go:298-309 | in every run, with at most one raw handler waiting, there are fewer handlers waiting than max(16, configured) + 2, so the handler pushes find room, in putNextHandlers and in a renewal |
| ProcessorPairing.ChannelsBounded | proxy/processor.go:195-240 | in every run the marker channel holds at most max(16, configured) markers and the handler channel two handlers more |
| BrokerStream.ExchangesAreWhole | proxy/processor.go:335-384 | a KIP-368 automaton over all that the broker received never sees an authenticate alone nor a client request inside an exchange, failed writes included |
| BrokerStream.ErasingGivesClientStream | proxy/processor_default.go:50-131 | without the proxy's requests the broker's stream is a prefix of what the client sent, if no header byte was lost |
| BrokerStream.NothingMissingIffNothingLost | proxy/processor_default.go:50-64 | between requests, broker stream and unread bytes make up the client's stream exactly when timeouts dropped nothing |
| BrokerStream.HeaderBytesCanBeLost | proxy/processor_default.go:50-63 | for every configuration with a session lifetime and any one to seven bytes of a header, a run in which these are lost |
| WireFraming.WireIsFramed | proxy/processor_default.go:50-119 | everything sent is whole frames, and each header has the key, version, correlation id and peeked acks that the proxy acts on |
| WireFraming.TurnByBytes | proxy/processor.go:280-320 | at the top of an iteration the SASL v0 handler has the turn exactly if the bytes of the last request to be answered say key 17 and version 0 |
| WireFraming.OnlyProduceMatters | proxy/processor_default.go:133-173 | in every run `PeeksRight` holds exactly if it holds of the Produce requests |
| WireFraming.OldProduceIsExpectedRight | proxy/protocol/request_produce_reader.go:11-59 | it holds in every run whose Produce requests are of versions 0 to 8 |
| WireFraming.DisabledAcks0 | proxy/processor_default.go:133-173 | when the proxy is told that no producer uses acks 0, it holds exactly if no client asks for acks 0 |
| WireFraming.FlexibleProduceIsExpectedRight | proxy/processor_default.go:133-173 | for a Produce request from version 9 on without header tags, exactly under the condition on id, acks and timeout |
| Exchanges.ClientGetsItsReplies | proxy/processor_default.go:175-275 | if the acks peek is right for all requests on the wire (`PeeksRight`): in every interleaving the client receives a prefix of the forwarded replies to its own requests, in order, and all of them between replies; nothing of a reply to the proxy |
| Exchanges.ForwardedReplyAnswers | proxy/processor_default.go:235-273 | each forwarded reply is one frame with the correlation id of the client's request |
| Exchanges.RewrittenReplyMeans | proxy/protocol/responses.go:328-466 | for Metadata 0 to 13 and FindCoordinator 0 to 6: and decodes to the broker's struct with only mapped addresses replaced |
| Exchanges.SwallowedIffReserved | proxy/processor.go:520-534 | if the acks peek is right for all requests on the wire (`PeeksRight`): a reply is swallowed exactly when its request has key 17 and correlation id 2147483645, or key 36 and 2147483646 |
| Exchanges.OneExchangeAtATime | proxy/processor.go:133-185 | with `PeeksRight`, at most one renewal is outstanding; in flight means exactly that its reply is not consumed |
| Exchanges.MarkedBeforeCompleted | proxy/processor.go:376-384 | with `PeeksRight`, a renewal is never completed before it was marked, however early the broker answers |
| Exchanges.BehindTheExchange | proxy/processor.go:389-421 | with `PeeksRight`, before the markers are queued the response loop cannot reach the replies of the exchange |
| Delivery.HandledIsUnderstood | proxy/processor.go:501-595 | in every run (with `PeeksRight`, reserved ids avoided) each reply the response loop is done with was understood: a client's could be forwarded, the proxy's accepted the renewal |
| Delivery.RefusalIsTheEnd | proxy/processor.go:501-595 | so behind a reply that refuses a renewal or cannot be forwarded the client never gets anything |
| Delivery.LoopsWaitFor | proxy/processor.go:423-495 | if neither loop can take a step, the request loop waits for the client's bytes, the deadline or room in a channel, the response loop for a handler, a reply or a marker |
| Delivery.NothingIsLeft | proxy/processor.go:195-240 | no deadlock: when the broker has answered everything and neither loop can go on, the client has got every reply it is due and the request loop waits for its bytes or for a renewal |
| Delivery.NoRenewalUnlessEnabled | proxy/processor.go:335-348 | with renewals switched off no run has a request of the proxy's own |
| Endings.RequestLoopEnds | proxy/processor.go:335-437 | in every run a step stops the request loop exactly if it is a failure, or an exchange is overdue, cannot be built, or finds a channel full |
| Endings.ResponseLoopEnds | proxy/processor.go:501-595 | and the response loop exactly if it is a failure, or the reply in hand, the first it is not done with, cannot be forwarded or refuses the renewal |
| ReauthTiming.AttemptsStartInTime | proxy/processor.go:131-193 | a renewal starts no earlier than it is due and no later than that or 30 s after the attempt before |
| ReauthTiming.NeverLate | proxy/processor.go:423-438 | a request loop that still runs has not passed that time |
| ReauthTiming.AttemptsStartBeforeExpiry | proxy/processor.go:113-129 | for every advertised lifetime of at least 30 s the attempt starts by the end of the session, and before it when the lifetime is longer |
| ReauthTiming.ExpiryIsAdvertised | proxy/processor.go:176-185 | the schedule encodes the end of the session the broker advertised |
| ReauthTiming.StuckExchangeEndsTheLoop | proxy/processor.go:187-193 | an unanswered exchange ends the loop at the first check past its 30 s, with no second attempt before |
| ReauthTiming.AttemptsBeginWhenDue | proxy/processor.go:335-384 | in every run, on any clock: an attempt begins only where renewals are enabled and one is found due, and the 30 s of an exchange in flight count from that moment, however long it took to send |
| SampleRuns.AttemptStarts | proxy/processor_default.go:50-64 | for every configuration with a session lifetime, a timely run to the start of a renewal |
| SampleRuns.RenewalCompletes | proxy/processor.go:335-384 | for every configuration, token and lifetime, a timely run of a whole renewal: written, marked, answered, consumed, scheduled anew |
| SampleRuns.SilenceMispairs | proxy/processor_default.go:107-119 | for every request the peek wrongly expects a reply to and every next one: a run in which the next reply meets the marker of the first |
| SampleRuns.MetadataReplyIsMispaired | proxy/processor_default.go:294-310 | such requests exist: a Metadata reply meets the marker of a Produce request |
| AuthState.ConnectionAuthState.constructor | proxy/processor.go:113-120 | the first schedule comes from the initial lifetime, or there is none |
| AuthState.ConnectionAuthState.NeedsReauthNow | proxy/processor.go:133-140 | due exactly when scheduled, not in flight and not before the schedule |
| AuthState.ConnectionAuthState.ReadDeadline | proxy/processor.go:145-152 | the loop waits until the schedule, or until the exchange in flight is given up |
| AuthState.ConnectionAuthState.Mark | proxy/processor.go:156-162 | in flight from now on, given up after 30 s |
| AuthState.ConnectionAuthState.Complete | proxy/processor.go:176-185 | no longer in flight, rescheduled if a lifetime was advertised, start time kept |
| AuthState.ConnectionAuthState.Expired | proxy/processor.go:189-193 | in flight and past the time to give up |
| AuthState.ScheduledBeforeExpiry | proxy/processor.go:122-129 | a renewal is due a second ahead at the earliest, inside the session exactly if that lasts a second, and from 1.25 s on with exactly a fifth of it left |
| AuthState.InFlightSuppresses | proxy/processor.go:131-162 | while one is in flight none is due, and only the cushion ends it |
| AuthState.NonPositiveKeepsSchedule | proxy/processor.go:172-185 | a reply without a lifetime leaves the schedule as it was |
| Loops.Connection.constructor | proxy/processor.go:195-240 | the new channels hold one default handler each and no marker |
| Loops.Connection.BeginIteration | proxy/processor.go:423-437 | the top of the loop is the machine's two steps: stopped exactly by a stuck exchange or a missing turn, else the turn's handler with the read deadline of that moment |
| Loops.Connection.SendRequestKeyVersion | proxy/processor_default.go:277-292 | is the machine's step, waiting exactly when that waits |
| Loops.Connection.ReceiveRequestKeyVersion | proxy/processor_default.go:294-310 | the same for the marker of the frame in hand, which decides what becomes of it |
| Loops.Connection.GetNextResponseHandler | proxy/processor.go:480-495 | the same for the handler of the next reply |
| Loops.Connection.PutNextHandlers | proxy/processor.go:290-311 | is the state machine's step, waiting exactly when that waits, and then only the turn has been handed over |
| Loops.Connection.EnqueueReauthMarker | proxy/processor.go:397-421 | one marker, then one default handler; the loop's end exactly if either channel is full |
| Loops.Connection.EnqueueReauthResponse | proxy/processor.go:389-395 | both legs in the order of the replies, exactly if both channels have room for two |
| Loops.Connection.WriteExchange | proxy/processor.go:349-375 | both requests are built before any byte is written; the sink has received what the state says, also after a failed write; on a reliable connection it fails only if a request cannot be built |
| Loops.Connection.MarkAndEnqueue | proxy/processor.go:376-384 | marked first, then both legs queued, as steps of the machine; fails exactly if the channels have no room |
| Loops.Connection.RunReauth | proxy/processor.go:335-384 | runReauth is a run of the state machine's own steps, for every behaviour of the sink; on a reliable connection it succeeds exactly if no renewal is due, or its requests can be built and have room |
| Loops.Connection.HandleReadTimeout | proxy/processor_default.go:52-64 | after a timeout: a renewal if one is due, then the turn goes back to the default handler; on a reliable connection under the same exact condition |
| Loops.Connection.ConsumeReauthResponse | proxy/processor.go:545-595 | is the state machine's step on the reply in hand |
| SaslReauth.BuildReauthHandshakeRequest | proxy/sasl_by_proxy.go:209-223 | the buffer holds the length prefix and the encoded handshake |
| SaslReauth.BuildReauthRequest | proxy/sasl_by_proxy.go:228-251 | the buffer holds the length prefix and the encoded authenticate, or nothing without a token |
| SaslReauth.BuiltRequestIsFrame | proxy/sasl_by_proxy.go:209-251 | what is built is one frame with the given key, version and reserved correlation id |
| Renewals.BrokerReadsHandshake | proxy/sasl_by_proxy.go:209-223 | what the broker reads in the handshake: length, key 17, version 1, correlation id 2147483645, the client id, and OAUTHBEARER with nothing behind it; built exactly for client ids up to 32767 bytes |
| Renewals.BrokerReadsAuthenticate | proxy/sasl_by_proxy.go:228-251 | and in the authenticate: key 36, version 1, correlation id 2147483646, the client id, and exactly the token as SASL bytes; built exactly for tokens that fit |
| Renewals.BuiltBeforeWritten | proxy/processor.go:349-375 | if either request cannot be built nothing is written and the request loop ends; else the handshake goes out with the authenticate at hand |
| Renewals.HandshakesAreFollowed | proxy/processor.go:349-375 | in every run the broker is left with a handshake alone only by a failed write of the authenticate |
| SaslReplies.AuthenticateReplyUnderstood | proxy/protocol/sasl_authenticate_v1.go:51-68 | of all well-formed replies exactly those with error 0 and nothing behind renew the session, for the lifetime in them |
| SaslReplies.HandshakeReplyUnderstood | proxy/processor.go:501-518 | of all well-formed handshake replies exactly those with error 0 let the exchange go on |
| Renewals.AuthenticateReplyIsConsumed | proxy/processor.go:545-595 | the next state by the fields of the reply: with error 0 and nothing behind, renewed for the lifetime in it; else the loop is stopped and the session as it was |
| Renewals.HandshakeReplyIsConsumed | proxy/processor.go:501-543 | the same for the handshake, which leaves the session alone either way |
| Renewals.OnlyRepliesWithoutErrorRenew | proxy/processor.go:545-595 | whatever bytes renew the session are, to the last one, an authenticate reply with error 0 |
| Renewals.CutRepliesAreRefused | proxy/processor.go:501-595 | no part of a decodable reply to either request is accepted in its place |
| SchemaTheorems.TwoPassAgreement | proxy/protocol/encoder_decoder.go:27-51 | the measuring pass accepts exactly what the writing pass writes within the limits, and measures its length |
| SchemaTheorems.RoundTrip | proxy/protocol/schema.go:592-619 | decoding an encoding with anything behind it gives the value and its bytes back exactly when the length checks hold, else fails |
| SchemaTheorems.SchemaRoundTrip | proxy/protocol/schema.go:631-677 | the same for whole messages, and always within the array limit when elements are wide |
| SchemaTheorems.ZeroWidthElementsAreRefused | proxy/protocol/real_decoder.go:78-92 | why wide elements are needed: an encoding that its decoder refuses |
| SchemaTheorems.CanonicalForm | proxy/protocol/schema.go:413-431 | re-encoding never lengthens the input and gives it back exactly when it was canonical |
| SchemaTheorems.SchemaCanonicalForm | proxy/protocol/schema.go:631-677 | the same for whole messages; the output decodes to the same struct |
| SchemaTheorems.IdentityRewritingIsIdempotent | proxy/protocol/schema.go:631-677 | what was re-encoded once is canonical and re-encodes to itself |
| SchemaTheorems.DecodedIsTyped | proxy/protocol/schema.go:608-619 | what the decoder returns has the types of the schema |
| Refusals.OnlyFittingValues | proxy/protocol/schema.go:85-606 | the encoder takes exactly the values of the form that the schema asks for |
| Refusals.FixedWidths | proxy/protocol/real_decoder.go:34-150 | numbers and ids are read exactly if all their bytes are there, booleans only from 0 and 1 |
| Refusals.VarintsEnd | proxy/protocol/real_decoder.go:64-76 | a varint is read exactly if it ends within ten bytes and 64 bits, and up to its first byte without the high bit |
| Refusals.StringLengths | proxy/protocol/real_decoder.go:163-191 | strings are read exactly for lengths from -1 to what is there |
| Refusals.CompactLengths | proxy/protocol/real_decoder.go:290-322 | compact lengths exactly up to one more than what is there, 0 only for null |
| Refusals.TagLengths | proxy/protocol/schema.go:355-380 | tag data exactly up to what is there or with the all-ones length of null, and never a negative count of tags |
| Refusals.WholeMessages | proxy/protocol/schema.go:631-677 | a message with anything behind it is refused; a nil buffer gives no struct and no struct a nil buffer |
| Limits.ArrayLengths | proxy/protocol/real_decoder.go:78-92 | plain array lengths exactly up to 131070 and what is there, negative ones are empty arrays |
| Limits.NullStringIsEmpty | proxy/protocol/real_decoder.go:182-202 | length -1 is the empty string where null is not allowed, null where it is |
| Limits.StringsAreWritten | proxy/protocol/prep_encoder.go:89-165 | strings are written exactly up to 32767 bytes |
| Limits.CompactArraysAreWritten | proxy/protocol/prep_encoder.go:167-189 | compact arrays are written exactly up to 32767 elements |
| Limits.MessagesAreWritten | proxy/protocol/schema.go:653-677 | messages are written exactly up to 104857600 bytes |
| Limits.RawTokens | proxy/processor_sasl_auth_v0.go:40-64 | raw tokens are taken exactly up to that length as a signed number, and copied by it as an unsigned one |
| Varint.ReadAfterPut | proxy/protocol/real_encoder.go:35-37 | a written varint reads back, whatever follows |
| Varint.PutAfterRead | proxy/protocol/real_decoder.go:64-76 | writing what was read gives the bytes back exactly when they were minimal, and never more |
| Encoding.WriteUvarint | proxy/protocol/real_encoder.go:35-37 | the loop writes the varint into the buffer and nothing else, neither before nor behind it |
| Encoding.PrepEncoder.Encode | proxy/protocol/prep_encoder.go:16-189 | the counting encoder adds exactly the measure of the value |
| Encoding.RealEncoder.Encode | proxy/protocol/real_encoder.go:15-174 | the writing encoder appends exactly the value's bytes and stays in the buffer |
| Encoding.RunEncodeSchema | proxy/protocol/schema.go:653-677 | both passes together: the buffer is filled to the last byte, and the result is the specification's |
| RealDecoding.ReadUvarintLoop | proxy/protocol/real_decoder.go:64-76 | the loop reads the varint, or tells a short input from an overflow |
| RealDecoding.RealDecoder.GetVarint | proxy/protocol/real_decoder.go:64-76 | the cursor moves by what was read and never past the end |
| RealDecoding.RealDecoder.GetArrayLength | proxy/protocol/real_decoder.go:78-92 | a length within the input and the limit, negative ones included |
| RealDecoding.RealDecoder.GetStringLength | proxy/protocol/real_decoder.go:163-180 | -1 or a length within the input |
| RealDecoding.RealDecoder.GetString | proxy/protocol/real_decoder.go:182-191 | the string, empty for -1 |
| RealDecoding.RealDecoder.GetCompactLength | proxy/protocol/real_decoder.go:290-305 | a length within the input although the subtraction wraps |
| RealDecoding.RealDecoder.GetCompactNullableLength | proxy/protocol/real_decoder.go:307-322 | the same, with -1 for null |
| RealDecoding.RealDecoder.GetVarintBytes | proxy/protocol/real_decoder.go:119-141 | null for any negative length, else the bytes within the input |
| RealDecoding.DecodeTaggedFields | proxy/protocol/schema.go:355-380 | the loop over tags and sizes gives the tagged fields |
| RealDecoding.DecodeArrayElements | proxy/protocol/schema.go:330-342 | the loop over the elements gives the array |
| RealDecoding.DecodeStruct | proxy/protocol/schema.go:608-619 | the loop over the fields gives the struct |
| RealDecoding.DecodeNode | proxy/protocol/schema.go:81-511 | at every node of every schema tree the cursor decoder is the decoding function, its offset never decreases or passes the end |
| RealDecoding.RunDecodeSchema | proxy/protocol/schema.go:631-651 | a message decodes exactly when its bytes decode and none is left |
| TaggedFieldsHolder.TaggedFields.Decode | proxy/protocol/tagged_fields.go:9-21 | the holder has the decoded fields, or the old ones after an error |
| TaggedFieldsHolder.EncodeAndDecode | proxy/protocol/tagged_fields.go:23-30 | encoding a holder succeeds exactly within the size limit, and decoding the bytes fills another holder the same |
| HeaderTags.StreamingRefinesDecoding | proxy/protocol/response_header.go:55-86 | the streaming reader takes exactly the prefix that the buffered decoder takes; where it takes one that the decoder refuses is said exactly |
| HeaderTags.SkipTaggedPrefix | proxy/protocol/response_header.go:55-86 | what follows the tagged fields has no influence on it |
| HeaderTags.MaybeRead | proxy/protocol/response_header.go:55-86 | the bytes read are consumed and returned verbatim; on a reliable stream it succeeds exactly when the tagged fields are there |
| Streams.MyCopyN | proxy/common.go:61-103 | for every behaviour of source and sink, nil means exactly size bytes moved, and only a prefix was otherwise; on reliable ones nil exactly when the bytes are there |
| ResponseFrames.ForwardedFrameIsAligned | proxy/processor_default.go:225-273 | Length + 4 bytes go in, a frame whose length fits comes out, with the same correlation id and header tags; the same bytes without a modifier |
| ResponseFrames.ForwardingIsLocal | proxy/processor_default.go:225-273 | how a frame is forwarded does not depend on what follows it |
| ResponseFrames.StreamIsForwardedFrameByFrame | proxy/processor_default.go:175-275 | a stream of any number of frames is forwarded frame by frame, and stays aligned |
| ForwardedMessages.FrameIsForwarded | proxy/processor_default.go:175-275 | every frame with more than a correlation id, whatever its tags, is forwarded as it is without a modifier; with one, with its header and the modified body, exactly unless it is over 100 MiB or the modification fails |
| ResponseFrames.HandleResponse | proxy/processor_default.go:175-275 | for every behaviour of the connections, success forwards one frame and failure a prefix of it; on reliable ones it succeeds exactly when the frame can be forwarded |
| ResponseFrames.CopySaslAuthResponse | proxy/processor_sasl_auth_v0.go:66-89 | four bytes are moved, or a prefix of them; on reliable connections exactly when they are there |
| ResponseFrames.RawReplyAlignment | proxy/processor_sasl_auth_v0.go:79-88 | the raw handler stays aligned exactly for empty replies |
| Responses.ModifyMetadataResponse | proxy/protocol/responses.go:328-376 | the loop over the brokers is the rewriting function |
| Responses.ModifyFindCoordinatorResponse | proxy/protocol/responses.go:378-401 | the loop over the coordinators, or the single one, is the rewriting function |
| ResponseTheorems.MetadataShapes | proxy/protocol/responses.go:28-273 | each of the 14 Metadata versions has brokers with the fields the rewriter asserts |
| ResponseTheorems.FindCoordinatorShapes | proxy/protocol/responses.go:275-326 | each of the 7 FindCoordinator versions has coordinators with those fields |
| ResponseTheorems.SchemasBuild | proxy/protocol/schema.go:573-590 | in each of the 21 schemas, for Metadata 0 to 13 and FindCoordinator 0 to 6, no struct, however deep, has a field name twice, so building them does not panic |
| ResponseTheorems.ModifierIsChosen | proxy/protocol/responses.go:468-496 | key 3 with versions 0 to 13 and key 10 with versions 0 to 6 get the modifier of their kind and version, other versions an error, other keys none |
| LayoutTheorems.MetadataEncodes | proxy/protocol/responses.go:28-273 | the schema of each Metadata version writes every response as the bytes the protocol lays out, field by field |
| LayoutTheorems.CoordinatorsEncode | proxy/protocol/responses.go:275-326 | and that of each FindCoordinator version |
| LayoutTheorems.MetadataIsRead | proxy/protocol/schema.go:631-651 | every laid out Metadata response is decoded to its fields and encoded to the same bytes |
| LayoutTheorems.CoordinatorsAreRead | proxy/protocol/schema.go:631-651 | and every FindCoordinator response |
| ResponseTheorems.AddressRewritten | proxy/protocol/responses.go:403-442 | one broker: fails exactly when it has an address without a mapping, and changes host and port only |
| ResponseTheorems.ResponseRewritten | proxy/protocol/responses.go:328-401 | a whole response: succeeds exactly when every address is mapped, and changes nothing else |
| ResponseTheorems.RewritingPreservesMeaning | proxy/protocol/responses.go:456-466 | bytes to bytes, for Metadata 0 to 13 and FindCoordinator 0 to 6: success exactly when it decodes, is mapped and can be encoded, and the output decodes to the readdressed struct |
| LayoutTheorems.MetadataIsRewritten | proxy/protocol/responses.go:328-376 | a laid out Metadata response of any version becomes the laid out response with the mapped hosts and ports in its brokers, and is refused exactly without a mapping or over 100 MiB |
| LayoutTheorems.CoordinatorsAreRewritten | proxy/protocol/responses.go:378-401 | the same for FindCoordinator, with one coordinator or a list |
| ForwardedMessages.MetadataIsForwarded | proxy/processor_default.go:225-273 | so the client gets the frame of that response for key 3 and versions 0 to 13, same correlation id and header tags, or nothing |
| ForwardedMessages.CoordinatorsAreForwarded | proxy/processor_default.go:225-273 | and for key 10 and versions 0 to 6 |
| ForwardedMessages.OtherRepliesAreUnchanged | proxy/protocol/responses.go:468-496 | for every other key the client gets the reply byte for byte |
| ForwardedMessages.UnknownVersionsAreRefused | proxy/protocol/responses.go:468-496 | for other versions of these two keys it gets nothing, whatever the reply |
| ForwardedMessages.UnmappedRepliesAreRefused | proxy/protocol/responses.go:328-401 | without a mapping function no reply with addresses is forwarded |
| ForwardedMessages.AnyAnswerIsPossible | proxy/processor_default.go:175-275 | the broker of the runs may answer with any such frame, so none of this is vacuous |
| ForwardedMessages.TokenIsAnswered | proxy/processor_sasl_auth_v0.go:66-89 | and a raw token with an empty reply |
| ResponseTheorems.AddressRewrittenTwice | proxy/protocol/responses.go:403-442 | f then g is g after f on a broker exactly when f left an address or g keeps the blank one; else the second rewriting succeeds with another result |
| ResponseTheorems.RewritingComposes | proxy/protocol/responses.go:456-466 | from bytes to bytes, for the same versions: twice is once by the composition if each address of this response that f blanks is kept by g, only then when the second rewriting succeeds, and always when g lacks a mapping |
| ResponseTheorems.BlankMappingDoesNotCompose | proxy/protocol/responses.go:415-425 | a mapping to a blank address for which composition fails |
| StructFields.ReplacesOneField | proxy/protocol/schema.go:521-566 | a field is found under its name, and replaced exactly if the old value is there and of the new one's kind, all others left alone |
| StructFields.UnusableStructsAreRefused | proxy/protocol/responses.go:328-442 | a struct without brokers, coordinators, host, port or node id is an error, never passed on |
| StructFields.UnusableElementsAreRefused | proxy/protocol/responses.go:328-442 | so is a list with one element that is no struct or has such a field of another type |
| ProduceAcks.AcksAreSeen | proxy/protocol/request_produce_reader.go:11-59 | for versions 0 to 8 the peek reads acks itself, and a reply is expected exactly when it is not 0 |
| ProduceAcks.FlexibleAcksSeen | proxy/protocol/request_produce_reader.go:48-59 | for flexible versions without header tags, which two bytes the peek takes for acks |
| ProduceAcks.FlexibleAcksSeenBehindTags | proxy/protocol/request_produce_reader.go:48-59 | and with any header tags: their first two bytes are taken for the length of the id, a negative one makes the peek fail |
| ProduceAcks.BrokerReadsAcks | proxy/protocol/request_produce_reader.go:11-59 | the broker's reading finds the acks written, behind any tags and id |
| ProduceAcks.FlexibleAcksPeekIsRightWhen | proxy/processor_default.go:158-170 | for exactly which ids, acks and timeouts the proxy expects what the broker does |
| ProduceAcks.FlexibleAcksPeekCanBeWrong | proxy/processor_default.go:158-170 | for every correlation id, client id and body, a request with acks 0 to which a reply is expected |
| ProduceAcks.PeekIsLocal | proxy/protocol/request_produce_reader.go:11-59 | the peek depends on the bytes it consumes and on no others |
| RequestFrames.HeadIsLocal | proxy/processor_default.go:50-119 | so does all that is decided about a request before its body has come |
| RequestFrames.HeadOfFrame | proxy/processor_default.go:50-89 | a head is refused exactly for keys that are negative, above 20000 or forbidden; a reply is expected for every key but 0 |
| RequestFrames.FrameIsForwarded | proxy/processor_default.go:50-131 | a whole frame is forwarded whole, whatever follows it, exactly when its key is allowed |
| RequestFrames.ReadAcks | proxy/protocol/request_produce_reader.go:11-59 | the sequential reads are the peek, and the recorded bytes are what was consumed; on a reliable stream it succeeds exactly when the peek does |
| RequestFrames.HandleRequest | proxy/processor_default.go:50-120 | for every behaviour of the connections, success forwards exactly the frame, peeked bytes included; on reliable ones it succeeds exactly when the frame is there and allowed |
| Listeners.RoutingKept | proxy/proxy.go:112-218 | over all call sequences keys are the brokers' current addresses and, with deterministic ports, a broker id has one listener |
| Listeners.AnswersTarget | proxy/proxy.go:112-132 | an answer is the advertised address of a listener that targets the asked address now |
| Listeners.LookupIsAtomic | proxy/proxy.go:112-163 | with any calls coming in between its two locks, a lookup answers and changes the table as the whole call would at one of the two moments |
| Listeners.ConfiguredListenersStay | proxy/proxy.go:174-184 | configured listeners are never moved or removed |
| Listeners.ListenersStay | proxy/proxy.go:185-218 | without deterministic ports no listener is |
| Listeners.ServingKept | proxy/proxy.go:174-184 | a listener once opened for a broker id is there for good, under whatever address |
| Listeners.BrokersKeepTheirAddress | proxy/proxy.go:165-184 | with deterministic ports a broker that moved is answered with its first advertised address |
| Listeners.OverflowIsForGood | proxy/proxy.go:189-197 | a failed sequential allocation leaves the counter, so no listener is ever opened again |
| ListenerPorts.PortsInTurn | proxy/proxy.go:143-197 | with sequential ports, over every call sequence: the counter goes up by the ports taken, and the i-th one taken asks for min + (counter + i) mod 2^64 mod max and no other port |
| ListenerPorts.ListenersGoRoundTheRange | proxy/proxy.go:143-197 | so as many in a row as the range has ports ask for each port once, exactly when the counter does not wrap among them or 2^64 is a multiple of the range |
| ListenerPorts.DeterministicCall | proxy/proxy.go:165-187 | with deterministic ports a new broker asks for min + id mod max and no other port, and leaves the counter |
| ListenerPorts.EphemeralCall | proxy/proxy.go:185-188 | without a first port it asks for port 0 |
| ListenerPorts.NoPortIsRefused | proxy/proxy.go:143-154 | a call whose port would pass 65535, or without a range, fails and leaves the table and the counter |
| ListenerPorts.KnownAddressesAreAnswered | proxy/proxy.go:112-132 | a known address is answered with its advertised host and port, and the table stays |
| ListenerPorts.RefusedCalls | proxy/proxy.go:112-132 | an empty host or port, an unknown address with dynamic listeners disabled, a negative id with deterministic ports: an error, and the table stays |
| ListenerPorts.NewListenerIsAdvertised | proxy/proxy.go:199-240 | a listener that was bound is entered for the broker and advertised as itself, or as the template says, with the bound port if that names none |
| ListenerPorts.UnboundListenerIsNot | proxy/proxy.go:199-218 | one that could not be bound is not entered |
| RewrittenListeners.AnswersHold | proxy/proxy.go:156-184 | all answers of a call sequence still hold in the table at its end exactly when no call took a listener from an address asked before; without deterministic ports always |
| RewrittenListeners.EachRewritten | proxy/protocol/responses.go:403-442 | a successful loop has had every call answered, each by the table that the calls before had left |
| RewrittenListeners.RewrittenWhileAsking | proxy/protocol/responses.go:328-466 | a whole response of Metadata 0 to 13 or FindCoordinator 0 to 6, bytes to bytes, while the table changes: exactly when its answers still hold, and that the output is then the rewriting with the table at the end |
| RewrittenListeners.ClientMeetsListeners | proxy/proxy.go:112-218 | then, for each of these versions, every broker the client decodes has the advertised address of the listener that stands for that very broker in the table at the end |
| TakenListeners.TakenListenerMisleads | proxy/proxy.go:174-184 | responses for which that fails: two brokers are advertised under the one listener, which stands for the second |
| AskingLoop.ModifyBroker | proxy/protocol/responses.go:403-442 | one broker with the table's objects behind the callback: result and table are those of the functions |
| AskingLoop.ModifyElements | proxy/protocol/responses.go:328-401 | so for the loops over brokers and coordinators, an error ending them with the table as the last call left it |
| Listeners.BootstrapAccepts | proxy/proxy.go:74-83 | bootstrap servers are accepted exactly when duplicates agree |
| Listeners.ExternalAccepts | proxy/proxy.go:85-97 | external servers are accepted exactly when the first for each broker is advertised as it listens and later ones listen there too |
| Listeners.ConfigurationAccepts | proxy/proxy.go:71-110 | the whole configuration exactly when both parts are and no broker is advertised in two ways |
| Listeners.ConfiguredTable | proxy/proxy.go:71-110 | the configured table routes, and reaches every configured server by its configured address |
| ListenerObjects.GetBrokerToListenerConfig | proxy/proxy.go:71-110 | the three loops build that table out of fresh objects, or refuse |
| ListenerObjects.ListenerTable.NoSharing | proxy/proxy.go:36-37 | no two keys share a config object |
| ListenerObjects.ListenerTable.FindListenerConfig | proxy/proxy.go:134-141 | finds a config of the id exactly if there is one, the only one with deterministic ports |
| ListenerObjects.ListenerTable.Move | proxy/proxy.go:175-182 | the object goes to the new key with its new address, everything else stays |
| ListenerObjects.ListenerTable.ListenDynamicInstance | proxy/proxy.go:156-218 | the objects change as the table function says, configured objects keep their key |
| ListenerObjects.ListenerTable.GetNetAddressMapping | proxy/proxy.go:112-132 | the same for lookups |
| ListenerObjects.ListenerConfig.SetBrokerAddress | proxy/proxy_config.go:52-54 | changes the broker address and nothing else |
| Ports.PortsStayInRange | proxy/proxy.go:143-154 | the wrapped sum is refused exactly when it passes 65535, else the port is in the range |
| Ports.PortConfig.Validate | config/config.go:228-238 | what is refused, and the default size of the range |
| Ports.DefaultRangeNeverOverflows | config/config.go:235-237 | with the default size no allocation is refused |
| Ports.ConsecutivePortsAreAPermutation | proxy/proxy.go:189-197 | a full round of sequential ports is a permutation of the range exactly when the counter does not wrap in it or 2^64 is a multiple of the range |

## Left out

- Sockets, TLS, dialling, TCP options, flags, logging and metrics: input and output without protocol state.
- Token fetching and its envelope: a token is a byte string or a failure. `SaslOAuthBearer.ToBytes` is part of that byte string.
- The first authentication of a broker connection: it precedes the loops and ends with a session lifetime, which is a parameter.
- `ResponseHeaderVersion`: a table; the configuration of a connection has it as a function.
- Reads and writes in the processor happen at once or in parts chosen by the run; time-outs of channel operations and of connections are failures that may happen at any point, so the 30 s waits at full or empty channels are not timed.
- The broker in the runs answers in order, once to every request but Produce with acks 0 as it reads them, with the request's correlation id; the header tags of a reply end inside it.
- Exchanges.ClientGetsItsReplies: for clients that keep off the reserved correlation ids on SASL keys, where Exchanges.SwallowedIffReserved says what happens otherwise; and with `PeeksRight`, where SampleRuns.SilenceMispairs does.
- Exchanges.OneExchangeAtATime: for the same clients; so the theorems of ReauthTiming.
- ProcessorPairing.QueuesFollowTheWire: with `PeeksRight`, and so HandlersFitReplies and MarkersFitReplies; ProcessorInvariants.RunShape and ProcessorPairing.HandlerBacklog hold without it.
- ReauthTiming.AttemptsStartInTime: time passes only while the request loop waits for a header, and the loop wakes within a given latency; sending and handling take no time.
- ReauthTiming.AttemptsStartBeforeExpiry: with a wake-up latency the lifetime must exceed 30 s by it and be at least five times it.
- LayoutTheorems.MetadataIsRewritten: for responses whose texts, arrays and tags the codec can hold, before and after the mapping; ResponseTheorems.RewritingPreservesMeaning is exact for all bytes.
- ListenerPorts.ListenersGoRoundTheRange: for ranges that end by 65535; a range that goes on is stopped for good at its first port past that (Listeners.OverflowIsForGood).
- Durations are unbounded integers and four fifths are exact: neither float rounding nor int64 overflow of a lifetime is modelled.
- Struct values are trees of values, so `Replace` yields a new tree; aliasing between a struct and its copies is not captured.
- ProduceAcks.FlexibleAcksPeekIsRightWhen: transactional ids up to the int32 limit of a frame, and no header tags; ProduceAcks.FlexibleAcksSeenBehindTags says what the peek makes of those.
- ListenerObjects.ListenerTable.GetNetAddressMapping: the lookup under the read lock and the section under the write lock are one atomic step; calls that come in between are in Listeners.LookupIsAtomic only.
- RewrittenListeners.RewrittenWhileAsking: the table changes through the calls for this response alone; calls for other connections in between are those of Listeners.RoutingKept.
- Getters, putters and array types that no modelled schema or message uses (int64 arrays, compact bytes).
- Addresses are host and port pairs or other text; joining and splitting strings, and the text template of advertised addresses, are an environment's answers.
- `Validate` other than the checks on dynamic ports, the broker-address maps' logging, and `ConnSet`: they would add only easy members.
- Panics on huge allocations: sequences are unbounded.
