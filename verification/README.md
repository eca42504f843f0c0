# A verified model of the watermelon NATS client

This project models the two cores of the watermelon NATS client and two small
state machines beside them, and proves what they promise over all inputs and
all runs.

**The wire codec** (watermelon-proto). The resumable decoder is modelled twice:
as a step function with the class `StreamDecoder` that updates its buffer and
status in place, and as a reference parser without the memo of bytes already
searched, without the fast path and without the head limit. Every way of cutting
a stream into reads is compared with the reference. The printer is one list of
writes run against two back ends: the flat `FramedEncoder` and the chunked
`StreamEncoder` over `BufList`. Below them sit the tokeniser, the line splitter,
checked decimal parsing, the One/Many header multimap, and the validators, each
against an independent description. A reference server (`Server`) parses what
the client prints and re-heads publications for a subscriber, so that round
trips go through both directions of the protocol. In the other direction
`Spelling` and `Refusals` say, for every input, which bytes make the decoder
report an operation or an error.

**The connection actor** (watermelon/src/handler/mod.rs). `Handler` holds its
tables as values and what each event does to them. `ClientServer` composes the
client with a verbose server over two first-in first-out channels: one action
per command sent, command received, operation taken or answered by the server,
operation handled, maintenance sweep, ping and reconnection. The theorems are
about every sequence of actions. `Polling` models one poll of the handler with
the soft write limit, the writing and flushing flags and the decision to close;
`PollRuns` shows that a poll is a run of that system;
and `Connections` holds the same code as objects updated in place, reading through
their own decoder and writing through their own encoder, proved equal to those
functions.

**The connection scheduler and the paginated listings**: `HappyEyeballs`
(RFC 8305, sections 4 and 5) and `Pagination`, each as a function over the
answers of the outside world and as a class proved equal to it.

What the outside decides is an input everywhere: which reads arrive, what the
socket takes, whether a timer is over, whether a receiver is gone, what the
server answers. Two functions stand for foreign code (`External`): whether the
JSON of an INFO parses, and how an error text is classified.

## Where the code does less than it says

- The memo `last_bytes_read` is kept when a PING, PONG, +OK, -ERR or INFO line
  completes, so it can equal the length of what is left in the buffer and hide a
  complete line until another byte arrives. `StaleMemoHidesALine` gives the
  reads; `FragmentationSafety` says exactly when everything is found, and
  `MessageSessionsNeverStick` that streams of messages are not affected.
- The assertion that the fast path for `+OK` meets a zero memo
  (watermelon-proto/src/proto/decoder/mod.rs:88-91) does not hold when `+O` and
  `K\r\n` arrive apart (`SplitOkMemo`, and `FastPathMemo` for exactly when). It is
  only checked in debug builds; the model follows release builds, where the line
  is decoded.
- With a write delay the handler can report `Closed` over bytes never written.
  `ClosesGracefullyIff` says the promise holds exactly without a write delay.
- A subscription whose SUB was refused while its channel was full is subscribed
  again by a reconnection and then dropped without an UNSUB (`RefusedMayLeak`).
  `NoSilentLeak` says that no ordinary subscription is lost otherwise, and exactly
  when this one is.
- `is_terminated` of the connection scheduler can be true while an address still
  waits, if the resolver pauses (`TerminatedTooEarly`); `FalselyOverIff` says
  exactly when.
- Whether a control line past the head limit is refused depends on how the reads
  are cut (`CutDecidesHeadLimit`, and `HeadTooLongExactly` for each call).
- A listing whose pages all have a limit of zero never ends (`UselessNeverEnds`).
- The test for `..` inside a token (watermelon-proto/src/subject.rs:182) never
  fires, because tokens are split at dots; the model keeps it.

## Model

| member | source | states |
|---|---|---|
| Uint.ParseUnsigned | watermelon-proto/src/util/uint.rs:3-22 | the checked accumulator loop answers what the denoted number alone decides: the value, the first bad byte, or overflow of the digits before it |
| Uint.ParseOk | watermelon-proto/src/util/uint.rs:3-22 | Ok(v) exactly for a non-empty digit string whose mathematical value is v and fits the type |
| Uint.OverflowOfPrefix | watermelon-proto/src/util/uint.rs:15-18 | overflow of any all-digit prefix is overflow of the whole input |
| Uint.ParseRefused | watermelon-proto/src/util/uint.rs:3-22 | each error exactly for the texts that deserve it: the empty one, one with a digit prefix past the maximum, and one whose first bad byte follows digits that still fit |
| Utf8.Utf8Exact | watermelon-proto/src/proto/decoder/mod.rs:221-235 | the texts accepted where the decoder wants UTF-8 are exactly the encodings of sequences of Unicode characters (RFC 3629, section 3) |
| Uint.ParsePrint | watermelon-proto/src/util/uint.rs:3-22 | parsing inverts decimal printing exactly on the numbers of the type, and overflows on all others |
| SplitSpaces.Splitter.Next | watermelon-proto/src/util/split_spaces.rs:5-25 | each call yields the first of the remaining tokens and leaves the rest of them, or nothing when there is none |
| SplitSpaces.TokensOfSpaced | watermelon-proto/src/util/split_spaces.rs:5-25 | tokens laid out with any runs of spaces and tabs between them are recovered exactly |
| SplitSpaces.TokensAreTokens | watermelon-proto/src/util/split_spaces.rs:5-25 | no token of any line holds a blank, and only the first can be empty, exactly when the line starts with a blank |
| LinesIter.LineIterator.Next | watermelon-proto/src/util/lines_iter.rs:7-22 | each call yields the first of the remaining lines and shrinks the buffer to the rest |
| LinesIter.LinesOfUnlines | watermelon-proto/src/util/lines_iter.rs:7-22 | splitting inverts terminating lines with CRLF, and an empty tail leaves no line |
| LinesIter.UnlinesOfLines | watermelon-proto/src/util/lines_iter.rs:7-22 | for any block the lines lose nothing but a missing last terminator |
| Subjects.ValidIffGrammar | watermelon-proto/src/subject.rs:162-196 | a subject is accepted exactly when it obeys the token grammar position by position and holds no blank or line break; when the first two errors are reported |
| Subjects.FirstBadTokenReported | watermelon-proto/src/subject.rs:180-193 | of several mistakes the first bad token decides the error: broken when empty, else a broken wildcard |
| Subjects.JoinValid | watermelon-proto/src/subject.rs:162-196 | two valid subjects joined by a dot are valid exactly when the first does not end in a `>` token |
| Subjects.GeneratedSubjectsValid | watermelon/src/client/mod.rs:562-575 | inbox subjects and the wildcard filter are valid exactly for prefixes not ending in `>` |
| Subjects.ReplyMatchesFilter | watermelon/src/handler/mod.rs:764-770 | every generated reply subject token-matches the filter subscribed to for replies |
| Subjects.FilterIsExact | watermelon/src/handler/mod.rs:764-770 | under a prefix without wildcards the filter matches nothing but the prefix and one more token |
| HeaderMaps.AppendSpec | watermelon-proto/src/headers/map.rs:63-73 | append adds the value at the end of its name's values, compared without case, changes no other name, and keeps the representation invariant |
| HeaderMaps.InsertSpec | watermelon-proto/src/headers/map.rs:56-61 | insert leaves exactly one value under the name, counts the values replaced, changes no other name, and keeps the invariant |
| HeaderMaps.RemoveSpec | watermelon-proto/src/headers/map.rs:75-79 | remove leaves no value under the name, counts those removed, changes no other name, and keeps the invariant |
| HeaderMaps.EqualityIsMultimapEquality | watermelon-proto/src/headers/map.rs:18-28 | derived equality of two well-formed maps is equality of the multimaps they stand for |
| HeaderMaps.NamesIgnoreCase | watermelon-proto/src/headers/name.rs:24-25 | two names have the same values in every well-formed map exactly when they are equal, byte by byte, up to the case of ASCII letters |
| HeaderMaps.CollectPairs | watermelon-proto/src/headers/map.rs:134-148 | collecting the pairs a map iterates over rebuilds that very map, representation included |
| HeaderMaps.HeaderMap.InsertHeader | watermelon-proto/src/headers/map.rs:56-61 | the mutating insert is the specified one and keeps the invariant |
| HeaderMaps.HeaderMap.AppendHeader | watermelon-proto/src/headers/map.rs:63-73 | the mutating append is the specified one and keeps the invariant |
| HeaderMaps.HeaderMap.RemoveHeader | watermelon-proto/src/headers/map.rs:75-79 | the mutating remove is the specified one and keeps the invariant |
| ClientOps.HeadersLengthExact | watermelon-proto/src/proto/encoder/mod.rs:80-90 | the declared header length is the number of bytes the header slices amount to, and they are the header block line by line |
| ClientOps.WireShape | watermelon-proto/src/proto/encoder/mod.rs:56-145 | the writes of every operation amount to its control line, CRLF and its body |
| ClientOps.FramedEncoder.Encode | watermelon-proto/src/proto/encoder/framed.rs:20-31 | the flat encoder hands over its buffer with the wire form appended, and keeps nothing |
| StreamEncoders.BufList.Advance | watermelon-proto/src/util/buf_list.rs:48-69 | advancing drops exactly that many bytes from the front, keeping the cached length exact and no chunk empty |
| StreamEncoders.BufList.CopyToBytes | watermelon-proto/src/util/buf_list.rs:87-113 | returns exactly the first bytes and keeps the rest, on all three paths |
| StreamEncoders.StreamEncoder.EnqueueWriteOp | watermelon-proto/src/proto/encoder/stream.rs:27-29 | the contents grow by the simple encoding of the operation, and bytes drained followed by bytes remaining stay the simple encodings of all operations in order |
| StreamEncoders.StreamEncoder.WriteWhole | watermelon-proto/src/proto/encoder/stream.rs:113-134 | small and large buffers alike are appended to the contents, and no empty chunk is stored |
| StreamEncoders.StreamEncoder.Advance | watermelon-proto/src/proto/encoder/stream.rs:62-75 | exactly the first bytes leave the contents, across the boundary between chunks and tail |
| StreamEncoders.StreamEncoder.CopyToBytes | watermelon-proto/src/proto/encoder/stream.rs:77-105 | exactly the first bytes are returned and leave the contents |
| StreamEncoders.StreamEncoder.ChunksVectored | watermelon-proto/src/proto/encoder/stream.rs:56-60 | the slices are non-empty and amount to a prefix of the contents, to all of it when slots are left, and are at least two when the first chunk is not everything |
| Decoder.StreamDecoder.DecodeNext | watermelon-proto/src/proto/decoder/mod.rs:78-200 | the loop that consumes the buffer and replaces the status in place is the step function iterated |
| Decoder.StreamDecoder.DecodeHeaders | watermelon-proto/src/proto/decoder/mod.rs:318-395 | poisoning first and replacing the status last comes to one step: the next status, or poisoned with the error of the first bad line |
| Decoder.DecodeBounds | watermelon-proto/src/proto/decoder/mod.rs:78-200 | every call ends, leaves a suffix of the buffer, consumes at least two bytes for an operation, and waits only on a buffer within the limits |
| Decoder.PoisonAbsorbs | watermelon-proto/src/proto/decoder/mod.rs:318-395 | a call past the control line poisons the decoder exactly when the header block it waits for is complete and bad; after a call that left it poisoned, for any later sequence of reads and calls, every call is refused and the buffer only grows by the reads |
| Fragmentation.FastPathIsSlowPath | watermelon-proto/src/proto/decoder/mod.rs:86-94 | the fast path for +OK does what the general path does |
| Fragmentation.FragmentationSafety | watermelon-proto/src/proto/decoder/mod.rs:83-200 | however a stream is cut into reads the operations are a prefix of the reference parser's, errors are its own except the head limit, which only a long line causes, and everything is found unless the session is stuck on a buffer whose first line is not that of an open message |
| Fragmentation.WaitsOnOpenMessage | watermelon-proto/src/proto/decoder/mod.rs:83-200 | a fresh decoder finds nothing in a buffer with a complete line exactly when that line announces a message whose header block or payload is still incomplete |
| Fragmentation.ShortLinesNeverTooLong | watermelon-proto/src/proto/decoder/mod.rs:101-110 | without long lines every event, errors included, is the reference parser's |
| Fragmentation.FurtherByteUnsticks | watermelon-proto/src/proto/decoder/mod.rs:96-110 | in every session the waiting buffer is within its bound, and any further byte gets past the early return |
| Fragmentation.StaleMemoHidesALine | watermelon-proto/src/proto/decoder/mod.rs:96-99 | two reads after which a complete PONG stays in the buffer unreported |
| Fragmentation.FastPathMemo | watermelon-proto/src/proto/decoder/mod.rs:86-94 | in every call of every session the fast path finds the memo of zero it assumes exactly when the session never waited on part of a line, or delivered a message since |
| Fragmentation.SplitOkMemo | watermelon-proto/src/proto/decoder/mod.rs:88-91 | `+O` and `K\r\n` read apart reach the fast path with a memo of 2 |
| Fragmentation.HeadTooLongExactly | watermelon-proto/src/proto/decoder/mod.rs:101-110 | a call refuses a head exactly when it waits for a line and finds no CRLF in a buffer past the limit |
| Fragmentation.CutDecidesHeadLimit | watermelon-proto/src/proto/decoder/mod.rs:101-110 | every PING line as long as the limit is answered when its end comes in the same read and refused when it comes in a later one |
| RoundTrip.HeaderBlockRoundTrip | watermelon-proto/src/proto/encoder/mod.rs:161-171 | decoding the emitted block rebuilds the very map, with no status |
| RoundTrip.StatusLineRoundTrip | watermelon-proto/src/proto/decoder/mod.rs:337-361 | the first line reads back as no status, a status code, or a code with its description |
| RoundTrip.StatusBlockRoundTrip | watermelon-proto/src/proto/decoder/mod.rs:334-383 | a block with any status and any headers decodes to both |
| RoundTrip.HeaderLineExact | watermelon-proto/src/proto/decoder/mod.rs:365-382 | a header line is accepted exactly when it is a valid name, a colon, at most one dropped whitespace and a valid value |
| RoundTrip.DecodedHeadersValid | watermelon-proto/src/proto/decoder/mod.rs:363-383 | whatever block is accepted, the map built from it is well formed and could be published again |
| RoundTrip.DecodeMsgExact | watermelon-proto/src/proto/decoder/mod.rs:202-250 | MSG arguments are accepted exactly when they spell the resulting status: three or four words, readable subjects, and numbers in range |
| RoundTrip.DecodeHmsgExact | watermelon-proto/src/proto/decoder/mod.rs:252-316 | HMSG arguments are accepted exactly when they spell the resulting status, the payload being what the header block leaves of the total |
| HeaderBlocks.StatusLineExact | watermelon-proto/src/proto/decoder/mod.rs:337-361 | a first line is read as a code and a description exactly when it spells them, three digits and a trimmed UTF-8 text, and each error is answered exactly when its part is the first that is wrong |
| HeaderBlocks.HeaderLineRefusedExactly | watermelon-proto/src/proto/decoder/mod.rs:366-381 | each error of a header line exactly when the line, cut at its first colon, is wrong in that part: colon, then name, then value |
| HeaderBlocks.BlockExact | watermelon-proto/src/proto/decoder/mod.rs:334-383 | a block is read as a status and headers exactly when its first line spells the status and the other lines that are not blank spell the headers, collected in order |
| HeaderBlocks.BlockRefusedExactly | watermelon-proto/src/proto/decoder/mod.rs:334-383 | a block is refused exactly when it is empty, its first line is refused, or after readable lines one is refused, with that error |
| Spelling.LineStepExact | watermelon-proto/src/proto/decoder/mod.rs:115-151 | for every control line: an operation is emitted exactly when the line spells it, a message is announced exactly when its arguments do, and the command is invalid exactly when the line starts with none of the seven verbs |
| Spelling.DecodedIffSpelled | watermelon-proto/src/proto/decoder/mod.rs:83-200 | one call yields an operation exactly when the buffer starts with a frame that spells it: the line, or the line, header block and payload of the message, and what follows the frame stays |
| Spelling.NothingUnspelled | watermelon-proto/src/proto/decoder/mod.rs:83-200 | in every session the operations reported are spelled, one each and in order, by consecutive frames at the front of the stream |
| Refusals.LineRefusedExactly | watermelon-proto/src/proto/decoder/mod.rs:115-151 | a control line is refused with an error exactly when its verb is unknown or the first of its arguments that is wrong is wrong in that way |
| Refusals.MsgRefusedExactly | watermelon-proto/src/proto/decoder/mod.rs:202-250 | each error of the arguments of MSG: their number, then subject, id, reply and length, the first wrong one deciding |
| Refusals.HmsgRefusedExactly | watermelon-proto/src/proto/decoder/mod.rs:252-316 | each error of the arguments of HMSG, the header length before the total, and the two together last |
| Refusals.RefusedExactly | watermelon-proto/src/proto/decoder/mod.rs:83-200 | one call answers an error exactly when the head is past the limit without an end, or the buffer starts with a line, or a message with its complete header block, that is refused with that error; what is consumed, and that only the last poisons, is exact too |
| RoundTrip.FrameParsed | watermelon-proto/src/proto/encoder/mod.rs:56-145 | a server parses any frame at the front of a stream, whatever follows: the declared lengths are exact |
| RoundTrip.ClientStreamRoundTrip | watermelon-proto/src/proto/encoder/mod.rs:56-145 | the concatenated encodings of any sequence of operations parse back to exactly that sequence |
| RoundTrip.ClientStreamInjective | watermelon-proto/src/proto/encoder/mod.rs:56-145 | two different sequences of operations never have the same encoding |
| Delivery.ServerOpRoundTrip | watermelon-proto/src/proto/decoder/mod.rs:83-200 | every operation a server writes is read back by the decoder, whatever follows it and for any memo but the buffer's own length; a message resets the memo and the rest keep it |
| Delivery.PublishDeliverRoundTrip | watermelon-proto/src/proto/encoder/mod.rs:58-95 | a publication that is encoded, parsed, re-headed for any subscription and decoded is the same message, with no status and nothing left over |
| Delivery.ReferenceFindsAll | watermelon-proto/src/proto/decoder/mod.rs:83-200 | the reference parser finds exactly the operations of a server's stream |
| Delivery.MessageSessionsNeverStick | watermelon-proto/src/proto/decoder/mod.rs:96-99 | a session that reports nothing but messages never takes the early return with a complete line buffered |
| Delivery.ServerStreamSurvivesFragmentation | watermelon-proto/src/proto/decoder/mod.rs:83-200 | a server's stream cut in any way gives no error and a prefix of its operations, all of them exactly when the session is not stuck |
| Delivery.MessagesSurviveFragmentation | watermelon-proto/src/proto/decoder/mod.rs:83-200 | a stream of messages cut in any way gives exactly those messages, once and in order |
| ClientServer.ReplyCorrelation | watermelon/src/handler/mod.rs:297-358 | in every run the in-flight entries are the unanswered PUB, SUB and UNSUB of this connection, in order and of the right kind, and the unexpected state is never reached |
| ClientServer.HandleExtends | watermelon/src/handler/mod.rs:269-373 | an acknowledgement pops one entry and anything else none, a PING is answered by PONG and a message without receiver by UNSUB with its entry; the handler stops with a server error exactly for an error not known to be non-fatal, with an unexpected state exactly for an acknowledgement without an entry, and otherwise goes on |
| ClientServer.StoppedExactly | watermelon/src/handler/mod.rs:320-359 | in every run the handler is stopped exactly when the last operation it handled on this connection was such an error, and only with a server error |
| ClientServer.RejectionHitsItsOwn | watermelon/src/handler/mod.rs:331-358 | a non-fatal error answers one operation the server refused, and drops, or keeps and marks, only the subscription whose SUB that was |
| ClientServer.MessageTouchesItsOwn | watermelon/src/handler/mod.rs:271-319 | a message leaves every other subscription and request as it was, is accepted exactly when its subscription is in the table with a receiver, and otherwise leaves the table alone |
| Leaks.NoSilentLeak | watermelon/src/handler/mod.rs:638-687 | in every run an ordinary id that the connection leaves subscribed, not refused on this connection and with its limit not used up, is missing from the table exactly when it was marked failed as the connection was made and maintenance has run since; and the exact SUB of every entry was sent on the current connection |
| Leaks.LostExactly | watermelon/src/handler/mod.rs:269-415 | for every state and step, a subscription leaves the table without an UNSUB by exactly three steps: maintenance that finds it marked, the delivered refusal of its own SUB, and the last message of its limit |
| Subscriptions.ReconnectSends | watermelon/src/handler/mod.rs:191-207 | a new connection opens with one SUB per surviving subscription, then an UNSUB with the count left for a limited one, and nothing for any other id |
| Subscriptions.MaintenanceSends | watermelon/src/handler/mod.rs:376-415 | the sweep drops exactly the marked and abandoned subscriptions, unsubscribes exactly the abandoned unmarked ones, and forgets exactly the abandoned requests |
| Endings.EndedIsGone | watermelon/src/handler/mod.rs:676-687 | in every run an id whose UNSUB without limit was received is never in the table again, and no later connection sends a SUB for it |
| Leaks.RefusedMayLeak | watermelon/src/handler/mod.rs:346-353 | such a leak is reached: an id subscribed and not refused on the current connection that is no longer in the table |
| Limits.IdsAreUnique | watermelon/src/client/mod.rs:383-390 | no ordinary subscription uses the multiplexed id, and no id is subscribed twice |
| Limits.DeliveryLimit | watermelon/src/handler/mod.rs:308-315 | after a limit is processed at most that many messages are accepted through any number of reconnections, the entry carries exactly the count left and is gone at the last, and the last UNSUB of this connection carried that count plus the messages accepted on it since |
| Limits.ReconnectCarriesLimit | watermelon/src/handler/mod.rs:200-206 | a reconnection sends, for a limited id in the table, SUB and then UNSUB with exactly the count still left |
| Asked.SubsAreAsAsked | watermelon/src/handler/mod.rs:638-661 | every SUB of an ordinary id, on whichever connection, carries the subject and queue group its caller asked for |
| Multiplexed.WildcardSentOnce | watermelon/src/handler/mod.rs:752-773 | on each connection the wildcard SUB is sent at most once and before every request, exactly when the reply map exists; it has no queue group and its subject matches every generated reply subject, and nothing but one more token under a prefix without wildcards |
| Multiplexed.RequestsResolveOnce | watermelon/src/handler/mod.rs:271-283 | each request is resolved at most once and only by a message on its own reply subject, and the reply map holds exactly the requests still open |
| PollRuns.PollIsRun | watermelon/src/handler/mod.rs:431-478 | the tables after a poll are those after a run of the composed system: a ping exactly when one is due, maintenance exactly when it is asked for and no shutdown is under way, one step per operation read and one per command taken; and both stop alike |
| PollRuns.PollStaysReachable | watermelon/src/handler/mod.rs:431-555 | so the theorems about runs hold of polls: from a reachable state a poll leads to a reachable one and never reports an unexpected state |
| PollRuns.DisconnectedOnFailure | watermelon/src/handler/mod.rs:433-532 | a poll reports a lost connection for too many unanswered pings, for a failed read unless the server's operations stopped it first, for a write that fails at once and for a failed flush, and never without a failure |
| Polling.SoftLimit | watermelon/src/handler/mod.rs:571-703 | the buffer ends at most sixteen of the largest waiting commands above the limit, commands leave the channel in order and none is lost, and the outcome says whether the limit was reached |
| Polling.GracefulShutdown | watermelon/src/handler/mod.rs:431-555 | without a write delay Closed is only reported when the channel is closed, every accepted command was taken in order, what each asks for (PUB, SUB, or UNSUB of a subscription still in the table) was encoded once and in that order after the opening of the connection, with only operations of the handler's own between, and all bytes are written and flushed |
| Polling.WovenIsExact | watermelon/src/handler/mod.rs:571-703 | the PUBs, ordinary SUBs and UNSUBs with a limit among the operations encoded are then exactly those asked for: none lost, doubled or moved |
| Polling.ClosesGracefullyIff | watermelon/src/handler/mod.rs:482-490 | that promise holds for all runs exactly for a client configured without a write delay |
| Polling.ClosesOnceDrained | watermelon/src/handler/mod.rs:538-555 | once the channel is closed, a poll that nothing stops and whose flush succeeds closes exactly when the socket took every byte |
| Polling.DelayOnlyHoldsBackIdle | watermelon/src/handler/mod.rs:472-536 | over a whole poll what the write delay answers changes nothing past the first turn, and nothing at all when the handler was writing or flushing |
| Polling.FlushGivenUp | watermelon/src/handler/mod.rs:492-504 | over a whole poll a flush under way is only given up when it is done or when the socket itself refused a write |
| Polling.ChannelExactly | watermelon/src/handler/mod.rs:472-536 | the loop closes the channel exactly when every sender is gone in one of its turns, begins the shutdown when it then finds the channel empty, and counts no byte as written that the socket did not take |
| Polling.FlagsExactly | watermelon/src/handler/mod.rs:472-536 | what the loop leaves: drained, it no longer writes and flushes exactly when it was flushing or wrote; with bytes left it writes exactly when it had to or was allowed to, and a flush goes on exactly when the socket itself did not refuse |
| Polling.WriteDelayLosesBytes | watermelon/src/handler/mod.rs:546-551 | with a write delay one poll closes over a publication of which no byte was written |
| Connections.StreamingConnection.PollReadNext | watermelon-net/src/connection/streaming.rs:36-59 | each poll reports the next event of the read session, and errors at end of file or on a failed read |
| Connections.StreamingConnection.PollWriteNext | watermelon-net/src/connection/streaming.rs:86-122 | exactly the bytes the socket took leave the encoder, at least one of them when it took any, and nothing on a pending or failed write |
| Connections.HandlerActor.Connect | watermelon/src/handler/mod.rs:191-228 | a new handler repeats the surviving subscriptions and starts everything else over |
| Connections.HandlerActor.HandleOne | watermelon/src/handler/mod.rs:269-373 | handling an operation in place is the specified change of the tables, the entries and the operations enqueued |
| Connections.HandlerActor.ReceiveOne | watermelon/src/handler/mod.rs:581-689 | receiving a command in place is the specified change of the tables, the entries and the operations enqueued |
| Connections.HandlerActor.Receive | watermelon/src/handler/mod.rs:571-703 | the batch loop is the specified one, with the encoder's own length deciding when to stop |
| Connections.HandlerActor.SweepFailed | watermelon/src/handler/mod.rs:376-415 | the sweep in place is the specified one |
| Connections.HandlerActor.ReadIncoming | watermelon/src/handler/mod.rs:453-465 | the reading loop handles the operations the decoder finds in what was read, in order, all of them unless one stops the handler, and leaves the decoder where the session ends |
| Connections.HandlerActor.PollOnce | watermelon/src/handler/mod.rs:431-555 | one poll of the objects is one poll of the state machine, for the operations its own decoder finds in what was read and the number of bytes the socket really took |
| Connections.HandlerActor.RunToOutput | watermelon/src/client/mod.rs:136-158 | a handler that is connected and polled without a write delay reports Closed only when everything accepted was delivered, and then exactly the encodings of all operations are on the socket |
| HappyEyeballs.EveryAddressOnce | watermelon-net/src/happy_eyeballs.rs:91-161 | in every race no address is attempted more often than resolved, each family in order, two attempts in a row share a family only if no other waited, attempts are paced, no address waits without a reason, and a poll without a result announces the end exactly when the resolver is done and every resolved address was reported |
| HappyEyeballs.PollReports | watermelon-net/src/happy_eyeballs.rs:129-145 | a poll reports the address of the very attempt that finished, among those running and those it started, and that one alone runs no longer; without a report all still run |
| HappyEyeballs.YieldsItsAttempts | watermelon-net/src/happy_eyeballs.rs:118-161 | in every race the addresses yielded and those still running are together those attempted, and once a poll announces the end every resolved address has been yielded |
| HappyEyeballs.OverIsTerminated | watermelon-net/src/happy_eyeballs.rs:156-160 | a poll without a result announces the end exactly when the race then counts as terminated, and from then on every poll does |
| HappyEyeballs.FalselyOverIff | watermelon-net/src/happy_eyeballs.rs:177-179 | a run counts as terminated with an address waiting exactly when its last poll found the resolver done, an address waiting and one attempt left with its delay over, and that attempt finished first |
| HappyEyeballs.TerminatedWhenResolvedAtOnce | watermelon-net/src/happy_eyeballs.rs:177-179 | so when the resolver delivers everything in the first poll a terminated race has no address waiting |
| HappyEyeballs.TerminatedTooEarly | watermelon-net/src/happy_eyeballs.rs:177-179 | a race with a pausing resolver that counts as terminated and then attempts another address |
| HappyEyeballs.Scheduler.NextDnsRecord | watermelon-net/src/happy_eyeballs.rs:91-109 | the loop removes the first waiting address of the preferred family, or the first of all |
| HappyEyeballs.Scheduler.PollNext | watermelon-net/src/happy_eyeballs.rs:118-161 | the loops over resolver, attempts and delay are the specified poll |
| Pagination.ListingIsComplete | watermelon/src/client/jetstream/commands/stream_list.rs:51-107 | for any answers whatever, the items are always a prefix of the list, all of it once the listing has ended; boundedly many pages that allow an item end it, whatever errors, delays and empty limits come between, and without one it never ends |
| Pagination.AnswersExactly | watermelon/src/client/jetstream/commands/stream_list.rs:51-107 | after any run the next poll answers the next item until it has caught up with the pages, then the end exactly when the last page is in, and an error exactly when the fetch fails, which is asked for again at the same offset; the items answered are those yielded |
| Pagination.ConsumerNames | watermelon/src/client/jetstream/commands/consumer_list.rs:40-79 | an invalid stream name is reported once and nothing else follows; a valid one lists as streams do |
| Pagination.UselessNeverEnds | watermelon/src/client/jetstream/commands/consumer_list.rs:112-124 | a run of any length whose pages all have a limit of zero never ends, yields nothing and keeps asking for the same page |
| Pagination.Lister.PollNext | watermelon/src/client/jetstream/commands/consumer_list.rs:64-130 | the poll that updates the fields in place is the specified one |

## Left out

- NoSilentLeak: ids refused on the current connection and ids whose limit is used up are excluded because the server no longer serves them.
- MessagesSurviveFragmentation: control lines are assumed to fit the head limit, because whether a longer one is refused depends on how the reads are cut (CutDecidesHeadLimit).
- ListingIsComplete: lists shorter than 2^32 items, because the offset is a 32-bit number.
- IdsAreUnique: the counter is unbounded; the abort at the largest 64-bit id is not modelled.
- SoftLimit: the channel answers at once; permits reserved but not yet used are not modelled, and a pending channel counts as an empty one.
- Sockets, TLS, compression, the websocket transport and its branch of the poll, wakers and the task budget: foreign code; their answers are inputs.
- CONNECT and INFO JSON: produced and read by a serialiser; CONNECT is modelled with its text already written, INFO as an opaque text.
- The classification of error texts, timers, the pinger's counting and the reconnection backoff are inputs; random reply subjects are assumed to be distinct.
- The quick-info bits, the lame-duck flag and the stored server info: they decide nothing that is modelled beyond when the sweep is run, which is an input.
- The tree, deque, vector and task-set of the standard library and tokio are modelled by sequences and maps with their documented behaviour.
- The encoder interface with its two implementations is modelled by the list of writes it receives, run by each back end.
- Assertions that only exist in debug builds are not modelled as failures.
- The decoder over an already complete frame, the batching of a subscription's receiver, JetStream messages and consumers, key pairs, and server addresses: no part of the properties above.
- Parsed integers are those of a 64-bit target.
