# Verification model of the gateway pipeline

The gateway takes binary requests `[0x40][len][cmd][payload][chk]` from TCP clients, datagrams and a
serial line, runs the commands, and sends back `[0xF0]` or `[0xF4]` frames. This project models the
path bytes in → frames → numbered requests → task slots → response ring → bytes out, and beside it the
scheduler that hands connections to workers. It proves what that path keeps over every run, and where
it stops keeping it.

`dafny verify dfyconfig.toml` checks everything.

## Layout

- `Seqs`, `Bytes`: laws of sequences; bytes, 32-bit counters, the checksum.
- `Requests`, `Responses`, `Router`: the two frame formats with their decoders; the command table and
  the response builder.
- `Scanner`, `SplitReads`: the buffer scanner of the readers, its greedy specification, and reading a
  stream in pieces.
- `Parser`, `ParserStreams`, `Decoders`: the byte-at-a-time parser, and the two decoders side by side.
- `ResponseRing`: the ring of a session and the vectored write, for any behaviour of the kernel.
- `Gateway`: the sessions and the task slots of one worker as a transition system. A step is one event of
  the worker's loop or one body of the background thread under the queue's mutex; the background thread
  may also get in between two frames of one read. Each session carries what epoll reports for its
  descriptor, and only events that epoll can report do anything.
- `Histories`, `Invariants`, `Accounting`, `Steps`: what every step keeps, request by request.
- `Gaps`, `Runs`, `FlushProgress`, `Inputs`, `EndToEnd`: what follows for whole runs.
- `Witnesses`: short runs from the start state that reach the states the other files warn about.
- `Sessions`, `Worker`, `Datagram`: the session object, the worker and the datagram reader as code that
  updates its state in place, each method proved against the step it performs.
- `IntrusiveList`, `Placement`, `Scheduler`: the circular list, the choice of a worker, the slots.

The two central results are `EndToEnd.RequestsToResponses` and `Runs.ClientGetsAnswersInOrder`. Beside
the state, the model keeps for every sequence number the request it was taken for and the one call of a
command handler made for it. What a client decodes from the ring's bytes are the first responses queued
for it, under rising numbers; each is what came out of the call made for its number, and that call was
made with the command and the parameters of the request the number was taken for. This holds whatever the
kernel, the background thread and the other connections do.

Beside them stands what becomes of a waiting request: it can still be answered on some run if and only if
it is not stuck (`FlushProgress.AnswerableIff`). A stuck one stays in its slot over every run, whatever the
client goes on to send (`Gaps.StuckStays`); one that is not needs only the background thread and the flush
(`FlushProgress.AnsweredIffNoGapBefore`).

## What the code does not keep

Where the code and the repository's own description differ, the model follows the code. Each point is
a theorem.

- The description says that half packets are handled. The TCP reader answers an incomplete frame F4 and
  loses it: reading in pieces equals reading the whole exactly when no boundary falls inside a frame,
  other than right behind its head (`SplitReads.SplitReadsIff`, `SplitReads.CutSampleIsLost`).
- The comment at `src/xlab_request.c:212` keeps a partly sent slot for the next write event. No write
  event resumes it, and the next one ends the session (`ResponseRing.PartlySentIsStuck`,
  `Runs.PartlySentEndsSession`, reached in `Witnesses.PartlySentIsReached`).
- The comment at `src/xlab_request.c:226` keeps waiting for room while the ring is not empty. The event
  handler switches back to reading after every write event that goes well (`src/xlab_connection.c:290`);
  frames left in the ring wait until another response is queued (`Runs.WritableLeavesFramesIff`,
  `Runs.LeftFramesWait`, reached in `Witnesses.FramesAreLeft`).
- A synchronous reply moves the expected number past tasks that are still outstanding. These are never
  answered while the session lives (`Gaps.SyncReplyOvertakes`, `Gaps.OvertakenStaysForever`, reached in
  `Witnesses.OvertakenIsReached`).
- A refused frame start takes a number and does not advance the expected one, which always leaves a gap in
  the answers (`Gaps.RefusalLeavesGap`). A blocking request filed right behind it is stuck, from every
  state (`Gaps.RefusalBlocksNext`, `Witnesses.StuckIsReached`). A request answered at once closes the gap
  if everything before it was answered in order (`Gaps.FrameGapFreeIff`, `Witnesses.GapIsClosed`), and
  blocking requests taken after that are released again.
- A read event with nothing to read makes the reader return -1, so the event loop closes the descriptor;
  the session stays on the list for good (`Inputs.NothingToReadOrphans`, `Inputs.OrphanStays`).
- A write event that goes well forgets a head byte that was read and not yet scanned, and the request it
  begins is lost (`Runs.WritableForgetsIff`, `Witnesses.LostWithWrite` beside `Witnesses.TakenWithoutWrite`).
- The size limit at `src/xlab_connection.c:222` never limits a request: a scan leaves at most one byte, so
  only limits of 1 or less close a session (`Inputs.ReadSurvivesIff`).
- The parser's buffer position grows with every rejected length byte. The parser stays within its buffer
  exactly when every frame starts behind fewer than 255 length errors since a length was last accepted
  (`ParserStreams.InBoundsIff`).
- The response builder keeps positions in a byte: above 251 data bytes it builds no response
  (`Responses.BuiltDecodesIff`). Handlers return at most 64 bytes, so the running gateway stays below.
- With capacity 0 an idle first worker is still chosen (`Placement.RefusesWhenFullIff`), with a negative
  one nobody is ever refused (`Placement.NegativeNeverRefuses`), and closing a connection that was handed
  over but not registered loses one unit of capacity for good (`Placement.StepLeaks`,
  `Placement.LeakIsReached`).
- An error below -255 that a handler returns is cut to a byte: -256 goes out as an F4 frame with code 00
  (`Router.OutcomeIsTold`).
- The 32-bit numbers wrap: settling request 2^32 - 1 turns the expected number back
  (`Runs.SyncReplyTurnsBackIff`, `Runs.FlushTurnsBackIff`). The ordering results therefore speak of
  sessions that have taken fewer than 2^32 numbers (`Unwrapped`).

## Model

| member | source | states |
|---|---|---|
| EndToEnd.RequestsToResponses | src/xlab_connection.c:105-239 | a client sends requests separated by noise without 0x40, no read boundary cuts one: over every run that does not disturb its connection the session takes exactly these requests, the n-th under number n, and the responses the client decodes are the first ones queued, at rising positions, each saying what came out of the one call made for its request with that request's command and parameters: F0 and the handler's data, or F4 and its error with the sign turned |
| EndToEnd.CleanStreamHeard | src/xlab_connection.c:122-213 | one scan of such a stream takes each request once, in order, and refuses nothing |
| Inputs.StreamIsTaken | src/xlab_connection.c:116-219 | the requests and refusals a new session takes are those its reads find in the stream, and those of one scan of the whole stream when no boundary cuts a frame, with any steps of others in between |
| Inputs.RunHears | src/xlab_connection.c:116-219 | over every undisturbed run the session takes exactly what its own reads bring, starting from what was left in the buffer |
| Inputs.OthersLeaveAlone | src/xlab_async.c:132-209 | other connections, the background thread and the flush change neither what a session has taken and sent, nor what it has left to scan, nor whether it is open |
| Inputs.EventsHeard | src/xlab_connection.c:142-206 | handling the events of a scan takes one sequence number for each, in their order |
| Inputs.UnknownReadCloses | src/xlab_connection.c:105-113 | a read event of a connection the scheduler does not know creates no session and closes it |
| Inputs.WriteWithoutSession | src/xlab_connection.c:256-276 | the first write event of a connection leaves it open, another one without a session closes it |
| Inputs.HangupEnds | src/xlab_connection.c:302-315 | an error event takes the session off the list and closes the descriptor |
| Inputs.ReadsWaitForWrite | src/xlab_connection.c:186-187 | a session that waits for room to write, with no read event on its way, takes nothing more over any run until its write event |
| Inputs.LateReadComesOnce | src/xlab_epoll.c:63-81 | a read event reported before the switch comes at most once |
| Inputs.ReadStaysInBuffer | src/xlab_connection.c:116-118 | a read fills the buffer to 4096 bytes at most and takes the beginning of what came |
| Inputs.NothingToReadOrphans | src/xlab_connection.c:231-238 | a read event with nothing to read closes the descriptor and leaves the session on the list |
| Inputs.OrphanStays | src/xlab_epoll.c:70-81 | a session without a descriptor stays on the list over every run, takes no request and sends no byte |
| Inputs.RunEnded | src/xlab_epoll.c:70-81 | in every reachable state a session that left the list has its descriptor closed |
| Inputs.ReadSurvivesIff | src/xlab_connection.c:116-238 | a read event that can come leaves the connection open if and only if bytes came in and the size limit is above 1, or is 1 and the scan of the buffer stops at its end; the session stays on the list then, and also when there was nothing to read |
| Runs.ClientGetsAnswersInOrder | src/xlab_async.c:157-194 | over every run, what a client decodes are the first responses queued, under strictly rising numbers, each saying what came out of the one call made for its number with the request the number was taken for: the handler's data, or its error with the sign turned, cut to a byte |
| Runs.ClientReceivesPrefix | src/xlab_request.c:171-224 | over every run, the bytes the kernel took decode to the first responses queued on the session, in order, and at most a strict part of the next frame |
| Runs.ReachableInv | src/xlab_async.c:132-209 | every reachable state satisfies the invariant: counters, order, bytes, histories, tasks and balance of all sessions |
| Runs.ResponsesStayInOrder | src/xlab_async.c:157-194 | the expected number never exceeds the next one and never drops, and the responses put into the ring carry strictly rising numbers below it, over every run and every continuation |
| Runs.SettledAsOwed | src/xlab_connection.c:142-200 | over every run, the frames handed to the socket past the ring for a settled number are: F4 with command 0 and code 01 for a refused frame start; code 03 or FF for a request whose command is unknown or does not take that many parameters; what came out of its one call for one whose command does, followed by code FF when that could be neither sent nor queued; code 12 for BUSY; none for a queued response of a blocking command, and none for a dropped one, whose session is gone |
| Runs.CalledOnce | src/xlab_async.c:38-58 | a handler is called at most once for a request, with that request, and what came out is never replaced over any continuation |
| Runs.OutcomeIsDelivered | src/xlab_async.c:38-58 | a waiting task carries the request of its number, is called for with it, and over every run the outcome stays in the slot until it is queued as the response, unless BUSY was answered or the session is gone |
| Runs.FrameGoes | src/xlab_connection.c:155-203 | a valid frame takes the next number; it is filed in a free slot exactly when its command blocks and there is one, and is otherwise settled at once: refused, sent, queued exactly when the socket is full and the ring is not, or failed |
| Runs.PartlySentEndsSession | src/xlab_request.c:185-190 | after a partial send no run gets another byte out of the ring, and the next write event that can come ends the session |
| Runs.WritableSurvivesIff | src/xlab_connection.c:273-293 | a write event that can come leaves the connection open if and only if the first frame of the ring is untouched, the first write takes something and no write the call comes to make fails; otherwise session and descriptor go |
| Runs.WaitsToWriteWithFrames | src/xlab_request.c:226-229 | in every reachable state a session waits for room to write only while its ring is not empty |
| Runs.WriteCallSwitchesBackIff | src/xlab_request.c:226-229 | the write call itself switches the descriptor back to reading exactly when every write it made ended at the end of a frame |
| Runs.WritableLeavesFramesIff | src/xlab_connection.c:284-292 | a write event that goes well switches the descriptor back to reading, and leaves frames in the ring if and only if some write it made did not end at the end of a frame |
| Runs.LeftFramesWait | src/xlab_connection.c:288-292 | while a session waits for something to read, no run gets a byte out of its ring before another response is queued on it |
| Runs.WritableForgetsIff | src/xlab_connection.c:284-292 | a write event goes on without a byte that was read if and only if it can come, a head was left to scan and the write goes well |
| Gaps.StuckStays | src/xlab_async.c:156-196 | a waiting request below the expected number, or behind a number that waits nowhere, stays in its slot, unanswered and stuck, over every run while its session is open, whatever the client sends |
| Gaps.StuckIff | src/xlab_async.c:156-157 | a waiting request is stuck if and only if the expected number has passed it or a number from the expected one up to it was settled out of turn |
| Gaps.RefusalBlocksNext | src/xlab_connection.c:140-167 | from every state, a refused frame start makes the blocking request filed right behind it stuck |
| Gaps.SyncReplyOvertakes | src/xlab_connection.c:190-191 | a synchronous reply overtakes exactly the tasks of its session that occupy slots |
| Gaps.OvertakenStaysForever | src/xlab_async.c:156-157 | an overtaken task is neither answered nor released over any run while its session is open |
| Gaps.FrameGapFreeIff | src/xlab_connection.c:161-200 | after a valid frame the answers are free of gaps if and only if it was submitted and they were so before, or it was answered at once and every request before it had been answered in order, whether there was a gap or not |
| Gaps.RefusalLeavesGap | src/xlab_connection.c:140-150 | a refused frame start always leaves a gap |
| Gaps.FlushGapFreeIff | src/xlab_async.c:138-196 | the flush neither leaves nor closes a gap, at any slot |
| Runs.SyncReplyTurnsBackIff | src/xlab_connection.c:191-191 | a synchronous reply turns the expected number back if and only if it answers request 2^32 - 1 after an earlier release |
| Runs.FlushTurnsBackIff | src/xlab_async.c:177-194 | the flush turns it back at a slot if and only if it releases response 2^32 - 1 there |
| FlushProgress.AnsweredIffNoGapBefore | src/xlab_async.c:138-207 | once the background thread ran and enough passes were made, a waiting request is answered if and only if it is not stuck: every number from the expected one up to its own waits in a slot |
| FlushProgress.AnswerableIff | src/xlab_async.c:132-209 | a waiting request is answered on some run, of any steps at all, if and only if it is not stuck |
| FlushProgress.StopsAtFirstGap | src/xlab_async.c:138-207 | the session then gets exactly to its first gap, and no number of passes gets further |
| FlushProgress.PassesReach | src/xlab_async.c:138-207 | when the next numbers up to m are completed and m is not, n passes release all of them if there are at most n, at least n otherwise, never more |
| FlushProgress.RunReaches | src/xlab_async.c:132-209 | when the next numbers up to m are completed, n flushes move the expected number by at least n or up to m, over every run the session lives through, its own further requests included |
| FlushProgress.FlushHandsOut | src/xlab_async.c:165-196 | of the numbers a pass releases for a session, as many as its ring has room for are queued, in order, and exactly the others are answered BUSY |
| FlushProgress.GoneTasksAreDropped | src/xlab_async.c:146-154 | a pass frees the slot of every completed task whose session is gone, and its number is settled as dropped |
| FlushProgress.NoSlotOfTheGone | src/xlab_async.c:138-154 | from every state, once the background thread ran and a pass was made, no slot belongs to a session that has left the list |
| FlushProgress.OnePass | src/xlab_async.c:138-207 | one pass advances by at least one when the next number is completed, also with a full ring, and stays below the first number that is not |
| FlushProgress.OnePassInSlotOrder | src/xlab_async.c:138-207 | one pass releases a whole run of completed numbers that lie in slots of rising index |
| FlushProgress.DueAfterPass | src/xlab_async.c:138-196 | a pass releases exactly the completed tasks whose numbers it advanced over |
| Accounting.EachRequestOnce | src/xlab_async.c:102-196 | every number a session took is settled once (sent, failed to be sent, refused, queued, BUSY or dropped) or waits in one slot, and no other number is either |
| Accounting.AsyncSessionIsGapless | src/xlab_async.c:156-196 | a session settled only by the flush has answered exactly 0 up to the expected number, in order, and exactly the rest waits |
| Accounting.HeldOnce | src/xlab_async.c:102-124 | no two slots hold the same request |
| Accounting.AnsweredIsNotHeld | src/xlab_async.c:179-196 | a number is settled, in one of these ways, exactly when no slot holds it |
| Steps.ApplyKept | src/xlab_epoll.c:67-83 | every step keeps the invariant and takes nothing back: logs, calls, queues and accepted bytes only grow, completed tasks leave only by delivery |
| Steps.ExecKept | src/xlab_epoll.c:63-83 | so does every run |
| Steps.StartInv | src/xlab_async.c:75-86 | the state after start-up satisfies the invariant |
| Steps.GoodFrameKept | src/xlab_connection.c:155-203 | a valid frame keeps it, submitted, answered directly, queued or refused |
| Steps.FlushSlotKept | src/xlab_async.c:139-196 | the flush at one slot keeps it, whatever the slot holds |
| Steps.BatchKept | src/xlab_async.c:38-58 | the background thread keeps it |
| Steps.WritableKept | src/xlab_request.c:165-232 | a write event keeps it for every kernel |
| Witnesses.SampleFrames | src/xlab_proto_parser.c:57-82 | the two sample requests of the command list on the wire |
| Witnesses.SampleReplies | src/xlab_router.c:52-75 | a version response and an error response on the wire |
| Witnesses.PartlySentIsReached | src/xlab_request.c:199-214 | a run whose session has a partly sent frame |
| Witnesses.TakenWithoutWrite | src/xlab_connection.c:116-219 | a request whose head comes with the request before it is taken when the first reply can be sent at once |
| Witnesses.LostWithWrite | src/xlab_connection.c:284-292 | from the same two reads it is lost when the first reply has to be queued and a write event sends it |
| Witnesses.FramesAreLeft | src/xlab_connection.c:284-292 | a run that leaves an untouched frame in the ring of a session that waits for something to read |
| Witnesses.StuckIsReached | src/xlab_connection.c:140-167 | a damaged frame and a blocking request in one read: the request is stuck |
| Witnesses.GapIsClosed | src/xlab_connection.c:140-191 | a damaged frame and a request answered at once: the gap the first leaves is closed by the second |
| Witnesses.OvertakenIsReached | src/xlab_connection.c:161-192 | one read of a blocking and a synchronous request leaves the first overtaken |
| ResponseRing.DrainConserves | src/xlab_request.c:171-224 | the bytes the kernel took followed by those still queued are the bytes that were queued, for every sequence of partial writes |
| ResponseRing.DrainEmptiesIff | src/xlab_request.c:171-224 | a write call empties the ring exactly when every write it makes ends at the end of a frame |
| ResponseRing.CanSendIff | src/xlab_request.c:177-190 | a write call can send something if and only if the ring is not empty and its first frame is untouched |
| ResponseRing.SendsIff | src/xlab_request.c:190-194 | a write call sends something if and only if its first write takes something from an untouched first frame |
| ResponseRing.FailsIff | src/xlab_request.c:216-220 | a write call fails if and only if a write that it comes to make is answered with an error |
| ResponseRing.PartlySentIsStuck | src/xlab_request.c:185-190 | with a partly sent first frame no kernel gets a byte out |
| ResponseRing.AdvanceDrops | src/xlab_request.c:199-214 | the head bookkeeping forgets exactly the bytes that were taken |
| ResponseRing.ViewAppend | src/xlab_connection.c:180-185 | the full test is true at 63 occupied slots, and otherwise filling the tail slot appends and touches no occupied slot |
| ResponseRing.ViewHead | src/xlab_request.c:200-211 | changing or dropping the head slot leaves the slots behind it alone |
| Scanner.ScanIsGreedy | src/xlab_connection.c:122-213 | the events of the scan come in order without overlap, each fits its position, and every head with a legal length starts one or lies inside an earlier dispatched frame |
| Scanner.GreedyIsUnique | src/xlab_connection.c:122-213 | no other event list does |
| Scanner.ScanStop | src/xlab_connection.c:130-217 | the scan leaves nothing or a single 0x40 |
| SplitReads.SplitReadsIff | src/xlab_connection.c:116-219 | reading in pieces finds what one scan finds if and only if no boundary falls inside a dispatched frame other than right behind its head |
| SplitReads.PrefixScan | src/xlab_connection.c:116-219 | the scan of a prefix is the beginning of the whole scan exactly when the cut is harmless |
| SplitReads.CutSampleIsLost | src/xlab_connection.c:140-150 | the sample frame 40 02 02 BC cut in the middle is refused and lost |
| Parser.ProtoCtx.constructor | src/xlab_request.c:266-267 | the parser starts idle with an empty buffer |
| Parser.ProtoCtx.ParseByte | src/xlab_proto_parser.c:16-96 | one byte performs one step of the abstract machine; every index stays in the buffer and no counter wraps |
| Parser.ProtoCtx.CheckFrame | src/xlab_proto_parser.c:57-93 | the last byte reports the frame's request and number, or a checksum error, and resets the parser |
| ParserStreams.CleanStreamParsed | src/xlab_proto_parser.c:16-96 | on frames of length 2..253 separated by noise without 0x40 the parser reports each at its last byte with the next number, and Incomplete elsewhere |
| ParserStreams.RunFrame | src/xlab_proto_parser.c:57-93 | a whole frame is reported at its last byte, with the next number if it is sealed and as a checksum error that takes no number if not, and leaves the parser idle |
| ParserStreams.LengthErrorIff | src/xlab_proto_parser.c:28-39 | a length byte is rejected exactly below 2 and above 253, which takes no number |
| ParserStreams.BackToIdle | src/xlab_proto_parser.c:28-93 | from every state, on any bytes, the parser is idle within what the frame owes, at most 254 bytes |
| ParserStreams.ResyncWithin254 | src/xlab_proto_parser.c:16-96 | 254 bytes of padding make the next frame parse from every state |
| ParserStreams.ResyncBoundIsTight | src/xlab_proto_parser.c:28-56 | 253 bytes may not be enough |
| ParserStreams.InBoundsIff | src/xlab_proto_parser.c:17-41 | the parser stays within its buffer on a stream if and only if every head that it takes as the start of a frame follows fewer than 255 length errors since a length was last accepted |
| ParserStreams.RejectsAreLengthErrors | src/xlab_proto_parser.c:17-41 | in every state the count that the buffer position follows is the number of length errors since a length was last accepted |
| ParserStreams.RejectsCounted | src/xlab_proto_parser.c:17-38 | on a stream that accepts no length these are all its length errors |
| ParserStreams.BufferHolds255Rejects | src/xlab_proto_parser.c:17-38 | an instance: 255 rejected lengths in a row fit a fresh parser's buffer, the next head does not |
| ParserStreams.FewRejectsInBounds | src/xlab_proto_parser.c:17-38 | a consequence on the results alone: with fewer than 255 length errors in all, no stream leaves the buffer |
| Decoders.DecodersAgree | src/xlab_proto_parser.c:16-96 | on every buffer the scanner takes in without a refusal and without skipping a length of 252 or 253, the parser reports the same requests and numbers, no checksum error, and holds back the same bytes |
| Decoders.CleanStreamScanned | src/xlab_connection.c:122-213 | on clean streams of frames with length up to 251 the scanner dispatches exactly the encoded requests |
| Decoders.BothDecodeCleanStreams | src/xlab_connection.c:122-213 | on such streams both decoders give back the encoded requests in order |
| Bytes.CalcChecksum | include/xlab_proto_parser.h:47-56 | the 32-bit loop yields the byte that brings the sum to 0 modulo 256, so comparing it with the last byte decides whether the frame is sealed |
| Bytes.ComplementIsNegation | include/xlab_proto_parser.h:54-55 | complement plus one on 32 bits, cut to a byte, is negation modulo 256 |
| Bytes.OneByteChangeBreaksSeal | include/xlab_proto_parser.h:46-56 | changing one byte of a sealed frame always breaks the seal |
| Requests.FrameParsed | src/xlab_connection.c:129-158 | an encoded request is a well-formed frame and parses back to itself |
| Requests.ParsedFrame | src/xlab_connection.c:129-158 | every well-formed frame is the encoding of what it parses to |
| Responses.DecodeWire | src/xlab_router.c:59-75 | decoding a response frame gives back the response |
| Responses.WireDecode | src/xlab_router.c:59-75 | only response frames decode |
| Responses.WirePrefixFree | src/xlab_router.c:59-75 | no response frame is a prefix of another, so frames in a row are told apart |
| Responses.WireDamageDetected | src/xlab_router.c:59-75 | a response frame with one byte changed does not decode |
| Responses.PrefixDecodes | src/xlab_router.c:59-75 | any prefix of a stream of responses decodes to the first of them and a strict part of the next |
| Responses.BuiltDecodesIff | src/xlab_router.c:55-75 | what the builder leaves decodes to the response it stands for if and only if it reports an error or the data has at most 251 bytes |
| Router.Process | src/xlab_router.c:82-115 | a request gets a response exactly when its command's first entry takes that many parameters, and the response says what came out of the handler; otherwise the code says why |
| Router.OutcomeIsTold | src/xlab_router.c:110-114 | an error from -1 to -255 reaches the client as the code with the sign turned, any other is cut to a byte |
| Responses.WireIs | src/xlab_router.c:52-75 | the bytes of both response frames up to the checksum |
| Router.BuildResponse | src/xlab_router.c:40-80 | the builder leaves these bytes, with its positions kept in a byte |
| Router.RegisterKeepsMatches | src/xlab_router.c:9-38 | registering a command never changes what an earlier one resolves to |
| Router.CommandTable.constructor | src/xlab_router.c:5-7 | the table starts empty |
| Router.CommandTable.Register | src/xlab_router.c:9-29 | an entry is appended unless 32 are registered |
| Router.CommandTable.Lookup | src/xlab_router.c:30-38 | the first entry registered for the command, or none |
| Router.CommandTable.RouterProcess | src/xlab_router.c:82-115 | the checks in order with their codes; a response is built exactly when the command's first entry takes that many parameters, and it says what came out of the handler |
| Sessions.ClientSession.constructor | src/xlab_request.c:246-274 | a new session is empty with both numbers at 0 |
| Sessions.ClientSession.RingFull | src/xlab_async.c:166-167 | the full test is true exactly with 63 occupied slots |
| Sessions.ClientSession.PutResponse | src/xlab_async.c:184-206 | a response is appended to the ring and the descriptor is switched to writing |
| Sessions.ClientSession.Gather | src/xlab_request.c:172-188 | the untouched frames at the head, at most three |
| Sessions.ClientSession.AdvanceHead | src/xlab_request.c:195-214 | the head moves over exactly the bytes that were taken |
| Sessions.ClientSession.DrainQueue | src/xlab_request.c:170-224 | the loops perform the drain for every kernel and end |
| Sessions.ClientSession.HandlerWrite | src/xlab_request.c:165-232 | the write handler performs the drain, and switches the descriptor back to reading when the ring is empty |
| Sessions.ClientSession.WriteEvent | src/xlab_connection.c:273-292 | the session survives when something was sent and nothing failed, and then forgets its unscanned bytes and waits for something to read |
| Sessions.ClientSession.Append | src/xlab_connection.c:116-118 | fresh bytes go behind the unscanned ones |
| Sessions.ClientSession.Compact | src/xlab_connection.c:216-219 | the move through a uint8_t count loses nothing |
| Worker.Worker.constructor | src/xlab_async.c:75-86 | the worker starts in the start state of the transition system |
| Worker.Worker.FlushTask | src/xlab_async.c:139-196 | one slot of the flush performs the step of the transition system |
| Worker.Worker.ReleaseExpected | src/xlab_async.c:166-196 | the expected task is queued, or answered BUSY with a full ring |
| Worker.Worker.FlushCompleted | src/xlab_async.c:132-209 | a flush pass performs the flush step |
| Worker.Worker.RunWaiting | src/xlab_async.c:37-59 | the background loop performs the batch step |
| Worker.Worker.FindFree | src/xlab_async.c:102-107 | the first free slot |
| Worker.Worker.SubmitAsync | src/xlab_async.c:93-130 | a request is filed in the first free slot, or rejected when all are taken |
| Worker.Worker.RefuseFrame | src/xlab_connection.c:142-146 | a refusal takes a number and advances nothing |
| Worker.Worker.ReplyNow | src/xlab_connection.c:174-191 | direct send first, the ring when the socket is full; the expected number moves in any case, and the result tells whether the reply went anywhere |
| Worker.Worker.DeliverNow | src/xlab_connection.c:173-200 | a reply that is neither sent nor queued is followed by an error frame |
| Worker.Worker.AnswerNow | src/xlab_connection.c:172-200 | the command is run and replied to, or an error frame with the right code is sent, as the transition system says |
| Worker.Worker.HandleFrame | src/xlab_connection.c:155-200 | a valid frame performs the step of the transition system |
| Worker.Worker.HandleEvent | src/xlab_connection.c:137-212 | a frame start is dispatched or refused and skipped as the scan says |
| Worker.Worker.ScanBody | src/xlab_connection.c:119-213 | the loop handles exactly the events of the scan and stops where it stops |
| Worker.Worker.ConnRead | src/xlab_connection.c:106-239 | the read handler performs its part of the receive step, creates the session at first, and returns a negative value exactly when the reader fails, also with nothing to read or an unregistered connection |
| Worker.Worker.ReadEvent | src/xlab_epoll.c:70-81 | a read event that can come performs the receive step: the event loop closes the descriptor after a read handler that failed |
| Worker.Worker.ReadSession | src/xlab_connection.c:116-238 | the three outcomes of a read and what each returns |
| Worker.Worker.ConnWrite | src/xlab_connection.c:250-293 | the write handler performs its part of the write step and returns a negative value exactly when the session is missing or ends |
| Worker.Worker.WriteEvent | src/xlab_epoll.c:73-81 | a write event that can come performs the write step: the event loop closes the descriptor after a write handler that failed |
| Worker.Worker.ConnError | src/xlab_connection.c:302-315 | an error event ends the session and the descriptor |
| Worker.Worker.OpenSession | src/xlab_request.c:234-287 | a fresh session joins the table and shares no buffer, or NULL for a connection the scheduler does not know |
| Worker.Worker.CloseSession | src/xlab_request.c:305-332 | a session leaves the table |
| Datagram.WrittenCorresponds | src/xlab_connection.c:45-97 | the frames written and the events answered correspond one to one, in order; a refusal's frame decodes to F4 with command 0 and code 01, a request's to what came out of its handler |
| Datagram.ReadDatagram | src/xlab_connection.c:45-97 | the datagram loop writes exactly one frame for every refused frame start and every request that its command takes, in the order of the events of the same scan, and nothing else |
| IntrusiveList.ListInit | include/xlab_list.h:20-24 | an initialised head is the empty list |
| IntrusiveList.ListAdd | include/xlab_list.h:26-38 | adding appends, with prev and next still inverse |
| IntrusiveList.ListDel | include/xlab_list.h:40-51 | deleting removes exactly its node and clears its links |
| IntrusiveList.IsEmpty | include/xlab_list.h:53-57 | 0 for an empty list, -1 otherwise |
| IntrusiveList.Find | src/xlab_scheduler.c:328-333 | the walk finds the first node with the socket, or none |
| IntrusiveList.DeleteDuringWalk | include/xlab_list.h:60-61 | deleting during the safe walk visits every original node once, in order, and leaves the others |
| IntrusiveList.Move | src/xlab_scheduler.c:93-94 | moving a node between two lists keeps both well-formed and apart |
| Placement.TargetIsFirstMin | src/xlab_scheduler.c:29-57 | the chosen worker is the first of smallest load |
| Placement.RefusesWhenFullIff | src/xlab_scheduler.c:35-54 | a refusal means that all are full if and only if the capacity is not 0 or the first worker is busy |
| Placement.NegativeNeverRefuses | src/xlab_scheduler.c:51-54 | a negative capacity refuses nobody |
| Placement.AcceptsStayBalanced | src/xlab_scheduler.c:60-82 | without closes, loads that differ by at most one keep doing so |
| Placement.AcceptAddsOne | src/xlab_scheduler.c:60-82 | an accept adds one to the load of the chosen worker when epoll takes the connection, and nothing otherwise |
| Placement.RegisteredIsBusy | src/xlab_scheduler.c:85-102 | registering makes this socket busy once more, every other as often as before, and uses one free slot |
| Placement.RemovedIsFree | src/xlab_scheduler.c:287-312 | removing makes this socket busy once less if it was, every other as often as before, and then counts it as closed and frees one slot |
| Placement.AcceptedIsServed | src/xlab_scheduler.c:60-102 | over every run, an accepted connection waits at the worker chosen for it, and once registered there it is found until it is removed |
| Placement.RunServesOnce | src/xlab_connection.c:256-266 | over every run no worker has a connection in two slots, so a removed one is not found any more |
| Placement.RunKeeps | src/xlab_scheduler.c:60-312 | busy and free slots add up to the capacity, and busy plus pending connections never exceed accepted minus closed, nor that the capacity, over every run |
| Placement.PendingFindsFreeSlot | src/xlab_scheduler.c:85-102 | a connection handed to a worker always finds a free slot, and a refusal means that every worker is full |
| Placement.StepLeaks | src/xlab_scheduler.c:287-311 | capacity is lost exactly when a connection is closed before it was registered |
| Placement.LeakIsReached | src/xlab_scheduler.c:287-311 | a run of one worker with one slot that accepts nothing more although it has no connection |
| Scheduler.SchedNode.constructor | src/xlab_scheduler.c:206-218 | all slots start available |
| Scheduler.SchedNode.RegisterClient | src/xlab_scheduler.c:85-102 | the first available slot becomes the last busy one, pending, with this socket |
| Scheduler.SchedNode.RemoveClient | src/xlab_scheduler.c:287-312 | the connection's slot becomes available, and -1 when it has none |
| Scheduler.SchedNode.GetConnection | src/xlab_scheduler.c:314-335 | the slot of a connection, or none |
| Scheduler.SchedNode.UpdateConnStatus | src/xlab_scheduler.c:337-356 | only the slot of the connection is marked, with any status |
| Scheduler.FindTarget | src/xlab_scheduler.c:29-57 | the search loop with its early exits chooses the specified worker |
| Scheduler.AddClient | src/xlab_scheduler.c:60-82 | a connection is counted for the chosen worker when epoll takes it, and for no other |

## Left out

- Runs.ReachableInv: one worker with live sessions; several workers sharing the task queue, a session looked up from another thread and reused file descriptors are not modelled, so connections have names that are never reused.
- EndToEnd.RequestsToResponses: speaks of the bytes of the ring; frames that `send` puts on the socket directly are recorded with the number they belong to and not ordered against the ring.
- Worker.Worker.ReplyNow: a direct send is its outcome only (whole, socket full, anything else); how many bytes of a frame that was not sent whole reached the socket is not modelled.
- Worker.Worker.OpenSession: whether the scheduler knows the connection is a parameter; the session list is a map from connections to sessions.
- Gateway.CanRead: a read event that epoll reported before the flush switched the descriptor to writing may come at any time before the write event; that it can only come before the next wait is not modelled.
- Worker.Worker.ReadEvent: closing a descriptor also releases its slot, which the scheduler's own model does.
- Router.BuildResponse: requires room for the checksum position; 254 or 255 data bytes in a smaller buffer are outside the precondition.
- Router.CommandTable.RouterProcess: a handler is the outcome of one call, a return value and at most 64 bytes; the handlers of commands 02 and 06 are not part of this model, and an error code of INT_MIN is not negated in 32 bits.
- Scheduler.FindTarget: the counters are natural numbers, not 64-bit ones.
- Placement.RunKeeps: adding to epoll and counting the connection is one step.
- `xlab_handler_read` in `src/xlab_request.c`: nothing calls it; the parser it feeds is modelled.
- The memory behind cached session pointers, `src/xlab_memory.c`, and the time stamps.
- Sockets, edge triggering, eventfd and thread creation: their answers are parameters of the steps.
- `src/xlab_string.c`, configuration, logging, the file-descriptor map of `src/xlab_trans.c` and the UART and UDP drivers: they would add only easy members.
