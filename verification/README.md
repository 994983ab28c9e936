# Star Bridge: a verified model

Star Bridge stands between an HTTP client that reads server-sent events and a native
agent that speaks length-prefixed JSON frames. This project models, in Dafny, the parts
of it that have to be exactly right and proves them for all inputs and all runs.

The turn. `TurnTrace` says, on values, what a turn must have done by any point of an
arbitrary trace of native frames, reads without one and requests in the middle of the turn.
`TurnContext` is the turn loop and its handlers as methods of a class, proved to end at
the first poll that ends the turn and to leave exactly what `TurnTrace` asks for.
`ResponsesStream` is the event stream object, and `ResponseTurn` runs a request from its
first event to its last and shows what a client and the agent can rely on. `Heartbeat`
is a transition system of the server thread and the heartbeat thread on one frame
stream, with mutex-protected reads and every access to a shared flag as single steps.

The codecs. `ByteStreams` is a descriptor whose reads and writes may be partial,
interrupted or fail; quantifying over its pace quantifies over every split of the
bytes. On it stand `NativeFrame` (framing) and `HttpRequest` (reading a request and its
body; `HttpHead` reads the head, `DecodeBuffer` grows the buffer of a chunked body,
`HttpBodies` holds the results). `JsonText`, `BalancedJson`, `RequestFrame`,
`ToolFrames` and `ToolArgs` are the JSON printers and scanners, each against a grammar of
JSON text or the frame that should come out.

The laws. `TurnLaws`, `HeadLaws`, `SizeLaws`, `RequestLaws`, `EnvelopeLaws`, `JsonLaws`
and `HistoryLaws` say what the definitions the other results are built on mean in terms
of parsed events, request lines, single bytes and literal texts.

The stores and edits. `RingBuffer` is the byte ring with 64-bit wrapping indices,
`ToolHistory` the bounded tool history, `RequestText` the growing buffer of a
normalised request, `ManagedConfig` and `ConfigEdits` the managed block of a
configuration file. `Texts`, `Buffers`, `Printf` and `Modular` are shared helpers.

Bytes are chars (or numbers below 256 in `NativeFrame`), and C strings are sequences
without NUL. Memory allocation succeeds, and integers lie in memory
with their lowest byte first. Clocks, sockets and the file system appear as
traces, paces and texts. What a tool prints when it runs is part of the frame that asks
for it.

## Where the code and expectations part

- `frame_write` gives up when the one write of its four header bytes is partial or
  interrupted, so relaying is stated for writes that report success
  (`NativeFrame.FrameWrite`, `NativeFrame.SplitHeaderIsRefused`).
- A Content-Length request whose head does not end within the first MiB has no body at
  all (`HttpBodies.ReceiveSized`).
- A chunked request whose coding contains CRLF 0 CRLF anywhere before its last-chunk
  line, in the data or across a size line or the end of the data, can end reading early;
  otherwise it never does (`HttpBodies.ReceivedForEveryPaceIff`). An empty chunked body
  is never complete (`HttpBodies.CompleteIffChunks`).
- A chunk whose declared size and the bytes decoded before it exceed 2^63 leaves the
  decoder in a loop without an end (`HttpBodies.StuckIffHuge`,
  `HttpBodies.StuckForEveryPaceIff`).
- The frame for a tool result is built in 4096 bytes, whatever the length of the result
  (`ToolFrames.Answer`).
- `decode_json_string_local` needs one byte more than the text and its NUL to report
  success, and leaves surrogates unpaired (`JsonText.DecodeOfPrinted`).
- `decode_json_string_value` takes a value one byte shorter than its buffer only if the
  value does not end in an escape (`ToolArgs.FitsIffShort`).
- `extract_balanced_json_local` reports success for a value it had to cut short
  (`BalancedJson.ExtractOfPrinted`).
- The JSON view of the tool history can hide entries after the limit was lowered
  (`ToolHistory.History.ViewConserves`, `ToolHistory.LoweredLimitHidesEntries`), and an
  oversize line displaces the raw text of shorter ones
  (`ToolHistory.RawTextIsShortLinesIff`).
- Cleaning leaves a begin marker when its two parts come together where a section was
  taken out (`ManagedConfig.StrippedHasNoBeginIff`, `ManagedConfig.SeamCanMakeABegin`).
  Then, and when the text ends in a begin marker without its newline, installing twice is
  not installing once (`ConfigEdits.InstallTwiceIff`); disabling undoes installing only for texts
  that end in a newline and hold no displaced section
  (`ConfigEdits.DisableUndoesInstall`); and sections of the previous generation
  are not disabled (`ConfigEdits.DisableTouchesIff`).
- A request id is matched as a substring, so the frames of a turn pass for those of
  every turn whose number begins its own (`TurnTrace.PassesIffPrefix`).
- Error frames and the request to save the session carry no request id
  (`ResponseTurn.FramesAreOwn`).
- A response is streamed on top of the deltas before it, even if it repeats them
  (`ResponseTurn.CompletedTextIsResponseIff`).
- The heartbeat can take a frame that answers the turn's request when it tested the flag
  just before the turn set it (`Heartbeat.Theft`).

## Model

| member | source | states |
|---|---|---|
| TurnContext.Turn.ProcessEvents | src/turn_context.c:458-786 | For every trace of native frames, reads without a frame (silent, or of a frame that was too big) and mid-turn requests the loop ends at the first poll that ends the turn (event limit, DELETE, exhausted timeout, foreign frame, cancel notice, error, 65th tool intent, response), and the output buffer, the frames written (answers, error frames, the cancel and the request to save the session, in order), the answers given and the streamed deltas are exactly those the prefix of the trace up to that poll asks for |
| TurnContext.Turn.HandleFrame | src/turn_context.c:528-776 | One frame: it ends the turn with the effects of its ending, the error frame for a foreign id included, or the turn has caught up with one more frame; foreign lifecycle frames are skipped uncounted |
| TurnContext.Turn.HandlePlane | src/turn_context.c:358-452 | Every waiting connection is answered in order; the cancel frame is written by the first DELETE only; turn_active falls exactly if there was one |
| TurnContext.Turn.AwaitAck | src/turn_context.c:278-350 | True exactly when the first of at most five reads that is neither a lifecycle frame nor an event is the acceptance of this turn; otherwise the output is the message of that read; error frames go out for each read of a frame that was too big, for a timeout, a busy agent and exhausted tries, and for nothing else |
| TurnContext.Turn.HandleNotice | src/server.c:798-803 | A notice adds its line to the prefix, cut to 8191 bytes whatever the three appends cut |
| TurnContext.Turn.HandleVerbatim | src/turn_context.c:764-775 | A frame of another kind replaces the output by the notices and its bytes, cut to the buffer |
| TurnContext.Turn.HandleTool | src/turn_context.c:655-706 | One reply with the turn's id: denied, malformed or the runner's result |
| TurnContext.Turn.HandleFinal | src/turn_context.c:711-734 | The output becomes the notices and the response text, cut to the buffer, whatever was in it before; the text is streamed in chunks of at most 4096 bytes |
| TurnContext.Turn.SaveSession | src/turn_context.c:742-757 | After a response, if the session's state is known and to be saved: the save_state frame, then one read for its ack, which is complained about if it is too big |
| TurnContext.Engine.Cancel | src/bridge_core.c:464-478 | Idempotent: only the first call writes a frame |
| TurnContext.Engine.SendError | src/bridge_core.c:816-835 | One error frame without an id if there is a descriptor to write to, else nothing |
| TurnContext.Engine.ReadFrame | src/bridge_core.c:381-397 | A frame that is too big counts as none and is complained about in an error frame |
| TurnLaws.EventEndsTurn | src/turn_context.c:548-759 | By the parsed event alone: a running turn below its event limit and without a DELETE that hears a frame without an id or with its own finishes exactly on a response, with its text; fails exactly on an error event, with its message or the stock one; ends on a cancel notice; ends on a tool intent exactly if 64 were heard before; and goes on otherwise. A frame with another id ends it exactly if it is not a lifecycle frame |
| TurnLaws.EventAddsOutput | src/turn_context.c:580-775 | By the parsed event: a text delta is appended to the output; a lifecycle frame, an ack and an unknown frame that is neither an event nor a thinking ping replace it behind the notices; nothing else touches it |
| TurnLaws.EventAdds | src/turn_context.c:580-709 | By the parsed event: a non-empty text delta is one delta, a tool intent one tool call, a compaction one notice line with its message or the stock one, and nothing else adds to the deltas, the calls or the notices |
| TurnLaws.ForeignAddsNothing | src/turn_context.c:556-572 | A frame with another id adds nothing to the output, the deltas, the calls or the notices |
| TurnLaws.CancelledIffDelete | src/turn_context.c:410-501 | By verb and path: a running turn below its event limit is cancelled at a poll exactly if it has a control plane and a request waiting there is DELETE /v1/responses/... |
| TurnLaws.AnswersByRequestLine | src/turn_context.c:403-437 | By verb and path: GET /v1/models gets the models, POST /v1/responses a conflict, DELETE /v1/responses/... the cancellation, a request that cannot be read nothing, and every other request not found |
| TurnLaws.RepliesByCall | src/turn_context.c:659-689 | By name and arguments: shell is denied; google_search, browse_url and shell_command run exactly if their arguments are the object with the field query, url or command; every other named tool runs on any non-empty arguments |
| TurnLaws.AckDecides | src/turn_context.c:278-344 | Of the first five reads, the first that is not a frame to pass over decides: the turn begins exactly on an ack that mentions its id and has status accepted; otherwise the message and the error frames are those of a timeout, a busy agent, an unknown status or another frame |
| TurnLaws.AckExhausted | src/turn_context.c:345-350 | Five frames to pass over use up the tries |
| TurnLaws.PatienceIs | src/turn_context.c:472-490 | A timeout is the configured time, or 60 s, in polls of 100 ms with a control plane and of 2 s without, rounded up |
| TurnLaws.OutputOfEnding | src/turn_context.c:495-760 | What each ending leaves in the output buffer |
| TurnLaws.FramesOfEnding | src/turn_context.c:513-757 | What each ending itself writes to the agent |
| TurnLaws.LastEvent | src/server.c:1262-1298 | The last event of a request, with its number: completed with the text that fitted, with max_turn_events if the event limit was reached; failed with cancelled if a DELETE was answered; an error with the output or the stock text otherwise |
| TurnLaws.CompletesIffResponse | src/server.c:1258-1298 | The stream ends in response.completed exactly if the turn reached its event limit, or the last frame it heard, with no DELETE waiting, is a response without an id or with the turn's own |
| TurnTrace.TurnEnds | src/turn_context.c:478-526 | Every trace has a poll that ends the turn |
| TurnTrace.TurnIsBounded | src/turn_context.c:478-526 | At most (max_events + L) * Patience iterations, where L counts the foreign lifecycle frames and Patience the silent polls that use up the timeout: tighter than (max_events + L + 1) * Patience |
| TurnTrace.SlicesIsCeiling | src/turn_context.c:480-485 | Patience is the response timeout over the poll interval, rounded up |
| TurnTrace.TimesOutOnlyAfterSilence | src/turn_context.c:502-526 | A running turn below its event limit and without a DELETE times out at a poll exactly when that poll and the Patience - 1 before it brought no frame |
| TurnTrace.CallsAreBounded | src/turn_context.c:644-651 | At most 64 tool intents are handled in a turn |
| TurnTrace.PollsPerFrame | src/turn_context.c:502-528 | A running turn has heard at least one frame for every Patience polls, the current silence aside |
| TurnTrace.PassesIffPrefix | src/turn_context.c:557 | The id is matched as a substring: a frame whose bytes mention only the id of turn m passes for one of turn n exactly when the decimal digits of n begin those of m |
| TurnTrace.LongerIdPasses | src/turn_context.c:557 | So a delta of turn req-12 passes for one of turn req-1 |
| TurnTrace.WrittenIsSorted | src/turn_context.c:502-706 | Of what the loop writes for its reads, the frames with the turn's id are one reply for each tool intent heard, in order, and the others one error frame for each frame that was too big |
| ResponseTurn.Serve | src/server.c:1229-1298 | The events on the wire are created, item, part, the deltas in order and one tail, completed, failed(cancelled) or error, a function of the course the turn took; the frames to the agent, error frames included, the answers and the output buffer likewise; the flags are down afterwards |
| ResponseTurn.StreamIsLegal | src/server.c:1241-1298 | Read by a lifecycle automaton, the wire of every turn is a legal life that has ended, and its events are numbered 0, 1, 2 without a gap |
| ResponseTurn.EndedIff | src/responses_stream_state.c:292-317 | A life is legal and has ended exactly if it is the three opening events, any number of deltas, and the four closing events in order, or a failure or an error alone |
| ResponseTurn.OneTerminal | src/responses_stream_state.c:260-317 | In a legal life that has ended there is one terminal event and it is the last |
| ResponseTurn.CourseIsUnique | src/server.c:1258-1263 | The course, hence the stream, is a function of what was read |
| ResponseTurn.DeleteEndsTheTurn | src/turn_context.c:492-501 | No frame is read after a DELETE is answered, and the turn does not go on past the poll that took it |
| ResponseTurn.FailedMeansCancelled | src/server.c:1262-1291 | The stream ends in response.failed exactly when a DELETE was answered during the turn, and then the turn did not succeed |
| ResponseTurn.FramesAreOwn | src/turn_context.c:269-786 | The frames to the agent with an id, all the turn's own, are exactly the request, one reply for each of at most 64 handled tool intents in order, each naming its tool, and at most one cancel; the frames without an id are exactly, in order, the error frames of the ack phase, one for each frame that was too big, and what the ending adds: an error frame for a timeout or a foreign frame, or the request to save the session after a response |
| ResponseTurn.TextIsConserved | src/server.c:1277-1287 | The text of the completed events is the concatenation of all deltas exactly when that is shorter than 131072 bytes; the response text comes on top of the deltas before it |
| ResponseTurn.CompletedTextIsResponseIff | src/turn_context.c:580-591 | When everything fits, a finished turn completes with the text of its response exactly when no text was streamed before it |
| ResponseTurn.RepeatedAnswer | src/turn_context.c:580-591 | So an agent that streams its answer and repeats it in the response is heard twice on the stream and once in the output buffer |
| ResponsesStream.Stream.EmitTextDelta | src/responses_stream_state.c:135-156 | One delta event, and the part's text grows by it unless that would fill 131072 bytes; refused without an open text part |
| ResponsesStream.Stream.StartPart | src/responses_stream_state.c:112-133 | A fresh part at the end of the current item, or nothing without an item or with sixteen parts |
| ResponsesStream.Stream.RunText | src/responses_stream_state.c:351-379 | A known text streams as the whole legal script, chunk by chunk, ending with the text that fitted |
| ResponsesStream.Stream.EmitMore | src/turn_context.c:722-734 | A text in chunks extends what was streamed by exactly its chunks |
| ResponsesStream.Stream.CloseText | src/server.c:1284-1287 | The four closing events carry the accumulated text, consecutive numbers and the incomplete details |
| ResponsesStream.FitIsConcatIff | src/responses_stream_state.c:149-154 | What a part accumulates is everything sent exactly when that is shorter than the buffer |
| ResponsesStream.FitKeepsWhatFits | src/responses_stream_state.c:149-154 | In general it is the concatenation of the deltas at increasing positions, a delta being among them exactly if it fitted at its time |
| ResponsesStream.ChunksCoverText | src/responses_stream_state.c:360-372 | The chunks of a text are non-empty, at most the chunk size and concatenate to it |
| ResponsesStream.RunTextIsFaithfulIff | src/responses_stream_state.c:351-379 | The last event holds the whole text exactly when it is shorter than 131072 bytes |
| Heartbeat.SafeIffAsleep | src/bridge_core.c:1101-1151 | Over all interleavings no ping is sent and no frame taken by the heartbeat before the turn's last read, exactly when the heartbeat is in its sleep loop, or about to test the flag, as the turn sets turn_active; and exactly then it never takes a frame that arrived after the turn's request was written |
| Heartbeat.GuardedStep | src/bridge_core.c:1122-1126 | Every step of either thread, the steps of a mid-turn DELETE included, keeps the frames of a turn safe |
| Heartbeat.Theft | src/bridge_core.c:1076-1112 | From any other state there is a run in which the turn writes its request, the heartbeat takes the first frame that arrives after it, and the turn reads the second |
| Heartbeat.FramesInOrder | src/bridge_core.c:381-397 | Over every run both threads together consume each frame once, in the order of arrival |
| Heartbeat.OneCancelFrame | src/bridge_core.c:464-478 | At most one cancel frame a turn, however many DELETEs arrive, and by the end one exactly if a DELETE did |
| Heartbeat.DeleteIsLast | src/turn_context.c:410-501 | The turn reads no frame after it took a DELETE, over every run |
| Heartbeat.EveryTurnRuns | src/turn_context.c:486-545 | Every course of a turn is a run: any number of frames read before the request, before the ack and in the loop, then any number of DELETEs, in the loop or in the last look after a timeout, or none and any number of frames read while the session is saved; its history is exactly that, and it ends closed |
| Heartbeat.EveryRun | src/server.c:1234-1265 | These invariants hold over every run of a turn from its start |
| NativeFrame.Relay | src/native_frame.c:105-221 | Payloads whose frame_write calls all report success come back from blocking reads unchanged and in order, for every split into partial reads and writes and any interruptions |
| NativeFrame.FramesRoundTrip | src/native_frame.c:105-221 | The frames of any payloads of at most 16 MiB spell those payloads, in order, whatever follows |
| NativeFrame.FrameRoundTrip | src/native_frame.c:134-140 | A payload below 2^32 bytes comes back exactly when it is at most 16 MiB |
| NativeFrame.FrameOnWire | src/native_frame.c:206-213 | Byte i of the four header bytes on the wire is the length divided by 256^i, modulo 256, and the payload follows byte by byte |
| NativeFrame.HeaderBytes | src/native_frame.c:206-210 | The bytes of a length in memory are its digits to the base 256, the lowest first |
| NativeFrame.LengthIsSum | src/native_frame.c:105-110 | The length read off four bytes is their sum with the weights 1, 256, 65536 and 16777216 |
| NativeFrame.FirstFrameIsStable | src/native_frame.c:105-200 | The verdict on a complete frame does not depend on what arrives after it |
| NativeFrame.ReadAll | src/native_frame.c:17-32 | The bytes asked for, or all there are before the end, in order, however read() splits them |
| NativeFrame.ReadAllDeadline | src/native_frame.c:41-96 | Bytes in order, short only at the end of the stream or out of time; at most ceil(d/10) data reads for a deadline d; nothing consumed if nothing is there at once |
| NativeFrame.FrameRead | src/native_frame.c:105-200 | A blocking read is a function of the bytes alone: payload, empty frame, read_error, truncated_header, payload_too_large or truncated_payload; a frame read under a deadline is the same frame and consumes the same bytes |
| NativeFrame.FrameWrite | src/native_frame.c:203-221 | Succeeds exactly if the length (as 32 bits) is within the limit and the one header write takes all four bytes; then the frame is written, and in any case only a prefix of it |
| NativeFrame.SplitHeaderIsRefused | src/native_frame.c:209-211 | A header write that takes two bytes makes frame_write fail with two bytes on the wire |
| RequestFrame.BuildRequest | src/native_frame.c:264-351 | For every input and history length the envelope is complete: the buffer end is never reached |
| EnvelopeLaws.EnvelopeIs | src/native_frame.c:264-351 | The request envelope letter by letter, from its first byte to its last |
| RequestFrame.InputFieldDecodes | src/native_frame.c:280-289 | The input field decodes to the input without its bytes below 0x20 other than newline |
| RequestFrame.EscapeInput | src/native_frame.c:280-289 | The escaping loop writes the escape of the beginning of the input, stopping only where six bytes are no longer free, and never past five bytes before the end |
| ToolFrames.BuildToolResult | src/native_frame.c:397-420 | A result frame is whole exactly below 4096 bytes, cut short up to 4098, and beyond that its last part is written behind the buffer |
| ToolFrames.BuildToolError | src/native_frame.c:423-450 | An error frame is whole for every id, tool name and message; only the message is ever cut, between characters, and never up to 1500 bytes |
| EnvelopeLaws.ResultFrameIs | src/native_frame.c:408-419 | The result frame letter by letter |
| EnvelopeLaws.ErrorFrameIs | src/native_frame.c:434-449 | The error frame letter by letter |
| ToolFrames.Answer | src/turn_context.c:659-697 | The frame that answers a tool intent: an error frame is always whole, a result frame exactly when the escaped id, the escaped name and the result come to fewer than 4037 bytes, and from 4040 bytes on the buffer is overrun |
| JsonText.EscapeRoundTrip | src/json_utils.c:114-145 | Decoding a quoted json_escape(s) gives s back and stops after the closing quote, exactly when the decoder's buffer has the length of s + 2 bytes |
| JsonText.DecodeOfPrinted | src/server.c:690-754 | Every string literal of section 7 of RFC 8259 decodes to what it stands for (code units one by one) exactly when it fits with a byte to spare |
| JsonText.JsonEscape | src/json_utils.c:114-145 | The buffer holds the escape of a prefix, never part of an escape, and a NUL |
| JsonText.EscapeCoversAll | src/json_utils.c:114-145 | The whole of s is covered exactly when the escape of all but its last byte leaves more than eight bytes; in particular from escaped length + 8 on |
| JsonLaws.EscapeOf | src/json_utils.c:121-136 | How each byte is written: the seven short escapes, and itself from 0x20 on |
| JsonLaws.ControlEscapeOf | src/json_utils.c:129-132 | The other control characters are code units of four lower-case digits |
| JsonLaws.Utf8Is | src/server.c:690-754 | A code unit decodes to the one, two or three bytes of UTF-8 whose bits make it up |
| JsonLaws.HexCodeIsSum | src/server.c:690-754 | The four digits of a code unit are read with the weights 4096, 256, 16 and 1 |
| JsonLaws.ShortCodeUnit | src/server.c:690-754 | A code unit cut short by another byte decodes to a question mark, and decoding goes on at that byte |
| JsonLaws.SeparatorsAreSkipped | src/server.c:690-754 | Behind the closing quote blanks, commas and colons are passed, and nothing else |
| JsonText.DecodeLocal | src/server.c:690-754 | The decoding loop leaves the decoded text and a NUL, and the position after the literal if it reached the closing quote |
| BalancedJson.ExtractOfPrinted | src/server.c:652-688 | A printed object or array comes back whole, whatever its nesting and its strings hold and whatever follows, exactly when the buffer is longer than it; otherwise a prefix comes back, with success |
| BalancedJson.ExtractBalanced | src/server.c:652-688 | The scanning loop leaves the bytes up to the closing bracket, or what fits, and a NUL |
| HttpBodies.ReceiveSized | src/server.c:423-470 | A Content-Length request of total size within max_request_size and 16 MiB is never refused and yields its exact body for every split into reads and whatever follows, exactly when its head ends within the first MiB |
| HttpBodies.Receive | src/server.c:423-470 | Reading and taking out the body computes the function the results above are about |
| HttpBodies.SizedBody | src/server.c:308-329 | The body taken from any buffer at which reading may stop is the declared one |
| HttpBodies.ReceiveChunked | src/server.c:224-306 | Chunks of non-empty data whose coding first contains CRLF 0 CRLF at its last-chunk line and has at most 1 MiB come back concatenated, for every split into reads and whatever follows, unless they exceed max_request_size |
| HttpBodies.ReceivedForEveryPaceIff | src/server.c:345-362 | A chunked request within the first MiB and max_request_size gives exactly its data for every split into reads, if and only if its coding first contains CRLF 0 CRLF at its last-chunk line |
| HttpBodies.StopsInLastLine | src/server.c:345-362 | Otherwise a first read that ends inside the last-chunk line ends reading there, and the request has no body |
| HttpBodies.DecodeOfEncoding | src/server.c:243-300 | Decoding undoes the chunked coding of section 7.1 of RFC 9112, sizes in either case and chunk extensions included, whatever follows the last-chunk line |
| HttpBodies.StuckIffHuge | src/server.c:274-284 | Behind any well-formed chunks, a size line that needs a larger buffer leaves the decoder in its growth loop for ever exactly when the decoded bytes and the declared size, at most LONG_MAX, exceed 2^63; else the chunk is taken as far as it is there |
| HttpBodies.StuckForEveryPaceIff | src/server.c:274-284 | A request with such a size line is never done for any split into reads, if and only if CRLF 0 CRLF does not occur up to the end of that line; otherwise a first read that ends inside the line leaves no body |
| HttpBodies.DataCanEndReading | src/server.c:345-362 | Chunk data that contains CRLF 0 CRLF: a first read that ends right behind it ends reading, and the body received is the data up to there |
| HttpBodies.CompleteIffChunks | src/server.c:345-362 | The whole of a chunked request is recognised as complete exactly when it has a chunk; an empty body never is |
| HttpBodies.LinesMakeAHead | src/server.c:163-184 | Non-blank lines joined by CRLF are a head, and lookup finds the first line of a name |
| HeadLaws.IsFieldIff | src/server.c:163-184 | A line is a field of a name exactly if it begins with the name, each letter in either case, and a colon |
| HeadLaws.MentionsChunkedIff | src/server.c:332-342 | A value mentions chunked exactly if seven of its bytes in a row spell it, each letter in either case |
| HeadLaws.ChunkedHeadIff | src/server.c:332-342 | A head made of lines declares the chunked coding exactly if its first Transfer-Encoding line, in any spelling, says chunked, in any spelling, behind its colon |
| HeadLaws.SizedHeadOf | src/server.c:367-408 | It declares n bytes if it is not chunked and its first Content-Length line, in any spelling, has the decimal of n, at most LONG_MAX, between blanks behind its colon |
| HeadLaws.SizedRequestArrives | src/server.c:423-470 | So the body of a request with such lines arrives exactly, for every split into reads and whatever follows |
| HeadLaws.ChunkedRequestArrives | src/server.c:224-306 | And so do the chunks of a request with a chunked line, under the condition of ReceiveChunked |
| SizeLaws.DecimalIs | src/native_frame.c:327 | What %d prints is a minus sign exactly for a negative number, and then digits whose value is how far it is from 0 |
| SizeLaws.HexValueIs | src/server.c:267 | A number printed in hexadecimal, each digit in either case, is read back |
| SizeLaws.StrtolReads | src/server.c:259-268 | White space, a sign and a number with or without 0x, up to the first byte that is no digit, are read as the number with its sign or the nearest long |
| SizeLaws.SizedChunk | src/server.c:243-300 | A chunk whose size is the length of its data in hexadecimal of any case is one the results on chunked bodies are about |
| HttpRequest.ReadRequest | src/server.c:423-470 | The outcome is a function of the stream and the pace of its reads; a request that comes back is a prefix of the stream at which there is enough, or the stream ended, or the buffer is full; the buffer grows only for a head within the first MiB; it fails only on a read fault and refuses only what exceeds max_req |
| HttpRequest.ReadStops | src/server.c:423-470 | The same for every state of the reading loop, every rest of the stream and every pace |
| HttpRequest.GrownCap | src/server.c:448-453 | The grown capacity holds the request or is 16 MiB |
| HttpRequest.ReadBody | src/server.c:224-330 | The body by the coding the head declares |
| HttpRequest.ReadSizeLine | src/server.c:244-265 | Moving byte by byte to the first CR or LF finds the size line, and what follows is behind CR LF or behind a CR alone, or missing when the line ends otherwise or at the end |
| HttpRequest.DecodeChunks | src/server.c:243-304 | The decoding loop, the growth of its buffer included, computes the chunk by chunk specification, and what is copied of a request of at most 16 MiB always fits the buffer |
| DecodeBuffer.GrowthEndsIff | src/server.c:276-284 | Doubling a 64-bit capacity reaches what is needed exactly when that is at most 2^63 |
| DecodeBuffer.Grow | src/server.c:276-284 | Where the loop ends, the new capacity holds what is needed or is 16 MiB |
| HttpRequest.ExpectedLength | src/server.c:393-408 | Head and declared length, or 0 while the head is incomplete or for the chunked coding |
| HttpRequest.FindLastChunk | src/server.c:355-361 | The backward search finds CRLF 0 CRLF exactly if it occurs |
| HttpHead.ParseContentLength | src/server.c:367-391 | The decimal value if it is at most LONG_MAX and the field is digits between blanks, -1 otherwise; no intermediate value leaves the type long |
| HttpHead.PrintedLengthIff | src/server.c:367-391 | A printed length is read back exactly when it is at most LONG_MAX |
| HttpHead.FindHeaderValue | src/server.c:163-184 | The line by line search gives the value of the first field of that name, case aside |
| HttpHead.FindInLines | src/server.c:163-184 | On a head given by its lines the search is the first matching line |
| HttpHead.IsChunkedRequest | src/server.c:332-342 | True exactly if the Transfer-Encoding value mentions chunked, case aside |
| ToolArgs.AcceptedIffLayout | src/tool_policy.c:44-62 | Exactly the one-field objects are accepted whose key is the field and whose value is a non-empty string that fits, of plain bytes and the eight simple escapes; the value is what the string stands for |
| ToolArgs.PolicyAndRunnerAgree | src/tool_runner.c:104-121 | Whatever the policy accepts for shell_command, in its buffer of 2048 bytes, comes out of the same walk with the runner's buffer as the same value; the two copies of the walk, alike but for the buffer, are one method here |
| ToolArgs.PrintedArgsRoundTrip | src/tool_policy.c:11-62 | Printing an object with json_escape and parsing it is the identity exactly for the values without \u escapes that fit |
| ToolArgs.FitsIffShort | src/tool_policy.c:19-37 | A value fits exactly if it is shorter than the buffer, or one byte shorter still when it ends in an escape |
| ToolArgs.StrictIffNoHex | src/tool_policy.c:22-35 | Which values json_escape prints without a \u escape |
| ToolArgs.ArgsValid | src/tool_policy.c:82-88 | Accepts exactly the valid argument objects of the three checked tools and any text for the others |
| ToolArgs.DecodeStringValue | src/tool_policy.c:11-42 | The decoding loop accepts and decodes as specified |
| ToolArgs.ShellPayload | src/tool_runner.c:169-178 | The payload is the decoded command, or empty |
| RingBuffer.Ring.Append | src/ring_buffer.c:4-14 | The unread bytes become the newest capacity-1 of the unread and the appended; every byte is read, dropped or unread, with wrapping 64-bit indices |
| RingBuffer.Ring.Read | src/ring_buffer.c:16-27 | The oldest unread bytes in order, as many as fit with a NUL |
| RingBuffer.NewestOfNewest | src/ring_buffer.c:4-14 | Splitting an append does not matter |
| RingBuffer.WrapKeepsSlotsIffDivides | src/ring_buffer.c:4-31 | A wrapping 64-bit index moves on by one slot at every step exactly when the capacity divides 2^64, as 131072 does |
| ToolHistory.History.Append | src/tool_history.c:41-105 | Under any limits, stored entries are the newest recorded ones in order and stored + dropped is all recorded; the raw text is the last 2047 bytes since the last oversize line |
| ToolHistory.History.AppendRaw | src/tool_history.c:41-63 | The raw text is the last 2047 bytes, or the first 2047 of an oversize line |
| HistoryLaws.LineIsRecorded | src/tool_history.c:67-104 | A line KIND tool args of at most 1023 bytes is recorded with the first 63 bytes of the tool and the first 255 of the arguments, as an error exactly if TOOL_ERROR occurs anywhere in it |
| HistoryLaws.LineWithoutArgs | src/tool_history.c:67-104 | The same without arguments |
| HistoryLaws.WordIsNotRecorded | src/tool_history.c:67-84 | A line without a space in its first 1023 bytes is not recorded |
| ToolHistory.History.BuildJson | src/tool_history.c:109-155 | The view holds the newest entries in order, as many as find room |
| HistoryLaws.FieldStandsForItself | src/tool_history.c:126-143 | A tool name or arguments short enough for their buffer are shown as JSON string text that stands for them |
| HistoryLaws.EntryIsShown | src/tool_history.c:144-150 | The text of an entry, letter by letter |
| HistoryLaws.HeaderIs | src/tool_history.c:117-125 | The text in front of the entries, with the number dropped if there is one |
| ToolHistory.History.ViewConserves | src/tool_history.c:109-155 | The view's dropped + shown is all recorded exactly when, before the call, its last entry has room behind the header and the entries in front of it; always so while the store respects the limit or the limit is at least four |
| ToolHistory.LoweredLimitHidesEntries | src/tool_history.c:109-155 | A history of twelve long entries whose limit is lowered to one by a line that is not stored: the view shows fewer than twelve and reports none as dropped. tool_history_append accepts such a line, one without a space; its callers in src/turn_context.c pass lines with spaces only |
| ToolHistory.TextSinceOfShortLines | src/tool_history.c:41-63 | Without oversize lines the text since the last one is all lines |
| ToolHistory.RawTextIsShortLinesIff | src/tool_history.c:41-63 | The raw text is the last 2047 bytes of the short lines exactly when there was no oversize line, or the part kept of the last one ends, as far as the lines after it leave room, like the short lines before it |
| ToolHistory.OversizeLineTakesOver | src/tool_history.c:41-63 | So an oversize line displaces a shorter one in front of it. tool_history_append accepts such a line; its callers in src/turn_context.c cut theirs to at most 1023 bytes |
| RequestText.Normalize | src/codex_request_parser.c:401-441 | All or nothing: request_input_too_large exactly when the rendered text exceeds the limit, otherwise the rendering |
| RequestLaws.RenderedIs | src/codex_request_parser.c:401-441 | The text begins with the instructions and a newline, the previous response id and the metadata on lines of their own, each exactly if it is there; a plain input follows as it is, items one after the other |
| RequestLaws.PiecesAre | src/codex_request_parser.c:271-349 | What each kind of item reads like, with its role, name, arguments, call id, output, url and data in place and the defaults user and unknown |
| RequestLaws.OneMoreItem | src/codex_request_parser.c:271-394 | Each further item stands on a line of its own, and an empty text adds nothing |
| RequestLaws.OutcomeIs | src/codex_request_parser.c:401-441 | Refused exactly above the limit, 8 MiB unless configured; an empty text is no request |
| RequestText.Owned.Append | src/codex_request_parser.c:26-57 | Fails exactly when the text would exceed the limit and then changes nothing |
| RequestText.Owned.GrownCapacity | src/codex_request_parser.c:37-46 | The growth loop ends with room for what is needed and at most max(1024, limit + 1) |
| RequestText.Owned.AppendItems | src/codex_request_parser.c:370-394 | Succeeds exactly if the fold of the item renderings fits the limit, and then equals it |
| RequestText.ItemsStandOnLines | src/codex_request_parser.c:271-349 | Each item that is not blank stands whole in the text, in order, at the start of a line |
| ManagedConfig.RemoveAllManagedSections | src/config_manager.c:1191-1228 | The loop computes the text without its sections |
| ManagedConfig.StrippedHasNoBeginIff | src/config_manager.c:1191-1228 | Of every text: cleaning leaves no begin marker exactly when no section is taken out where the user text in front ends in the first bytes of a begin marker and the text behind goes on with the others, and no begin marker without an end is left |
| ManagedConfig.StrippedHasNoBegin | src/config_manager.c:1191-1228 | So none is left when every begin marker starts a line and has an end after it |
| ManagedConfig.EveryTextIsLaidOut | src/config_manager.c:1191-1228 | Every text splits into user text and sections with the line breaks after them, and a rest in which no section is closed; what cleaning keeps is the user text and the rest, byte for byte |
| ManagedConfig.StrippedKeepsUserText | src/config_manager.c:1191-1228 | Of any text cut into user text and sections, wherever in a line they begin, exactly the user text is kept |
| ManagedConfig.SeamCanMakeABegin | src/config_manager.c:1191-1228 | Each begin marker, cut in two anywhere by a section of either generation, comes together again |
| ConfigEdits.Install | src/config_manager.c:1362-1448 | The file written is the cleaned text, ended by a newline, and the fresh block |
| ConfigEdits.InstallTwice | src/config_manager.c:1362-1448 | For every file: install(install(x)) = install(x) exactly when the cleaned text, ended by a newline, holds no begin marker; then the block's is the only one |
| ConfigEdits.InstallTwiceIff | src/config_manager.c:1362-1448 | That is, exactly when no begin marker comes together at a seam or stays open, and the user text does not end in one that lacks its newline |
| ConfigEdits.InstallSettles | src/config_manager.c:1362-1448 | For every file, installing again and again settles, after at most its length and two installations, on a file whose one begin marker is the block's |
| ConfigEdits.DisableUndoesInstall | src/config_manager.c:1519-1561 | disable(install(x)) = x for non-empty x without markers exactly when x ends in a newline and holds no displaced-section header |
| ConfigEdits.FreshInstallIsDeleted | src/config_manager.c:1563-1567 | A file that held only the block is deleted |
| ConfigEdits.InstallKeepsUserText | src/config_manager.c:1362-1448 | Installing replaces any number of sections of either generation, wherever in a line they begin, and keeps the user's text |
| ConfigEdits.DisableKeepsUserText | src/config_manager.c:1519-1561 | Disabling leaves exactly the user's text if and only if no section in front of the block is restored |
| ConfigEdits.DisableTouchesIff | src/config_manager.c:1487-1502 | For every text, cut into user text, sections and a rest: disabling changes something exactly when some section begins with the current marker or holds it inside, or the rest does |
| ConfigEdits.LegacyBlockStays | src/config_manager.c:1498-1502 | So any number of sections of the previous generation stay, although removing the sections would take them out |
| ConfigEdits.Disable | src/config_manager.c:1487-1575 | The file after disabling: unchanged without the current marker, deleted if nothing is left |
| ConfigEdits.ExtractDisplaced | src/config_manager.c:1237-1312 | The model section and the provider section, each from the start of its line to the next table |
| ConfigEdits.NextTableIs | src/config_manager.c:1237-1312 | A section ends at the first bracket behind a newline after its header, or at the end of the text |
| ConfigEdits.NothingDisplaced | src/config_manager.c:1237-1312 | Nothing is displaced exactly when none of the four headers occurs |
| TurnTrace.OutputAppendsDeltas | src/turn_context.c:580-591 | Over frames none of which is copied verbatim, the output buffer grows by the concatenation of the text deltas, in order, as far as the buffer goes |
| ResponsesStream.Stream.StartItem | src/responses_stream_state.c:91-110 | A fresh item becomes the current one, at most sixteen of them |
| ResponseTurn.EndStream | src/server.c:1277-1298 | The tail that belongs to the outcome of the turn, on the state it left |
| HttpBodies.NeverRefused | src/server.c:441-447 | A request that fits max_request_size is refused at no prefix |
| ToolArgs.ExtractObjectStringField | src/tool_runner.c:104-121 | The runner's walk accepts and decodes as specified |
| ToolArgs.ArgsExactObjectField | src/tool_policy.c:44-62 | The policy's walk accepts as specified, with a 2048-byte buffer; the policy's and the runner's copy of the walk are one method here |
| RingBuffer.Ring.AppendByte | src/ring_buffer.c:6-13 | One byte: the oldest is dropped, and counted, exactly when the ring is full |
| NativeFrame.WritePayload | src/native_frame.c:213-221 | The payload is written whole, whatever partial writes and interruptions |
| HttpRequest.ChunkedBodyComplete | src/server.c:345-362 | Whether CRLF 0 CRLF occurs after the head |
| ManagedConfig.NoBeginAcross | src/config_manager.c:1191-1228 | Texts of whole lines without begin markers stay without one when joined |
| ConfigEdits.StripInstalled | src/config_manager.c:1431-1448 | Stripping right after an installation gives back the text in front of the block |

## Left out

- TurnContext.Turn.ProcessEvents: models a streaming turn; without a stream the same loop runs and no delta is sent. Heartbeat comments to the client, traces and metrics are not events and are not modelled. Whether there is a session state to save after a response, and under which key, is part of the environment.
- TurnContext.Turn.HandleTool: the reply is the record of id, tool and text that is asked for; what the 4096-byte builder makes of it is in ToolFrames.Answer and not carried through the turn. The tool's execution and the history line it appends are not modelled.
- TurnContext.Engine.SendError: the frame is its type; the JSON text and the detail are not modelled.
- TurnContext.Turn.AwaitAck: the number in the busy message is part of the parsed ack.
- ResponseTurn.Serve: whether turn_begin succeeds is an input; session loading, with the frames and error frames it may write before the turn's request, and the text of the request frame are not part of it (the envelope is in RequestFrame).
- ResponseTurn.FramesAreOwn: the frames written by the turn; the pings and error frames of the heartbeat thread are in Heartbeat, as acts of that thread, or not modelled.
- ResponsesStream.Stream.EmitTextDelta: events are records of kind, text and number; the JSON text of an event and the limit of snprintf near 131072 bytes are not modelled. Reasoning and function-call deltas, which differ from it in the part type only, are left out.
- Heartbeat.SafeIffAsleep: the cancel descriptor is taken to be open; the deadline of a read and the retry budget of wait_pong are abstracted to a free choice, which allows more runs than the code.
- HttpBodies.ReceiveChunked: requires the coding to fit the first MiB, the capacity that is never grown for a chunked request.
- JsonText.DecodeLocal: a backslash as the last byte of the text ends decoding here; the code stores the NUL as the escaped byte, steps past it and reads on beyond the end of the text, which is not part of this model.
- NativeFrame.ReadAllDeadline: after a timeout that already consumed bytes no resynchronisation is claimed, since the code drops those bytes.
- RequestFrame.BuildRequest: the system and tools arguments are empty, as the only caller passes them.
- RequestText.Normalize: takes the parsed items; cJSON and the parsing of items are not modelled.
- ConfigEdits.Install: the catalog file, the backup file and messages are not modelled; the generated block enters as a text of whole lines between its markers.
- json_decode_string, which keeps \u escapes literally, and the json_extract functions on it.
- Turns of /compact, which never set turn_active; reconnection, session index, request schema validation, usage scanning, name tables and configuration range checks.
- src/json_builder.c: only flat objects come out right there; nothing here depends on it.
