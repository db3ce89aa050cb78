# Built On Envoy: a verified model

A Dafny model of the stateful and algorithmic core of Built On Envoy (the `boe` CLI, its web UI and its Envoy
extensions), with proofs of the properties that core exists for.

* **Streaming decoders.** The chat-completions and Anthropic decoders and the two `llm-proxy` parsers are one framing
  scheme (`sse_framing.dfy`) with four line machines. A `feed` may cut the byte stream anywhere. The proofs say when
  the cuts cannot be seen, what the decoded response is, and that a response sent as deltas comes back whole.
* **The `llm-proxy` filter**, as a class whose callbacks update counters, and the accounting over every legal callback
  sequence.
* **The guardrail chain**: prompts read out of a request and masked prompts put back, one callout per guardrail.
* **Concurrency**: the executor's slot, the gdb-remote accept loop with `stop`, and the fault filter's global counter,
  each a state machine over its atomic steps; the theorems hold in every interleaving.
* **Command lines**: the UI's argument list, the recorded extension positions, the sort, config generation, and the
  rewriting for Docker.
* **Algorithms**: ANSI to nested HTML spans, the backwards tail of a log, HTTP byte ranges in 64 bits, and Envoy
  version bounds with inheritance.

Conventions. A Go string or byte slice is a sequence of one-byte characters. Objects that Go updates in place are
classes whose methods are proved equal to a step function on a value (`View`, `St`); the theorems are about those
functions. What a function computes is stated beside it by a definition that does not use it: a relation over the raw
input, a reader of the output, or a condition on the events alone. Loops are methods proved against such a definition. Go's map iteration order is a parameter, so a
result stated without it does not depend on it. JSON, YAML and protobuf are records of functions; where a law of the
library is needed it is a named predicate (`Lawful`, `Quotes`). `filepath.Abs` is a partial function parameter.

Where the code does not have the expected property, the code is modelled as it is and the exact condition is proved:

* the Anthropic decoder and parser finish the current buffer after `message_stop`, so their result depends on the cuts
  exactly when a later line changes it;
* `ReplaceUserPrompts` drops every message that is not the user's, loses prompts whose content is an array, and fails
  when any message follows the last prompt;
* two different guardrails can share a deduplication key if an identifier contains `#`;
* a run replaced in the executor before its process exists goes on beside its replacement, and so does, until its own
  cancel, a run that has left the slot with its process alive (its output could not be read);
* `stop` of the gdb-remote server can wait for a session that nobody has cancelled, exactly when the session's cancel
  function is not yet published or withdrawn already; the second window closes by itself;
* a downloaded manifest whose directory is a given `--local` path takes that extension's slot, and an argument equal to
  `--local` or `--extension` shifts the positions;
* two local extensions with one base name share a mount point in Docker;
* version resolution misses conflicts outside 0.0.0 and 9999.9999.9999, and the implicit maximum wraps for the largest
  64-bit minor number;
* inheritance depends on map order exactly when a grandparent supplies a field that neither the grandchild nor the
  parent has;
* an over-long range end is answered 416 where section 14.1.2 of RFC 9110 clamps it, and the end 2^64 - 1 reads as
  "to the end";
* the trailer callback of `llm-proxy` says it parses the request "if it hasn't happened already" but does not check; it
  relies on Envoy never sending trailers after an end-of-stream body, and would otherwise count the request twice.

## Model

| member | source | states |
|---|---|---|
| `SseFraming.ChunkingIndependent` | extensions/composer/chat-completions-decoder/openai.go:195-224 | for every machine with one stop, every stream and every cutting: the state is the fold over the complete lines, and unless the machine has stopped the buffer is the unterminated rest |
| `SseFraming.ChunkingIndependentIff` | extensions/composer/anthropic-decoder/anthropic.go:242-272 | for a machine that only closes between feeds: what is observed is the same for every cutting if and only if no line after the closing one changes it |
| `SseFraming.IdealIsFoldToCut` | extensions/composer/anthropic-decoder/anthropic.go:242-272 | stopping right at the closing line is the fold up to it |
| `SseFraming.EveryCuttingEndsPastCut` | extensions/composer/anthropic-decoder/anthropic.go:242-272 | every cutting ends with the fold up to some line at or after the closing one |
| `SseFraming.SomeCuttingEndsAt` | extensions/composer/anthropic-decoder/anthropic.go:242-272 | and for each such line some cutting ends exactly there |
| `SseFraming.SilentIsQuiet` | extensions/composer/anthropic-decoder/anthropic.go:242-272 | if no line after the closing one announces an event that matters, nothing observed changes after it |
| `SseFraming.LinesOfUnlines` | extensions/composer/chat-completions-decoder/openai.go:204-224 | lines without newlines come back from their terminated concatenation |
| `SseFraming.DrainIsFold` | extensions/composer/chat-completions-decoder/openai.go:204-224 | draining the buffer is folding over its complete lines and keeping the rest |
| `ByteTrim.Trimmed` | extensions/composer/chat-completions-decoder/openai.go:212 | trimming a line takes nothing but spaces from its two ends, and all of them |
| `ChatDecoder.Accumulator.constructor` | extensions/composer/chat-completions-decoder/openai.go:183-191 | starts empty |
| `ChatDecoder.Accumulator.Feed` | extensions/composer/chat-completions-decoder/openai.go:195-201 | refines the framed machine's feed, including that a finished stream ignores data |
| `ChatDecoder.Accumulator.ParseEvents` | extensions/composer/chat-completions-decoder/openai.go:204-224 | refines the drain of the line machine |
| `ChatDecoder.Accumulator.ProcessChunk` | extensions/composer/chat-completions-decoder/openai.go:227-271 | one payload: undecodable ones change nothing, usage is replaced, choices are folded in order |
| `ChatDecoder.Accumulator.ProcessChoice` | extensions/composer/chat-completions-decoder/openai.go:238-270 | one choice delta: the maximum index, role, text and tool calls |
| `ChatDecoder.Accumulator.AddToolCalls` | extensions/composer/chat-completions-decoder/openai.go:252-269 | the loop over tool-call deltas refines the fold that creates a call on first sight and appends arguments |
| `ChatDecoder.OrderedCalls` | extensions/composer/chat-completions-decoder/openai.go:291-301 | the keys, collected in an order nothing is known about and then sorted, give the calls in increasing index order |
| `SortedKeys.CollectKeys` | extensions/composer/chat-completions-decoder/openai.go:293-296 | ranging over the map yields every key once, in any order |
| `SortedKeys.SortInts` | extensions/composer/chat-completions-decoder/openai.go:297 | the same keys in increasing order |
| `ChatDecoder.Accumulator.Finish` | extensions/composer/chat-completions-decoder/openai.go:274-314 | refines the assembly of all choices up to the largest index, whose contents `Reassembly` reads back |
| `ContentParts.ContentSays` | extensions/composer/chat-completions-decoder/openai.go:142-167 | the extracted text is what the content says: the value of a string, the non-empty texts of an array each on its own line, and nothing for anything else |
| `ChatReassembly.AssembledIsReference` | extensions/composer/chat-completions-decoder/openai.go:227-314 | for all deltas the response is the one read off choice by choice: contents and arguments are in-order concatenations, calls come in index order, unmentioned choices are empty |
| `ChatReassembly.InterleavingIsIrrelevant` | extensions/composer/chat-completions-decoder/openai.go:227-314 | two delta lists with the same deltas per choice give the same response |
| `ChatReassembly.Reassembly` | extensions/composer/chat-completions-decoder/openai.go:227-314 | a response whose choices say their texts in pieces, cut at any points and interleaved in any way, is restored: each choice's content is a JSON string of its whole text, or absent when that is empty, with its role and tool calls |
| `ChatReassembly.DecodingIgnoresCuts` | extensions/composer/chat-completions-decoder/openai.go:195-224 | the decoded response of every byte stream is the same for every cutting |
| `ChatReassembly.StreamRoundTrip` | extensions/composer/chat-completions-decoder/openai.go:195-314 | the same over bytes: sent as `data:` lines among undecodable, blank and other lines, with any spaces around them, cut anywhere by the network and followed by anything after the end marker, the response comes back whole with the last usage sent |
| `ChatReassembly.CallsRestored` | extensions/composer/chat-completions-decoder/openai.go:252-301 | tool calls cut into deltas are restored with ids, names, arguments and order |
| `ChatReassembly.ChunkFoldIsDeltaFold` | extensions/composer/chat-completions-decoder/openai.go:227-271 | how deltas are grouped into events does not matter, and the usage is the last one sent |
| `AnthropicDecoder.Accumulator.constructor` | extensions/composer/anthropic-decoder/anthropic.go:232-238 | starts empty |
| `AnthropicDecoder.Accumulator.Feed` | extensions/composer/anthropic-decoder/anthropic.go:242-248 | refines the framed machine's feed |
| `AnthropicDecoder.Accumulator.ParseEvents` | extensions/composer/anthropic-decoder/anthropic.go:251-272 | refines the drain, which does not stop at `message_stop` |
| `AnthropicDecoder.Accumulator.ProcessEvent` | extensions/composer/anthropic-decoder/anthropic.go:275-326 | one event, every kind and every decoding failure; a negative block index panics; what the events then add up to is `MessageRoundTrip` |
| `AnthropicDecoder.Accumulator.Finish` | extensions/composer/anthropic-decoder/anthropic.go:329-350 | writes the joined deltas into the blocks and returns the assembled response |
| `AnthropicDecoder.FinishTwice` | extensions/composer/anthropic-decoder/anthropic.go:329-350 | finishing again gives the same response although the first call wrote into the blocks |
| `AnthropicDecoder.DecodingIgnoresCutsIff` | extensions/composer/anthropic-decoder/anthropic.go:242-350 | the response is the same for every cutting if and only if no line after `message_stop` changes it |
| `AnthropicDecoder.QuietStreamIgnoresCuts` | extensions/composer/anthropic-decoder/anthropic.go:242-326 | it is when no effective event is announced after `message_stop`, even with a cut between an event line and its data line |
| `AnthropicBlocks.BlocksHoldTheirDeltas` | extensions/composer/anthropic-decoder/anthropic.go:275-350 | each announced text or tool_use block with a delta holds exactly its deltas in order; the parser panics if and only if a block is announced at a negative index |
| `AnthropicBlocks.UsageFollowsDeltas` | extensions/composer/anthropic-decoder/anthropic.go:275-326 | without a new start that brings a usage, only the output count moves, to the last one sent |
| `AnthropicBlocks.PanicsIffNegative` | extensions/composer/anthropic-decoder/anthropic.go:288-298 | panics exactly on a negative announced index |
| `AnthropicBlocks.LinesAreEvents` | extensions/composer/anthropic-decoder/anthropic.go:251-272 | for every way to read the lines as events, each data line named by the last event line before it and decoded as its name says, the fold over the lines is described by those events |
| `AnthropicBlocks.StreamDecodesToItsBlocks` | extensions/composer/anthropic-decoder/anthropic.go:242-350 | every cutting of a quiet stream decodes to the message its events describe: the role of the last start, its usage with the last output count, and each announced block with its deltas; or panics, exactly on a negative index |
| `AnthropicBlocks.DecodeSends` | extensions/composer/anthropic-decoder/anthropic.go:275-326 | an event decodes to what its name and payload send, and to nothing for an unknown name or a payload that does not decode |
| `AnthropicBlocks.MessageRoundTrip` | extensions/composer/anthropic-decoder/anthropic.go:242-350 | a message sent as named events, each an `event:` line, a `data:` line and a blank one, closed by `message_stop` and cut anywhere, decodes to the message those payloads describe |
| `AnthropicBlocks.LateEventDependsOnCuts` | extensions/composer/anthropic-decoder/anthropic.go:242-272 | for every decoder and every payload that decodes to a `message_start` with a role, a stream whose response depends on the cut after `message_stop` |
| `LlmParsers.Add32` | extensions/composer/llm-proxy/anthropic.go:119-125 | the 32-bit total is the true sum if and only if that is below 2^32 |
| `LlmParsers.GroupingIsIrrelevant` | extensions/composer/llm-proxy/plugin.go:336-368 | grouping chunks into body callbacks does not matter |
| `LlmParsers.OpenAiSSEParser.constructor` | extensions/composer/llm-proxy/openai.go:118-120 | starts empty |
| `LlmParsers.OpenAiSSEParser.Feed` | extensions/composer/llm-proxy/openai.go:122-128 | refines the framed machine's feed and reports its first error |
| `LlmParsers.OpenAiSSEParser.ParseEvents` | extensions/composer/llm-proxy/openai.go:130-155 | refines the drain, up to `[DONE]` or the first undecodable payload |
| `LlmParsers.OpenAiSSEParser.Finish` | extensions/composer/llm-proxy/openai.go:170-172 | returns the accumulated usage |
| `LlmParsers.OpenAiStreamVerdict` | extensions/composer/llm-proxy/openai.go:122-172 | for every cutting and grouping: an error if a payload before `[DONE]` does not decode, else the last usage that is not all zero |
| `LlmParsers.AnthropicSSEParser.constructor` | extensions/composer/llm-proxy/anthropic.go:146-148 | starts empty |
| `LlmParsers.AnthropicSSEParser.Feed` | extensions/composer/llm-proxy/anthropic.go:150-156 | refines the framed machine's feed and reports its first error |
| `LlmParsers.AnthropicSSEParser.ParseEvents` | extensions/composer/llm-proxy/anthropic.go:158-179 | refines the drain |
| `LlmParsers.AnthropicSSEParser.ProcessEvent` | extensions/composer/llm-proxy/anthropic.go:181-199 | one event: a positive count replaces the previous one, `message_stop` closes, a bad usage payload fails |
| `LlmParsers.AnthropicSSEParser.Finish` | extensions/composer/llm-proxy/anthropic.go:201-207 | returns the two counts and their 32-bit sum |
| `LlmParsers.AnthropicVerdictIgnoresCutsIff` | extensions/composer/llm-proxy/anthropic.go:150-207 | the verdict is the same for every cutting if and only if no line after `message_stop` changes it |
| `LlmParsers.AnthropicStreamVerdict` | extensions/composer/llm-proxy/anthropic.go:98-207 | for every cutting and grouping of a quiet stream: an error if a usage payload does not decode, else the last positive counts and their sum |
| `LlmFilter.Filter.constructor` | extensions/composer/llm-proxy/plugin.go:185-195 | starts unmatched with nothing counted |
| `LlmFilter.Filter.Error` | extensions/composer/llm-proxy/plugin.go:384-399 | the counters an error bumps, once |
| `LlmFilter.Filter.ParseRequest` | extensions/composer/llm-proxy/plugin.go:401-474 | parses the request and counts it, or counts an error |
| `LlmFilter.Filter.ResponseSuccess` | extensions/composer/llm-proxy/plugin.go:419-449 | the three token counters are bumped together |
| `LlmFilter.Filter.ParseResponse` | extensions/composer/llm-proxy/plugin.go:478-494 | parses a whole response |
| `LlmFilter.Filter.OnRequestHeaders` | extensions/composer/llm-proxy/plugin.go:245-277 | refines the callback step |
| `LlmFilter.Filter.OnRequestBody` | extensions/composer/llm-proxy/plugin.go:279-290 | refines the callback step |
| `LlmFilter.Filter.OnRequestTrailers` | extensions/composer/llm-proxy/plugin.go:292-302 | refines the callback step |
| `LlmFilter.Filter.OnResponseHeaders` | extensions/composer/llm-proxy/plugin.go:304-334 | refines the callback step, including when a stream parser is created; `CountersFromCallbacks` says which headers are an error |
| `LlmFilter.Filter.FinishStreaming` | extensions/composer/llm-proxy/plugin.go:497-508 | the usage the parser's `Finish` returns, which is never an error, is counted; the parser is kept |
| `LlmFilter.Filter.OnResponseBody` | extensions/composer/llm-proxy/plugin.go:336-368 | refines the callback step: every chunk is fed until one fails |
| `LlmFilter.Filter.OnResponseTrailers` | extensions/composer/llm-proxy/plugin.go:370-382 | refines the callback step |
| `LlmLifecycle.StepKeepsInv` | extensions/composer/llm-proxy/plugin.go:245-508 | every legal callback keeps the accounting invariant |
| `LlmLifecycle.CountedOnce` | extensions/composer/llm-proxy/plugin.go:245-508 | over every legal callback sequence: the request is counted once if it was parsed or failed and never otherwise, at most one error, token counters bumped together at most once and never after an error; which callbacks do so is `CountersFromCallbacks` |
| `LlmAccounting.CountersFromCallbacks` | extensions/composer/llm-proxy/plugin.go:245-508 | over every legal callback sequence, from the callbacks alone: the whole log of counter calls; the error is counted if and only if a matched request or its response fails (no body, wrong content type, bad status, undecodable body or stream, empty model), and the request if and only if it failed or was read to its end |
| `LlmAccounting.TokensFromCallbacks` | extensions/composer/llm-proxy/plugin.go:336-508 | the token counters are bumped if and only if the response to a request that has not failed comes to its end, once, with that response's counts, API kind and model |
| `LlmLifecycle.TrailersAfterEndCountTwice` | extensions/composer/llm-proxy/plugin.go:279-302 | without Envoy's promise about trailers the request would be counted twice |
| `LlmLifecycle.OpenAiStreamCounts` | extensions/composer/llm-proxy/plugin.go:304-382 | an OpenAI stream adds exactly one verdict, read off the bytes alone, however it is chunked, grouped and ended |
| `LlmLifecycle.AnthropicStreamCounts` | extensions/composer/llm-proxy/plugin.go:304-382 | the same for an Anthropic stream that announces no usage after `message_stop` |
| `AnsiHtml.FindNext` | ui/executor.go:95-120 | the next position where the pattern matches, and none before it |
| `AnsiHtml.EmitMatch` | ui/executor.go:120-153 | the text before one sequence and its tags are what the reference rendering gives |
| `AnsiHtml.EmitCodes` | ui/executor.go:129-152 | the loop over codes refines the fold that opens spans and closes all on reset; what that means for the text is `EveryCharacterStyled` |
| `AnsiHtml.EmitCloses` | ui/executor.go:133-136 | as many closing tags as open spans |
| `AnsiHtml.Convert` | ui/executor.go:117-161 | the scan refines the reference rendering and closes what is open |
| `AnsiLaws.OutputLaws` | ui/executor.go:114-162 | for every text the spans are well nested, and erasing the tags leaves exactly the text without ANSI sequences, escaped; which spans surround a character is `EveryCharacterStyled` |
| `AnsiLaws.EscapeCommutesWithStrip` | ui/executor.go:95-120 | HTML escaping commutes with removing ANSI sequences |
| `AnsiLaws.RenderLaws` | ui/executor.go:117-161 | rendering any text keeps nesting depth and, with tags erased, strips the sequences |
| `AnsiStyles.MatchIsSequence` | ui/executor.go:95-96 | the pattern matches exactly where an escape, a bracket, digits and semicolons and an `m` stand, and to their end |
| `AnsiStyles.Tables` | ui/executor.go:98-111 | the class and colour tables, entry by entry |
| `AnsiStyles.EveryCharacterStyled` | ui/executor.go:114-162 | for every text, read as characters and control sequences: the output, read as HTML, shows exactly the characters, in order, each inside exactly the tags of the known codes given since the last reset before it |
| `AnsiStyles.AnsiToHtml` | ui/executor.go:114-162 | the converted text is well nested and styled so |
| `TailLogs.ReadAt` | cli/cmd/logs.go:124-127 | the buffer holds the chunk of the file |
| `TailLogs.ScanChunk` | cli/cmd/logs.go:128-135 | scanning one chunk backwards keeps the count of newlines still to be found, or finds the start |
| `TailLogs.PrintLastLines` | cli/cmd/logs.go:96-146 | for every file, n and chunk size: the last n lines, or the whole file for n not positive |
| `TailLogs.LastLinesAreTheLastLines` | cli/cmd/logs.go:91-146 | that is a suffix of the file with exactly min(n, total) lines, and they are the last ones |
| `TailLogs.LineCount` | cli/cmd/logs.go:105-113 | a file's lines are one more than its newlines before the scan end, so a final newline is no extra line |
| `ByteRange.Serve` | extensions/composer/file-server/plugin.go:250-311 | for every header: what it asks for is served, as a 206 with start < end <= size, the length and range headers of exactly those bytes and the bytes, as a 200 with the whole file, or refused with 416 |
| `ByteRange.ServeRange` | extensions/composer/file-server/plugin.go:250-311 | the branches of the handler give the answer by cases on the parsed range |
| `ByteRange.ParsesWhatIsAsked` | extensions/composer/file-server/plugin.go:144-169 | for every header: a single range with a number first is read as that number and past the last one, wrapping at 2^64 - 1, or as open without one; any other header asks for nothing |
| `ByteRange.ParsePrinted` | extensions/composer/file-server/plugin.go:144-169 | parsing a printed `bytes=a-b` gives a and b + 1 in 64-bit arithmetic |
| `ByteRange.ParsePrintedFrom` | extensions/composer/file-server/plugin.go:144-169 | parsing a printed `bytes=a-` gives a and an open end |
| `ByteRange.ClosedRange` | extensions/composer/file-server/plugin.go:144-311 | a closed range is served exactly when it lies inside the file, except that the end 2^64 - 1 means open |
| `ByteRange.OpenRange` | extensions/composer/file-server/plugin.go:144-311 | an open range is served exactly when it starts inside the file |
| `ExecutorSlot.Executor.constructor` | ui/executor.go:27-35 | the slot starts empty |
| `ExecutorSlot.Executor.Take` | ui/executor.go:199-205 | the critical section that registers a run and names the one to signal |
| `ExecutorSlot.Executor.Leave` | ui/executor.go:207-213 | the critical section that clears the slot only if it still names this run |
| `ExecutorSlot.Executor.Stop` | ui/executor.go:254-266 | signals the run in the slot and clears it, or reports that there is none |
| `ExecutorSlot.StepKeepsInv` | ui/executor.go:180-286 | every atomic step keeps the invariant |
| `ExecutorSlot.SlotNamesLatestRun` | ui/executor.go:199-266 | in every interleaving both slot fields are set or both empty and name the latest registered run, which has not ended; an untouched live run is outside the slot if and only if it was replaced before it started or is between leaving the slot and its cancel |
| `ExecutorSlot.SlotIsKept` | ui/executor.go:207-215 | an older run ending never clears a newer run's slot |
| `ExecutorSlot.SlotTakenIff` | ui/executor.go:199-266 | in every interleaving the slot is taken if and only if the latest run has neither left it nor been stopped |
| `ExecutorSlot.StopsWhatItNames` | ui/executor.go:180-266 | a stop cancels the run in the slot, signals it if its process exists and frees the slot; a client that goes away ends its own run and leaves the slot |
| `ExecutorSlot.ReplacedIsSignalledIff` | ui/executor.go:199-205 | a replaced run is signalled if and only if its process exists by then |
| `ExecutorSlot.AtMostOneLeftAlone` | ui/executor.go:199-286 | apart from runs replaced before they started and runs about to cancel themselves, at most one live run has not been told to end |
| `ExecutorSlot.ReplacedEarlyGoesOn` | ui/executor.go:199-286 | a concrete interleaving in which a run replaced early goes on |
| `ExecutorSlot.LeavingRunGoesOn` | ui/executor.go:207-240 | a concrete interleaving in which a run that has left the slot with its process alive runs beside the next one |
| `ExecutorSlot.LeavingRunIsCancelled` | ui/executor.go:207-215 | such a run cancels itself in its next step |
| `FaultCounter.Filter.OnRequestHeaders` | extensions/composer/dynamic-fault-injection/plugin.go:128-161 | a sampled request is counted once |
| `FaultCounter.Filter.StartRequest` | extensions/composer/dynamic-fault-injection/plugin.go:334-340 | counts at most once per filter |
| `FaultCounter.Filter.ReleaseRequest` | extensions/composer/dynamic-fault-injection/plugin.go:326-332 | gives back exactly what was counted |
| `FaultCounter.StepKeepsInv` | extensions/composer/dynamic-fault-injection/plugin.go:316-340 | every step of every stream keeps the invariant |
| `FaultCounter.CounterIsExact` | extensions/composer/dynamic-fault-injection/plugin.go:128-340 | in every interleaving the counter is never negative, equals the number of streams with a matched request and neither completion nor destruction since whenever no add is outstanding, and is zero once all are destroyed |
| `FaultCounter.CounterDrift` | extensions/composer/dynamic-fault-injection/plugin.go:326-340 | in between it is off by exactly the streams whose add is missing |
| `GdbRemote.StepKeepsServers` | cli/internal/envoy/debug_gdbremote.go:116-195 | every step keeps what is known of the debug servers |
| `GdbRemote.StepKeepsStop` | cli/internal/envoy/debug_gdbremote.go:245-255 | every step keeps what is known of `stop` |
| `GdbRemote.OneDebugServer` | cli/internal/envoy/debug_gdbremote.go:96-255 | in every interleaving at most one debug server is alive, a client is awaited only after all earlier ones have exited, and none is left when `stop` has returned |
| `GdbRemote.StoppedForGood` | cli/internal/envoy/debug_gdbremote.go:245-255 | after `stop` has returned nothing starts again |
| `GdbRemote.ServingEndsIff` | cli/internal/envoy/debug_gdbremote.go:116-195 | in every interleaving the serving loop has returned if and only if accepting failed, or a session ended that had proxied its client and found Envoy dead when its debug server exited |
| `GdbRemote.StopMissesIff` | cli/internal/envoy/debug_gdbremote.go:138-148 | `stop` leaves a session uncancelled if and only if nobody else has cancelled it and its cancel function is not yet published or withdrawn already |
| `GdbRemote.WithdrawnClosesItself` | cli/internal/envoy/debug_gdbremote.go:143-148 | the second window closes by itself: no debug server is alive in it and the next step cancels the session |
| `GdbRemote.StopWaitsUncancelledIff` | cli/internal/envoy/debug_gdbremote.go:138-255 | over every run: while `stop` waits a session is uncancelled if and only if it was in one of those two windows when `stop` looked and nothing has ended it since |
| `GdbRemote.StopCanWaitForClient` | cli/internal/envoy/debug_gdbremote.go:138-255 | that window exists, by a concrete interleaving |
| `GuardrailPrompts.ParseChatRequest` | extensions/composer/bedrock-guardrails/openai.go:22-36 | returns what each user message says, in order, and fails only when the body does not decode |
| `GuardrailPrompts.ReplaceUserPrompts` | extensions/composer/bedrock-guardrails/openai.go:40-84 | refines the replacement, including its error cases |
| `GuardrailPrompts.ReplaceSucceedsIff` | extensions/composer/bedrock-guardrails/openai.go:48-75 | the loop succeeds exactly when a prompt is left whenever a message is reached |
| `GuardrailPrompts.OnlyUsersRemain` | extensions/composer/bedrock-guardrails/openai.go:48-75 | on success the messages are exactly the user's, in order, each with its prompt |
| `GuardrailPrompts.ReplacedIff` | extensions/composer/bedrock-guardrails/openai.go:40-84 | the new body is the encoding of the request with its messages cut down to the user's, each with its prompt in place and everything else kept, if and only if the body decodes and a prompt is left whenever a message is reached |
| `GuardrailPrompts.ReplaceThenParseIff` | extensions/composer/bedrock-guardrails/openai.go:22-84 | reading back gives the prompts cut to the number of user messages if and only if each non-empty one went into a plain string content |
| `GuardrailPrompts.ArrayContentIsLost` | extensions/composer/bedrock-guardrails/openai.go:57-74 | a request with array content whose masked prompt reads back as nothing |
| `GuardrailChain.Dedup` | extensions/composer/bedrock-guardrails/plugin.go:195-206 | keeps the first guardrail of each key, in order |
| `GuardrailChain.DedupIsLosslessIff` | extensions/composer/bedrock-guardrails/plugin.go:195-206 | one guardrail per key, all of them configured; every configured guardrail is kept if and only if no two different ones share a key |
| `GuardrailChain.FirstsInOrder` | extensions/composer/bedrock-guardrails/plugin.go:195-206 | the kept guardrails keep their order |
| `GuardrailChain.KeyIsInjective` | extensions/composer/bedrock-guardrails/plugin.go:199 | keys tell guardrails apart when identifiers contain no separator |
| `GuardrailChain.KeysCanCollide` | extensions/composer/bedrock-guardrails/plugin.go:199 | and not otherwise |
| `GuardrailChain.Filter.constructor` | extensions/composer/bedrock-guardrails/plugin.go:139-148 | holds the body, with nothing called |
| `GuardrailChain.Filter.HttpCallout` | extensions/composer/bedrock-guardrails/callback.go:159-196 | one callout carries the prompts of its body; a failure is answered 502 |
| `GuardrailChain.Filter.ProcessRequestBody` | extensions/composer/bedrock-guardrails/plugin.go:75-132 | drains the body and calls the first guardrail, or lets an empty body through |
| `GuardrailChain.Filter.OnHttpCalloutDone` | extensions/composer/bedrock-guardrails/callback.go:53-204 | refines the chain's step on a reply, every error and panic included |
| `GuardrailChain.IsBlocked` | extensions/composer/bedrock-guardrails/callback.go:87-115 | the nested loops decide whether the response intervened and any of the three policies of any assessment says BLOCKED |
| `GuardrailChain.AnyBlocked` | extensions/composer/bedrock-guardrails/callback.go:92-98 | one loop decides whether a list of actions holds BLOCKED |
| `GuardrailChain.NextInv` | extensions/composer/bedrock-guardrails/callback.go:53-204 | every reply keeps the chain's invariant |
| `GuardrailChain.ChainIsOrdered` | extensions/composer/bedrock-guardrails/callback.go:53-204 | in every run callouts go to guardrails 0, 1, 2, ... with at most one outstanding, each with the previous body after substitution; the request ends at most once, continued with the last body, refused with 400 exactly on a block, or 502 |
| `GuardrailChain.ContinuesIff` | extensions/composer/bedrock-guardrails/callback.go:53-204 | the request continues if and only if every guardrail could be called and passed |
| `CliArgs.BuildArgs` | ui/executor.go:60-93 | the argument list: action, base arguments and ports first, then the extensions and their configs, with filter types only when one is set |
| `CliArgs.AppendAll` | ui/executor.go:66-75 | one loop over the extensions appends each one's arguments |
| `CliArgs.SaveExtensionPositions` | cli/cmd/flags.go:100-126 | the two maps hold exactly the places of each flag value, in increasing order; a path error and a missing value are told apart |
| `CliArgs.Place` | cli/cmd/flags.go:68-81 | one key's manifest is written into its places and nothing else changes |
| `CliArgs.PlaceAll` | cli/cmd/flags.go:67-93 | one map, walked in any order, fills exactly its slots |
| `CliArgs.Sort` | cli/cmd/flags.go:64-96 | for every map order: succeeds exactly when all manifests are found and fit, and slot p then holds the first manifest matching flag p |
| `EnvoyConfig.GenerateBlock` | cli/internal/envoy/config.go:233-293 | one extension's resources, of the chosen filter type: its own with its HTTP filters between the native ones before and after it, overridden or its own; fails exactly when there are none |
| `EnvoyConfig.Choose` | cli/internal/envoy/config.go:240-256 | with several filter types the flag picks one of them, and otherwise the manifest stays as it is |
| `EnvoyConfig.JoinBlocks` | cli/internal/envoy/config.go:226-300 | the loop makes one block per extension and appends each to the five lists |
| `EnvoyConfig.ParseClusters` | cli/internal/envoy/config.go:302-324 | all clusters of one flag, or the error |
| `EnvoyConfig.ParseExtraClusters` | cli/internal/envoy/config.go:302-324 | the clusters of the three flags in order |
| `EnvoyConfig.GenerateConfig` | cli/internal/envoy/config.go:226-333 | fails exactly when some block or cluster cannot be made, and otherwise each of the five lists is the concatenation of the blocks' in order, the clusters followed by the extra ones |
| `EnvoyConfig.BlockPosition` | cli/internal/envoy/config.go:284-299 | extension i's filters come right after those before it in every list |
| `CliAlignment.MarksAreExtsIff` | cli/cmd/flags.go:100-126 | the recorded positions are the UI's extensions if and only if no other argument is one of the two flags |
| `CliAlignment.OtherFormsAreNotRecorded` | cli/cmd/flags.go:109-122 | the one-word form is not recorded, and a comma list finds no manifest |
| `CliAlignment.SlotIsRightIff` | cli/cmd/flags.go:64-96 | every slot is filled, with a manifest loaded for its extension if and only if no downloaded one shadows its path |
| `CliAlignment.DownloadTakesLocalSlot` | cli/cmd/flags.go:64-81 | two extensions of which the downloaded one takes the local slot |
| `CliAlignment.SortSucceeds` | cli/cmd/flags.go:64-96 | with a manifest loaded for each extension, every flag finds one and there are as many slots as flags |
| `CliAlignment.OptionsAreAligned` | ui/executor.go:60-93 | the collected references, paths, configs and filter types line up position by position |
| `CliAlignment.EndToEnd` | cli/internal/envoy/config.go:226-300 | from the UI's list to the generated config: the sort succeeds, no slot is nil, slot i is extension i's manifest, and in every config made from it block i is made from that manifest, config i and filter type i (before, own and after filters in this order) and stands right after the blocks before it |
| `DockerArgs.StepArg` | cli/internal/envoy/runner.go:694-774 | one turn of the loop: what the argument becomes and whether it uses the next |
| `DockerArgs.RewriteArg` | cli/internal/envoy/runner.go:724-773 | the local and TLS branches, with a failing path falling through |
| `DockerArgs.ProcessCommandArgs` | cli/internal/envoy/runner.go:691-778 | the index loop refines the recursive rewriting |
| `DockerArgs.ProcessLocalExtensions` | cli/internal/envoy/runner.go:582-596 | one volume per local extension, in order, or the error |
| `DockerLaws.HostFlagsAreGone` | cli/internal/envoy/runner.go:691-718 | for every command line no docker or pull flag reaches the container; only a `--pull` without a value does, as the last word |
| `DockerLaws.RewritingIsItemwise` | cli/internal/envoy/runner.go:691-778 | each flag with its value becomes its container form, everything else is unchanged and in order |
| `DockerLaws.BareFlagAtEnd` | cli/internal/envoy/runner.go:702-773 | a flag whose value is missing at the end: the image version is dropped, a TLS flag gets its container path, any other stays |
| `DockerLaws.PositionsAreKept` | cli/internal/envoy/runner.go:691-778 | the container records the same extensions at the same positions; distinct ones stay distinct if and only if base names differ, or in debug mode |
| `DockerLaws.RewrittenPathIsMounted` | cli/internal/envoy/runner.go:582-596 | each rewritten path is the target of its own host path's mount |
| `DockerLaws.MountOf` | cli/internal/envoy/runner.go:582-596 | the mounts are pairs, one per extension, in order |
| `DockerLaws.SameNameCollides` | cli/internal/envoy/runner.go:682-688 | a local extension is mounted under its base name in the extensions directory, so same-named ones in different directories share a mount point; in debug mode paths stay |
| `DockerLaws.BaseIsLastName` | cli/internal/envoy/runner.go:682-688 | the base name is the last name of the path, whatever slashes follow |
| `DockerAlignment.RewrittenIsMounted` | cli/internal/envoy/runner.go:691-778 | the UI's command line rewritten for Docker is the UI's command line for the mounted extensions |
| `DockerAlignment.EndToEndInDocker` | cli/internal/envoy/runner.go:691-778 | inside the container every mounted extension runs in the UI's position, with the UI's config and filter type |
| `DockerAlignment.OwnMountOnly` | cli/internal/envoy/runner.go:582-596 | without a clash of base names, a volume is mounted at the path of extension i if and only if it is that of its own host path |
| `Semver.CompareIsTotalPreorder` | cli/internal/extensions/manifest.go:142-154 | the version comparison used throughout is a total preorder, equal exactly on strings that parse alike |
| `SemverLaws.ComparesByPrecedence` | cli/internal/extensions/manifest.go:142-154 | one version compares below another exactly when it precedes it by section 11 of SemVer 2.0.0: major, minor, patch, then a prerelease before its release and prereleases by their first difference; a string that is no version comes below every version |
| `SemverLaws.ParsesIffSpelled` | cli/internal/extensions/manifest.go:142-154 | a string parses as a version if and only if it is that version written out, in full with any build metadata or with zeros left out |
| `Semver.ReleaseParses` | cli/internal/extensions/manifest.go:174-184 | a printed release reads back as its numbers |
| `ManifestVersions.ImplicitMaxExceeds` | cli/internal/extensions/manifest.go:171-184 | the implicit maximum of a valid minimum is the next minor release and exceeds it, with the exact cases where there is none or it wraps |
| `ManifestVersions.FillingLaws` | cli/internal/extensions/manifest.go:217-392 | defaults and inheritance only fill gaps, and doing either twice is doing it once |
| `ManifestVersions.DefaultsAndInheritance` | cli/internal/extensions/manifest.go:217-392 | what is missing is filled, and from where: the HTTP filter type, the parent's version for version and composer version, its bounds, and then the maximum the minimum implies |
| `ManifestVersions.ManifestObject.constructor` | cli/internal/extensions/manifest.go:347-351 | holds the parsed fields |
| `ManifestVersions.ManifestObject.ApplyDefaults` | cli/internal/extensions/manifest.go:217-224 | fills the filter type and the implicit maximum in place |
| `ManifestVersions.ManifestObject.ResolveVersionsWithParent` | cli/internal/extensions/manifest.go:376-392 | fills the version fields in place, also when the parent is the manifest itself |
| `ManifestLoading.ResolveVersions` | cli/internal/extensions/manifest.go:364-373 | one manifest inherits from its parent as it stands; a missing parent is an error |
| `ManifestLoading.ResolveManifests` | cli/internal/extensions/manifest.go:322-329 | the loop over the manifests in memory refines the fold over a table |
| `ManifestLoading.LoadFailsIff` | cli/internal/extensions/manifest.go:322-373 | resolution fails in every order when a parent is missing and in none otherwise |
| `ManifestLoading.OrderIndependentIff` | cli/internal/extensions/manifest.go:322-392 | the result is the same for every map order if and only if each manifest inherits the same from its parent before and after that has inherited |
| `ManifestLoading.GrandparentDependsOnOrder` | cli/internal/extensions/manifest.go:322-392 | three generations whose result depends on the map order |
| `ManifestLoading.SteadyIff` | cli/internal/extensions/manifest.go:376-392 | for manifests with defaults applied, inheriting before and after the parent differs exactly when the grandparent supplies a field that child and parent lack |
| `ManifestLoading.OrderIndependentIffNothingSupplied` | cli/internal/extensions/manifest.go:301-392 | loaded manifests resolve to the same in every map order if and only if no grandparent supplies such a field |
| `ManifestLoading.RootParents` | cli/internal/extensions/manifest.go:322-392 | with root parents each manifest inherits exactly from its own, whatever the order |
| `VersionBounds.SemverFits` | cli/internal/extensions/manifest.go:142-154 | the concrete comparison meets the order's requirements |
| `VersionBounds.SupportsEnvoyVersion` | cli/internal/extensions/manifest.go:142-154 | development builds, or within both bounds |
| `VersionBounds.HighestMinEnvoyVersion` | cli/internal/extensions/manifest.go:555-566 | the greatest declared minimum, if any is above 0.0.0 |
| `VersionBounds.LowestMaxEnvoyVersion` | cli/internal/extensions/manifest.go:569-580 | the least declared maximum, if any is below the sentinel |
| `VersionBounds.ResolveMinimumCompatibleEnvoyVersion` | cli/internal/extensions/manifest.go:583-598 | fails exactly when the bounds conflict and both sides have a bound inside the sentinels; a returned version fits all bounds exactly when they do not conflict, and is then the least (or, with no minimum, the greatest) |
| `VersionBounds.VersionFitsIff` | cli/internal/extensions/manifest.go:142-154 | some version fits all bounds if and only if no bounds conflict and every declared maximum is a version |
| `VersionBounds.FailureIsRightIff` | cli/internal/extensions/manifest.go:583-598 | for valid bounds, failing is the same as no version fitting if and only if conflicting bounds reach inside the sentinels on both sides |
| `VersionBounds.FailsIffNoVersionFits` | cli/internal/extensions/manifest.go:555-598 | with all bounds strictly between the sentinels, resolution fails exactly when no SemVer version is supported by every manifest |
| `VersionBounds.ReturnedVersionFits` | cli/internal/extensions/manifest.go:583-598 | and when it does not fail, the bound it returns lies within all bounds |
| `VersionBounds.MissedConflict` | cli/internal/extensions/manifest.go:569-598 | a conflict beyond the upper sentinel that resolution misses |

## Left out

- JSON, YAML and protobuf encoding, and Kong's flag parsing: functions passed in, or values collected in order.
- `Semver` numbers are natural numbers, where the library compares canonical digit strings.
- LlmFilter.Filter.OnResponseBody: the stream parser is held as a value rather than as an object behind an interface; aliasing of the parser is not modelled.
- Metadata, histograms, timestamps and log lines of the filters: they do not feed back into any decision.
- GuardrailChain.Filter.HttpCallout: does not model the request headers, the endpoint and the two timeouts, because they carry no state.
- The response body of a blocked request in the guardrail filter, and the `content-length` header it removes.
- CliAlignment.EndToEnd: assumes each reference and path was loaded by one manifest; downloading and building are not part of the model.
- TLS mounts and the debug-mode mounts of whole bundles in the Docker runner, which look up directories.
- Reading errors, content types and path mapping in the file server; reading errors and following in the log command.
- The sampling of faults and their injection; only the request counter is modelled.
- The bytes copied between a debug client and server, and all timing: timeouts and exits are steps that may happen; no liveness is claimed.
- ExecutorSlot.Executor.Stop: does not model whether the process or its whole group is signalled, because that depends on the platform and changes no shared state.
- Cedar, OPA, OpenFGA, OpenAPI, SAML, WAF, JWE, token exchange, cluster routing and Azure Content Safety filters: decisions of external engines, or short branching.
- Registry access, packaging, manifest validation, the web UI's pages and help text.
