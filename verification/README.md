# Streaming chat reply decoder

This project models the client side of a streaming chat page. `sendChatMessage` reads a Server-Sent-Events style response body chunk by chunk and keeps one pending-line buffer. For each chunk it:

- appends the chunk to the buffer;
- splits the buffer on `\n`;
- keeps the piece after the last `\n` as the new buffer;
- turns every complete line into at most one text increment.

A complete line yields an increment only under all of these conditions:

- its trimmed form starts with `data:`;
- the trimmed payload after that prefix is non-empty;
- the payload parses as JSON;
- the parsed object's `event` is `"message"`;
- its `answer` is truthy.

When the stream ends, a non-empty residual buffer is interpreted once more as a final line. `submitChat` appends each increment to the reply it is building and shows every intermediate value. At the end, the history gets either the full reply or a fixed error reply.

Modules:

- `Text`: ECMAScript `trim` over the WhiteSpace and LineTerminator code points, and the concatenation of a sequence of strings.
- `Lines`: `split("\n")` followed by `pop()`, and the facts that this decomposition of a text is unique and composes over concatenation.
- `Frames`: the frame rule for one complete line and for the final buffer. `JSON.parse` is a parameter `parse: string -> Option<Event>` of every operation.
- `Decoder`: `Feed`, `Finish`, the chunk-by-chunk `Decode` and a reference reading `StreamIncrements` of the whole text. Two theorems connect them:
  - chunk-boundary independence;
  - `DecodeStream`, a loop-based rendering of the source's nested loops, computes exactly that reading.
- `Client`: the transport outcomes of `sendChatMessage` (a missing body, a stream that ends normally, a read that fails) and the accumulation in `submitChat`.
- `Scenarios`: concrete streams, each stated for every parser that meets the scenario's hypotheses on its payloads. Message payloads are written without JSON escaping, so their answers contain no `"`, `\` or control character:
  - a frame cut at any position;
  - a malformed line between two frames;
  - a trailing frame without `\n`;
  - a `ping` event.

## Model

| member | source | states |
|---|---|---|
| Text.TrimStartSpec | src/app/page.tsx:53 | trimming the front removes exactly a whitespace prefix and leaves a text that does not start with whitespace |
| Text.TrimEndSpec | src/app/page.tsx:53 | trimming the back removes exactly a whitespace suffix and leaves a text that does not end with whitespace |
| Text.TrimSpec | src/app/page.tsx:53 | `trim` yields a text with no leading or trailing whitespace and never lengthens its input |
| Text.TrimOfPadded | src/app/page.tsx:53-55 | a trimmed text padded with whitespace on both sides trims back to itself |
| Text.TrimSplits | src/app/page.tsx:53 | every text is a whitespace prefix, its trimmed form and a whitespace suffix |
| Text.ConcatAppend | src/app/page.tsx:109 | concatenating two runs of strings is the concatenation of the two runs' concatenations |
| Lines.TerminatedAppend | src/app/page.tsx:50 | the wire text of two runs of complete lines is the two wire texts one after the other |
| Lines.SplitLinesSpec | src/app/page.tsx:50 | the pieces of `split("\n")` contain no `\n`, and the text is every piece but the last followed by `\n`, then the last piece |
| Lines.Reassemble | src/app/page.tsx:49-51 | split plus pop loses nothing: the text is the complete lines, each followed by `\n`, then the pending fragment, and none of them contains `\n` |
| Lines.TerminatedInjective | src/app/page.tsx:50-51 | complete lines followed by a `\n`-free fragment determine the lines and the fragment uniquely |
| Lines.ReassembleUnique | src/app/page.tsx:50-51 | split plus pop is the inverse of writing lines followed by `\n` and then a fragment |
| Lines.ReassembleAppend | src/app/page.tsx:49-51 | splitting a text in two steps, carrying the first step's pending fragment into the second, gives the same lines and fragment as splitting it whole |
| Lines.RestIsAfterLastNewline | src/app/page.tsx:50-51 | the pending fragment is a suffix of the text, and unless it is the whole text a `\n` immediately precedes it |
| Frames.Answer | src/app/page.tsx:59-60 | an answer is produced exactly when the parsed object has event `"message"` and a non-empty answer, and it is that answer |
| Frames.LineIncrement | src/app/page.tsx:52-64 | a complete line yields at most one increment, and never an empty one |
| Frames.FinalIncrement | src/app/page.tsx:68-81 | an empty residual buffer yields nothing, and the final line never yields an empty increment |
| Frames.TrimFrameLine | src/app/page.tsx:53-55 | trimming a padded frame line leaves `data:`, the inner padding and the payload |
| Frames.FrameYieldsAnswer | src/app/page.tsx:53-61 | a line in frame form yields exactly what the message test makes of its payload's parse, so a malformed payload or a non-message event yields nothing |
| Frames.LineIncrementOfFrame | src/app/page.tsx:53-61 | a well-formed message frame yields its answer |
| Frames.LineIncrementShape | src/app/page.tsx:53-60 | a line that yields an increment trims to something starting with `data:`, and its non-empty payload parses to a message event carrying that increment as its answer |
| Frames.FrameOfLineIncrement | src/app/page.tsx:53-61 | only a message frame yields anything: every line yielding `a` decomposes into padding, `data:`, padding, a payload parsing to a message with answer `a`, and padding |
| Frames.FinalAgreesWithLine | src/app/page.tsx:68-77 | when the parser rejects the empty text, the end-of-stream rule and the per-line rule agree on every buffer |
| Decoder.Collect | src/app/page.tsx:52-65 | a run of complete lines yields at most one increment per line, each non-empty |
| Decoder.CollectAppend | src/app/page.tsx:52-65 | the increments of earlier lines come before those of later lines |
| Decoder.CollectInOrder | src/app/page.tsx:52-65 | when every line yields an answer, the increments are exactly those answers in line order |
| Decoder.SkippedLineIsolated | src/app/page.tsx:56-64 | a line that yields nothing leaves the increments of the lines before and after it unchanged |
| Decoder.Feed | src/app/page.tsx:48-65 | after a chunk the buffer holds no `\n` and is exactly the text after the last `\n`; a chunk that completes no line leaves all text pending and emits nothing |
| Decoder.Finish | src/app/page.tsx:68-81 | the end of the stream yields at most one increment, nothing for an empty buffer, and when the parser rejects the empty text exactly what the per-line rule yields for the buffer |
| Decoder.FeedAllReassembles | src/app/page.tsx:45-66 | after any run of chunks the buffer is the text after the last `\n` and the increments emitted are exactly those of the complete lines read so far |
| Decoder.ReassembleCollect | src/app/page.tsx:45-66 | reading text in two steps emits the same increments as reading it at once |
| Decoder.ChunkBoundaryIndependence | src/app/page.tsx:45-81 | decoding a chunked stream yields the reference reading of its concatenated text, whatever the chunk boundaries |
| Decoder.SameTextSameIncrements | src/app/page.tsx:45-81 | two chunkings of the same text decode to the same increments |
| Decoder.StreamOfLines | src/app/page.tsx:45-81 | a stream of given lines and a final fragment yields the lines' increments in order, then the fragment's |
| Decoder.CollectSnoc | src/app/page.tsx:52-65 | one more line appends at most its own increment to what the lines before it yielded |
| Decoder.NextChunk | src/app/page.tsx:48-51 | one more chunk carries the reassembly of the text read so far over to the text read after it |
| Decoder.DecodeStream | src/app/page.tsx:42-81 | the nested read and line loops followed by the final flush compute the reference reading of the whole text |
| Client.SendChatMessage | src/app/page.tsx:36-81 | a missing body fails before any increment; a normally ending stream delivers the reference reading; a failed read delivers only the complete lines' increments and then fails |
| Client.FailureKeepsDelivered | src/app/page.tsx:45-81 | what a failed stream delivered is a prefix of what any normally ending continuation of it delivers |
| Client.Accumulate | src/app/page.tsx:107-111 | the reply is the increments concatenated in order, and each shown value is the concatenation so far and a prefix of the reply |
| Client.SubmitChat | src/app/page.tsx:106-123 | a failure records the error reply; a normal end records the concatenated reference reading; the display shows, once per delivered increment, the concatenation of the increments so far, each a prefix of the delivered text |
| Scenarios.PayloadShape | src/app/page.tsx:55-56 | a message payload of a plain answer (no `"`, `\` or control character) is non-empty, trimmed and `\n`-free |
| Scenarios.MessageLineYields | src/app/page.tsx:53-61 | the line `data: {"event":"message","answer":"…"}` of a plain, non-empty answer yields that answer |
| Scenarios.FrameSplitAnywhere | src/app/page.tsx:45-81 | a frame line with its `\n`, cut into two chunks at any position, yields exactly its answer |
| Scenarios.OneLine | src/app/page.tsx:45-81 | a stream of one frame line and its `\n` yields that line's answer |
| Scenarios.SkippedLineBetweenFrames | src/app/page.tsx:52-65 | a line yielding nothing between two frames, however chunked, leaves exactly the two answers, in order |
| Scenarios.TerminatedStream | src/app/page.tsx:45-81 | a stream of complete lines only yields those lines' increments |
| Scenarios.TrailingFrameOnFinish | src/app/page.tsx:48-81 | a final frame without `\n` emits nothing while its chunk is fed and its answer at the end of the stream |
| Scenarios.MalformedFrameIgnored | src/app/page.tsx:57-64 | a frame whose payload does not parse yields nothing |
| Scenarios.PingIgnored | src/app/page.tsx:58-60 | a `ping` event yields nothing, whatever its answer field holds |

## Left out

- The `fetch` request, its headers, API key and body (src/app/page.tsx:21-34) are not modelled. They are network I/O.
- `reader.read()` is not modelled. The transport is the datatype `Client.Transport`: the list of chunks read and whether the stream then ended normally or the next read threw.
- The `TextDecoder` UTF-8 decode is not modelled, because it is a foreign library. Chunks are already-decoded strings. The source never makes a final non-streaming `decode()` call, so a trailing incomplete multi-byte sequence is dropped. No multi-byte property is claimed.
- The internals of `JSON.parse` are a parameter of the model. Its failures, and results whose property access throws such as `null`, are `None`.
- Frames.Answer: the `answer` field is modelled as an optional string, so a truthy `answer` means a non-empty string. A truthy non-string `answer`, such as a number or an object, would reach the callback in the source and is not modelled.
- `console.error` logging of parse failures is not modelled. It is observable only in the console.
- React state, effects, scrolling, markdown rendering and layout (src/app/page.tsx:84-201, src/app/layout.tsx) are not modelled. They are UI glue.
- The empty-input guard of `submitChat` (src/app/page.tsx:99-105) and the user's own history entry are not modelled. They are UI state.
- Character positions are sequence indices. The source's UTF-16 code units only matter for characters outside the Basic Multilingual Plane, and none of the modelled operations depend on them.
- `onMessage` is modelled as the sequence of values it receives, in order. Callbacks are not modelled.

## Notes on the source

- The final flush at src/app/page.tsx:68-81 does not repeat the per-line `if (!jsonStr) continue` guard, so an empty payload there reaches `JSON.parse`. The model follows the code. `Frames.FinalAgreesWithLine` proves the two rules agree for every parser that rejects the empty text, as `JSON.parse("")` does.
- `if (value)` at line 48 also admits an empty chunk. The model feeds it like any other chunk, and it emits nothing.
