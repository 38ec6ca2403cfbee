# decoding-redis: the incremental RESP2 parser in Dafny

This project models `JavascriptRedisParser` of parser.js. The parser is an
incremental decoder for the Redis serialization protocol (RESP2). A caller
hands it the byte chunks of a connection one at a time with `execute`. The
parser fires `returnReply` for every complete value and `returnError` for
every `-` error reply. For an unknown type byte it fires `returnFatalError`,
which defaults to `returnError`. A value cut off by the end of a chunk is
carried over to the next call in one of two ways:

- the unread tail of the buffer, plus a stack of suspended arrays
  (`arrayCache`/`arrayPos`);
- for a long bulk string, the list of chunks seen so far (`bufferCache`),
  which is later reassembled. In raw-byte mode (`returnBuffers`) it is
  reassembled into a process-wide scratch arena (`bufferPool`), which a
  timer shrinks again.

Every operation is a pure function. It maps a parser state (and the arena)
to the next state plus the list of callbacks fired.

| file | module | contents |
|---|---|---|
| decimal.dfy | `Decimal` | the `number * 10 + (c - 48)` fold of the scanners; decimal digits of a number |
| resp.dfy | `Resp` | replies, failures and callback events |
| scanners.dfy | `Scanners` | `parseLength`, `parseSimpleString`, `parseSimpleNumbers`, `parseStringNumbers` |
| pool.dfy | `BufferPool` | `resizeBuffer`, `decreaseBufferPool`, `concatBulkBuffer`, `concatBulkString` |
| parser.dfy | `RedisParser` | parser state, `parseType`, `parseBulkString`, `handleError`, `parseArray`, `parseArrayElements`, `parseArrayChunks`, `reset`, the constructor, `execute` |
| encoding.dfy | `Encoding` | a reference RESP2 encoder and the decode/encode round trip |
| suspension.dfy | `Suspension` | what a value cut short leaves behind (offset, stacks, pending bulk string) |
| resume.dfy | `Resumption` | `parseArrayChunks` continues a suspended parse exactly |
| streaming.dfy, steps.dfy | `Streaming`, `Steps` | one `execute` call in each of its four modes, against the stream |
| fragmentation.dfy | `Fragmentation` | split invariance over any sequence of chunks |
| fatal.dfy | `FatalIsolation` | an unknown type byte after whole replies |

The main theorem is `Fragmentation.SplitInvariance`. Take any list of
encodable replies, encode it, and cut the bytes into non-empty chunks in any
way. Feeding the chunks to a fresh parser fires exactly one callback per
reply, in order, and leaves the parser idle. So two cuttings of the same
stream fire the same callbacks.

The partner of the parser is the encoder in `Encoding.Encode`. The partner of
the shrink timer is `BufferPool.StopTicks`, a bound after which the timer has
cleared itself.

When an element inside nested arrays runs out of bytes, parser.js pushes the
innermost unfinished array first and its parents after it, while the recursion
unwinds (parser.js:165-205). `parseArrayChunks` then pops the outermost array
and recurses down to the innermost (parser.js:170-182). So `arrayCache[0]` is
the innermost frame, and `execute` stores a reassembled bulk string there
(parser.js:385).

## Model

| member | source | states |
|---|---|---|
| Scanners.ParseLength | parser.js:86-99 | Asks for more data exactly when no CR with a byte after it follows the offset. Otherwise the value is the digit fold of the bytes before the first CR, and the next offset is two past that CR. The byte after the CR is not checked. |
| Scanners.ParseSimpleString | parser.js:68-84 | Asks for more data under the same condition. Otherwise the value is exactly the bytes between the offset and the first CR, and the next offset is two past it. |
| Scanners.ParseSimpleNumbers | parser.js:15-35 | A leading `-` is skipped before the scan. The field is incomplete exactly when no CR follows the digits. Otherwise it ends at the first CR after the digits, and the value is the digit fold of the bytes before it, negated when the sign was present. |
| Scanners.ParseStringNumbers | parser.js:37-66 | Same incompleteness condition, and the field ends at the first CR after the digits. For an all-digit field the text is the sign followed by exactly the digits received, so leading zeros and digits beyond 2^53 are kept. |
| Scanners.StringNumbersExact | parser.js:48-65 | The loop's two special branches lose nothing: flushing the accumulator once it passes 429496728, and emitting a `0` read while the accumulator is 0. The result is the digits as sent. |
| Scanners.NegativeLength | parser.js:86-99 | `parseLength` has no sign handling. A `-` followed by digits folds to `-3 * 10^k + rest`, which is always negative. This is why `$-1` and `*-1` reach the `length < 0` branches. |
| Scanners.MinusOneLength | parser.js:86-99 | `-1` followed by CR LF reads as -29, with the next offset just past the LF. |
| RedisParser.ParseBulkString | parser.js:108-129 | All four outcomes. An incomplete length line returns undefined with nothing changed. A negative length gives null. A string fully in the buffer gives its bytes, with the offset past the terminator. Otherwise it returns undefined, sets `bigStrSize` to the absolute end including the terminator, sets `totalChunkSize` to the buffer length, and caches the buffer. |
| RedisParser.HandleError | parser.js:141-151 | The buffer is dropped. Exactly one fatal error is raised, carrying the type byte, the buffer and the offset just past the type byte. |
| RedisParser.ParseType | parser.js:207-222 | A value has the kind its type byte selects (integer text in `stringNumbers` mode), and the offset moved past at least a terminator. An unknown byte gives exactly the `handleError` step. A fatal error can only come from an unknown byte or from inside an array. |
| RedisParser.ParseArray | parser.js:153-163 | An incomplete count line returns undefined with nothing changed. A negative count gives null. A completed array has exactly the announced number of elements. |
| RedisParser.ParseElements | parser.js:184-205 | A completed array has as many elements as slots, and already-filled slots keep their values. When it returns undefined, at least one frame was pushed. |
| RedisParser.ParseArrayChunks | parser.js:170-182 | Frames stay well formed and the options do not change. A completed array empties both stacks, and only the offset moved, forwards. An undefined result without a fatal error keeps the buffer. A fatal error drops the buffer. |
| Resumption.Resume | parser.js:170-182 | Resuming the suspended arrays of any nesting path gives the whole outer array once its remaining bytes are in the buffer. If only part of them is, the arrays are suspended again exactly as one uninterrupted parse of those bytes would leave them. |
| Suspension.PartialDecode | parser.js:184-222 | For any reply cut off before its end, `parseType` returns undefined and raises no error. The state it leaves (offset, stacks, pending bulk string) is the one the cut point determines. |
| Encoding.DecodeEncode | parser.js:207-222 | Parsing the encoding of any encodable reply yields that reply, with integers as text in `stringNumbers` mode. The offset lands just past the encoding, and nothing else changes. |
| Encoding.NilEncode | parser.js:153-160 | The null array `*-1` and the null bulk string `$-1` both decode to null. |
| RedisParser.Reset | parser.js:333-341 | The parser is idle: no buffer, offset 0, and every cache and stack empty. Both options are kept. |
| RedisParser.New | parser.js:313-331 | The two options and the choice of fatal callback are recorded, and the parser starts idle and valid. |
| RedisParser.Loop | parser.js:398-416 | The loop keeps the state invariant. It never sends an error reply to `returnReply`, and a fatal error is always the last event. The buffer is either dropped, with the offset at its end when nothing fatal happened, or kept with something still pending. |
| RedisParser.Execute | parser.js:357-417 | Every mode keeps the state invariant and the event order. A chunk that does not reach the end of a pending bulk string is cached, and no callback fires. The arena is used only in raw-byte mode while a bulk string is pending. |
| RedisParser.ReassembleBulk | parser.js:376-380 | The reassembled value is exactly the stream's bytes between the length line and the terminator, across all cached chunks. The new offset is just past the terminator in the last chunk. |
| BufferPool.ConcatBulkBuffer | parser.js:280-305 | Returns the same bytes, `bigStrSize - oldOffset - 2` of them, with the offset `bigStrSize - totalChunkSize`. The value is either a slice of the first chunk (pool untouched) or the arena bytes just below the new write cursor. Arena bytes below the old cursor survive when no resize was needed. |
| BufferPool.ConcatBulkString | parser.js:259-278 | The bytes handed to the decoder, fragment by fragment, are exactly the stream's bytes between the length line and the terminator. |
| BufferPool.BulkFragmentsExact | parser.js:287-303 | The fragments copied (first-chunk tail, whole middle chunks, data part of the data-end chunk) concatenate to that byte range. This covers the two-chunk case and the case where the last chunk holds only terminator bytes. |
| BufferPool.ResizeBuffer | parser.js:244-257 | Afterwards there is room for `length` bytes at the cursor. A pool that already has room is unchanged. Otherwise the new arena has `length * 3` bytes (`* 2` above 75 MiB), plus the old cursor capped to 50 MiB when above 111 MiB. The cursor becomes 0, the counter goes up by one, and the timer is armed. |
| BufferPool.DecreaseTick | parser.js:224-242 | At or below 50 KiB the tick stops the timer and clears both counters. Above it, the tick either drops a prefix of the arena (at least a tenth, and at least the bytes below the cursor) and resets the cursor, or decrements `counter` and increments `notDecreased`. |
| BufferPool.StopTicks | parser.js:224-257 | From any pool, finitely many ticks bring the timer to a stop. The arena is then at most 50 KiB, both counters are 0, and only bytes from its front were dropped. |
| Streaming.LoopStream | parser.js:398-416 | A buffer holding any prefix of a stream of replies: the loop delivers every reply that fully arrived, in order. It then stops idle, or holding exactly the start of the next reply. |
| Steps.ExecuteStream | parser.js:357-417 | One `execute` with the next bytes of the stream, in any of its four modes: the replies the chunk completes are delivered, in order, and the parser holds the start of the next one. |
| Fragmentation.FeedStream | parser.js:357-417 | From any point of the stream, `execute` on each chunk of the rest delivers exactly the remaining replies, in order, and ends idle. |
| Fragmentation.FeedFresh | parser.js:313-417 | A newly constructed parser fed any cutting of the encoded replies into non-empty chunks fires exactly one callback per reply, in order, and ends idle. |
| Fragmentation.SplitInvariance | parser.js:357-417 | Two cuttings of the same stream into non-empty chunks fire the same callbacks. |
| FatalIsolation.LoopRepliesFatal | parser.js:398-416 | Whole replies followed by an unknown type byte: one callback per reply, in order, then exactly one fatal error. The buffer is dropped and the offset is left on the bad byte. |
| FatalIsolation.ExecuteFatal | parser.js:357-417 | One chunk on an idle parser holding whole replies, an unknown type byte and anything after it: exactly the replies before the byte, then one fatal error carrying the byte, the chunk and the offset past the byte. The arena is untouched. |

## Left out

- RedisParser.Execute: an empty chunk is not modelled while a bulk string is pending. parser.js would cache it, and a later chunk ending the string inside its terminator would then treat the empty chunk as the one holding the end of the data. Transports do not deliver empty chunks. The model accepts empty chunks only on an idle parser or one holding a tail.
- Fragmentation.FeedFresh, Fragmentation.SplitInvariance and Fragmentation.ExecuteAll are stated for non-empty chunks only, for the same reason.
- Fragmentation.FeedStream and Steps.ExecuteStream are likewise stated for non-empty chunks only. ExecuteStream asks for a non-empty chunk in every mode, although `RedisParser.Execute` itself also handles an empty chunk on an idle parser or one holding a tail.
- Scanners.ParseSimpleNumbers: the source accumulates in a JavaScript double. The model uses an unbounded integer, so it does not model the rounding of values above 2^53. It also does not model `:-0` yielding -0.
- Scanners.ParseLength: parser.js folds lengths and counts in a JavaScript double. The model uses an unbounded integer, so lengths above 2^53 are not rounded.
- Scanners.ParseStringNumbers: parser.js folds in a double. On a byte below `0` (such as `/` or a space) the accumulator goes negative, is never flushed, grows without bound, rounds past 2^53 and prints in exponent notation past 1e21. The model's fold is exact, and its contract only fixes the text of an all-digit field.
- Text output (`returnBuffers` off): parser.js turns simple strings, bulk strings and error messages into UTF-8 strings, using a shared `StringDecoder` for reassembled bulk strings. The model returns the bytes in both modes; the decoding step is not modelled.
- Resp.Failure: a fatal error keeps the raw type byte, buffer and offset. The message text and the `JSON.stringify` of the buffer are left out. For reply errors, `ReplyError`'s formatting and `toString` are left out.
- RedisParser.ParseArray: a count too large for `new Array(n)` throws a RangeError in JavaScript. The model allocates a sequence of any length.
- RedisParser.New: the constructor's TypeErrors (missing options, callbacks that are not functions) and those of `setReturnBuffers` and `setStringNumbers` are left out. The callbacks are represented by the events they receive. The two setters are not modelled as separate operations: the options are fixed at construction.
- BufferPool.Pool: `bufferPool`, `bufferOffset`, `counter`, `notDecreased` and `interval` are process-global in parser.js and shared by all parsers. Here they are a value passed into and out of `execute`.
- BufferPool.DecreaseTick: the 50 ms `setInterval` timer is reduced to a single tick function. When ticks fire relative to `execute` calls is not modelled. `BufferPool.StopTicks` states what repeated ticks lead to.
- BufferPool.Pool: fresh memory from `Buffer.allocUnsafe` is modelled as zeros. Only bytes copied in are ever handed out.
- BufferPool.ConcatBulkBuffer: returned values are copies. That they are views into the arena is not modelled.
- RedisParser.State: after a fatal error inside an array, parser.js still pushes the suspended array with the buffer dropped. The model keeps that state as the source does, and no property covers what later calls make of it before `reset`.
- index.js: the demo server that builds one parser per connection event is not part of this model.
