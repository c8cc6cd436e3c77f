# Models of Node's protocol, codec and queue code

This project models, in Dafny, the parts of Node (a 0.11 tree) whose correctness rests on
loops, queues and state machines rather than on native code, and proves what their
documentation and structure promise, for all inputs and all runs. `dafny verify
dfyconfig.toml` checks everything.

Each part has the same shape. The state machine or algorithm is a function on values; the
code that updates fields, arrays and links step by step is a class or a method with loops,
proved to compute that function; the theorems are lemmas about the function, and so hold of
the methods. Events of a run (calls, completions, ticks, messages) are a datatype, and a run
is any list of events that are possible where they happen.

| files | what they model |
|---|---|
| `Punycode`, `PunycodeRoundTrip`, `PunycodeBounds`, `PunycodeErrors`, `PunycodeVectors` | lib/punycode.js against RFC 3492: the decoder follows the encoder step by step, all numbers stay in range, which error is reported, and published pairs in both directions |
| `Writable`, `WritableRuns`, `WritableTheorems`, `WritableOutcome`, `WritableLimits`, `WritableOrder`, `WritableBatches`, `WritableSignals` | the writable stream: buffering, cork, synchronous and later completions, deferred callbacks, `finish`, what each underlying write carries, `drain` |
| `NodeBio` | the byte queue over a growing ring of 16K blocks in src/node_crypto_bio.cc |
| `Cluster`, `ClusterSystem`, `ClusterLimits`, `ClusterOrder` | the round-robin scheduler, alone and with its workers over FIFO channels, and that it serves in turn |
| `Ipc`, `IpcProgress`, `IpcFraming`, `IpcWire` | `send`, the handle queue and acknowledgements between two ends, when they get stuck, newline framing, and both together |
| `Encodings`, `HttpOutgoing`, `HttpChunked` | outgoing messages in all encodings of text, and the chunked coding against RFC 2616 |
| `HttpPipeline`, `HttpListener`, `HttpAssertions`, `HttpHalfOpen`, `HttpDelivery` | pipelined responses on one socket: the machine, the objects, when its assertions fail, what a client that ends its side is owed, and what a client reads |
| `Recursion`, `Debugger`, `DebuggerEnds`, `DebuggerChunks`, `DebuggerHeaders`, `DebuggerLimits` | the framing of the debugger protocol, whose recursion need not end |
| `Utf8`, `StringDecoder`, `TextEncodings` | UTF-8 as in RFC 3629, the decoder that holds back torn characters, and base64 and hexadecimal text in both directions |
| `Readable`, `ReadableHistory`, `ReadableRoom`, `ReadableAsks`, `ReadableStream` | the readable buffer, `read(n)` and the end of the stream, how much is buffered, who is told, and when the source is asked |
| `LinkList`, `Timers`, `UnrefTimers` | the intrusive circular list and the timers sorted on it |
| `PosixPath` | `normalizeArray`, `normalize`, `resolve`, `relative` |
| `UriComponent`, `QueryString` | percent-encoding, `stringify` and `parse` |
| `MergeTags`, `Highlighter`, `HighlightColours`, `HighlightText` | the tag merge and the match cache of doc/sh_main.js, and which style each place of a text gets |
| `Prelude` | optional values, results, flattening |

## What turned out not to hold

The code is modelled as it is. Where a promise fails, a lemma says exactly when it holds, for
all inputs or states, and another shows an input or a run.

- `basicToDigit` returns `base` for what is no digit only from code point 123 on
  (`BasicToDigitAsDocumented`).
- ucs2 decoding and encoding lose a low surrogate before another one, and only that
  (`Ucs2RoundTrip`; `Ucs2LosesLowPair`).
- A later completion of a writable stream that fails with chunks waiting behind it leaves them to
  nobody (`FailureStrands`), and the next write overtakes them (`OvertakingWrite`). Chunks of a run
  that are all different are in order exactly if no write was accepted in such a state (`OrderIff`;
  `FailureReorders`).
- An ended, idle writable stream has emitted `finish` exactly if its buffer is empty (`FinishIff`),
  and the buffer is left to nobody exactly by a successful completion that finds only empty chunks
  after `end` (`StepStrands`; `EmptyChunkSticks`).
- An owed `drain` is forgotten exactly if a write is answered with room before it was emitted, because
  every write sets `needDrain` anew (`DrainForgotten`; `DrainForgottenRun`).
- A cluster worker may register again for a key only when no reply is due from it
  (`AddKeeps`; `EarlyQueryRun`), and a connection waits for good exactly if it is turned down after
  the last worker was removed, or the worker it was offered to dies before accepting it
  (`StrandedIff`; `StrandedRun`, `LostRun`).
- Reading what is on the wire between two IPC ends delivers everything exactly if they do not
  end up waiting for each other (`DrainedIff`), and they do exactly from the step on that sends
  a handle while the other end waits and no acknowledgement to it is on its way (`CrossedIff`,
  `CrossedDrains`; `BothSendHandles`).
- Joining buffered text changes its bytes exactly if text without an encoding meets text in ucs2, or
  in ascii or binary while it is beyond ASCII, or in hexadecimal or base64; or if hexadecimal or
  base64 text follows such text that breaks off (`BufferedBytes`, with the few coincidences spelled
  out in `Changed`; `JoinedEncoding`, `JoinedUcs2`, `JoinedHex`, `JoinedPadding`).
- A write is one correct chunk exactly if it is not text in ucs2, hexadecimal or base64, nor binary
  text beyond ASCII (`ChunkIff`; `BinaryChunkIsWrong`, `Ucs2IsUnreadable`, `TextArrives`).
- The parser of the debugger protocol does not end for every input, and does depend on the chunks:
  `Content-Length` may be negative. A round leaves a shorter text exactly as `ShrinksIff` says, which
  is a little more than that the body ends behind the first byte (`PositiveIsNotEnough`); without a
  body that ends in front of the text the recursion ends exactly if every round does (`EndsIff`), and
  the chunks do not matter (`AnyChunking`). `NegativeForever` and `ChunksMatter` show the failing inputs.
- The assertion on `incoming` fails exactly if the response that has the socket is ended when
  the socket is not open, nothing of it can be buffered, and another request is the first
  unanswered one (`StepFails`; `LateRequestFails`).
- `end` of a readable stream is put off exactly if the stream ended before it was first read and is
  then only asked for `read(0)` (`Readable.StepKeeps`; `OverlookedRun`).
- `trim` in `relative` cuts too much exactly if an empty element comes first (`TrimExact`);
  resolved paths have none there.
- A value that cannot be decoded changes its key only beyond ASCII (`EachOnItsOwn`;
  `ValueSpoilsKey`).
- `parse(stringify(m))` loses what the key `__proto__` had, and only that (`RoundTripIff`).

## Model

| member | source | states |
|---|---|---|
| `Punycode.Ucs2Decode` | lib/punycode.js:105-126 | the loop over code units yields exactly the code points of the text, also where a high unit is followed by no low one |
| `Punycode.Ucs2Encode` | lib/punycode.js:136-147 | the backward loop of `map` and the join yield the code units of the code points, surrogate pairs above U+FFFF |
| `Punycode.Threshold` | lib/punycode.js:281-281 | the threshold of a digit always lies between tMin and tMax, for every bias |
| `Punycode.ThresholdIsNearest` | lib/punycode.js:281-281 | of all thresholds between tMin and tMax it is the nearest to k - bias |
| `Punycode.Adapt` | lib/punycode.js:190-198 | the loop of `adapt` computes the adapted bias of section 6.1 of RFC 3492, with the shift in 32 bits as JavaScript has it |
| `Punycode.HalvingWraps` | lib/punycode.js:192-192 | the shift in 32 bits halves as section 6.1 of RFC 3492 does for every delta up to 2^31-1, and from 2^31 on gives another bias |
| `Punycode.DecodeVli` | lib/punycode.js:268-294 | the inner loop reads one variable-length integer: value and end, or the same error, as the recursive reader of section 3.3 of RFC 3492 |
| `Punycode.CopyBasic` | lib/punycode.js:250-256 | copies the part before the last delimiter, or reports the first code unit that is not basic |
| `Punycode.Place` | lib/punycode.js:296-309 | new bias, overflow check on n, and insertion at the position the decoder state gives |
| `Punycode.RemainderSign` | lib/punycode.js:303-307 | the remainder that gives the position has the sign of the dividend, as in JavaScript |
| `Punycode.DecodeRounds` | lib/punycode.js:261-311 | the main loop of `decode` is the decoder of section 6.2 of RFC 3492 on the text after the delimiter |
| `Punycode.Decode` | lib/punycode.js:221-314 | on every text `decode` gives what the decoder of section 6.2 of RFC 3492 gives, or the first of its three errors |
| `Punycode.EncodeVli` | lib/punycode.js:403-416 | the emitted digits are those of the generalized variable-length integer for this bias |
| `Punycode.FindNext` | lib/punycode.js:377-382 | the scan finds the smallest code point that is not below n |
| `Punycode.EncodeOccurrences` | lib/punycode.js:394-421 | one scan over the input emits a delta for every occurrence of n, counts the smaller code points it passes, and adapts the bias with the count taken before the scan |
| `Punycode.CollectBasic` | lib/punycode.js:355-360 | the basic code points are copied in order |
| `Punycode.EncodeNext` | lib/punycode.js:373-426 | one round of the main loop: the next code point, the overflow guard, the scan, and the step behind it |
| `Punycode.Encode` | lib/punycode.js:323-428 | the whole of `encode`: it is the encoder of section 6.3 of RFC 3492, and ends for every text |
| `PunycodeRoundTrip.Ucs2RoundTrip` | lib/punycode.js:92-147 | ucs2 decoding and then encoding gives the text back if and only if the scan meets no low surrogate followed by another |
| `PunycodeRoundTrip.Ucs2LosesLowPair` | lib/punycode.js:113-120 | the shortest text that does not come back: two low surrogates are taken for a pair |
| `PunycodeRoundTrip.DigitInverse` | lib/punycode.js:158-183 | every digit below the base is read back from its character, which is a lower-case letter or a decimal digit |
| `PunycodeRoundTrip.BasicToDigitAsDocumented` | lib/punycode.js:149-166 | the documentation (a digit, or `base` for everything else) holds exactly for digit characters and code points from 123 on; in the gaps between the ranges it is false |
| `Punycode.GuardMeaning` | lib/punycode.js:276-278 | the guard before `i` grows fires exactly when the product exceeds the limit |
| `PunycodeRoundTrip.WeightGuard` | lib/punycode.js:288-290 | the guard before `w` grows fires exactly when the next weight exceeds 2^31-1 |
| `PunycodeRoundTrip.ReadBack` | lib/punycode.js:268-294 | for every value and bias the emitted integer in front of any text is read back and no more, and overflow is reported exactly when the sum or a weight exceeds 2^31-1 |
| `PunycodeRoundTrip.SmallValuesFit` | lib/punycode.js:287-292 | no weight overflows for a value below 35^6 |
| `PunycodeRoundTrip.StaleCountIsEnough` | lib/punycode.js:384-419 | the bias adapted with the count taken before the scan is the one that the current count gives, at every occurrence: at a later one delta is below both counts |
| `PunycodeRoundTrip.PlacedInStep` | lib/punycode.js:296-309 | after one emitted delta the decoder holds the input restricted to what the encoder has handled, with equal bias, although the encoder adapts with the older count |
| `PunycodeRoundTrip.SimulateRound` | lib/punycode.js:373-426 | from states that are in step, what the encoder still emits makes the decoder produce the whole input, unless one of them reports overflow |
| `PunycodeRoundTrip.SimulatePass` | lib/punycode.js:394-421 | the same in the middle of a scan over the input |
| `PunycodeRoundTrip.Bounded` | lib/punycode.js:397-399 | up to 1650 code points delta never reaches the limit |
| `PunycodeRoundTrip.RoundTrip` | lib/punycode.js:221-428 | for every sequence of code points decode(encode(s)) is s or overflow is reported, and up to 1650 code points none is |
| `PunycodeRoundTrip.TextRoundTrip` | lib/punycode.js:221-428 | for every text of code units the round trip gives a text of equal length, equal to the text if and only if it has no low surrogate before another |
| `PunycodeRoundTrip.EncodeThenDecode` | lib/punycode.js:221-428 | running the two methods one after the other returns the text, for every text of at most 1650 code points without such a pair |
| `PunycodeBounds.ReadInRange` | lib/punycode.js:268-294 | for every text, every sum i and every weight w formed while an integer is read is at most 2^31-1, or overflow is reported |
| `PunycodeBounds.DecodeInRange` | lib/punycode.js:250-311 | during the decoding of any text i, w and n never exceed 2^31-1, except that the increment of i behind an insertion may reach 2^31 between two integers; and no code point put out is larger |
| `PunycodeBounds.EncodedDeltas` | lib/punycode.js:373-427 | every output of `encode` is the basic code points, a delimiter if there are any, and exactly one variable-length integer of at most 2^31-1 for each other code point |
| `PunycodeBounds.PastLimit` | lib/punycode.js:384-423 | if the unguarded increment of delta between two scans passes the limit, the guard of the next scan reports overflow |
| `PunycodeVectors.Chinese` | lib/punycode.js:221-428 | a known name in both directions, with two code points beyond ASCII: U+4E2D U+6587 and fiq228c |
| `PunycodeVectors.Japanese` | test/simple/test-punycode.js:33-41 | one of the tested pairs in both directions, with three: wgv71a119e |
| `PunycodeVectors.Buecher` | test/simple/test-punycode.js:29-37 | another one, with basic code points in front: Bcher-kva |
| `PunycodeVectors.Supplementary` | lib/punycode.js:105-147 | one beyond U+FFFF, from and to its two surrogates: ls8h |
| `PunycodeErrors.CutShort` | lib/punycode.js:268-272 | input that ends inside an integer, wherever it is cut, is reported as invalid input |
| `PunycodeErrors.BadDigit` | lib/punycode.js:274-278 | a character that is no digit, wherever in an integer, is reported as overflow |
| `PunycodeErrors.ReadDigits` | lib/punycode.js:268-294 | an integer that was read consists of digits, each but the last at its threshold or above, and the last below |
| `PunycodeErrors.NotBasicIff` | lib/punycode.js:250-256 | exactly if a code unit beyond ASCII stands in front of some delimiter the input is reported as not basic |
| `Writable.WritableStream.WriteChunk` | lib/_stream_writable.js:152-177 | `write`: refused after `end`, otherwise accepted; the result is false exactly when the stream is ended or reaches the high water mark |
| `Writable.WritableStream.WriteOrBufferChunk` | lib/_stream_writable.js:212-229 | the chunk is counted, and buffered while writing or corked, else handed to the sink |
| `Writable.WritableStream.CorkStream` | lib/_stream_writable.js:179-183 | one more cork |
| `Writable.WritableStream.UncorkStream` | lib/_stream_writable.js:185-198 | one cork less; the buffer is processed when none is left and the stream is idle |
| `Writable.WritableStream.DoUnderlyingWrite` | lib/_stream_writable.js:231-241 | hands chunks to the sink, which may complete before `_write` returns |
| `Writable.WritableStream.OnUnderlyingWrite` | lib/_stream_writable.js:264-292 | a completion: state, error path, buffer, and the deferred or immediate rest |
| `Writable.WritableStream.ClearWriteBuffer` | lib/_stream_writable.js:314-363 | processes the buffer as one batch or one by one, in mutual recursion with the completions, and terminates; which of the two is what WritableBatches.ClearBatches says |
| `Writable.WritableStream.WriteWholeBuffer` | lib/_stream_writable.js:317-334 | the `_writev` case, with the one extra pending callback |
| `Writable.WritableStream.WriteOneByOne` | lib/_stream_writable.js:336-360 | the loop stops behind the first chunk that does not complete at once |
| `Writable.WritableStream.EndStream` | lib/_stream_writable.js:372-396 | `end`: last chunk, full uncork, and the first call ends the stream |
| `Writable.WritableStream.FinishIfDone` | lib/_stream_writable.js:413-424 | `finish` is emitted when the stream needs it and no callback is pending |
| `Writable.WritableStream.RunOnePiece` | lib/_stream_writable.js:294-311 | one piece of `afterWrite`: drain, callback, finish |
| `Writable.WritableStream.TakeTick` | lib/_stream_writable.js:284-287 | the next deferred task starts only when nothing is running |
| `WritableRuns.DoWriteIsWritten` | lib/_stream_writable.js:231-292 | whenever `_write` or `_writev` completes, the recursion through `onwrite` has one closed form: it never clears the buffer a second time |
| `WritableRuns.WrittenCounts` | lib/_stream_writable.js:231-300 | an underlying write leaves length, outstanding writes and owed callbacks balanced, whether it completes at once, later, or with an error |
| `WritableRuns.ClearBufferClears` | lib/_stream_writable.js:314-363 | processing the buffer hands it to the sink in order and ends with a write outstanding or an empty buffer |
| `WritableTheorems.CompletionKeeps` | lib/_stream_writable.js:243-292 | a completion keeps the accounting and the order of the chunks; an idle uncorked stream is left with nothing buffered if and only if the completion succeeds, the stream is corked, the buffer is empty, or only empty chunks wait after `end` |
| `WritableTheorems.WriteSound` | lib/_stream_writable.js:152-229 | in every state `write` keeps the accounting, and puts the chunk behind all others, or in front of a buffer that nobody serves |
| `WritableTheorems.WriteKeeps` | lib/_stream_writable.js:152-229 | `write` keeps the invariant |
| `WritableTheorems.UncorkKeeps` | lib/_stream_writable.js:185-198 | `uncork` keeps the invariant |
| `WritableTheorems.EndKeeps` | lib/_stream_writable.js:372-436 | `end` keeps the invariant and ends the stream |
| `WritableTheorems.PieceKeeps` | lib/_stream_writable.js:294-311 | every piece of a deferred or immediate task keeps the invariant |
| `WritableTheorems.StepKeeps` | lib/_stream_writable.js:152-436 | every event of a run keeps the invariant |
| `WritableTheorems.InvHolds` | lib/_stream_writable.js:152-436 | the invariant holds after every run in which no completion fails with chunks waiting behind it; for the others there are `OrderIff` and `AnyAccounting` |
| `WritableOutcome.StepLine` | lib/_stream_writable.js:243-333 | no event loses or doubles a callback; and their order is kept if a completion finds no callback due |
| `WritableOutcome.AcceptedWrites` | lib/_stream_writable.js:152-177 | the accepted writes of a run are those made before `end` |
| `WritableOutcome.ChunkOrder` | lib/_stream_writable.js:179-363 | on every run what reached the sink followed by the buffer is the accepted writes in order, at most one underlying write is outstanding, and an idle uncorked stream of non-empty chunks has an empty buffer |
| `WritableOutcome.Accounting` | lib/_stream_writable.js:212-436 | on every run `length` is `writelen` plus what is buffered, `pendingcb` counts exactly the callbacks owed with one more per batch, and called and waiting callbacks are together those of the accepted writes |
| `WritableOutcome.CallbackOrder` | lib/_stream_writable.js:264-300 | callbacks are called in the order of the writes on runs whose later completions find no callback due |
| `WritableOutcome.FinishIsFinal` | lib/_stream_writable.js:399-436 | `finish` is emitted at most once, and only after `end`, when every accepted chunk reached the sink and every callback was called |
| `WritableOutcome.FinishIff` | lib/_stream_writable.js:399-424 | an ended error-free stream with nothing outstanding, corked or waiting has emitted `finish` if and only if its buffer is empty |
| `WritableOutcome.FinishHappens` | lib/_stream_writable.js:399-424 | so if no chunk is empty it has |
| `WritableBatches.ClearBatches` | lib/_stream_writable.js:314-363 | with `_writev` and two or more requests processing the buffer begins exactly one underlying write, which carries every chunk that was buffered, and leaves the buffer empty; otherwise it begins one for each chunk that leaves the buffer, in order |
| `WritableBatches.StepBegins` | lib/_stream_writable.js:157-363 | what each event of a run does to the underlying writes: which it begins and what each of them carries |
| `WritableBatches.StrandedBegins` | lib/_stream_writable.js:212-229 | the same for a write that overtakes a buffer left to nobody |
| `WritableBatches.Batches` | lib/_stream_writable.js:157-363 | on every run the underlying writes carry what reached the sink, in order: without `_writev` one chunk each; with it an event begins at most one, which carries everything that waits and leaves the buffer empty, unless the buffer was left to nobody |
| `WritableBatches.LengthIsSize` | lib/_stream_writable.js:216-221 | on every run `length` counts what is buffered by objects in object mode and by length otherwise, and so does the answer of `write` |
| `WritableSignals.DrainComes` | lib/_stream_writable.js:302-312 | on every run without errors an idle stream that was not ended owes no `drain` |
| `WritableSignals.DrainForgotten` | lib/_stream_writable.js:212-229 | `drain` is emitted only if it is owed and nothing is left to write; and one that is owed is given up by an event exactly if it is emitted, or a write is answered with room before it was |
| `WritableSignals.DrainForgottenRun` | lib/_stream_writable.js:220-221 | a run in which it is lost: while the second write is outstanding a third is answered with room |
| `WritableSignals.CorkHolds` | lib/_stream_writable.js:179-198 | on every run: while a cork is not undone no event begins an underlying write |
| `WritableSignals.DepthHolds` | lib/_stream_writable.js:179-198 | on every run `corked` is the number of corks not yet undone, of which `end` undoes all |
| `WritableLimits.CompletionStrands` | lib/_stream_writable.js:264-292 | a completion leaves the buffer to nobody if and only if it succeeds after `end` and finds only empty chunks, on a stream that is not corked |
| `WritableLimits.StepStrands` | lib/_stream_writable.js:152-436 | no other event of a run does, and the stream leaves that state by being corked and in no other way |
| `WritableLimits.FailureReorders` | lib/_stream_writable.js:243-255 | an instance: a later completion fails and leaves the buffer behind, and the next write overtakes it |
| `WritableOrder.OvertakingWrite` | lib/_stream_writable.js:212-292 | in every state with a buffer that nobody serves, before `end`: whatever the sink does, after `write` the sink followed by the buffer is what the sink had, then the new chunk, then the old buffer |
| `WritableOrder.FailureStrands` | lib/_stream_writable.js:243-292 | before `end` a stream gets into such a state if and only if a completion fails with chunks waiting behind it on a stream that is not corked |
| `WritableOrder.OrderIff` | lib/_stream_writable.js:152-436 | on every run, whichever completions fail: no chunk is lost or doubled and at most one underlying write is outstanding; the chunks are in the order of the writes if no write was accepted while the buffer was left to nobody, and for chunks that are all different only then |
| `WritableOrder.AnyAccounting` | lib/_stream_writable.js:212-436 | on every run, whichever completions fail: `length` and `pendingcb` are exact, and `finish` is emitted at most once, with nothing buffered or outstanding |
| `WritableLimits.EmptyChunkSticks` | lib/_stream_writable.js:399-404 | a run: an empty chunk that is buffered at `end` is never written and `finish` never comes |
| `NodeBio.NodeBIO.constructor` | src/node_crypto_bio.h:36-39 | the one-block ring is a valid empty queue |
| `NodeBio.NodeBIO.Extend` | src/node_crypto_bio.cc:263-268 | a new block is linked behind the write head, which moves to it; the ring keeps its shape and the queue its contents |
| `NodeBio.NodeBIO.WriteSome` | src/node_crypto_bio.cc:241-270 | one turn appends what fits into the block and moves to an empty one if bytes are left |
| `NodeBio.NodeBIO.Write` | src/node_crypto_bio.cc:238-272 | `Write` appends exactly the given bytes to the queue, for every size and state of the ring |
| `NodeBio.NodeBIO.TakeHead` | src/node_crypto_bio.cc:171-174 | the oldest bytes leave the head block and are copied to their place in `out` and nowhere else |
| `NodeBio.NodeBIO.Rewind` | src/node_crypto_bio.cc:182-184 | a drained head block becomes empty room |
| `NodeBio.NodeBIO.MoveOn` | src/node_crypto_bio.cc:181-189 | the read head moves on from a drained block, and never beyond the write head |
| `NodeBio.NodeBIO.ReadSome` | src/node_crypto_bio.cc:165-190 | every turn copies something or gets closer to the write head |
| `NodeBio.NodeBIO.ReadLoop` | src/node_crypto_bio.cc:165-191 | the loop ends, by the bytes still expected and then the distance of the heads, with everything expected read |
| `NodeBio.NodeBIO.Read` | src/node_crypto_bio.cc:159-195 | `Read` removes and returns exactly the first min(size, Length()) bytes, and leaves the rest of `out` alone |
| `NodeBio.Insert` | src/node_crypto_bio.cc:264-266 | linking a block behind the last one of a ring makes a ring that is longer by one |
| `Cluster.RoundRobinHandle.HandOff` | lib/cluster.js:133-151 | a worker gets the connection that has waited longest, or waits for one behind the others that do; a removed worker gets nothing |
| `Cluster.RoundRobinHandle.DistributeConn` | lib/cluster.js:127-131 | a connection joins the line and the first free worker is called |
| `Cluster.RoundRobinHandle.AddWorker` | lib/cluster.js:94-113 | a worker registers, and takes a waiting connection |
| `Cluster.RoundRobinHandle.RemoveWorker` | lib/cluster.js:115-125 | a worker leaves; with the last one all waiting connections are closed |
| `Cluster.RoundRobinHandle.CloseAll` | lib/cluster.js:121-121 | the loop closes every waiting connection |
| `Cluster.RoundRobinHandle.Reply` | lib/cluster.js:144-150 | a reply takes its callback, closes or redistributes the connection, and hands the worker the next one |
| `Cluster.HandoffKeeps` | lib/cluster.js:133-151 | handing off keeps the scheduler invariant |
| `Cluster.DistributeKeeps` | lib/cluster.js:127-131 | a new connection keeps it |
| `Cluster.AddKeeps` | lib/cluster.js:94-105 | registering keeps it if and only if no reply is due from the worker; otherwise the worker is both free and awaited, or awaited twice |
| `Cluster.RemoveKeeps` | lib/cluster.js:115-125 | removing a worker keeps it |
| `Cluster.OnReplyKeeps` | lib/cluster.js:144-150 | a reply keeps it |
| `ClusterSystem.StepKeeps` | lib/cluster.js:94-151 | every step of the master and of the workers keeps the invariant of the whole system, no reply arrives without its callback, and no worker closes a handle that is gone |
| `ClusterSystem.CloserIsKnown` | lib/cluster.js:379-383 | when the master reads that a worker closed its server, the worker is registered and the handle is there |
| `ClusterSystem.RunInv` | lib/cluster.js:94-151 | so every run keeps it, and none ends in a missing callback or handle |
| `ClusterSystem.Scheduling` | lib/cluster.js:94-151 | on every run: `free` has no duplicates and lies in `all`; a registered worker is either free or awaiting one reply; waiting connections mean no free worker; every connection is in exactly one of waiting, travelling, accepted or closed; and none was accepted twice |
| `ClusterOrder.JoinedInOrder` | lib/cluster.js:127-151 | on every run in which no connection was turned down the connections joined the line in the order in which they arrived |
| `ClusterOrder.FirstComeFirstServed` | lib/cluster.js:127-151 | on every run the connections are offered exactly in the order in which they joined the line, and while the handle is open the others wait in that order; a reply is matched to the offer it answers; and if none was turned down that is the order of arrival |
| `ClusterOrder.CalledInTurn` | lib/cluster.js:115-142 | a connection that finds nobody in front goes to the worker that has been ready longest |
| `ClusterOrder.LongestReadyFirst` | lib/cluster.js:127-142 | on every run the ready workers are a plain queue, joined at its end and called from its front; as long as none is removed, those called and those still ready are the workers in the order in which they became ready |
| `ClusterSystem.StrandedIff` | lib/cluster.js:115-149 | a connection gets to wait for nobody exactly if it is turned down after the last worker was removed, or the worker it was offered to dies before accepting it; and then it waits for good |
| `ClusterSystem.NotForgotten` | lib/cluster.js:115-151 | every other connection that is neither accepted nor closed is in the list of an open handle, on its way to a living worker, or coming back from one |
| `ClusterSystem.StrandedRun` | lib/cluster.js:115-149 | a run that ends so: the worker closes the server while a connection is on its way to it |
| `ClusterSystem.LostRun` | lib/cluster.js:285-290 | another: the worker dies before it reads the offer |
| `ClusterLimits.EarlyQueryRun` | lib/cluster.js:94-105 | a run in which a worker closes the server and asks for it again while a connection is on its way to it: the worker is registered free and awaited, and two connections later it is awaited twice |
| `Ipc.Target.SendMessage` | lib/child_process.js:377-452 | `send`: writes, or queues while a handle is unacknowledged |
| `Ipc.Target.Put` | lib/child_process.js:432-442 | a written handle opens the queue |
| `Ipc.Target.OnAck` | lib/child_process.js:347-356 | an acknowledgement replays the queue through `send` |
| `Ipc.Target.OnMessage` | lib/child_process.js:346-375 | a handle is acknowledged through the same `send` |
| `Ipc.ReplayFacts` | lib/child_process.js:350-354 | a replay writes and queues exactly the queued messages in order, and leaves at most one handle unacknowledged |
| `Ipc.SendKeeps` | lib/child_process.js:377-442 | `send` keeps: written followed by queued are the calls in order, and a queue means one unacknowledged handle |
| `Ipc.ReceiveKeeps` | lib/child_process.js:346-375 | so does receiving |
| `Ipc.AckFindsQueue` | lib/child_process.js:348-349 | an acknowledgement on the wire means that the other end has its queue, so the assertion holds |
| `Ipc.ReadKeeps` | lib/child_process.js:309-375 | reading a message keeps the invariant of both ends |
| `Ipc.StepKeeps` | lib/child_process.js:302-452 | every step keeps it |
| `Ipc.RunOk` | lib/child_process.js:302-452 | every run keeps it |
| `Ipc.SendOrder` | lib/child_process.js:302-452 | on every run, for both ends: written followed by queued are the calls of `send` in order, the other end reads exactly what was written, at most one handle is unacknowledged, and no assertion fails |
| `IpcProgress.QuietIff` | lib/child_process.js:346-442 | when everything on the wire was read both ends wait for an acknowledgement or none does, and they wait if and only if not every call was delivered |
| `IpcProgress.DrainedIff` | lib/child_process.js:346-442 | whichever end reads next, reading what is on the wire comes to an end, and then the ends wait for each other if and only if not everything was delivered |
| `IpcProgress.CrossedIff` | lib/child_process.js:346-442 | exactly which steps leave both ends waiting with no acknowledgement on its way: a handle that is sent, or comes first in a queue that is replayed, while the other end waits and no acknowledgement to it is on its way; nothing undoes it |
| `IpcProgress.CrossedDrains` | lib/child_process.js:346-442 | from then on reading always ends with both ends waiting for good |
| `IpcProgress.BothSendHandles` | lib/child_process.js:411-429 | a run: two handles sent at the same time, each acknowledgement queueing up behind the other handle |
| `IpcProgress.StuckForever` | lib/child_process.js:411-429 | nothing that happens afterwards unblocks the two ends |
| `IpcProgress.ReadProgress` | lib/child_process.js:346-375 | every read is possible and brings the end of the reading closer, whoever reads next |
| `IpcProgress.OneWayDrains` | lib/child_process.js:346-375 | if only one end has sent handles, reading delivers every call in order and leaves nothing queued |
| `IpcFraming.Reader.TakeLines` | lib/child_process.js:313-330 | the loop takes every complete line and keeps the rest |
| `IpcFraming.Reader.OnRead` | lib/child_process.js:309-331 | one read decodes its bytes and takes the lines |
| `IpcFraming.LinesAppend` | lib/child_process.js:313-330 | taking lines piece by piece is taking them from the whole |
| `IpcFraming.DeliveredIsLines` | lib/child_process.js:309-331 | any sequence of reads delivers the lines of the decoded whole |
| `IpcFraming.AnyChunking` | lib/child_process.js:309-331 | for every list of texts without newline and every way of cutting their bytes, exactly these texts are delivered in order and nothing is kept back |
| `IpcWire.WireDelivers` | lib/child_process.js:302-452 | on every run and for every way of cutting the bytes one end has written, the other end is given the texts of the messages in order, and those of all calls if none is queued |
| `HttpOutgoing.OutgoingMessage.Buffer` | lib/_http_outgoing.js:142-166 | data is appended to the output, or joined to the text before it |
| `HttpOutgoing.OutgoingMessage.WriteBuffered` | lib/_http_outgoing.js:114-124 | the loop writes out the whole output in order |
| `HttpOutgoing.OutgoingMessage.WriteRawData` | lib/_http_outgoing.js:108-139 | written if the message has the open socket, dropped if that is destroyed, else buffered |
| `HttpOutgoing.OutgoingMessage.SendData` | lib/_http_outgoing.js:91-105 | the header goes in front of the first data, joined to text or as a piece of its own |
| `HttpOutgoing.OutgoingMessage.WriteBody` | lib/_http_outgoing.js:371-419 | `write`, chunked or not; nothing for empty data or a message without body |
| `HttpOutgoing.OutgoingMessage.EndBody` | lib/_http_outgoing.js:446-495 | `end`, once; says whether `finish` is emitted and whether there is no connection to look at |
| `HttpOutgoing.OutgoingMessage.FlushOutput` | lib/_http_outgoing.js:519-560 | `_flush` writes the output and says whether `finish` is emitted |
| `HttpOutgoing.BufferedBytes` | lib/_http_outgoing.js:142-166 | buffering keeps all bytes in order, also where text is joined, if and only if no joined text is changed: text without an encoding by ascii or binary in front unless it has seven bits, by ucs2 always, by hexadecimal or base64 unless that breaks off inside a byte or group and both decode to the same bytes; and labelled text by hexadecimal or base64 in front that breaks off |
| `Encodings.HexJoins` | src/string_bytes.cc:124-147 | exactly when two hexadecimal texts joined stand for what each stands for |
| `Encodings.Ucs2IsEncode` | src/string_bytes.cc:185-195 | no text but the empty one has the same bytes in UCS-2 and in UTF-8 |
| `Encodings.RoomEnough` | src/string_bytes.cc:29-117 | the room that is computed from the length of a base64 text is never too small for what it decodes to |
| `HttpOutgoing.JoinedEncoding` | lib/_http_outgoing.js:155-159 | an instance: the text takes over the encoding of the text it is joined to, and three bytes become two |
| `HttpOutgoing.JoinedUcs2` | lib/_http_outgoing.js:155-159 | an instance in seven bits: `b` behind `a` in ucs2 comes out as two bytes |
| `HttpOutgoing.JoinedHex` | lib/_http_outgoing.js:155-159 | an instance: text behind hexadecimal text is decoded as well |
| `HttpOutgoing.JoinedPadding` | lib/_http_outgoing.js:151-154 | two padded base64 texts of one byte each come out as three bytes |
| `HttpOutgoing.SendKeeps` | lib/_http_outgoing.js:91-139 | written and buffered bytes together grow by exactly what is sent, wherever it goes |
| `HttpOutgoing.WriteBalanced` | lib/_http_outgoing.js:371-419 | after `write` the socket followed by the output is what was there and then all that was sent |
| `HttpOutgoing.EndBalanced` | lib/_http_outgoing.js:446-495 | the same for `end`, after which something was sent |
| `HttpOutgoing.FlushBalanced` | lib/_http_outgoing.js:519-553 | the same for `_flush`, which leaves nothing in the output of a message with an open socket |
| `HttpChunked.ChunkIff` | lib/_http_outgoing.js:393-416 | what `write` sends for any data with something in it is one correct chunk if and only if the data is not text in ucs2, hexadecimal or base64, nor binary text beyond ASCII |
| `HttpChunked.OneChunk` | lib/_http_outgoing.js:371-416 | so the message sends one chunk: size in hexadecimal, data, line ends, behind the header if that was not sent |
| `HttpChunked.SizeOfHex` | lib/_http_outgoing.js:401-401 | the digits of `toString(16)` are read back as the number |
| `HttpChunked.DecodeChunks` | lib/_http_outgoing.js:393-474 | the decoder of section 3.6.1 of RFC 2616 recovers the body from any list of chunks, and the trailer, and stops at its end |
| `HttpChunked.ChunkedDelivery` | lib/_http_outgoing.js:371-560 | for every list of writes of buffers, UTF-8 text and binary text in ASCII, every end and every moment of getting the socket, what is on the socket is the header and a chunked body from which that decoder recovers exactly what was written, the trailer and whatever follows |
| `HttpChunked.BinaryChunkIsWrong` | lib/_http_outgoing.js:395-412 | an instance: one character of binary text is announced with one byte and sent as two, and no decoder reads on |
| `HttpChunked.Ucs2IsUnreadable` | lib/_http_outgoing.js:393-399 | for every text in ucs2, no decoder finds the size of the chunk, which is in UCS-2 as well |
| `HttpChunked.TextArrives` | lib/_http_outgoing.js:400-412 | every hexadecimal or base64 text in ASCII arrives as that text, instead of the bytes it stands for |
| `HttpListener.ConnectionListener.ResponseFinished` | lib/_http_server.js:397-422 | the `finish` listener: takes the request off, detaches, and ends the socket or starts the next response |
| `HttpListener.ConnectionListener.AssignSocket` | lib/_http_server.js:124-132 | the response gets the socket and sends what it has, which may finish it and, in turn, the ones behind it; terminates |
| `HttpListener.ConnectionListener.DetachSocket` | lib/_http_server.js:134-139 | request and socket are given up |
| `HttpListener.ConnectionListener.OnIncoming` | lib/_http_server.js:379-395 | a response waits behind the current one, or gets the socket |
| `HttpListener.ConnectionListener.EndResponse` | lib/_http_outgoing.js:446-495 | `end` on one of the response objects, whose `finish` runs the listener; also says when there is no connection to look at |
| `HttpListener.ConnectionListener.WriteResponse` | lib/_http_outgoing.js:371-419 | a write to one of the response objects changes it and the shared socket as in the machine, and no other response |
| `HttpListener.ConnectionListener.SocketEnded` | lib/_http_server.js:353-372 | the three cases when the client ends; HttpHalfOpen.EveryoneIsAnswered says what they are for |
| `HttpPipeline.AttachOpen` | lib/_http_server.js:124-132 | a response that gets the open socket has nothing left in its output |
| `HttpPipeline.FinishOpen` | lib/_http_server.js:401-421 | from a complete response the recursion through the waiting ones keeps the invariant and fails no assertion |
| `HttpPipeline.RequestKeeps` | lib/_http_server.js:379-395 | a request keeps the invariant |
| `HttpPipeline.WriteKeeps` | lib/_http_outgoing.js:371-419 | a write to any response keeps the invariant |
| `HttpPipeline.EndKeeps` | lib/_http_outgoing.js:446-495 | ending any response, in any order, keeps the invariant; a response without the socket always has something in its output, so `end` looks at no missing connection |
| `HttpPipeline.StepKeeps` | lib/_http_server.js:353-421 | every event keeps the invariant, no assertion fails while the socket is open, and later only `end` of the response that has the socket can make one fail |
| `HttpPipeline.Pipelined` | lib/_http_server.js:379-422 | for every interleaving of handlers the socket bytes are a prefix of the responses one after the other in request order; while the socket is open they are all that the finished responses and the current one sent |
| `HttpPipeline.NoAssertionFails` | lib/_http_server.js:401-401 | no event makes the assertion on `incoming` fail while the socket is open |
| `HttpHalfOpen.ClientEndOwed` | lib/_http_server.js:353-372 | the client ends with responses waiting: exactly the last one is marked as the one to shut the socket |
| `HttpHalfOpen.RunOwed` | lib/_http_server.js:353-422 | on every run in which only the client ends: the socket is open with a response in turn, or everything was sent |
| `HttpHalfOpen.EveryoneIsAnswered` | lib/_http_server.js:353-422 | for every interleaving of handlers and a client that ends its side: the socket is shut only when every response was sent, and once all of them were ended it has them all, in request order, and is shut |
| `HttpHalfOpen.FinishGivenUp` | lib/_http_server.js:403-422 | once the requests are given up `finish` fails exactly for a response that does not have the socket |
| `HttpHalfOpen.GivesUp` | lib/_http_server.js:353-365 | a closed socket, and an ended one without `allowHalfOpen`, gives up the requests not answered and takes nothing more |
| `HttpHalfOpen.ClosedForGood` | lib/_http_server.js:353-372 | on every run in which the socket was closed no request is pending afterwards, whatever the handlers do |
| `HttpAssertions.FinishFails` | lib/_http_server.js:401-401 | when the socket is not open, the assertion in the `finish` listener fails if and only if another request is the first unanswered one |
| `HttpAssertions.EndLate` | lib/_http_outgoing.js:446-495 | `end` of a response whose socket is not open emits `finish` if and only if nothing of it can be buffered: the socket is destroyed and the header does not go out in front of a buffer, or it is shut and nothing is left to say |
| `HttpAssertions.StepFails` | lib/_http_server.js:353-421 | so an event makes an assertion fail if and only if it is such an `end` of the response that has the socket, while another request is the first unanswered one |
| `HttpAssertions.RunFails` | lib/_http_server.js:353-421 | and a run fails if and only if it meets such an event |
| `HttpAssertions.TimelyRunsAreSafe` | lib/_http_server.js:401-401 | no assertion fails in any run in which requests arrive only while a response has the socket or no request is unanswered |
| `HttpAssertions.LateRequestFails` | lib/_http_server.js:401-421 | a run in which one fails: a request that arrives after a last response gets the socket before an older one |
| `HttpDelivery.RunSaid` | lib/_http_outgoing.js:371-495 | on every run each response has said its header followed by what was written to it, in chunks or as it is, and the last chunk once it was ended if it is chunked; the header is in ASCII if a buffer came first |
| `HttpDelivery.ClientReads` | lib/_http_server.js:379-422 | for every interleaving of handlers and any mix of chunked and other responses, while the socket is open: a client that reads the responses that are done one after the other, by chunks or by length, gets exactly the bodies written to them and their trailers, in request order, and behind them what the next response has said so far |
| `Debugger.ProtocolParser.ParseLines` | lib/_debugger.js:85-89 | header lines become a map, the last of equal names counting |
| `Debugger.ProtocolParser.ParseHeader` | lib/_debugger.js:83-94 | length, which may be negative, and place of the body are taken from the header, in bytes |
| `Debugger.ProtocolParser.ExecuteChunk` | lib/_debugger.js:73-126 | `execute` on a chunk, with the recursion through `_newRes`, for inputs on which that recursion ends |
| `Debugger.ProtocolParser.LookAtBody` | lib/_debugger.js:101-119 | a body that has arrived is delivered and the rest processed |
| `Debugger.ProtocolParser.NewRes` | lib/_debugger.js:65-70 | a new response starts with what is left |
| `DebuggerEnds.ShrinksIff` | lib/_debugger.js:104-118 | exactly when what follows a message is a shorter text: at least as many characters lie in front of the place where the body ends as bytes behind it in the one it tears, and at least one if it tears none |
| `DebuggerEnds.CutIff` | lib/_debugger.js:104-118 | fewer bytes are left exactly if the index of that place is positive, or negative and smaller in size than the bytes held |
| `DebuggerEnds.TakeBodyShrinks` | lib/_debugger.js:117-118 | so it is for every length that is not negative, even if that tears a character |
| `DebuggerEnds.EndsIff` | lib/_debugger.js:73-126 | for every input in which no body met ends in front of the text: the recursion ends if and only if every round of it leaves a shorter text |
| `DebuggerEnds.PlainEnds` | lib/_debugger.js:73-126 | it ends for every input in which no header met has a negative length |
| `DebuggerLimits.NegativeForever` | lib/_debugger.js:91-118 | a header that announces a negative length of twice its own size or more is parsed again and again, for good |
| `DebuggerLimits.ChunksMatter` | lib/_debugger.js:91-118 | the same bytes in one chunk and in two do not lead to the same: alone the header never ends, with enough text behind it parsing goes on |
| `DebuggerLimits.PositiveIsNotEnough` | lib/_debugger.js:104-118 | an input whose index is positive and that still never ends: a torn character comes back as as many replacement characters |
| `DebuggerLimits.FarNegative` | lib/_debugger.js:104-118 | an index below -2^31 is taken as a positive one |
| `DebuggerChunks.SettleAppend` | lib/_debugger.js:73-126 | text may be processed before or after more of it arrives |
| `DebuggerChunks.AnyChunking` | lib/_debugger.js:73-126 | for every input, well formed or not, in which no body met ends in front of the text, which a negative length makes possible: only the concatenation of the chunks matters, also for whether the recursion ends |
| `DebuggerChunks.ParsesLength` | lib/_debugger.js:129-135 | the header that `serialize` writes is parsed to the length of the body in bytes |
| `DebuggerChunks.OneMessage` | lib/_debugger.js:73-135 | a serialized message in front is delivered and what follows is processed next |
| `DebuggerChunks.Delivery` | lib/_debugger.js:59-135 | for every list of serialized messages and every way of cutting them, `onResponse` is called with exactly their bodies in order |
| `DebuggerHeaders.LineParts` | lib/_debugger.js:85-89 | a header line is its key up to the first colon with spaces, and its value from there up to the next one; a third part does not count |
| `DebuggerHeaders.Numbers` | lib/_debugger.js:91-91 | every decimal number is read as itself, with a plus sign too, with a minus sign as its negative; an empty value is 0 |
| `DebuggerHeaders.NoNumber` | lib/_debugger.js:91-91 | and with another character in it is none |
| `StringDecoder.Decoder.DetectIncomplete` | lib/string_decoder.js:108-139 | the loop over the last three bytes finds how many belong to a torn character, and its size |
| `StringDecoder.Decoder.Write` | lib/string_decoder.js:39-106 | `write`: completes the held character, converts, and holds back what is torn |
| `StringDecoder.Decoder.End` | lib/string_decoder.js:141-154 | `end`: a last write and what is held |
| `StringDecoder.DetectTorn` | lib/string_decoder.js:108-139 | behind whole characters exactly the bytes of the torn one are found |
| `StringDecoder.WriteUtf8` | lib/string_decoder.js:39-106 | one write emits characters of the text in order and keeps the bytes of the next |
| `StringDecoder.Utf8AnyChunking` | lib/string_decoder.js:39-154 | for every text and every way of cutting its UTF-8 bytes the outputs are the text, with nothing left |
| `StringDecoder.Base64Append` | lib/string_decoder.js:166-170 | base64 of whole groups of three bytes may be converted piece by piece |
| `StringDecoder.WriteBase64` | lib/string_decoder.js:39-106 | one write converts whole groups and keeps the rest |
| `StringDecoder.Base64AnyChunking` | lib/string_decoder.js:39-170 | for every byte string and every way of cutting it the outputs and `end` are the one-shot conversion |
| `StringDecoder.HeldBound` | lib/string_decoder.js:83-88 | at most 3 bytes of UTF-8, or 2 of base64, are held between calls |
| `StringDecoder.TornAtEnd` | lib/string_decoder.js:141-154 | wherever the UTF-8 bytes of a text break off, and however they are cut, the outputs and `end` are what the bytes are converted to in one piece |
| `Utf8.RoundTrip` | lib/string_decoder.js:90-90 | `toString` of the UTF-8 bytes of a text is the text (section 3 of RFC 3629) |
| `Utf8.DecodedIff` | lib/string_decoder.js:90-90 | bytes come back from their text if and only if they are the UTF-8 of a text; otherwise U+FFFD is in it |
| `Utf8.Samples` | lib/string_decoder.js:90-90 | the bytes of one character of each size, from section 7 of RFC 3629 |
| `TextEncodings.Base64Back` | src/string_bytes.cc:82-121 | the base64 text of any bytes is read as these bytes |
| `TextEncodings.Base64UrlBack` | src/string_bytes.cc:59-77 | and so it is in the alphabet for URLs, or without its padding |
| `TextEncodings.DecodedBase64Back` | lib/string_decoder.js:141-170 | the base64 text that a decoder makes of any chunks is read as the bytes of the chunks |
| `TextEncodings.RoomIsExact` | src/string_bytes.cc:29-56 | for padded text the room computed is exactly that of the bytes |
| `TextEncodings.HexBack` | src/string_bytes.cc:124-146 | hexadecimal text of any bytes, in small or capital letters, is read as these bytes |
| `TextEncodings.Ucs2Back` | src/string_bytes.cc:189-195 | text in UCS-2 is read as that text, low bytes first and surrogate pairs as one character |
| `ReadableStream.Stream.Emit` | lib/_stream_readable.js:373-386 | `emitReadable`: at most once until the next read, deferred when synchronous |
| `ReadableStream.Stream.FinishReading` | lib/_stream_readable.js:876-895 | throws on a stream that is not empty; otherwise defers `end`, if the stream was read and did not end |
| `ReadableStream.Stream.OnEof` | lib/_stream_readable.js:352-368 | marks the end, and announces what is left or starts ending |
| `ReadableStream.Stream.ReadableAddChunk` | lib/_stream_readable.js:117-155 | `push` and `unshift` in all their cases; the result is false exactly if the end was seen, or the mark is reached, something is buffered and no reader waits |
| `ReadableStream.Stream.HowMuchToRead` | lib/_stream_readable.js:195-230 | how much a read takes, and how it raises the mark |
| `ReadableStream.Stream.PluckLoop` | lib/_stream_readable.js:853-869 | the loop over several chunks takes exactly the first n items, slicing the last chunk |
| `ReadableStream.Stream.FromBuffer` | lib/_stream_readable.js:812-874 | each of the four cases of `fromList` takes exactly the first n items out of the list |
| `ReadableStream.Stream.ReadData` | lib/_stream_readable.js:233-336 | `read`, with whatever `_read` does before it returns |
| `ReadableStream.Stream.ReadMore` | lib/_stream_readable.js:408-420 | `maybeReadMore_`: the loop ends because every round but the last adds data below the mark |
| `ReadableStream.RoundUpToNextPowerOf2` | lib/_stream_readable.js:183-193 | the bit loop gives a power of two that is at least n while its half is not |
| `ReadableStream.RoundUpLeast` | lib/_stream_readable.js:183-193 | the function the machine uses is characterised in the same way |
| `Readable.AddKeeps` | lib/_stream_readable.js:117-155 | pushes, unshifts and the end keep length, order and end bookkeeping |
| `Readable.TakeOutKeeps` | lib/_stream_readable.js:317-335 | what a read returns are the first items of the buffer, and they leave it |
| `Readable.ReadKeeps` | lib/_stream_readable.js:233-336 | a read keeps the ledger, and leaves an exhausted ended stream with `end` under way |
| `Readable.StepKeeps` | lib/_stream_readable.js:117-420 | every event keeps the ledger; and once a stream at its end was read, `end` stays under way exactly if it is not overlooked by a `read(0)` that only triggers `readable` |
| `Readable.OverlookedRun` | lib/_stream_readable.js:352-368 | a run in which it is: the end of an empty source is pushed before the first listener of `readable` comes |
| `Readable.EndIsFinal` | lib/_stream_readable.js:886-893 | after `end` no event delivers, accepts or ends anything again |
| `Readable.Conservation` | lib/_stream_readable.js:117-155 | on every run of push, unshift, end and read: delivered followed by buffered is supplied, where an unshift that is no put-back inserts into what was supplied at the place the reader has reached; `length` is what is buffered, the non-empty error is never thrown, and `end` is emitted at most once, after everything was delivered |
| `ReadableHistory.RunHistory` | lib/_stream_readable.js:117-420 | on every run without unshift what was supplied are the chunks pushed before the end, and what was delivered is what the calls of `read` returned |
| `ReadableHistory.Delivery` | lib/_stream_readable.js:117-420 | so the reader gets a prefix of what was pushed, the rest is in the buffer, and after `end` it got everything |
| `ReadableHistory.DeliveryWithPutBacks` | lib/_stream_readable.js:117-420 | on every run, with unshift at any time: what the calls of `read` return is what a plain line of items gives, which chunks join at its end or, put back, at its front; and the reader gets everything pushed and put back but for what is still buffered |
| `Readable.ReadGives` | lib/_stream_readable.js:195-335 | if that much is buffered `read(n)` returns exactly the first n items, also if `_read` pushes more |
| `Readable.ReadRest` | lib/_stream_readable.js:216-226 | an ended stream gives the rest however much is asked for, and `end` follows |
| `ReadableRoom.EnoughMeans` | lib/_stream_readable.js:166-171 | what the answer of `push` means |
| `ReadableRoom.NeverMuchMore` | lib/_stream_readable.js:117-420 | on every run whose source pushes only after an answer that allows it, with no reader waiting for more than there is: never more is buffered than the highest mark so far and one chunk |
| `ReadableRoom.NothingMeansWaiting` | lib/_stream_readable.js:311-327 | a reader that is given nothing before the end waits |
| `ReadableRoom.ReaderIsTold` | lib/_stream_readable.js:147-151 | on every run on which a waiting reader does not ask again: as soon as something new is buffered it was told, exactly once |
| `ReadableAsks.SourceIsAsked` | lib/_stream_readable.js:282-303 | after every `read` a source that answers later is being asked, unless its end was seen or more than the mark is left; a `read(0)` with exactly the mark there only says `readable` |
| `ReadableAsks.OneAtATime` | lib/_stream_readable.js:289-292 | a source that has not answered is not asked again |
| `ReadableAsks.AskForMore` | lib/_stream_readable.js:195-230 | asking for more than there is takes nothing, and raises the mark so far that the source is asked until there is as much |
| `ReadableAsks.ReadWithoutSize` | lib/_stream_readable.js:195-335 | `read()` gives everything buffered, also what `_read` pushes meanwhile; of a flowing stream the first chunk |
| `ReadableAsks.OneObject` | lib/_stream_readable.js:195-230 | in object mode a read other than `read(0)` gives the first object, as long as there is one |
| `ReadableAsks.DeferredByCall` | lib/_stream_readable.js:373-386 | while `_read` runs `readable` is not emitted, whatever it pushes |
| `ReadableAsks.ToldAtOnce` | lib/_stream_readable.js:373-386 | data that comes later is announced at once to a waiting reader |
| `ReadableAsks.AskingAnew` | lib/_stream_readable.js:238-239 | whoever asks for something is due to be told anew: after the call `readable` was not said since, or once during it |
| `ReadableAsks.EndIsTold` | lib/_stream_readable.js:352-368 | the end is announced to a reader that was not told, if something is left to read |
| `ReadableAsks.ListenerIsTold` | lib/_stream_readable.js:665-677 | a listener that comes while the source is being asked is told of what is there |
| `ReadableAsks.ReadsAhead` | lib/_stream_readable.js:408-420 | reading ahead stops only at the mark, at the end, or when the source answers later, if the source brings something each time it answers at once |
| `LinkList.Init` | lib/_linklist.js:3-6 | a list object alone is a ring |
| `LinkList.Peek` | lib/_linklist.js:11-14 | the first item behind the list object, or null |
| `LinkList.Remove` | lib/_linklist.js:28-39 | the ring without the item is a ring, the item is detached |
| `LinkList.Append` | lib/_linklist.js:44-50 | the item comes just before the given place of the ring, in the order of `_idlePrev`; at the list object that is the end |
| `LinkList.IsEmpty` | lib/_linklist.js:54-56 | true exactly if the list object is alone |
| `UnrefTimers.UnrefTimers.EnrollItem` | lib/timers.js:124-136 | an item that is in a list is taken out, the timeout is capped |
| `UnrefTimers.UnrefTimers.UnenrollItem` | lib/timers.js:107-120 | the item is taken out of the list, wherever it is |
| `UnrefTimers.UnrefTimers.FindPlace` | lib/timers.js:437-442 | the search stops at the first item that expires later |
| `UnrefTimers.UnrefTimers.UnrefActive` | lib/timers.js:401-459 | the pointer operations put the item in its place by expiry and reschedule the timer as the machine on values says |
| `UnrefTimers.UnrefTimers.UnrefTimeout` | lib/timers.js:360-398 | the handler with its callbacks is the pass of the machine on values; it ends because every round takes out an expired item and no callback adds one |
| `Timers.ApplyKeeps` | lib/timers.js:107-136 | every call, also from inside a callback, keeps the list sorted and without doubles and the timer not later than the first expiry |
| `Timers.OthersStay` | lib/timers.js:401-459 | a call takes no other item out of the list, and an activated item is in it with its expiry |
| `Timers.PlacedBehind` | lib/timers.js:433-458 | the item is put behind everything that expires as early or earlier, so equal ones fire in the order of their activation |
| `Timers.FireKeeps` | lib/timers.js:360-398 | a pass of the handler leaves nothing that had expired when it began, and the timer armed for exactly the first item, whatever the callbacks do |
| `Timers.FireExact` | lib/timers.js:360-398 | with callbacks that leave the timers alone exactly the expired items fire, the earliest first, and the others stay |
| `Timers.FiresOnce` | lib/timers.js:360-398 | whatever the callbacks do only items fire that had expired when the pass began, each at most once, in order of expiry |
| `Timers.ExpiredDistinct` | lib/timers.js:360-398 | the expired items are distinct items of the list |
| `Timers.NeverLate` | lib/timers.js:360-459 | between any two events of every run the list is sorted and the timer is armed for a time that is not after the first expiry |
| `Timers.StartedFor` | lib/timers.js:414-459 | a call starts the timer only for an activated item, for exactly its expiry, when nothing else waits or it was set to a later time |
| `Timers.UnenrolledStaysOut` | lib/timers.js:107-120 | after `unenroll` activating the item changes nothing |
| `Timers.NeverTooLong` | lib/timers.js:124-136 | on every run no timeout is longer than the longest that a timer takes |
| `PosixPath.NormalizeArray` | lib/path.js:12-36 | the pass from right to left that takes parts out and counts `up` is the evaluation from left to right with a stack |
| `PosixPath.NormalizePath` | lib/path.js:330-348 | the parts are evaluated, nothing becomes a dot, and a slash at the end is kept |
| `PosixPath.ResolvePaths` | lib/path.js:299-326 | the loop gathers the paths from the right up to the first absolute one, the working directory being the last |
| `PosixPath.Trim` | lib/path.js:372-385 | what `trim` returns for every array |
| `PosixPath.TrimExact` | lib/path.js:384-384 | that is the part between the outer empty elements if and only if there is none in front, since `slice` is given a length for an end |
| `PosixPath.RelativePath` | lib/path.js:368-407 | `relative`: up from where the two part, then down |
| `PosixPath.PartsOfJoin` | lib/path.js:316-318 | joining names and splitting again changes nothing |
| `PosixPath.WalkIsLevel` | lib/path.js:12-36 | from every directory a path leads where its stack evaluation says |
| `PosixPath.NormalizeTwice` | lib/path.js:330-348 | `normalize` is idempotent |
| `PosixPath.NormalizeLeads` | lib/path.js:330-348 | a normalized path leads where the path does, from every directory |
| `PosixPath.ResolveIsCd` | lib/path.js:299-326 | with an absolute working directory `resolve` gives the directory that changing to one path after the other leads to |
| `PosixPath.ResolveIsNormal` | lib/path.js:299-326 | for every working directory what `resolve` gives is a normalized path, and never empty |
| `PosixPath.RelativeLeads` | lib/path.js:396-407 | from one directory the relative parts lead to the other |
| `PosixPath.RelativeIsShortest` | lib/path.js:386-407 | no shorter path leads there, and no other one that is as short |
| `PosixPath.RelativeResolves` | lib/path.js:368-407 | resolve(from, relative(from, to)) is resolve(to) for every absolute working directory |
| `UriComponent.EscapeRoundTrip` | lib/querystring.js:93-95 | decodeURIComponent undoes encodeURIComponent (section 15.1.3 of ECMA-262, 5.1) for every well-formed text |
| `UriComponent.EscapeClean` | lib/querystring.js:93-95 | an escaped text has no separator in it |
| `UriComponent.EscapeKeeps` | lib/querystring.js:93-95 | exactly the texts of the characters that section 15.1.3 of ECMA-262 leaves alone stay as they are; every other one gets longer |
| `UriComponent.CapitalEscapes` | lib/querystring.js:93-95 | escapes are written with capital letters |
| `UriComponent.DecodableIff` | lib/querystring.js:177-183 | decodeURIComponent throws on an ASCII text if and only if a percent sign begins no escape or the bytes are not the UTF-8 of a text |
| `UriComponent.UnescapeBuffer` | lib/querystring.js:22-85 | the state machine, which writes one byte too many and cuts it off, decodes valid escapes and keeps everything else |
| `UriComponent.UnescapeAgrees` | lib/querystring.js:21-90 | what decodeURIComponent can decode `unescape` decodes to the same text, for every ASCII text |
| `UriComponent.UnescapeKeeps` | lib/querystring.js:46-76 | what only begins like an escape stays as it is, wherever it breaks off |
| `UriComponent.UnescapeSpaces` | lib/querystring.js:37-42 | a plus becomes a space if that is asked for |
| `QueryString.Parse` | lib/querystring.js:141-195 | the loop over the pieces, up to `maxKeys`; QueryString.PlusText, PlusIsEscaped and KeyLimit say what it makes of plus signs and of the limit |
| `QueryString.ItemRoundTrip` | lib/querystring.js:165-179 | one item is parsed back to its key and value |
| `QueryString.BareKey` | lib/querystring.js:169-175 | an item without an equals sign is a key with an empty value |
| `QueryString.KeyUpToEquals` | lib/querystring.js:165-179 | the key ends at the first equals sign; others belong to the value |
| `QueryString.PlusItem` | lib/querystring.js:165-179 | an item in which any of the escaped spaces are written as plus signs is parsed to the same key and value |
| `QueryString.PlusText` | lib/querystring.js:141-195 | for every text, well formed or not: writing escaped spaces as plus signs does not change what is parsed |
| `QueryString.PlusIsEscaped` | lib/querystring.js:165-179 | a plus in what is decoded comes from an escaped one |
| `QueryString.EachOnItsOwn` | lib/querystring.js:177-183 | of an ASCII item each side is decoded on its own, although both are unescaped if one cannot be decoded |
| `QueryString.ValueSpoilsKey` | lib/querystring.js:177-183 | an instance beyond ASCII in which a broken value changes the key |
| `QueryString.KeyLimit` | lib/querystring.js:153-162 | never more keys than the limit; of an object with more items exactly the first ones are read |
| `QueryString.StringifyItems` | lib/querystring.js:119-130 | the text is the join of all items, also of those of arrays |
| `QueryString.AddOwn` | lib/querystring.js:185-191 | the items of one key build up a string or an array; those of "__proto__" nothing |
| `QueryString.ParseStringify` | lib/querystring.js:114-195 | for every object of distinct keys with strings or arrays of at least two, within `maxKeys`, parsing the text gives everything back except what "__proto__" had |
| `QueryString.RoundTripIff` | lib/querystring.js:114-195 | it is the object itself if and only if "__proto__" is not one of its keys |
| `MergeTags.MergeTagLists` | doc/sh_main.js:342-393 | the two-index loop, which overwrites highlighting tags in place, gives the merged list and ends |
| `MergeTags.MergeSorted` | doc/sh_main.js:342-393 | the merged list is sorted |
| `MergeTags.MergeKeepsOriginals` | doc/sh_main.js:342-393 | the original tags are all there, in their order |
| `MergeTags.MergeKeepsText` | doc/sh_main.js:342-393 | at every place of the text the same original elements are open, and innermost exactly the highlighting of that place |
| `MergeTags.MergeBalanced` | doc/sh_main.js:342-393 | the merged list is balanced if and only if the original one is |
| `Highlighter.Select` | doc/sh_main.js:166-192 | the search with the match cache and its early exit selects the pattern and match of the uncached search, and leaves a usable cache |
| `Highlighter.BestIsFirst` | doc/sh_main.js:185-191 | that is the earliest match, of the first pattern that has it |
| `Highlighter.CacheGoesOn` | doc/sh_main.js:174-184 | the cache stays usable while the position advances |
| `Highlighter.HighlightLine` | doc/sh_main.js:150-240 | the whole loop over a line gives the tags, styles and pattern stack of the uncached one |
| `Highlighter.FitForMerging` | doc/sh_main.js:93-128 | the tags of every highlighted line are pairs that do not overlap and are not empty, which is what merging asks for |
| `HighlightColours.EnvironmentHolds` | doc/sh_main.js:220-235 | from where a state is entered to where it is left its patterns are in force outside of what is entered in between, and text without a style of its own has the style of the environment; leaving restores what was before, leaving all leaves nothing |
| `HighlightColours.LineColours` | doc/sh_main.js:93-237 | the tags of a line say at each of its places the style that its matches give it: that of the pattern or subexpression it belongs to, or of the environment |
| `HighlightColours.LineInDocument` | doc/sh_main.js:93-393 | merged with the tags of the document, every place of the line is inside the same elements as before and, inside these, has exactly that style |
| `HighlightText.HighlightString` | doc/sh_main.js:131-250 | the loop over the lines gives the tags of the whole text |
| `HighlightText.TextStack` | doc/sh_main.js:220-247 | after any number of lines the pattern stack is that of all patterns taken so far; the ends of lines do not count |
| `HighlightText.EnvironmentGoesOn` | doc/sh_main.js:153-164 | an environment that was entered on some line and not left holds at the beginning of the next one |
| `HighlightText.InsideFits` | doc/sh_main.js:147-247 | if what is found lies in its line no line reaches into the next one |
| `HighlightText.TextInDocument` | doc/sh_main.js:93-393 | for every text: merged with the tags of the document, every place is inside the same elements as before and, inside these, has exactly the style that the matches of its line give it, and none between two lines |

## Left out

Weaker than the source, by member:

- Punycode.Ucs2Decode: bit masks are written as arithmetic on ranges.
- WritableTheorems.InvHolds: of failing later completions only those that find the stream corked or nothing buffered take part in a run; `WritableOrder.OrderIff` and `WritableOrder.AnyAccounting` hold for the others too.
- Writable.WritableStream.WriteChunk: conversion of strings to buffers and the check of the chunk's type are not modelled.
- Writable.WritableStream.EndStream: the callback given to `end` is not modelled.
- Writable.WritableStream.RunOnePiece: listeners of error, drain, prefinish and finish do not call the stream again.
- WritableOutcome.CallbackOrder: claimed for runs whose later completions find no callback due; a completion may otherwise run its callback before a deferred one.
- Cluster.RoundRobinHandle.AddWorker: the time before the server has bound its port is not modelled.
- ClusterSystem.RunInv: a worker that asks for the server while it is registered, or for a handle that was closed, is not read by the master; `ClusterLimits.EarlyQueryRun` leaves out only the condition on due replies.
- Ipc.Target.SendMessage: conversion of handles, disconnection and failed writes are not modelled.
- IpcFraming.Reader.OnRead: parsing JSON is left to the receiver; the texts have no newline in them.
- Debugger.ProtocolParser.ParseHeader: of the forms that JavaScript converts to a number, decimal digits with or without a sign and the empty text are modelled; fractions, exponents, hexadecimal digits, `Infinity` and surrounding space count as no number.
- DebuggerChunks.AnyChunking: for numbers in the forms that `ParseHeader` reads.
- DebuggerEnds.EndsIff: for inputs in which a body met ends in front of the text only `ShrinksIff` for each round, and `NegativeForever`, are given.
- Debugger.ProtocolParser.NewRes: `reqSeq` and the parsing of the body as JSON are not modelled.
- StringDecoder.Decoder.Write: StringDecoder has no UTF-16 and no text that ends in half a surrogate pair; texts are made of Unicode scalars.
- HttpPipeline.Pipelined: no 100-continue, and nobody writes to a response after its `finish`; what is written is what `HttpOutgoing.Accepted` takes, so no plain text in ascii.
- HttpChunked.ChunkedDelivery: trailer lines have no carriage return; text in ascii does not take part, nor what `ChunkIff` says is not one chunk.
- HttpDelivery.ClientReads: the client knows the headers and the lengths they announce, which are those of the bodies; parsing them is not modelled, and nobody writes to a response after its `end`.
- HttpOutgoing.BufferedBytes: hexadecimal text of an odd length, for which the socket's `write` throws, counts as no bytes; of base64 text that leaves a group open `Changed` compares the bytes.
- HttpOutgoing.OutgoingMessage.WriteRawData: a socket is what was written to it and whether it is open, and does not change while the output is written.
- ReadableStream.Stream.ReadData: what `_read` does before it returns is a list of pushes and unshifts; 'readable' listeners do not run inside a call.
- ReadableStream.Stream.ReadableAddChunk: no decoder, and the flags of the state are kept in two records instead of separate fields.
- ReadableStream.RoundUpToNextPowerOf2: works on 32-bit vectors; its contract and that of `RoundUpLeast` are the same property in the two number systems.
- UnrefTimers.UnrefTimers.UnenrollItem: the lists of ordinary timers, in which an item could be instead, are not modelled.
- UnrefTimers.UnrefTimers.UnrefTimeout: no callback throws, and the clock does not go back during a pass.
- PosixPath.ResolveIsCd: for a working directory that is not absolute only the method contract of `resolve` is given.
- QueryString.ParseStringify: keys and values are well-formed Unicode; separators are the default ones.
- Highlighter.HighlightLine: regular expressions are an abstract finder whose result depends only on the place; rounds are counted because empty matches may go on forever; an environment whose style is a list gives no style.
- HighlightText.TextInDocument: the lines are given, and what is put out for a match is no more than the match, so subexpressions are not nested.
- MergeTags.MergeTagLists: a clone of a node is the same value.

Not modelled at all:

- `NodeBIO` `IndexOf`, `Gets`, `Reset` and the destructor: `IndexOf` and `Reset` ask for a read head that is not left drained in front of data.
- Shared (not round-robin) handles, settings and forking in lib/cluster.js, and the spawning side of lib/child_process.js.
- Header assembly, dates and keep-alive in lib/_http_outgoing.js: a header is an opaque non-empty text.
- `toASCII` and `toUnicode` in lib/punycode.js.
- `pipe`, flowing and old-mode readable streams.
- Ordinary timers, intervals and immediates in lib/timers.js.
- `join`, `dirname`, `basename`, `extname` and Windows paths in lib/path.js.
- `sh_insertTags`, link targets and the rest of the DOM code in doc/sh_main.js.
- Native bindings, and everything that depends on engines not written in the repository's own JavaScript or C++ queue code.
