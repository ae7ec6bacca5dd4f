# hadoop-openpgp-codec in Dafny

A model of the core of the Hadoop OpenPGP codec, with proofs about it. The
codec turns Hadoop's pull-style `Compressor`/`Decompressor` interfaces into
Java stream chains, and plugs OpenPGP encryption and decryption into those
chains.

The model is written one module per core Java file:

- `StreamCompressor` is a class over arrays. It models the compressor adapter:
  - The caller hands in input windows (`setInput`) and pulls output into its
    own windows (`compress`).
  - What the stream chain emits beyond the caller's window waits in a
    growable FIFO buffer (`SelfOutputStream`).
  - Two ghost fields, `Buffered` and `Pending`, hold the buffered bytes and
    the unread input.
  - `compress` is proved to hand out exactly the front of buffer-then-input
    (`Queue`), and to keep the rest in order.
- `StreamDecompressor` is a class. It models the decompressor adapter:
  - The worker thread is sequentialised: `Serve` is one turn of its loop and
    `Pump` the loop over a queue of requests.
  - `Pump` is proved against `Run`, a function over the worker's state.
  - The lemmas prove that a run reads the input window from the front, and
    that a finished input stays finished.
- `MultipleClosingOutputStream` is a class whose `Close` closes the streams
  last to first and stops at the first failure. A ghost journal records the
  order of the close calls.
- `OpenPgpCompressor` covers the configuration getters and the static chain
  builder. The chain of streams is a list of layers (target, encryption,
  compression, literal data). Proofs cover its shape and error cases, the
  algorithm tables and the defaults.
- `OpenPgpDecompressor` is the depth-first search for the first literal data
  packet in an abstract packet tree. It is proved equal to "the first event
  in depth-first order", together with the error wrapping of
  `createInputStream`.
- `GnuPgUtils` covers:
  - the default key ring path;
  - hexadecimal key ID parsing;
  - the key lookup, a nested loop proved against a function over the
    flattened key rings.
- `EnumUtils` turns the fields of a class into records. The mapping is built
  by a loop proved against a fold. Lemmas characterise its keys and values:
  the last entered field with a given name wins.

`Common` holds what the modules share:

- bytes, `Option`/`Result` and the Java exceptions;
- the Hadoop configuration as a map from strings to strings, with `getInt`
  and `getBoolean`;
- `System.arraycopy`.

The `*Scenarios` files drive the classes the way the repository's unit tests
do. They work on any twelve bytes where the tests use "Hello World!". The
compressor's tests build their compressors with the one-argument constructor
and a null configuration. As written that constructor throws
NullPointerException (see "## Left out"), so the compressor scenarios build
them with the two-argument constructor, an empty configuration and the default
initial size of 1024 instead.

## Model

| member | source | states |
|---|---|---|
| StreamCompressor.ConfiguredInitialBufferSize | src/main/java/com/spotify/hadoop/openpgp/StreamCompressor.java:56-58 | the initial buffer size is 1024 unless configured, else the configured integer or its parse error |
| StreamCompressor.GrowthExponent | src/main/java/com/spotify/hadoop/openpgp/StreamCompressor.java:205-211 | the doubling loop stops at the first doubling (at least one) that holds the needed bytes, and no earlier |
| StreamCompressor.GrowthExponentFrom | src/main/java/com/spotify/hadoop/openpgp/StreamCompressor.java:207-210 | the loop from its k-th doubling on ends at the least doubling that holds the needed bytes |
| StreamCompressor.GrownCapacity | src/main/java/com/spotify/hadoop/openpgp/StreamCompressor.java:207-210 | the loop's result is the capacity doubled the least number of times, at least once, that holds what is needed |
| StreamCompressor.StreamCompressor.constructor | src/main/java/com/spotify/hadoop/openpgp/StreamCompressor.java:68-72 | a fresh buffer of at least the initial size; the bytes the chain wrote while being built are buffered; counters zero, no input, not finished, not closed |
| StreamCompressor.StreamCompressor.WriteHeader | src/test/java/com/spotify/hadoop/openpgp/StreamCompressorTest.java:130-140 | the headed test chain's three writes while it is built append the header to the buffer |
| StreamCompressor.StreamCompressor.SetInput | src/main/java/com/spotify/hadoop/openpgp/StreamCompressor.java:74-78 | the pending input becomes the given window; buffer, counters and flags are unchanged |
| StreamCompressor.StreamCompressor.NeedsInput | src/main/java/com/spotify/hadoop/openpgp/StreamCompressor.java:80-82 | input is wanted exactly when nothing is pending and finish was not called |
| StreamCompressor.StreamCompressor.SetDictionary | src/main/java/com/spotify/hadoop/openpgp/StreamCompressor.java:84-86 | always UnsupportedOperationException |
| StreamCompressor.StreamCompressor.Finish | src/main/java/com/spotify/hadoop/openpgp/StreamCompressor.java:96-98 | sets the finish flag |
| StreamCompressor.StreamCompressor.Finished | src/main/java/com/spotify/hadoop/openpgp/StreamCompressor.java:100-102 | finished exactly when finish was called, the buffer and the input are empty and the chain is closed |
| StreamCompressor.StreamCompressor.Compress | src/main/java/com/spotify/hadoop/openpgp/StreamCompressor.java:104-141 | returns min(len, queue length), where the queue is the buffered bytes then (if the buffer drains and the chain is open) the pending input; those bytes land at b[off..] and nothing else of b changes; the rest of the queue stays buffered in order; counters advance by what was handed out and what the chain took; the chain is closed when finish was called; after finish a short return means finished |
| StreamCompressor.StreamCompressor.CompressFromBuffer | src/main/java/com/spotify/hadoop/openpgp/StreamCompressor.java:105-115 | the early return: only buffered bytes are handed out, in order, and the rest stays buffered |
| StreamCompressor.StreamCompressor.CompressThroughChain | src/main/java/com/spotify/hadoop/openpgp/StreamCompressor.java:104-140 | with room left after the buffer, all pending input goes through the chain; what fits follows the buffered bytes in b, the rest is buffered; the read count grows by the input length and the chain closes when finished |
| StreamCompressor.StreamCompressor.Drain | src/main/java/com/spotify/hadoop/openpgp/StreamCompressor.java:105-113 | the oldest n buffered bytes are copied to b[off..] and dropped from the buffer; written count grows by n |
| StreamCompressor.StreamCompressor.CopyOut | src/main/java/com/spotify/hadoop/openpgp/StreamCompressor.java:108 | b[off..off+n] becomes the first n buffered bytes; the rest of b is unchanged |
| StreamCompressor.StreamCompressor.Consume | src/main/java/com/spotify/hadoop/openpgp/StreamCompressor.java:109-113 | the buffer loses exactly its first n bytes, counted as written |
| StreamCompressor.StreamCompressor.Feed | src/main/java/com/spotify/hadoop/openpgp/StreamCompressor.java:121-140 | the pending input passes through the chain: its front fills the caller's window, its rest is buffered, it is counted as read, and the chain closes when finish was called |
| StreamCompressor.StreamCompressor.PassInput | src/main/java/com/spotify/hadoop/openpgp/StreamCompressor.java:121-127 | the window receives min(len, input) bytes of the input and the remainder is buffered; input is emptied and counted |
| StreamCompressor.StreamCompressor.CloseIfFinished | src/main/java/com/spotify/hadoop/openpgp/StreamCompressor.java:131-134 | the chain is closed exactly when finish was called |
| StreamCompressor.StreamCompressor.ClearOutput | src/main/java/com/spotify/hadoop/openpgp/StreamCompressor.java:137-140 | the output window is cleared and the bytes written into it are counted |
| StreamCompressor.StreamCompressor.Reinit | src/main/java/com/spotify/hadoop/openpgp/StreamCompressor.java:143-148 | input and buffer are emptied and the output window cleared; counters and flags are kept |
| StreamCompressor.StreamCompressor.Reset | src/main/java/com/spotify/hadoop/openpgp/StreamCompressor.java:150-152 | a reinit with the same configuration |
| StreamCompressor.StreamCompressor.End | src/main/java/com/spotify/hadoop/openpgp/StreamCompressor.java:154-163 | the chain is closed exactly once over the object's life; closing it marks the compressor finished |
| StreamCompressor.StreamCompressor.DirectCount | src/main/java/com/spotify/hadoop/openpgp/StreamCompressor.java:192-194 | a write places at most min(len, room in the window) bytes directly |
| StreamCompressor.StreamCompressor.WriteDirect | src/main/java/com/spotify/hadoop/openpgp/StreamCompressor.java:192-202 | the first min(len, room) bytes go straight into the caller's window, whose offset and room move by that much |
| StreamCompressor.StreamCompressor.Regrow | src/main/java/com/spotify/hadoop/openpgp/StreamCompressor.java:205-215 | a fresh buffer of the least doubled capacity that fits holds the same bytes from offset 0 |
| StreamCompressor.StreamCompressor.ShiftToFront | src/main/java/com/spotify/hadoop/openpgp/StreamCompressor.java:216-219 | the buffered bytes move to offset 0 unchanged |
| StreamCompressor.StreamCompressor.MakeRoom | src/main/java/com/spotify/hadoop/openpgp/StreamCompressor.java:205-219 | afterwards the buffer starts at 0 and has room for the extra bytes; it grows only when they did not fit |
| StreamCompressor.StreamCompressor.Store | src/main/java/com/spotify/hadoop/openpgp/StreamCompressor.java:223-225 | the data is appended after the buffered bytes |
| StreamCompressor.StreamCompressor.Append | src/main/java/com/spotify/hadoop/openpgp/StreamCompressor.java:205-225 | the buffer becomes old buffer + data, growing by doubling only when needed |
| StreamCompressor.StreamCompressor.Write | src/main/java/com/spotify/hadoop/openpgp/StreamCompressor.java:191-226 | the chain's write: the direct part goes into the caller's window, the rest is appended to the buffer in order |
| StreamCompressor.StreamCompressor.WriteThrough | src/main/java/com/spotify/hadoop/openpgp/StreamCompressor.java:192-226 | with an empty buffer and room in the window, what fits goes to the window and the rest becomes the buffer |
| StreamCompressor.StreamCompressor.AppendByte | src/main/java/com/spotify/hadoop/openpgp/StreamCompressor.java:236-250 | one byte is appended to the buffer; capacity doubles exactly when the buffer was full |
| StreamCompressor.StreamCompressor.DoubleCapacity | src/main/java/com/spotify/hadoop/openpgp/StreamCompressor.java:236-241 | a fresh buffer of twice the capacity holds the same bytes |
| StreamCompressor.StreamCompressor.WriteByte | src/main/java/com/spotify/hadoop/openpgp/StreamCompressor.java:228-251 | the low eight bits go to the window when the buffer is empty and the window has room, else to the end of the buffer; nothing else changes |
| StreamCompressorScenarios.Created | src/test/java/com/spotify/hadoop/openpgp/StreamCompressorTest.java:14-23 | a fresh compressor needs input, has counted nothing and is not finished |
| StreamCompressorScenarios.InputThenFinish | src/test/java/com/spotify/hadoop/openpgp/StreamCompressorTest.java:25-44 | after input it needs none; after finish it is still not finished |
| StreamCompressorScenarios.CompressOnce | src/test/java/com/spotify/hadoop/openpgp/StreamCompressorTest.java:46-61 | one compress into a larger window returns all twelve bytes in order and finishes |
| StreamCompressorScenarios.CompressTwice | src/test/java/com/spotify/hadoop/openpgp/StreamCompressorTest.java:63-80 | 6 then 6 bytes, not finished in between, finished after, the output is the input |
| StreamCompressorScenarios.FirstWindow | src/test/java/com/spotify/hadoop/openpgp/StreamCompressorTest.java:87-92 | the first window of input comes out after whatever the chain wrote while being built |
| StreamCompressorScenarios.SecondWindow | src/test/java/com/spotify/hadoop/openpgp/StreamCompressorTest.java:94-97 | the second window, once finished, comes out right after the first |
| StreamCompressorScenarios.InputTwice | src/test/java/com/spotify/hadoop/openpgp/StreamCompressorTest.java:82-100 | two input windows give 6 and 6 bytes whose concatenation is the input |
| StreamCompressorScenarios.HeadedTwice | src/test/java/com/spotify/hadoop/openpgp/StreamCompressorTest.java:102-120 | a chain that writes a six-byte header while built gives 12 then 6 bytes: header then input |
| StreamDecompressor.Action.constructor | src/main/java/com/spotify/hadoop/openpgp/StreamDecompressor.java:218-223 | a request holds its window and flag and has no result yet |
| StreamDecompressor.Action.AsRequest | src/main/java/com/spotify/hadoop/openpgp/StreamDecompressor.java:247-257 | an end request is exactly one with length -1; a well-formed non-end request can be served |
| StreamDecompressor.Action.SetResult | src/main/java/com/spotify/hadoop/openpgp/StreamDecompressor.java:270-273 | stores the count as the result |
| StreamDecompressor.Action.SetMarker | src/main/java/com/spotify/hadoop/openpgp/StreamDecompressor.java:266-268 | stores the request itself (a marker) as the result |
| StreamDecompressor.Action.WaitForResult | src/main/java/com/spotify/hadoop/openpgp/StreamDecompressor.java:259-264 | returns the stored result, which is never "unset" |
| StreamDecompressor.Run | src/main/java/com/spotify/hadoop/openpgp/StreamDecompressor.java:139-159 | the loop serves a prefix of the requests and stops at the first it cannot serve (an end request) |
| StreamDecompressor.ReadCount | src/main/java/com/spotify/hadoop/openpgp/StreamDecompressor.java:187-198 | -1 exactly when no input is left and finish was called; otherwise the count is at most len and the input, and equals one of them |
| StreamDecompressor.Step | src/main/java/com/spotify/hadoop/openpgp/StreamDecompressor.java:143-158 | one turn keeps the chain open, finishes the input exactly when it was finished or an open chain is recreated, answers a buffered request with the read count and an unbuffered one with the marker, and the bytes read plus the input left are the input before |
| StreamDecompressor.RunServesPrefix | src/main/java/com/spotify/hadoop/openpgp/StreamDecompressor.java:143-158 | every request a run serves is servable |
| StreamDecompressor.RunReadsFront | src/main/java/com/spotify/hadoop/openpgp/StreamDecompressor.java:187-197 | the bytes a run reads never exceed the window and what remains is the window minus exactly that many front bytes |
| StreamDecompressor.RunKeepsFinished | src/main/java/com/spotify/hadoop/openpgp/StreamDecompressor.java:87-89 | once the input is finished it stays finished through any run |
| StreamDecompressor.StreamDecompressor.constructor | src/main/java/com/spotify/hadoop/openpgp/StreamDecompressor.java:43-53 | the worker is running, no chain built yet, no input, not finished |
| StreamDecompressor.StreamDecompressor.SetInput | src/main/java/com/spotify/hadoop/openpgp/StreamDecompressor.java:55-61 | the unread input becomes the given window |
| StreamDecompressor.StreamDecompressor.NeedsInput | src/main/java/com/spotify/hadoop/openpgp/StreamDecompressor.java:63-65 | input is wanted exactly when the window is empty and finish was not called |
| StreamDecompressor.StreamDecompressor.NeedsDictionary | src/main/java/com/spotify/hadoop/openpgp/StreamDecompressor.java:67-69 | never |
| StreamDecompressor.StreamDecompressor.SetDictionary | src/main/java/com/spotify/hadoop/openpgp/StreamDecompressor.java:71-73 | always UnsupportedOperationException |
| StreamDecompressor.StreamDecompressor.GetBytesRead | src/main/java/com/spotify/hadoop/openpgp/StreamDecompressor.java:75-77 | always 0: the counter is never updated |
| StreamDecompressor.StreamDecompressor.GetBytesWritten | src/main/java/com/spotify/hadoop/openpgp/StreamDecompressor.java:79-81 | always 0: the counter is never updated |
| StreamDecompressor.StreamDecompressor.GetRemaining | src/main/java/com/spotify/hadoop/openpgp/StreamDecompressor.java:83-85 | the number of unread input bytes |
| StreamDecompressor.StreamDecompressor.Finish | src/main/java/com/spotify/hadoop/openpgp/StreamDecompressor.java:87-89 | sets the finish flag |
| StreamDecompressor.StreamDecompressor.Finished | src/main/java/com/spotify/hadoop/openpgp/StreamDecompressor.java:91-93 | finished exactly when finish was called and no input is left |
| StreamDecompressor.StreamDecompressor.Read | src/main/java/com/spotify/hadoop/openpgp/StreamDecompressor.java:187-198 | -1 when the window is empty and finished, else min(len, window) front bytes copied (none from a window never set) to b[off..] and consumed; bytes are conserved (read + unread is unchanged) |
| StreamDecompressor.StreamDecompressor.ReadAsWritten | src/main/java/com/spotify/hadoop/openpgp/StreamDecompressor.java:187-198 | as written: before any input and before finish, the copy from the missing array is NullPointerException and nothing changes; otherwise the read count |
| StreamDecompressor.StreamDecompressor.Consume | src/main/java/com/spotify/hadoop/openpgp/StreamDecompressor.java:193-195 | the window loses exactly its first n bytes, which are appended to what was read |
| StreamDecompressor.StreamDecompressor.ReadByteAsWritten | src/main/java/com/spotify/hadoop/openpgp/StreamDecompressor.java:200-208 | as written: -1 on an empty window; else the byte after the window, or ArrayIndexOutOfBoundsException when the window ends at the array's end |
| StreamDecompressor.StreamDecompressor.ReadByte | src/main/java/com/spotify/hadoop/openpgp/StreamDecompressor.java:200-208 | -1 on an empty window, else the first unread byte as 0..255, consumed |
| StreamDecompressor.StreamDecompressor.CloseSelf | src/main/java/com/spotify/hadoop/openpgp/StreamDecompressor.java:179-181 | closing the adapter's own stream marks the input finished |
| StreamDecompressor.StreamDecompressor.PrepareStream | src/main/java/com/spotify/hadoop/openpgp/StreamDecompressor.java:148-153 | a chain exists afterwards; a new one is built when there was none or on recreate, and closing the old one marks the input finished |
| StreamDecompressor.StreamDecompressor.Serve | src/main/java/com/spotify/hadoop/openpgp/StreamDecompressor.java:144-158 | one turn equals Step on the worker state: an end request changes nothing; a buffered request gets the read count and its bytes; an unbuffered one gets the marker |
| StreamDecompressor.StreamDecompressor.Shutdown | src/main/java/com/spotify/hadoop/openpgp/StreamDecompressor.java:168-175 | the worker stops and closes its chain, if any, which marks the input finished |
| StreamDecompressor.StreamDecompressor.Decompress | src/main/java/com/spotify/hadoop/openpgp/StreamDecompressor.java:95-101 | returns the read count of the chain (identity) for the request and fills b[off..] with the front of the window |
| StreamDecompressor.StreamDecompressor.Reinit | src/main/java/com/spotify/hadoop/openpgp/StreamDecompressor.java:103-111 | the worker rebuilds its chain (closing the old one marks the input finished); the input window is untouched |
| StreamDecompressor.StreamDecompressor.Reset | src/main/java/com/spotify/hadoop/openpgp/StreamDecompressor.java:113-115 | a reinit with the same configuration |
| StreamDecompressor.StreamDecompressor.End | src/main/java/com/spotify/hadoop/openpgp/StreamDecompressor.java:117-125 | the worker stops and its chain is closed; no input is consumed |
| StreamDecompressor.StreamDecompressor.Turn | src/main/java/com/spotify/hadoop/openpgp/StreamDecompressor.java:143-175 | one loop turn equals Step, or stops the worker with its chain closed at an end request |
| StreamDecompressor.StreamDecompressor.Advance | src/main/java/com/spotify/hadoop/openpgp/StreamDecompressor.java:143-159 | the k-th turn keeps the state in step with the run over the whole queue |
| StreamDecompressor.StreamDecompressor.Pump | src/main/java/com/spotify/hadoop/openpgp/StreamDecompressor.java:139-176 | the worker loop gives every request the result Run gives it, serves exactly as many as Run, ends in Run's state, and shuts down at an end request; later requests keep no result |
| StreamDecompressor.StreamDecompressor.DecompressAsWritten | src/main/java/com/spotify/hadoop/openpgp/StreamDecompressor.java:95-101 | as written: before any input and before finish the worker dies on the exception, having closed its chain, and the caller gets no result; otherwise the read count |
| StreamDecompressorScenarios.Created | src/test/java/com/spotify/hadoop/openpgp/StreamDecompressorTest.java:10-20 | a fresh decompressor needs input, counts 0 and 0, has nothing remaining and is not finished |
| StreamDecompressorScenarios.InputThenFinish | src/test/java/com/spotify/hadoop/openpgp/StreamDecompressorTest.java:22-42 | after input: no input wanted, twelve remaining, not finished |
| StreamDecompressorScenarios.DecompressOnce | src/test/java/com/spotify/hadoop/openpgp/StreamDecompressorTest.java:44-60 | one request returns all twelve bytes in order, then finished with nothing remaining |
| StreamDecompressorScenarios.FirstHalf | src/test/java/com/spotify/hadoop/openpgp/StreamDecompressorTest.java:67-74 | a six-byte request returns the first six bytes and leaves the other six |
| StreamDecompressorScenarios.DecompressTwice | src/test/java/com/spotify/hadoop/openpgp/StreamDecompressorTest.java:62-80 | 6 then 6 bytes, not finished in between, finished after, the output is the input |
| StreamDecompressorScenarios.FirstWindow | src/test/java/com/spotify/hadoop/openpgp/StreamDecompressorTest.java:87-92 | a request over the first input window returns its six bytes |
| StreamDecompressorScenarios.InputTwice | src/test/java/com/spotify/hadoop/openpgp/StreamDecompressorTest.java:82-100 | two input windows give 6 and 6 bytes whose concatenation is the input |
| StreamDecompressorScenarios.ReadRecreateEnd | src/main/java/com/spotify/hadoop/openpgp/StreamDecompressor.java:143-159 | a read, a recreate and an end request: the read gets the whole window, the recreate the marker, and the run ends finished with the chain open |
| StreamDecompressorScenarios.PumpUntilEnd | src/main/java/com/spotify/hadoop/openpgp/StreamDecompressor.java:139-176 | the loop serves two requests, stops at the end request and leaves the request after it without a result |
| StreamDecompressorScenarios.ReadByteMisreads | src/main/java/com/spotify/hadoop/openpgp/StreamDecompressor.java:204 | for the window "AB" of "ABC" the as-written read returns 'C' and the corrected one 'A' |
| StreamDecompressorScenarios.ReadByteOverruns | src/main/java/com/spotify/hadoop/openpgp/StreamDecompressor.java:204 | for a window ending at the array's end the as-written read throws ArrayIndexOutOfBoundsException |
| StreamDecompressorScenarios.DecompressBeforeInputHangs | src/main/java/com/spotify/hadoop/openpgp/StreamDecompressor.java:193 | as written, a decompress on a fresh decompressor gets no result, and the worker has stopped |
| StreamDecompressorScenarios.DecompressBeforeInputReadsNothing | src/main/java/com/spotify/hadoop/openpgp/StreamDecompressor.java:187-198 | corrected, a decompress on a fresh decompressor returns 0 and input is still wanted |
| MultipleClosingOutputStream.Stream.Close | src/main/java/com/spotify/hadoop/openpgp/MultipleClosingOutputStream.java:56 | a downstream close is recorded in call order and either succeeds or throws the stream's error |
| MultipleClosingOutputStream.LastFailure | src/main/java/com/spotify/hadoop/openpgp/MultipleClosingOutputStream.java:55-56 | the index of the last stream whose close fails, with every later one succeeding |
| MultipleClosingOutputStream.ReversedIndex | src/main/java/com/spotify/hadoop/openpgp/MultipleClosingOutputStream.java:55 | the i-th element closed is the (n-1-i)-th stream |
| MultipleClosingOutputStream.MultipleClosingOutputStream.FromList | src/main/java/com/spotify/hadoop/openpgp/MultipleClosingOutputStream.java:34-37 | the last stream is the filter target and the whole list is kept |
| MultipleClosingOutputStream.MultipleClosingOutputStream.constructor | src/main/java/com/spotify/hadoop/openpgp/MultipleClosingOutputStream.java:44-47 | the single stream is both the target and the list |
| MultipleClosingOutputStream.MultipleClosingOutputStream.Close | src/main/java/com/spotify/hadoop/openpgp/MultipleClosingOutputStream.java:54-57 | closes from the last stream back to the last failing one, in reverse order; throws that failure, if any; every stream after it is closed and the ones before it are untouched |
| MultipleClosingOutputStream.Create | src/main/java/com/spotify/hadoop/openpgp/MultipleClosingOutputStream.java:34-37 | an empty list fails on get(-1) with ArrayIndexOutOfBoundsException (Java 8's `ArrayList`); otherwise a new stream over the list |
| MultipleClosingOutputStreamScenarios.MiddleFailure | src/main/java/com/spotify/hadoop/openpgp/MultipleClosingOutputStream.java:54-57 | three streams, the middle one failing: last then middle are closed, the middle's error is thrown, the first is never closed |
| MultipleClosingOutputStreamScenarios.AllClose | src/main/java/com/spotify/hadoop/openpgp/MultipleClosingOutputStream.java:54-57 | three streams all close, last to first, and nothing is thrown |
| EnumUtils.GetStaticFinalFieldMapping | src/main/java/com/spotify/hadoop/openpgp/EnumUtils.java:9-28 | the loop over the declared fields builds Mapping, the fold of puts over them |
| EnumUtils.MappingKeys | src/main/java/com/spotify/hadoop/openpgp/EnumUtils.java:12-21 | a name is a key exactly when some public static final int/Integer readable field has it |
| EnumUtils.MappingValue | src/main/java/com/spotify/hadoop/openpgp/EnumUtils.java:12-21 | the value under a name is that of the last entered field with that name |
| EnumUtils.MappingOfClass | src/main/java/com/spotify/hadoop/openpgp/EnumUtils.java:12-21 | for distinct field names (a Java class) each entered field maps its name to its value and every key comes from one |
| EnumUtils.MappingKeySet | src/main/java/com/spotify/hadoop/openpgp/EnumUtils.java:12-21 | when every field is entered the key set is exactly the set of field names |
| EnumUtilsScenarios.TestFieldMapping | src/test/java/com/spotify/hadoop/EnumUtilsTest.java:11-31 | the test class maps A to 1 and B to 2 and nothing else |
| GnuPgUtils.DefaultPubringFile | src/main/java/com/spotify/hadoop/openpgp/GnuPgUtils.java:32-39 | pubring.gpg under GNUPGHOME when set, else under user.home + separator + ".gnupg" ("null" for an unset user.home) |
| GnuPgUtils.HexValue | src/main/java/com/spotify/hadoop/openpgp/GnuPgUtils.java:44 | n hex digits have a value below 16^n |
| GnuPgUtils.ParseHexLong | src/main/java/com/spotify/hadoop/openpgp/GnuPgUtils.java:44 | Long.parseLong(s, 16): a signed 64-bit value, or NumberFormatException(s) |
| GnuPgUtils.MaskBitsAsWritten | src/main/java/com/spotify/hadoop/openpgp/GnuPgUtils.java:45 | the mask width as written: 4 times the length modulo 64 |
| GnuPgUtils.MaskBits | src/main/java/com/spotify/hadoop/openpgp/GnuPgUtils.java:45 | the mask width as intended: 4 bits per digit, at most 64 |
| GnuPgUtils.FirstMatch | src/main/java/com/spotify/hadoop/openpgp/GnuPgUtils.java:47-51 | the index of the first key whose masked ID equals the parsed ID, none before it matching |
| GnuPgUtils.Verdict | src/main/java/com/spotify/hadoop/openpgp/GnuPgUtils.java:51-58 | a matching key is returned exactly when it can encrypt and is not revoked, else IncompatibleKeyException |
| GnuPgUtils.Search | src/main/java/com/spotify/hadoop/openpgp/GnuPgUtils.java:47-63 | "key not found: " + ID exactly when no key matches; any other error is IncompatibleKeyException; a key returned is held, matches and is usable |
| GnuPgUtils.FindPublicKeyAsWritten | src/main/java/com/spotify/hadoop/openpgp/GnuPgUtils.java:41-64 | null exactly for a null ID; a bad ID is the parse error; a key returned matches the parsed ID under the as-written mask and is usable |
| GnuPgUtils.FindPublicKey | src/main/java/com/spotify/hadoop/openpgp/GnuPgUtils.java:41-64 | the same lookup with the intended mask of 4 bits per digit |
| GnuPgUtils.SearchFindsHeldKey | src/main/java/com/spotify/hadoop/openpgp/GnuPgUtils.java:47-58 | a key the search returns is held by one of the rings |
| GnuPgUtils.FlattenHolds | src/main/java/com/spotify/hadoop/openpgp/GnuPgUtils.java:47-48 | the iteration visits exactly the keys held by some ring |
| GnuPgUtils.GetPublicKey | src/main/java/com/spotify/hadoop/openpgp/GnuPgUtils.java:41-64 | the nested loop over rings and keys returns what FindPublicKey (with the intended mask) gives |
| GnuPgUtils.FoundKeyIsUsable | src/main/java/com/spotify/hadoop/openpgp/GnuPgUtils.java:41-58 | a null ID gives null and only it; a returned key is in some ring, matches the ID, can encrypt and is not revoked |
| GnuPgUtils.FoundKeyIsUsableAsWritten | src/main/java/com/spotify/hadoop/openpgp/GnuPgUtils.java:41-58 | the same for the lookup as written, with its mask |
| GnuPgUtils.NotFoundIffNoMatch | src/main/java/com/spotify/hadoop/openpgp/GnuPgUtils.java:47-63 | "key not found" exactly when no key in any ring matches |
| GnuPgUtils.AsWrittenAgreesBelowSixteen | src/main/java/com/spotify/hadoop/openpgp/GnuPgUtils.java:44-45 | for IDs shorter than sixteen digits the as-written and intended lookups agree |
| GnuPgUtils.FullIdMissedAsWritten | src/main/java/com/spotify/hadoop/openpgp/GnuPgUtils.java:45 | a full sixteen-digit non-zero ID of a usable key: as written "key not found", as intended the key |
| GnuPgUtils.ZeroIdTakesFirstKeyAsWritten | src/main/java/com/spotify/hadoop/openpgp/GnuPgUtils.java:44-58 | as written, sixteen zeros select the first key whatever its ID |
| OpenPgpCompressor.Unbox | src/main/java/com/spotify/hadoop/openpgp/OpenPgpCompressor.java:256 | a name missing from the table unboxes null: NullPointerException; else its tag |
| OpenPgpCompressor.CompressionTable | src/main/java/com/spotify/hadoop/openpgp/OpenPgpCompressor.java:47 | COMPRESSION_ALGORITHMS maps UNCOMPRESSED, ZIP, ZLIB, BZIP2 to 0..3 and nothing else |
| OpenPgpCompressor.EncryptionTablePrefix | src/main/java/com/spotify/hadoop/openpgp/OpenPgpCompressor.java:50 | the first six symmetric tags map NULL..SAFER to 0..5 |
| OpenPgpCompressor.EncryptionTable | src/main/java/com/spotify/hadoop/openpgp/OpenPgpCompressor.java:50 | ENCRYPTION_ALGORITHMS maps the eleven names NULL..TWOFISH to 0..10 and nothing else |
| OpenPgpCompressor.CreateChain | src/main/java/com/spotify/hadoop/openpgp/OpenPgpCompressor.java:104-151 | the list built step by step is Chain, the layer sequence of the static createOutputStream |
| OpenPgpCompressor.Chain | src/main/java/com/spotify/hadoop/openpgp/OpenPgpCompressor.java:104-151 | errors exactly for encryption without a key (wrapped IOException) or a negative buffer size (wrapped NegativeArraySizeException); otherwise target first, literal data (format as char) last, encryption second exactly when encrypting or signing, compression just before the literal layer exactly when compressing, nothing else between |
| OpenPgpCompressor.GetFormat | src/main/java/com/spotify/hadoop/openpgp/OpenPgpCompressor.java:238-246 | binary by default; the configured name is "binary" exactly when the result is b, "text" exactly when t, "utf-8" exactly when u; any other name is RuntimeException("unknown format") |
| OpenPgpCompressor.CompressionSetting | src/main/java/com/spotify/hadoop/openpgp/OpenPgpCompressor.java:253-257 | uncompressed by default; the upper-cased name must be in the table, else NullPointerException; UNCOMPRESSED, ZIP, ZLIB and BZIP2 each select exactly their tag 0, 1, 2, 3 |
| OpenPgpCompressor.GetCompressionAlgorithm | src/main/java/com/spotify/hadoop/openpgp/OpenPgpCompressor.java:253-257 | the upper-cased name (default "uncompressed") is the i-th of UNCOMPRESSED, ZIP, ZLIB, BZIP2 exactly when the tag is i; a name outside the table is NullPointerException |
| OpenPgpCompressor.GetPubringFile | src/main/java/com/spotify/hadoop/openpgp/OpenPgpCompressor.java:158-165 | the configured path, else the GnuPG default file |
| OpenPgpCompressor.GetPublicKeyById | src/main/java/com/spotify/hadoop/openpgp/OpenPgpCompressor.java:217-227 | by the lookup as written: no ID gives no key and only then; every failure is wrapped as KeyNotFoundException; a key found matches the parsed ID under the as-written mask, can encrypt and is not revoked |
| OpenPgpCompressor.PublicKeySetting | src/main/java/com/spotify/hadoop/openpgp/OpenPgpCompressor.java:208-227 | with the lookup as written: no key ID gives no key and only then; a failure is wrapped as KeyNotFoundException; a key found is usable, in the key ring and matches the ID under the as-written mask |
| OpenPgpCompressor.GetKey | src/main/java/com/spotify/hadoop/openpgp/OpenPgpCompressor.java:175-181 | the public key when one is configured and found, else the pass phrase when set, else no key; fails exactly when the key lookup fails |
| OpenPgpCompressor.HasKey | src/main/java/com/spotify/hadoop/openpgp/OpenPgpCompressor.java:268 | the test "a key was found or a pass phrase is set" holds exactly when GetKey gives a key; it fails exactly when GetKey fails |
| OpenPgpCompressor.SymmetricTag | src/main/java/com/spotify/hadoop/openpgp/OpenPgpCompressor.java:50 | a name is in ENCRYPTION_ALGORITHMS exactly when it is one of the eleven symmetric names, and the i-th name unboxes to exactly the tag i |
| OpenPgpCompressor.GetEncryptionAlgorithm | src/main/java/com/spotify/hadoop/openpgp/OpenPgpCompressor.java:264-275 | a tag 0..10; configured, the upper-cased name is the i-th symmetric algorithm name (NULL, IDEA, ..., TWOFISH) exactly when the tag is i, and any other name is NullPointerException; unconfigured, it fails exactly when the key lookup fails, and otherwise is CAST5 (3) when a key or pass phrase exists and NULL (0) when not, whatever the integrity setting |
| OpenPgpCompressor.WantsIntegrity | src/main/java/com/spotify/hadoop/openpgp/OpenPgpCompressor.java:282-293 | configured, true exactly when the value is "true" in any case; unconfigured, whether a key or pass phrase exists |
| OpenPgpCompressor.GetBufferSize | src/main/java/com/spotify/hadoop/openpgp/OpenPgpCompressor.java:300-302 | 16384 unless configured, else the configured integer or its parse error |
| OpenPgpCompressor.IntegritySetting | src/main/java/com/spotify/hadoop/openpgp/OpenPgpCompressor.java:292 | "TRUE" and "True" request integrity; "yes" and "1" do not |
| OpenPgpCompressor.EncryptionDefaults | src/main/java/com/spotify/hadoop/openpgp/OpenPgpCompressor.java:264-293 | unconfigured, encryption is CAST5 with integrity when a key or pass phrase exists, else NULL without |
| OpenPgpCompressor.GetSettings | src/main/java/com/spotify/hadoop/openpgp/OpenPgpCompressor.java:71-82 | succeeds exactly when all six getters succeed, and then holds their values; a key lookup failure is the error |
| OpenPgpCompressor.CreateOutputStream | src/main/java/com/spotify/hadoop/openpgp/OpenPgpCompressor.java:71-82 | a getter's failure is the error; a chain starts with the target and ends with literal data (format, name "", NOW, the buffer size); it encrypts exactly when the settings ask for encryption or integrity, and then with the configured key |
| OpenPgpCompressor.DefaultEncryptionFollowsKey | src/main/java/com/spotify/hadoop/openpgp/OpenPgpCompressor.java:264-293 | without encryption and integrity settings the chain never fails for want of a key, and it encrypts exactly when a key or pass phrase exists |
| OpenPgpCompressor.FullKeyIdNotFound | src/main/java/com/spotify/hadoop/openpgp/OpenPgpCompressor.java:217-227 | a sixteen-digit ID of the only, usable key in the key ring makes the chain fail with KeyNotFoundException("key not found: " + ID) |
| OpenPgpCompressor.DefaultChain | src/main/java/com/spotify/hadoop/openpgp/OpenPgpCompressor.java:71-82 | an empty configuration gives just a binary literal data layer with name "", time NOW and 16 kB buffer |
| OpenPgpCompressor.PassPhraseSettings | src/main/java/com/spotify/hadoop/openpgp/OpenPgpCompressor.java:71-82 | a pass phrase alone gives CAST5, integrity, no compression, binary, 16 kB |
| OpenPgpCompressor.PassPhraseChain | src/main/java/com/spotify/hadoop/openpgp/OpenPgpCompressor.java:71-82 | a pass phrase alone gives target, CAST5 encryption with integrity, literal data |
| OpenPgpCompressor.PlainChain | src/test/java/com/spotify/hadoop/openpgp/OpenPgpCompressorTest.java:25-36 | the test's plain settings give target then a UTF-8 literal layer, whatever the key |
| OpenPgpDecompressor.SearchIsFirstEvent | src/main/java/com/spotify/hadoop/openpgp/OpenPgpDecompressor.java:84-125 | the recursive search returns what the first depth-first event decides |
| OpenPgpDecompressor.EntrySearchIsFirstEvent | src/main/java/com/spotify/hadoop/openpgp/OpenPgpDecompressor.java:100-116 | the encrypted-data loop returns what its first depth-first event decides |
| OpenPgpDecompressor.SearchPackets | src/main/java/com/spotify/hadoop/openpgp/OpenPgpDecompressor.java:84-125 | a stream of unrecognised packets only gives null; a failure needs a compressed, encrypted or unreadable packet |
| OpenPgpDecompressor.SearchEntries | src/main/java/com/spotify/hadoop/openpgp/OpenPgpDecompressor.java:100-116 | a list of non-public-key entries only gives null; a failure needs a public-key entry |
| OpenPgpDecompressor.SearchFindsFirstLiteral | src/main/java/com/spotify/hadoop/openpgp/OpenPgpDecompressor.java:84-125 | data is found exactly when the first event is literal data, and it is that data; failure exactly when the first event is a failure; null exactly when there are no events |
| OpenPgpDecompressor.FlatSearch | src/main/java/com/spotify/hadoop/openpgp/OpenPgpDecompressor.java:89-99 | in a flat message the first literal packet's data is returned, else null |
| OpenPgpDecompressor.CreateInputStreamRules | src/main/java/com/spotify/hadoop/openpgp/OpenPgpDecompressor.java:40-55 | verification is refused with UnsupportedOperationException; no literal data is IOException("No OpenPGP literal data found"); PGP and provider failures are wrapped in IOException, others pass through |
| OpenPgpDecompressor.CreateInputStream | src/main/java/com/spotify/hadoop/openpgp/OpenPgpDecompressor.java:40-55 | verification is refused with UnsupportedOperationException; otherwise a stream exactly when the search finds literal data, and it is that data; PGP and provider failures never escape unwrapped |
| OpenPgpDecompressor.CreateInputStreamFor | src/main/java/com/spotify/hadoop/openpgp/OpenPgpDecompressor.java:32-37 | without the verify setting, the static createInputStream without verification; with it set to "true" in any case, UnsupportedOperationException |
| OpenPgpDecompressor.VerificationSetting | src/main/java/com/spotify/hadoop/openpgp/OpenPgpDecompressor.java:32-59 | verification is requested exactly when the setting is "true" in any case |
| OpenPgpDecompressor.EncryptedMessage | src/main/java/com/spotify/hadoop/openpgp/OpenPgpDecompressor.java:84-125 | a message encrypted to a held key, holding compressed literal data, yields that data |
| OpenPgpDecompressor.SearchGoesOnAfterCompressed | src/main/java/com/spotify/hadoop/openpgp/OpenPgpDecompressor.java:94-97 | a compressed packet without literal data does not stop the search |
| OpenPgpDecompressor.MissingKeyEndsSearch | src/main/java/com/spotify/hadoop/openpgp/OpenPgpDecompressor.java:104-109 | a missing private key for the first recipient fails the search even when a later recipient's key is held |

## Left out

- Concurrency: the decompressor's worker thread, its blocking queue and its interruptions are one sequential loop (`Pump`); `end` joining the thread is `Shutdown`.
- The stream chains are abstract. The two adapters are modelled with the chains of their unit tests (identity, and a header-writing chain for the compressor). The Bouncy Castle streams, the cryptography and the OpenPGP packet encoding are not modelled: the compressor's chain is a list of layers and the decompressor reads an abstract packet tree.
- `StreamCompressor.StreamCompressor.constructor`: the one-argument constructor reading the configured buffer size is `ConfiguredInitialBufferSize`; a null configuration is not modelled. That constructor reads the size from the configuration before anything else (StreamCompressor.java:57), so `new StreamCompressor(null)` throws NullPointerException. That is what StreamCompressorTest.java:123 and 131 call, so as written every compressor test fails while building its compressor. The compressor scenarios use the two-argument constructor instead. A negative configured initial size, for which Java throws NegativeArraySizeException when the buffer is allocated (StreamCompressor.java:70), is excluded by the `nat` parameter, and a zero one by precondition.
- `StreamCompressor.StreamCompressor.Compress`: the caller's output array may not alias the input or the buffer, and the chain's write of a null input array (possible only before the first `setInput`) is excluded by precondition.
- Null arrays passed to `setInput`, negative offsets or lengths and windows outside their arrays are excluded by the types and preconditions; Java would throw in `System.arraycopy`.
- Integer widths: the byte counters are unbounded, with no 32-bit wrap-around; a zero initial buffer size, which would make the doubling loop spin, is excluded.
- `StreamDecompressor.StreamDecompressor.Read`, `ReadAsWritten`, `Serve`, `Decompress`, `DecompressAsWritten`, `Turn`, `Advance` and `Pump` require that the caller's output array is not the input array. `System.arraycopy` (StreamDecompressor.java:193) accepts that case and copies within the array, and later reads then see the overwritten bytes. The model does not capture that aliased, in-place case.
- `StreamDecompressor.StreamDecompressor.SetInput`, `Decompress`, `Reinit`, `Reset` and `End`: use after `end()` is not modelled. `End` stops the worker but keeps no trace of `end()` setting `streamThread` to null (StreamDecompressor.java:121). In Java a later `setInput` then throws NullPointerException at `synchronized (streamThread)` (:56), and a second `end()` throws it at `streamThread.join()` (:120). `decompress` and `reinit` after `end()` wait forever for a worker that no longer runs. The model's `SetInput` still replaces the window after `End`. `Decompress`, `Reinit`, `Reset` and `End` require a running worker, so they exclude those calls.
- `StreamDecompressor.StreamDecompressor.Read`, `Serve`, `Turn`, `Advance`, `Pump` and `Decompress` serve requests with the corrected read, where a window never set reads as empty. The source's NullPointerException for that case, the worker's death and the caller's endless wait are modelled for one request only, by `ReadAsWritten` and `DecompressAsWritten` (see Findings).
- `StreamDecompressor.StreamDecompressor.Pump`: it states the results and the final state through `Run`, and byte conservation separately on `Serve` and `Turn`; it serves requests up to the first end request only (later ones stay unserved, as the worker has stopped).
- The decompressor is modelled with the identity chain only; closing that chain calls `finish()`, so a reinit after a read marks the input finished, as the source does.
- `reinit` in the compressor does not rebuild the chain or zero the counters and flags; the model does the same.
- Hadoop `Configuration.getInt` is modelled on decimal strings (no surrounding white space, no hexadecimal form); `getBoolean` ignores case but not surrounding white space.
- `OpenPgpCompressor.GetCompressionAlgorithm` and `OpenPgpCompressor.GetEncryptionAlgorithm` upper-case the algorithm name over the ASCII letters only. Java's `String.toUpperCase` (OpenPgpCompressor.java:256 and 274) maps all of Unicode and depends on the default locale. So in Java "zıp" (with a dotless i) selects ZIP, and under a Turkish locale "zip" becomes "ZİP" and gives NullPointerException. The model gives NullPointerException for the first and ZIP for the second.
- `Character.digit` accepts non-ASCII digits in key IDs; the model accepts only ASCII hexadecimal digits.
- Key ring files: reading and decoding a key ring (`createPublicKeyRingCollection`) is an environment map; a missing entry stands for a file that cannot be read or decoded.
- The secret key helpers that `OpenPgpDecompressor`'s default key factory calls are not part of this model; the key factory is abstract (a set of key IDs and the exception it throws for others).
- `NoSuchProviderException` is modelled only as a failure value wrapped in `IOException`; the provider lookup is not modelled.
- The Bouncy Castle compression generator's own check of the algorithm tag is not modelled; any tag other than 0 gives a compression layer.
- Newer Bouncy Castle versions add Camellia tags to the symmetric algorithm table; the model uses the eleven tags of section 9.2 of RFC 4880.
- Writes through `MultipleClosingOutputStream` (inherited from `FilterOutputStream`) are not modelled; only its construction and `close` are.
- `OpenPgpDecompressor.EncryptedMessage`: it states the outcome for a packet tree of that shape; the actual bytes of the test's message file are not modelled.

## Findings

| source | as written | input that shows it | evidently intended | confidence | as-written member | corrected member |
|---|---|---|---|---|---|---|
| src/main/java/com/spotify/hadoop/openpgp/StreamDecompressor.java:204 | the single-byte `read()` takes `inputBytes[inputOff + inputLen--]`: the byte just after the window, while consuming the window's first byte | window of length 2 at offset 0 in the bytes "ABC": returns 'C' instead of 'A'; window at offset 1 of length 2: ArrayIndexOutOfBoundsException | return the first unread byte, `inputBytes[inputOff]`, and shrink the window by one | high; not executed | StreamDecompressor.StreamDecompressor.ReadByteAsWritten, StreamDecompressorScenarios.ReadByteMisreads, StreamDecompressorScenarios.ReadByteOverruns | StreamDecompressor.StreamDecompressor.ReadByte |
| src/main/java/com/spotify/hadoop/openpgp/GnuPgUtils.java:45 | the mask `(1L << (4 * id.length())) - 1` shifts by the length times four modulo 64, so a sixteen-digit ID gives the mask 0; the compressor's key setting goes through this lookup | a full sixteen-digit non-zero key ID of a usable key: "key not found"; sixteen zeros: the first key of the first ring, whatever its ID | a sixteen-digit ID compares all 64 bits of the key ID | high; not executed | GnuPgUtils.FindPublicKeyAsWritten, GnuPgUtils.FullIdMissedAsWritten, GnuPgUtils.ZeroIdTakesFirstKeyAsWritten, OpenPgpCompressor.FullKeyIdNotFound | GnuPgUtils.GetPublicKey, GnuPgUtils.FindPublicKey |
| src/main/java/com/spotify/hadoop/openpgp/StreamDecompressor.java:193 | the worker's read copies from `inputBytes` even when no input was ever set; `System.arraycopy` from null throws NullPointerException even for zero bytes; the worker loop catches only InterruptedException and IOException, so the thread dies after its `finally` closes the chain, and `decompress` waits forever for a result | a fresh decompressor, then `decompress(b, 0, n)` before any `setInput`, which is the first call Hadoop's `DecompressorStream` makes | a never-set window reads as empty: `decompress` returns 0 and `needsInput` stays true | medium; not executed | StreamDecompressor.StreamDecompressor.ReadAsWritten, StreamDecompressor.StreamDecompressor.DecompressAsWritten, StreamDecompressorScenarios.DecompressBeforeInputHangs | StreamDecompressor.StreamDecompressor.Read, StreamDecompressor.StreamDecompressor.Decompress, StreamDecompressorScenarios.DecompressBeforeInputReadsNothing |
