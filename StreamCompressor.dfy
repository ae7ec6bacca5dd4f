/** The Hadoop `Compressor` backed by an output stream chain: the caller
    pushes input windows and pulls output into its own windows; what the
    chain emits that does not fit the caller's window waits in a growable
    FIFO buffer. */
module StreamCompressor {
  import opened Common

  /** The stream chains the adapter is exercised with. Both hand every
      write and the final close straight to the adapter's own stream;
      `Headed` first writes a header while it is being built. */
  datatype Pipeline = Identity | Headed(header: seq<byte>)

  /** The bytes a freshly built chain has already written. */
  function HeaderOf(p: Pipeline): seq<byte>
  {
    match p
    case Identity => []
    case Headed(header) => header
  }

  const INITIAL_BUFFER_SIZE_KEY := "spotify.hadoop.openpgp.streamCompressor.initialBufferSize"
  const DEFAULT_INITIAL_BUFFER_SIZE := 1024

  /** The initial buffer size the one-argument constructor reads from the
      configuration. */
  function ConfiguredInitialBufferSize(conf: Configuration): (r: Result<int, Exception>)
    ensures INITIAL_BUFFER_SIZE_KEY !in conf ==> r == Ok(1024)
    ensures INITIAL_BUFFER_SIZE_KEY in conf ==> r == ParseInt(conf[INITIAL_BUFFER_SIZE_KEY])
  {
    GetInt(conf, INITIAL_BUFFER_SIZE_KEY, DEFAULT_INITIAL_BUFFER_SIZE)
  }

  /** `cap` doubled `k` times. */
  function Doubled(cap: nat, k: nat): (r: nat)
    ensures r >= cap
  {
    if k == 0 then cap else Doubled(cap, k - 1) * 2
  }

  /** The first `j >= k` for which `cap` doubled `j` times holds `need`
      bytes, given that doubling fewer than `k` times (but at least once)
      does not. */
  function GrowthExponentFrom(cap: nat, need: nat, k: nat): (j: nat)
    requires cap > 0 && k >= 1
    requires k == 1 || Doubled(cap, k - 1) < need
    ensures j >= k
    ensures Doubled(cap, j) >= need
    ensures j == 1 || Doubled(cap, j - 1) < need
    decreases need - Doubled(cap, k)
  {
    if Doubled(cap, k) >= need then k else GrowthExponentFrom(cap, need, k + 1)
  }

  /** The number of doublings when `need` bytes must fit a buffer of
      capacity `cap`: the new capacity is the smallest `cap * 2^k` with
      `k >= 1` that holds `need` bytes. */
  function GrowthExponent(cap: nat, need: nat): (k: nat)
    requires cap > 0
    ensures k >= 1
    ensures Doubled(cap, k) >= need
    ensures k == 1 || Doubled(cap, k - 1) < need
  {
    GrowthExponentFrom(cap, need, 1)
  }

  class StreamCompressor {
    const pipeline: Pipeline
    var conf: Configuration

    // The pending input window, borrowed from the caller.
    var inputBytes: array?<byte>
    var inputOff: nat
    var inputLen: nat

    // The caller's output window, set only during a compress call.
    var outputBytes: array?<byte>
    var outputOff: nat
    var outputLen: nat

    // The FIFO of bytes the chain emitted that the caller has not pulled.
    var bufferBytes: array<byte>
    var bufferOff: nat
    var bufferLen: nat

    var numBytesRead: nat
    var numBytesWritten: nat
    var hasFinished: bool
    var streamClosed: bool

    /** How many times the chain has been closed. */
    ghost var Closes: nat
    /** The bytes waiting in the buffer, oldest first. */
    ghost var Buffered: seq<byte>
    /** The input bytes not yet handed to the chain. */
    ghost var Pending: seq<byte>

    /** The buffer holds `Buffered` at `[bufferOff, bufferOff + bufferLen)`
        of a non-empty backing array. */
    ghost predicate BufferValid()
      reads this`bufferBytes, this`bufferOff, this`bufferLen, this`Buffered, bufferBytes
    {
      && 0 < bufferBytes.Length
      && bufferOff + bufferLen <= bufferBytes.Length
      && Buffered == bufferBytes[bufferOff..bufferOff + bufferLen]
    }

    /** `Pending` is the input window, which the caller leaves alone until
        it has been consumed. */
    ghost predicate InputValid()
      reads this`inputBytes, this`inputOff, this`inputLen, this`Pending, inputBytes
    {
      && (inputBytes == null ==> inputLen == 0 && Pending == [])
      && (inputBytes != null ==>
            inputOff + inputLen <= inputBytes.Length && Pending == inputBytes[inputOff..inputOff + inputLen])
    }

    ghost predicate Valid()
      reads this`bufferBytes, this`bufferOff, this`bufferLen, this`Buffered, bufferBytes
      reads this`inputBytes, this`inputOff, this`inputLen, this`Pending, inputBytes
      reads this`outputBytes, this`outputOff, this`outputLen, this`streamClosed, this`Closes
    {
      && BufferValid()
      && InputValid()
      && inputBytes != bufferBytes
      && (outputBytes != null ==>
            outputOff + outputLen <= outputBytes.Length && outputBytes != bufferBytes && outputBytes != inputBytes)
      && Closes == (if streamClosed then 1 else 0)
    }

    /** Builds the adapter and its chain; a `Headed` chain writes its header
        as a three-byte write, a single-byte write and a write of the rest.
        A zero initial size would make the buffer's doubling loop spin. */
    constructor (pipeline: Pipeline, conf: Configuration, initialBufferSize: nat)
      requires initialBufferSize > 0
      requires pipeline.Headed? ==> |pipeline.header| >= 4
      ensures Valid() && fresh(bufferBytes)
      ensures this.pipeline == pipeline && this.conf == conf
      ensures bufferBytes.Length >= initialBufferSize
      ensures Buffered == HeaderOf(pipeline)
      ensures inputBytes == null && inputLen == 0 && outputBytes == null
      ensures numBytesRead == 0 && numBytesWritten == 0 && !hasFinished && !streamClosed
    {
      this.pipeline := pipeline;
      this.conf := conf;
      inputBytes := null;
      inputOff, inputLen := 0, 0;
      outputBytes := null;
      outputOff, outputLen := 0, 0;
      bufferBytes := new byte[initialBufferSize];
      bufferOff, bufferLen := 0, 0;
      numBytesRead, numBytesWritten := 0, 0;
      hasFinished, streamClosed := false, false;
      Closes, Buffered, Pending := 0, [], [];
      new;
      if pipeline.Headed? {
        WriteHeader(pipeline.header);
      }
    }

    /** What a `Headed` chain does while it is being built: it writes its
        header as a three-byte write, a single-byte write and a write of
        the rest, all of which land in the buffer. */
    method WriteHeader(h: seq<byte>)
      requires Valid() && |h| >= 4 && outputBytes == null
      modifies this`bufferBytes, this`bufferOff, this`bufferLen, this`Buffered, this`outputOff, this`outputLen
      modifies bufferBytes
      ensures Valid()
      ensures bufferBytes == old(bufferBytes) || fresh(bufferBytes)
      ensures bufferBytes.Length >= old(bufferBytes.Length)
      ensures Buffered == old(Buffered) + h
    {
      Write(h[..3]);
      WriteByte(h[3] as int);
      Write(h[4..]);
      assert h[..3] + [ToByte(h[3] as int)] + h[4..] == h;
    }

    /** Between calls the output window is unset (`Compress` clears it), so
        the new input array cannot be the output array. */
    method SetInput(b: array<byte>, off: nat, len: nat)
      requires Valid() && off + len <= b.Length && b != bufferBytes && outputBytes == null
      modifies this
      ensures Valid()
      ensures inputBytes == b && inputOff == off && inputLen == len
      ensures Pending == b[off..off + len]
      ensures bufferBytes == old(bufferBytes) && Buffered == old(Buffered)
      ensures outputBytes == old(outputBytes)
      ensures numBytesRead == old(numBytesRead) && numBytesWritten == old(numBytesWritten)
      ensures hasFinished == old(hasFinished) && streamClosed == old(streamClosed)
    {
      inputBytes := b;
      inputOff := off;
      inputLen := len;
      Pending := b[off..off + len];
    }

    function NeedsInput(): (r: bool)
      reads this, bufferBytes, inputBytes
      requires Valid()
      ensures r <==> Pending == [] && !hasFinished
    {
      inputLen == 0 && !hasFinished
    }

    method Finish()
      requires Valid()
      modifies this`hasFinished
      ensures Valid() && hasFinished
    {
      hasFinished := true;
    }

    function Finished(): (r: bool)
      reads this, bufferBytes, inputBytes
      requires Valid()
      ensures r <==> hasFinished && Buffered == [] && Pending == [] && streamClosed
    {
      hasFinished && bufferLen == 0 && inputLen == 0 && streamClosed
    }

    /** Whether a compress call with room for `len` bytes goes on to write
        the pending input to the chain: the buffered bytes leave room and
        the chain is still open. */
    predicate Feeds(len: nat)
      reads this`bufferLen, this`streamClosed
    {
      len > bufferLen && !streamClosed
    }

    /** The bytes a compress call with room for `len` bytes draws from, in
        order: the buffered ones, then (when it feeds the chain) the
        pending input, which the chain passes through unchanged. */
    ghost function Queue(len: nat): seq<byte>
      reads this`Buffered, this`Pending, this`bufferLen, this`streamClosed
    {
      Buffered + (if Feeds(len) then Pending else [])
    }

    /** The caller pulls up to `len` bytes into `b[off..off + len]`. The
        oldest buffered bytes come first; when they leave room and the
        chain is still open, the whole pending input window is written to
        the chain, whose output goes straight to the caller's window as
        far as it fits and is buffered beyond that, and the chain is closed
        if `finish` was called. The result is the number of bytes placed. */
    method Compress(b: array<byte>, off: nat, len: nat) returns (r: nat)
      requires Valid() && off + len <= b.Length && b != bufferBytes && b != inputBytes
      requires inputBytes == null ==> !Feeds(len)
      modifies this`outputBytes, this`outputOff, this`outputLen, this`bufferBytes, this`bufferOff, this`bufferLen
      modifies this`Buffered, this`numBytesRead, this`numBytesWritten, this`inputLen, this`Pending, this`hasFinished
      modifies this`streamClosed, this`Closes, bufferBytes, b
      ensures bufferBytes == old(bufferBytes) || fresh(bufferBytes)
      ensures Valid()
      ensures r == Min(len, |old(Queue(len))|)
      ensures b[..] == Splice(old(b[..]), off, old(Queue(len))[..r])
      ensures Buffered == old(Queue(len))[r..]
      ensures numBytesWritten == old(numBytesWritten) + r
      ensures if old(Feeds(len)) then
          && inputLen == 0 && numBytesRead == old(numBytesRead) + old(inputLen)
          && streamClosed == old(hasFinished) && outputBytes == null
        else
          && inputLen == old(inputLen) && numBytesRead == old(numBytesRead)
          && streamClosed == old(streamClosed) && outputBytes == old(outputBytes)
      ensures hasFinished == old(hasFinished) && inputBytes == old(inputBytes) && inputOff == old(inputOff)
      ensures old(hasFinished) && !old(streamClosed) && r < len ==> Finished()
    {
      // The test of the source's early return, taken before the draining
      // both branches start with.
      if Feeds(len) {
        r := CompressThroughChain(b, off, len);
      } else {
        r := CompressFromBuffer(b, off, len);
      }
    }

    /** A compress call that only draws from the buffer: the caller's
        window is full afterwards, or the chain is closed. */
    method CompressFromBuffer(b: array<byte>, off: nat, len: nat) returns (r: nat)
      requires Valid() && off + len <= b.Length && b != bufferBytes && b != inputBytes && !Feeds(len)
      modifies this`bufferOff, this`bufferLen, this`Buffered, this`numBytesWritten, b
      ensures Valid()
      ensures r == Min(len, |old(Queue(len))|)
      ensures b[..] == Splice(old(b[..]), off, old(Queue(len))[..r])
      ensures Buffered == old(Queue(len))[r..]
      ensures numBytesWritten == old(numBytesWritten) + r
    {
      var n := Min(len, bufferLen);
      // Draw as much as possible from the buffer.
      Drain(b, off, n);
      assert len - n == 0 || streamClosed;
      return n;
    }

    /** A compress call whose window has room after the buffer is drained
        while the chain is open: the whole pending input goes through the
        chain. */
    method CompressThroughChain(b: array<byte>, off: nat, len: nat) returns (r: nat)
      requires Valid() && off + len <= b.Length && b != bufferBytes && b != inputBytes
      requires inputBytes != null && Feeds(len)
      modifies this`outputBytes, this`outputOff, this`outputLen, this`bufferBytes, this`bufferOff, this`bufferLen
      modifies this`Buffered, this`numBytesRead, this`numBytesWritten, this`inputLen, this`Pending, this`hasFinished
      modifies this`streamClosed, this`Closes, bufferBytes, b
      ensures bufferBytes == old(bufferBytes) || fresh(bufferBytes)
      ensures Valid() && outputBytes == null
      ensures r == Min(len, |old(Queue(len))|)
      ensures b[..] == Splice(old(b[..]), off, old(Queue(len))[..r])
      ensures Buffered == old(Queue(len))[r..]
      ensures numBytesWritten == old(numBytesWritten) + r
      ensures inputLen == 0 && numBytesRead == old(numBytesRead) + old(inputLen)
      ensures streamClosed == old(hasFinished) && hasFinished == old(hasFinished)
    {
      ghost var b0, buffered, pending := b[..], Buffered, Pending;
      ghost var q := Queue(len);
      assert q == buffered + pending;
      var n := Min(len, bufferLen);
      // Draw everything from the buffer.
      Drain(b, off, n);
      assert len - n != 0 && !streamClosed && buffered[..n] == buffered;
      var m := Feed(b, off + n, len - n);
      r := n + m;
      SpliceTwice(b0, off, buffered, pending[..m]);
      QueueSplit(buffered, pending, m);
      assert q[..r] == buffered + pending[..m] && q[r..] == pending[m..];
    }

    /** The first half of `Compress`: the oldest `n` buffered bytes are
        copied to `b[off..off + n]`. */
    method Drain(b: array<byte>, off: nat, n: nat)
      requires Valid() && b != bufferBytes && b != inputBytes && n <= bufferLen && off + n <= b.Length
      modifies this`bufferOff, this`bufferLen, this`Buffered, this`numBytesWritten, b
      ensures Valid()
      ensures b[..] == Splice(old(b[..]), off, old(Buffered)[..n])
      ensures Buffered == old(Buffered)[n..]
      ensures numBytesWritten == old(numBytesWritten) + n
    {
      CopyOut(b, off, n);
      Consume(n);
    }

    /** `System.arraycopy` of the oldest `n` buffered bytes to `b[off..]`. */
    method CopyOut(b: array<byte>, off: nat, n: nat)
      requires Valid() && b != bufferBytes && b != inputBytes && n <= bufferLen && off + n <= b.Length
      modifies b
      ensures Valid()
      ensures b[..] == Splice(old(b[..]), off, Buffered[..n])
    {
      ghost var chunk := Buffered[..n];
      assert chunk == bufferBytes[bufferOff..bufferOff + n];
      ArrayCopy(bufferBytes, bufferOff, b, off, n);
      assert b[..] == b[..off] + chunk + b[off + n..];
    }

    /** Drops the oldest `n` buffered bytes and counts them as written. */
    method Consume(n: nat)
      requires Valid() && n <= bufferLen
      modifies this`bufferOff, this`bufferLen, this`Buffered, this`numBytesWritten
      ensures Valid()
      ensures Buffered == old(Buffered)[n..]
      ensures numBytesWritten == old(numBytesWritten) + n
    {
      ghost var buffered := Buffered;
      assert buffered[n..] == bufferBytes[bufferOff + n..bufferOff + bufferLen];
      bufferLen := bufferLen - n;
      bufferOff := bufferOff + n;
      numBytesWritten := numBytesWritten + n;
      Buffered := buffered[n..];
    }

    /** The second half of `Compress`, once the buffer is empty: the caller's
        remaining window becomes the output window while the whole pending
        input is written to the chain; the chain is closed if `finish` was
        called. The result is the number of bytes placed in the window. */
    method Feed(b: array<byte>, off: nat, len: nat) returns (written: nat)
      requires Valid() && bufferLen == 0 && !streamClosed && 0 < len && off + len <= b.Length
      requires b != bufferBytes && b != inputBytes && inputBytes != null
      modifies this`outputBytes, this`outputOff, this`outputLen, this`bufferBytes, this`bufferOff, this`bufferLen, this`Buffered
      modifies this`numBytesRead, this`numBytesWritten, this`inputLen, this`Pending, this`hasFinished, this`streamClosed
      modifies this`Closes, bufferBytes, b
      ensures bufferBytes == old(bufferBytes) || fresh(bufferBytes)
      ensures Valid() && outputBytes == null
      ensures written == Min(len, |old(Pending)|)
      ensures b[..] == Splice(old(b[..]), off, old(Pending)[..written])
      ensures Buffered == old(Pending)[written..]
      ensures numBytesWritten == old(numBytesWritten) + written
      ensures numBytesRead == old(numBytesRead) + old(inputLen) && inputLen == 0
      ensures streamClosed == old(hasFinished) && hasFinished == old(hasFinished)
    {
      PassInput(b, off, len);
      CloseIfFinished();
      written := ClearOutput(len);
    }

    /** Clears the output window so the chain cannot write spontaneously,
        and counts what the chain placed in the `len` bytes it was given. */
    method ClearOutput(len: nat) returns (written: nat)
      requires Valid() && outputLen <= len
      modifies this`outputBytes, this`numBytesWritten
      ensures Valid() && outputBytes == null
      ensures written == len - old(outputLen) && numBytesWritten == old(numBytesWritten) + written
    {
      outputBytes := null;
      written := len - outputLen;
      numBytesWritten := numBytesWritten + written;
    }

    /** The caller's window becomes the output window and the whole pending
        input window is written to the chain, which passes it on to the
        adapter's own stream. */
    method PassInput(b: array<byte>, off: nat, len: nat)
      requires Valid() && bufferLen == 0 && 0 < len && off + len <= b.Length
      requires b != bufferBytes && b != inputBytes && inputBytes != null
      modifies this`outputBytes, this`outputOff, this`outputLen, this`bufferBytes, this`bufferOff, this`bufferLen
      modifies this`Buffered, this`numBytesRead, this`inputLen, this`Pending, bufferBytes, b
      ensures bufferBytes == old(bufferBytes) || fresh(bufferBytes)
      ensures Valid() && outputBytes == b
      ensures len - outputLen == Min(len, |old(Pending)|)
      ensures b[..] == Splice(old(b[..]), off, old(Pending)[..len - outputLen])
      ensures Buffered == old(Pending)[len - outputLen..]
      ensures numBytesRead == old(numBytesRead) + old(inputLen) && inputLen == 0
    {
      var data := inputBytes[inputOff..inputOff + inputLen];
      // The whole window is consumed; the chain does not look at it again.
      numBytesRead := numBytesRead + inputLen;
      inputLen := 0;
      Pending := [];
      // Let the chain write straight into the caller's window.
      outputBytes, outputOff, outputLen := b, off, len;
      assert DirectCount(|data|) == Min(len, |data|);
      Write(data);
    }

    /** The end of a compress call's write: once `finish` was called no
        more input will come, and closing the chain makes it emit the rest;
        closing the adapter's own stream marks the input finished. */
    method CloseIfFinished()
      requires Valid() && !streamClosed
      modifies this`streamClosed, this`Closes, this`hasFinished
      ensures Valid() && streamClosed == old(hasFinished) && hasFinished == old(hasFinished)
    {
      if hasFinished {
        streamClosed := true;
        Closes := Closes + 1;
        Finish();
      }
    }

    /** Drops the pending input, the buffered bytes and the output window.
        The chain is not rebuilt, and the counters and the finish and close
        flags are kept. */
    method Reinit(conf: Configuration)
      requires Valid()
      modifies this`conf, this`inputLen, this`Pending, this`bufferLen, this`Buffered, this`outputBytes
      ensures Valid() && this.conf == conf
      ensures Pending == [] && Buffered == [] && outputBytes == null
      ensures numBytesRead == old(numBytesRead) && numBytesWritten == old(numBytesWritten)
      ensures hasFinished == old(hasFinished) && streamClosed == old(streamClosed)
    {
      this.conf := conf;
      inputLen := 0;
      bufferLen := 0;
      outputBytes := null;
      Buffered, Pending := [], [];
    }

    /** `reset`: a reinit with the current configuration. */
    method Reset()
      requires Valid()
      modifies this`conf, this`inputLen, this`Pending, this`bufferLen, this`Buffered, this`outputBytes
      ensures Valid() && conf == old(conf)
      ensures Pending == [] && Buffered == [] && outputBytes == null
      ensures numBytesRead == old(numBytesRead) && numBytesWritten == old(numBytesWritten)
      ensures hasFinished == old(hasFinished) && streamClosed == old(streamClosed)
    {
      Reinit(conf);
    }

    /** Closes the chain unless it is closed already; closing the adapter's
        own stream marks the input finished. */
    method End()
      requires Valid()
      modifies this`streamClosed, this`Closes, this`hasFinished
      ensures Valid() && streamClosed && Closes == 1
      ensures hasFinished == (old(hasFinished) || !old(streamClosed))
    {
      if !streamClosed {
        streamClosed := true;
        Closes := Closes + 1;
        Finish();
      }
    }

    /** Preset dictionaries are not supported. */
    method SetDictionary(b: array<byte>, off: nat, len: nat) returns (e: Exception)
      ensures e == UnsupportedOperationException(None)
    {
      e := UnsupportedOperationException(None);
    }

    /** How many of `len` bytes a write places straight in the caller's
        window: as many as fit, while a compress call is under way and
        nothing is buffered. */
    function DirectCount(len: nat): (n: nat)
      reads this`bufferLen, this`outputBytes, this`outputLen
      ensures n <= len && n <= outputLen
    {
      if bufferLen == 0 && outputBytes != null && outputLen > 0 then Min(len, outputLen) else 0
    }

    /** Copies the front of `data` straight into the caller's window, as
        much as fits; only allowed while nothing is buffered. */
    method WriteDirect(data: seq<byte>) returns (n: nat)
      requires Valid() && outputBytes != null && bufferLen == 0 && outputLen > 0
      modifies this`outputOff, this`outputLen, outputBytes
      ensures Valid()
      ensures n == Min(|data|, old(outputLen))
      ensures outputOff == old(outputOff) + n && outputLen == old(outputLen) - n
      ensures outputBytes[..] == Splice(old(outputBytes[..]), old(outputOff), data[..n])
    {
      n := Min(|data|, outputLen);
      CopyIn(data[..n], outputBytes, outputOff);
      outputOff := outputOff + n;
      outputLen := outputLen - n;
    }

    /** Replaces the buffer by one whose capacity is the first doubling
        of the current one that holds `need` bytes, and moves the unread
        bytes to its beginning. */
    method Regrow(need: nat)
      requires Valid() && need > bufferBytes.Length
      modifies this`bufferBytes, this`bufferOff
      ensures Valid() && fresh(bufferBytes)
      ensures bufferBytes.Length == Doubled(old(bufferBytes.Length), GrowthExponent(old(bufferBytes.Length), need))
      ensures bufferOff == 0 && Buffered == old(Buffered)
    {
      ghost var before := Buffered;
      var n := GrownCapacity(bufferBytes.Length, need);
      var newBytes := new byte[n];
      ArrayCopy(bufferBytes, bufferOff, newBytes, 0, bufferLen);
      bufferBytes := newBytes;
      bufferOff := 0;
      assert bufferBytes[bufferOff..bufferOff + bufferLen] == before;
    }

    /** Moves the unread bytes to the beginning of the buffer. */
    method ShiftToFront()
      requires Valid()
      modifies this`bufferOff, bufferBytes
      ensures Valid() && bufferOff == 0 && Buffered == old(Buffered)
    {
      ghost var before := Buffered;
      ArrayCopy(bufferBytes, bufferOff, bufferBytes, 0, bufferLen);
      bufferOff := 0;
      assert bufferBytes[bufferOff..bufferOff + bufferLen] == before;
    }

    /** Makes room for `extra` more bytes after the unread ones, which end
        up at index 0: when they do not fit, the buffer is replaced by one
        whose capacity is the first doubling that holds everything;
        otherwise the unread bytes are shifted to the beginning. */
    method MakeRoom(extra: nat)
      requires Valid()
      modifies this`bufferBytes, this`bufferOff, bufferBytes
      ensures Valid()
      ensures bufferOff == 0 && bufferLen + extra <= bufferBytes.Length
      ensures Buffered == old(Buffered)
      ensures var need := bufferLen + extra;
        if need > old(bufferBytes.Length) then
          fresh(bufferBytes) && bufferBytes.Length == Doubled(old(bufferBytes.Length), GrowthExponent(old(bufferBytes.Length), need))
        else bufferBytes == old(bufferBytes)
    {
      if bufferLen + extra > bufferBytes.Length {
        Regrow(bufferLen + extra);
      } else if bufferOff > 0 {
        ShiftToFront();
      }
    }

    /** Appends `data` to the buffer, after making room for it. */
    method Append(data: seq<byte>)
      requires Valid()
      modifies this`bufferBytes, this`bufferOff, this`bufferLen, this`Buffered, bufferBytes
      ensures Valid()
      ensures Buffered == old(Buffered) + data && bufferOff == 0
      ensures var need := old(bufferLen) + |data|;
        if need > old(bufferBytes.Length) then
          fresh(bufferBytes) && bufferBytes.Length == Doubled(old(bufferBytes.Length), GrowthExponent(old(bufferBytes.Length), need))
        else bufferBytes == old(bufferBytes)
    {
      MakeRoom(|data|);
      Store(data);
    }

    /** Copies `data` into the buffer right after the unread bytes. */
    method Store(data: seq<byte>)
      requires Valid() && bufferOff == 0 && bufferLen + |data| <= bufferBytes.Length
      modifies this`bufferLen, this`Buffered, bufferBytes
      ensures Valid()
      ensures Buffered == old(Buffered) + data
    {
      ghost var before := Buffered;
      CopyIn(data, bufferBytes, bufferLen);
      ghost var s := bufferBytes[..];
      assert s[0..bufferLen + |data|] == s[0..bufferLen] + s[bufferLen..bufferLen + |data|];
      bufferLen := bufferLen + |data|;
      Buffered := before + data;
    }

    /** Appends one byte to the buffer, doubling its capacity when it is
        full, else moving the unread bytes to the beginning. */
    method AppendByte(b: byte)
      requires Valid()
      modifies this`bufferBytes, this`bufferOff, this`bufferLen, this`Buffered, bufferBytes
      ensures Valid()
      ensures Buffered == old(Buffered) + [b] && bufferOff == 0
      ensures if old(bufferLen) == old(bufferBytes.Length) then
          fresh(bufferBytes) && bufferBytes.Length == old(bufferBytes.Length) * 2
        else bufferBytes == old(bufferBytes)
    {
      if bufferLen == bufferBytes.Length {
        DoubleCapacity();
      } else if bufferOff > 0 {
        ShiftToFront();
      }
      Store([b]);
    }

    /** Replaces a full buffer by one of twice its capacity. */
    method DoubleCapacity()
      requires Valid()
      modifies this`bufferBytes, this`bufferOff
      ensures Valid() && fresh(bufferBytes) && bufferBytes.Length == old(bufferBytes.Length) * 2
      ensures bufferOff == 0 && Buffered == old(Buffered)
    {
      ghost var before := Buffered;
      var newBytes := new byte[bufferBytes.Length * 2];
      ArrayCopy(bufferBytes, bufferOff, newBytes, 0, bufferLen);
      bufferBytes := newBytes;
      bufferOff := 0;
      assert bufferBytes[bufferOff..bufferOff + bufferLen] == before;
    }

    /** The adapter's own stream, `SelfOutputStream.write(byte[], int, int)`:
        while a compress call has room left and nothing is buffered, bytes
        go straight to the caller's window; the rest is appended to the
        buffer. */
    method Write(data: seq<byte>)
      requires Valid()
      modifies this`bufferBytes, this`bufferOff, this`bufferLen, this`Buffered, this`outputOff, this`outputLen
      modifies bufferBytes, outputBytes
      ensures Valid()
      ensures bufferBytes == old(bufferBytes) || fresh(bufferBytes)
      ensures bufferBytes.Length >= old(bufferBytes.Length)
      ensures outputOff == old(outputOff) + old(DirectCount(|data|))
      ensures outputLen == old(outputLen) - old(DirectCount(|data|))
      ensures outputBytes != null ==>
        outputBytes[..] == Splice(old(outputBytes[..]), old(outputOff), data[..old(DirectCount(|data|))])
      ensures Buffered == old(Buffered) + data[old(DirectCount(|data|))..]
    {
      if bufferLen == 0 && outputBytes != null && outputLen > 0 {
        // Inside a compress call: write straight to the caller's window.
        WriteThrough(data);
      } else {
        ghost var window := if outputBytes != null then outputBytes[..] else [];
        Append(data);
        assert outputBytes != null ==> outputBytes[..] == window;
      }
    }

    /** The direct branch of `Write`: what does not fit the caller's
        window is appended to the buffer. */
    method WriteThrough(data: seq<byte>)
      requires Valid() && bufferLen == 0 && outputBytes != null && outputLen > 0
      modifies this`bufferBytes, this`bufferOff, this`bufferLen, this`Buffered, this`outputOff, this`outputLen
      modifies bufferBytes, outputBytes
      ensures Valid()
      ensures bufferBytes == old(bufferBytes) || fresh(bufferBytes)
      ensures bufferBytes.Length >= old(bufferBytes.Length)
      ensures var n := Min(|data|, old(outputLen));
        && outputOff == old(outputOff) + n && outputLen == old(outputLen) - n
        && outputBytes[..] == Splice(old(outputBytes[..]), old(outputOff), data[..n])
        && Buffered == data[n..]
    {
      var n := WriteDirect(data);
      if n == |data| {
        assert data[n..] == [];
        return;
      }
      ghost var window := outputBytes[..];
      Append(data[n..]);
      assert outputBytes[..] == window;
    }

    /** `SelfOutputStream.write(int)`: the low eight bits of `v`, straight to
        the caller's window when that is allowed, else appended to the
        buffer. */
    method WriteByte(v: int)
      requires Valid()
      modifies this`bufferBytes, this`bufferOff, this`bufferLen, this`Buffered, this`outputOff, this`outputLen
      modifies bufferBytes, outputBytes
      ensures Valid()
      ensures bufferBytes == old(bufferBytes) || fresh(bufferBytes)
      ensures bufferBytes.Length >= old(bufferBytes.Length)
      ensures if old(bufferLen) == 0 && outputBytes != null && old(outputLen) > 0 then
          && outputOff == old(outputOff) + 1 && outputLen == old(outputLen) - 1
          && outputBytes[outputOff - 1] == ToByte(v)
          && (forall i :: 0 <= i < outputBytes.Length && i != outputOff - 1 ==> outputBytes[i] == old(outputBytes[i]))
          && Buffered == old(Buffered)
        else
          && outputOff == old(outputOff) && outputLen == old(outputLen)
          && (outputBytes != null ==> outputBytes[..] == old(outputBytes[..]))
          && Buffered == old(Buffered) + [ToByte(v)]
    {
      var b := ToByte(v);
      if bufferLen == 0 && outputBytes != null && outputLen > 0 {
        // Inside a compress call: write straight to the caller's window.
        outputBytes[outputOff] := b;
        outputOff := outputOff + 1;
        outputLen := outputLen - 1;
        return;
      }
      AppendByte(b);
    }
  }

  /** Taking `|b| + m` bytes off the front of `b + p`. */
  lemma QueueSplit(b: seq<byte>, p: seq<byte>, m: nat)
    requires m <= |p|
    ensures (b + p)[..|b| + m] == b + p[..m] && (b + p)[|b| + m..] == p[m..]
  {
  }

  /** The capacity the write path's doubling loop arrives at. */
  method GrownCapacity(cap: nat, need: nat) returns (n: nat)
    requires cap > 0
    ensures n == Doubled(cap, GrowthExponent(cap, need))
  {
    n := cap * 2;
    ghost var k := 1;
    while n < need
      invariant k >= 1 && n == Doubled(cap, k)
      invariant k == 1 || Doubled(cap, k - 1) < need
      invariant GrowthExponentFrom(cap, need, k) == GrowthExponent(cap, need)
      decreases need - n
    {
      n := n * 2;
      k := k + 1;
    }
  }
}
