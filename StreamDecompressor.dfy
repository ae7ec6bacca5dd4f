/** The Hadoop `Decompressor` backed by an input stream chain. The caller
    pushes input windows and asks for decompressed bytes; a worker reads
    from the chain on the caller's behalf, and the chain in turn reads the
    caller's input window through the adapter's own stream. The worker's
    queue is served synchronously here: each request is carried out before
    the caller waits for its result. The chain is the identity chain of the
    unit tests, so reading from the chain is reading the input window. */
module StreamDecompressor {
  import opened Common

  /** What the worker has stored in a request's result slot: nothing yet,
      the count a chain read returned, or (for a request without a buffer)
      the request itself as a marker. */
  datatype Outcome = Unset | Count(n: int) | Marker

  /** A request to the worker. A request whose `len` is -1 stops the worker;
      one without a buffer only (re)creates the chain. */
  class Action {
    const bytes: array?<byte>
    const off: int
    const len: int
    const recreateStream: bool
    var result: Outcome

    constructor (bytes: array?<byte>, off: int, len: int, recreateStream: bool)
      ensures this.bytes == bytes && this.off == off && this.len == len
      ensures this.recreateStream == recreateStream && result == Unset
    {
      this.bytes, this.off, this.len := bytes, off, len;
      this.recreateStream := recreateStream;
      result := Unset;
    }

    predicate HasBuffer()
    {
      bytes != null
    }

    predicate IsEnd()
    {
      len == -1
    }

    predicate WantsNewStream()
    {
      recreateStream
    }

    /** The parts of this request that decide how it is served. */
    function AsRequest(): (r: Request)
      ensures IsEndRequest(r) <==> IsEnd()
      ensures WellFormed() && !IsEnd() ==> Servable(r)
    {
      Request(bytes != null, len, recreateStream)
    }

    /** The buffer window is inside the buffer. */
    predicate WellFormed()
    {
      bytes != null ==> 0 <= off && 0 <= len && off + len <= bytes.Length
    }

    method SetResult(n: int)
      modifies this`result
      ensures result == Count(n)
    {
      result := Count(n);
    }

    /** `setResult()`: the request itself is stored as the marker. */
    method SetMarker()
      modifies this`result
      ensures result == Marker
    {
      result := Marker;
    }

    /** Returns the result once one has been stored; since requests are
        served before anyone waits, it always has been. */
    method WaitForResult() returns (r: Outcome)
      requires result != Unset
      ensures r == result && r != Unset
    {
      r := result;
    }
  }

  /** What the adapter's own `read(b, off, len)` returns for a window
      holding `pending`: -1 at the end of a finished input, else the
      number of bytes copied, which is 0 when the window is empty. */
  function ReadCount(pending: seq<byte>, finished: bool, len: nat): (n: int)
    ensures n == -1 <==> pending == [] && finished
    ensures n >= 0 ==> n <= len && n <= |pending| && (n == len || n == |pending|)
  {
    if |pending| == 0 && finished then -1 else Min(len, |pending|)
  }

  /** The state of the worker that its requests depend on: the unread
      input window, whether `finish` was called, and whether the chain
      exists. */
  datatype Worker = Worker(pending: seq<byte>, finished: bool, open: bool)

  /** The parts of a request that decide how it is served. */
  datatype Request = Request(hasBuffer: bool, len: int, recreate: bool)

  predicate IsEndRequest(r: Request)
  {
    r.len == -1
  }

  /** A request the worker can serve: not an end request, and a buffered
      one asks for a length that is not negative. */
  predicate Servable(r: Request)
  {
    !IsEndRequest(r) && (r.hasBuffer ==> r.len >= 0)
  }

  /** Serving one request, as a function of the worker's state: the chain
      is built when missing and rebuilt on request, where closing the old
      one marks the input finished; a buffered request then reads from the
      window. */
  function Step(w: Worker, r: Request): (out: (Worker, Outcome))
    requires Servable(r)
    ensures out.0.open && (out.0.finished <==> w.finished || (w.open && r.recreate))
    ensures out.1.Count? <==> r.hasBuffer
    ensures out.1.Count? ==> out.1.n == ReadCount(w.pending, out.0.finished, r.len)
    ensures !out.1.Count? ==> out.1 == Marker
    ensures w.pending == (if out.1.Count? && out.1.n > 0 then w.pending[..out.1.n] else []) + out.0.pending
  {
    var finished := w.finished || (w.open && r.recreate);
    if r.hasBuffer then
      var n := ReadCount(w.pending, finished, r.len);
      (Worker(if n >= 0 then w.pending[n..] else w.pending, finished, true), Count(n))
    else
      (Worker(w.pending, finished, true), Marker)
  }

  /** The worker's loop over `rs`: the state it ends in and the results
      of the requests it served, in order. It stops at the first request
      it cannot serve, which for well-formed requests is the first end
      request. */
  function Run(w: Worker, rs: seq<Request>): (out: (Worker, seq<Outcome>))
    ensures |out.1| <= |rs|
    ensures |out.1| < |rs| ==> !Servable(rs[|out.1|])
    decreases |rs|
  {
    if rs == [] || !Servable(rs[0]) then (w, [])
    else
      var next := Step(w, rs[0]);
      var rest := Run(next.0, rs[1..]);
      (rest.0, [next.1] + rest.1)
  }

  /** Every request a run serves is one the worker can serve. */
  lemma {:induction false} RunServesPrefix(w: Worker, rs: seq<Request>)
    ensures forall i :: 0 <= i < |Run(w, rs).1| ==> Servable(rs[i])
    decreases |rs|
  {
    if rs != [] && Servable(rs[0]) {
      var next := Step(w, rs[0]);
      RunServesPrefix(next.0, rs[1..]);
      assert forall i :: 1 <= i < |Run(w, rs).1| ==> rs[i] == rs[1..][i - 1];
    }
  }

  /** The requests of a queue of actions. */
  function Requests(queue: seq<Action>): (rs: seq<Request>)
    ensures |rs| == |queue|
    ensures forall i :: 0 <= i < |queue| ==> rs[i] == queue[i].AsRequest()
  {
    seq(|queue|, i requires 0 <= i < |queue| => queue[i].AsRequest())
  }

  /** The number of bytes a sequence of results says were read. */
  function Total(outs: seq<Outcome>): nat
  {
    if outs == [] then 0
    else (if outs[0].Count? && outs[0].n > 0 then outs[0].n else 0) + Total(outs[1..])
  }

  /** A run reads the window from the front: what is left at the end is
      the window without as many bytes as the results count. */
  lemma {:induction false} RunReadsFront(w: Worker, rs: seq<Request>)
    ensures Total(Run(w, rs).1) <= |w.pending|
    ensures Run(w, rs).0.pending == w.pending[Total(Run(w, rs).1)..]
    decreases |rs|
  {
    if rs == [] || !Servable(rs[0]) {
    } else {
      var next := Step(w, rs[0]);
      RunReadsFront(next.0, rs[1..]);
    }
  }

  /** Once the input is marked finished, it stays finished for the rest
      of a run. */
  lemma {:induction false} RunKeepsFinished(w: Worker, rs: seq<Request>)
    requires w.finished
    ensures Run(w, rs).0.finished
    decreases |rs|
  {
    if rs == [] || !Servable(rs[0]) {
    } else {
      RunKeepsFinished(Step(w, rs[0]).0, rs[1..]);
    }
  }

  /** Moving the first `n` bytes of `p` to the end of `t` keeps their
      concatenation. */
  lemma MoveFront(t: seq<byte>, p: seq<byte>, n: nat)
    requires n <= |p|
    ensures t <= t + p[..n] && (t + p[..n]) + p[n..] == t + p
  {
    assert p[..n] + p[n..] == p;
  }

  class StreamDecompressor {
    var conf: Configuration

    // The pending input window, borrowed from the caller.
    var inputBytes: array?<byte>
    var inputOff: nat
    var inputLen: nat

    var numBytesRead: nat
    var numBytesWritten: nat
    var hasFinished: bool

    /** The worker's chain exists (its local `stream` is not null). */
    var streamOpen: bool
    /** The worker is still taking requests. */
    var running: bool

    /** The bytes of the input window not yet read by the chain. */
    ghost var Pending: seq<byte>
    /** Every byte the chain has read so far, in order. */
    ghost var Taken: seq<byte>
    /** How many chains the worker has built. */
    ghost var Created: nat

    ghost predicate Valid()
      reads this`inputBytes, this`inputOff, this`inputLen, this`Pending, inputBytes
      reads this`numBytesRead, this`numBytesWritten, this`streamOpen, this`running
    {
      && (inputBytes == null ==> inputLen == 0 && Pending == [])
      && (inputBytes != null ==>
            inputOff + inputLen <= inputBytes.Length && Pending == inputBytes[inputOff..inputOff + inputLen])
      && numBytesRead == 0 && numBytesWritten == 0
      && (streamOpen ==> running)
    }

    /** The part of the state that decides how requests are served. */
    ghost function State(): Worker
      reads this`Pending, this`hasFinished, this`streamOpen
    {
      Worker(Pending, hasFinished, streamOpen)
    }

    /** Starts the worker; no chain is built until the first request. */
    constructor (conf: Configuration)
      ensures Valid() && this.conf == conf && running && !streamOpen && Created == 0
      ensures inputBytes == null && Pending == [] && Taken == [] && !hasFinished
    {
      this.conf := conf;
      inputBytes, inputOff, inputLen := null, 0, 0;
      numBytesRead, numBytesWritten := 0, 0;
      hasFinished := false;
      streamOpen, running := false, true;
      Pending, Taken, Created := [], [], 0;
    }

    /** Replaces the input window wholesale. */
    method SetInput(b: array<byte>, off: nat, len: nat)
      requires Valid() && off + len <= b.Length
      modifies this`inputBytes, this`inputOff, this`inputLen, this`Pending
      ensures Valid() && inputBytes == b && inputOff == off && inputLen == len && Pending == b[off..off + len]
    {
      inputBytes, inputOff, inputLen := b, off, len;
      Pending := b[off..off + len];
    }

    function NeedsInput(): (r: bool)
      requires Valid()
      reads this`inputBytes, this`inputOff, this`inputLen, this`Pending, inputBytes
      reads this`numBytesRead, this`numBytesWritten, this`streamOpen, this`running, this`hasFinished
      ensures r <==> Pending == [] && !hasFinished
    {
      inputLen == 0 && !hasFinished
    }

    function NeedsDictionary(): (r: bool)
      ensures !r
    {
      false
    }

    /** Preset dictionaries are not supported. */
    method SetDictionary(b: array<byte>, off: nat, len: nat) returns (e: Exception)
      ensures e == UnsupportedOperationException(None)
    {
      e := UnsupportedOperationException(None);
    }

    /** The byte counters are never updated. */
    function GetBytesRead(): (r: nat)
      requires Valid()
      reads this`inputBytes, this`inputOff, this`inputLen, this`Pending, inputBytes
      reads this`numBytesRead, this`numBytesWritten, this`streamOpen, this`running
      ensures r == 0
    {
      numBytesRead
    }

    function GetBytesWritten(): (r: nat)
      requires Valid()
      reads this`inputBytes, this`inputOff, this`inputLen, this`Pending, inputBytes
      reads this`numBytesRead, this`numBytesWritten, this`streamOpen, this`running
      ensures r == 0
    {
      numBytesWritten
    }

    /** The number of input bytes not yet read; also the adapter stream's
        `available`. */
    function GetRemaining(): (r: nat)
      requires Valid()
      reads this`inputBytes, this`inputOff, this`inputLen, this`Pending, inputBytes
      reads this`numBytesRead, this`numBytesWritten, this`streamOpen, this`running
      ensures r == |Pending|
    {
      inputLen
    }

    method Finish()
      requires Valid()
      modifies this`hasFinished
      ensures Valid() && hasFinished
    {
      hasFinished := true;
    }

    function Finished(): (r: bool)
      requires Valid()
      reads this`inputBytes, this`inputOff, this`inputLen, this`Pending, inputBytes
      reads this`numBytesRead, this`numBytesWritten, this`streamOpen, this`running, this`hasFinished
      ensures r <==> hasFinished && Pending == []
    {
      hasFinished && inputLen == 0
    }

    /** The adapter's own `read(b, off, len)`: -1 once the window is empty
        and `finish` has been called; otherwise as many bytes as fit are
        copied from the front of the window to `b[off..]`, and their
        number is returned. A window that was never set reads as empty;
        `ReadAsWritten` is the source's copy from the missing array. */
    method Read(b: array<byte>, off: nat, len: nat) returns (r: int)
      requires Valid() && off + len <= b.Length && b != inputBytes
      modifies this`inputOff, this`inputLen, this`Pending, this`Taken, b
      ensures Valid()
      ensures r == ReadCount(old(Pending), hasFinished, len)
      ensures r >= 0 ==>
        && b[..] == Splice(old(b[..]), off, old(Pending)[..r])
        && Pending == old(Pending)[r..] && Taken == old(Taken) + old(Pending)[..r]
      ensures r < 0 ==> b[..] == old(b[..]) && Pending == old(Pending) && Taken == old(Taken)
      ensures old(Taken) <= Taken && Taken + Pending == old(Taken) + old(Pending)
    {
      if inputLen == 0 && hasFinished {
        return -1;
      }
      if inputBytes == null {
        assert old(b[..]) == Splice(old(b[..]), off, []);
        return 0;
      }
      var n := Min(len, inputLen);
      ghost var chunk := Pending[..n];
      assert chunk == inputBytes[inputOff..inputOff + n];
      ArrayCopy(inputBytes, inputOff, b, off, n);
      assert b[..] == b[..off] + chunk + b[off + n..];
      Consume(n);
      return n;
    }

    /** Advances the window past its first `n` bytes, which the chain has
        now read. */
    method Consume(n: nat)
      requires Valid() && inputBytes != null && n <= inputLen
      modifies this`inputOff, this`inputLen, this`Pending, this`Taken
      ensures Valid()
      ensures Pending == old(Pending)[n..] && Taken == old(Taken) + old(Pending)[..n]
      ensures old(Taken) <= Taken && Taken + Pending == old(Taken) + old(Pending)
    {
      ghost var pending := Pending;
      MoveFront(Taken, pending, n);
      assert pending[n..] == inputBytes[inputOff + n..inputOff + inputLen];
      inputLen := inputLen - n;
      inputOff := inputOff + n;
      Pending := pending[n..];
      Taken := Taken + pending[..n];
    }

    /** The adapter's own single-byte `read()` as written: the window
        advances by one byte, but the byte returned is the one just past
        the end of the window, and when the window ends at the end of the
        array the access fails after the length has already been
        decremented. */
    method ReadByteAsWritten() returns (r: Result<int, Exception>)
      requires Valid()
      modifies this`inputOff, this`inputLen, this`Pending
      ensures Valid()
      ensures old(inputLen) == 0 ==> r == Ok(-1) && Pending == old(Pending)
      ensures old(inputLen) > 0 && old(inputOff + inputLen) < inputBytes.Length ==>
        && r == Ok(inputBytes[old(inputOff + inputLen)] as int)
        && Pending == old(Pending)[1..]
      ensures old(inputLen) > 0 && old(inputOff + inputLen) == inputBytes.Length ==>
        && r == Err(ArrayIndexOutOfBoundsException)
        && inputOff == old(inputOff) && inputLen == old(inputLen) - 1
    {
      if inputLen == 0 {
        return Ok(-1);
      }
      var i := inputOff + inputLen;
      // The post-decrement takes effect before the index is checked.
      inputLen := inputLen - 1;
      Pending := inputBytes[inputOff..inputOff + inputLen];
      if i >= inputBytes.Length {
        return Err(ArrayIndexOutOfBoundsException);
      }
      var b := inputBytes[i];
      inputOff := inputOff + 1;
      Pending := inputBytes[inputOff..inputOff + inputLen];
      r := Ok(b as int);
    }

    /** The single-byte `read()` as intended: the first byte of the
        window, unsigned, or -1 when the window is empty. */
    method ReadByte() returns (r: int)
      requires Valid()
      modifies this`inputOff, this`inputLen, this`Pending, this`Taken
      ensures Valid()
      ensures old(Pending) == [] ==> r == -1 && Pending == [] && Taken == old(Taken)
      ensures old(Pending) != [] ==>
        && r == old(Pending)[0] as int
        && Pending == old(Pending)[1..] && Taken == old(Taken) + [old(Pending)[0]]
    {
      if inputLen == 0 {
        return -1;
      }
      r := inputBytes[inputOff] as int;
      Consume(1);
    }

    /** Closing the adapter's own stream means no more input will come. */
    method CloseSelf()
      requires Valid()
      modifies this`hasFinished
      ensures Valid() && hasFinished
    {
      Finish();
    }

    /** Closes the current chain, if any, and builds a new one when there
        is none or the request asks for a fresh one. Closing the identity
        chain closes the adapter's own stream, which marks the input
        finished. */
    method PrepareStream(recreate: bool)
      requires Valid() && running
      modifies this`streamOpen, this`Created, this`hasFinished
      ensures Valid() && streamOpen
      ensures Created == old(Created) + (if !old(streamOpen) || recreate then 1 else 0)
      ensures hasFinished == (old(hasFinished) || (old(streamOpen) && recreate))
    {
      if !streamOpen || recreate {
        if streamOpen {
          CloseSelf();
        }
        streamOpen := true;
        Created := Created + 1;
      }
    }

    /** One turn of the worker's loop: an end request stops it; any other
        request first gets a chain, then either a read of the chain into
        its buffer (whose count becomes the result) or the marker. */
    method Serve(a: Action) returns (stop: bool)
      requires Valid() && running && a.WellFormed() && (a.bytes != null ==> a.bytes != inputBytes)
      modifies this`streamOpen, this`Created, this`hasFinished
      modifies this`inputOff, this`inputLen, this`Pending, this`Taken, a`result, a.bytes
      ensures Valid() && running && stop == a.IsEnd()
      ensures !stop ==> (State(), a.result) == Step(old(State()), a.AsRequest())
      ensures stop ==>
        && streamOpen == old(streamOpen) && Created == old(Created) && hasFinished == old(hasFinished)
        && inputOff == old(inputOff) && inputLen == old(inputLen)
        && Pending == old(Pending) && Taken == old(Taken) && a.result == old(a.result)
        && (a.bytes != null ==> a.bytes[..] == old(a.bytes[..]))
      ensures !stop ==>
        && streamOpen
        && Created == old(Created) + (if !old(streamOpen) || a.recreateStream then 1 else 0)
        && hasFinished == (old(hasFinished) || (old(streamOpen) && a.recreateStream))
      ensures !stop && a.bytes == null ==>
        && a.result == Marker
        && inputOff == old(inputOff) && inputLen == old(inputLen) && Pending == old(Pending) && Taken == old(Taken)
      ensures !stop && a.bytes != null ==>
        var r := ReadCount(old(Pending), hasFinished, a.len);
        && a.result == Count(r)
        && (r >= 0 ==>
              && a.bytes[..] == Splice(old(a.bytes[..]), a.off, old(Pending)[..r])
              && Pending == old(Pending)[r..] && Taken == old(Taken) + old(Pending)[..r])
        && (r < 0 ==> a.bytes[..] == old(a.bytes[..]) && Pending == old(Pending) && Taken == old(Taken))
      ensures old(Taken) <= Taken && Taken + Pending == old(Taken) + old(Pending)
    {
      if a.IsEnd() {
        return true;
      }
      PrepareStream(a.WantsNewStream());
      if a.HasBuffer() {
        var n := Read(a.bytes, a.off, a.len);
        a.SetResult(n);
      } else {
        a.SetMarker();
      }
      return false;
    }

    /** What the worker does once its loop has stopped: the chain, if
        any, is closed, and the worker is gone. */
    method Shutdown()
      requires Valid()
      modifies this`streamOpen, this`running, this`hasFinished
      ensures Valid() && !running && !streamOpen
      ensures hasFinished == (old(hasFinished) || old(streamOpen))
    {
      if streamOpen {
        CloseSelf();
      }
      streamOpen := false;
      running := false;
    }

    /** Hands a read request to the worker and returns the count it
        stored: the number of bytes placed in `b[off..off + len]`, or -1
        at the end of a finished input. The first request builds the
        chain. */
    method Decompress(b: array<byte>, off: nat, len: nat) returns (n: int)
      requires Valid() && running && off + len <= b.Length && b != inputBytes
      modifies this`streamOpen, this`Created, this`hasFinished
      modifies this`inputOff, this`inputLen, this`Pending, this`Taken, b
      ensures Valid() && running && streamOpen && hasFinished == old(hasFinished)
      ensures Created == old(Created) + (if old(streamOpen) then 0 else 1)
      ensures n == ReadCount(old(Pending), hasFinished, len)
      ensures n >= 0 ==>
        && b[..] == Splice(old(b[..]), off, old(Pending)[..n])
        && Pending == old(Pending)[n..] && Taken == old(Taken) + old(Pending)[..n]
      ensures n < 0 ==> b[..] == old(b[..]) && Pending == old(Pending) && Taken == old(Taken)
    {
      var a := new Action(b, off, len, false);
      var _ := Serve(a);
      var r := a.WaitForResult();
      n := r.n;
    }

    /** The adapter's own `read(b, off, len)` as written: before the first
        `setInput` there is no array to copy from, and `System.arraycopy`
        throws a NullPointerException even for zero bytes. Otherwise it
        reads as `Read` does. */
    method ReadAsWritten(b: array<byte>, off: nat, len: nat) returns (r: Result<int, Exception>)
      requires Valid() && off + len <= b.Length && b != inputBytes
      modifies this`inputOff, this`inputLen, this`Pending, this`Taken, b
      ensures Valid()
      ensures old(inputBytes == null && !hasFinished) ==>
        && r == Err(NullPointerException)
        && b[..] == old(b[..]) && Pending == old(Pending) && Taken == old(Taken)
      ensures old(inputBytes != null || hasFinished) ==> r == Ok(ReadCount(old(Pending), hasFinished, len))
    {
      if inputLen == 0 && hasFinished {
        return Ok(-1);
      }
      if inputBytes == null {
        return Err(NullPointerException);
      }
      var n := Read(b, off, len);
      r := Ok(n);
    }

    /** `decompress` as written, its request taken by the worker at once.
        When the read throws, the exception is neither of the two the
        worker's loop catches: it escapes the loop, whose `finally` closes
        the chain, and the worker ends without storing a result. The
        caller then waits for ever; the model returns no count. */
    method DecompressAsWritten(b: array<byte>, off: nat, len: nat) returns (n: Option<int>)
      requires Valid() && running && off + len <= b.Length && b != inputBytes
      modifies this`streamOpen, this`Created, this`hasFinished, this`running
      modifies this`inputOff, this`inputLen, this`Pending, this`Taken, b
      ensures Valid()
      ensures old(inputBytes == null && !hasFinished) ==> n == None && !running && !streamOpen && hasFinished
      ensures old(inputBytes != null || hasFinished) ==>
        running && streamOpen && n == Some(ReadCount(old(Pending), hasFinished, len))
    {
      var a := new Action(b, off, len, false);
      PrepareStream(a.WantsNewStream());
      var r := ReadAsWritten(b, off, len);
      if r.Err? {
        Shutdown();
        return None;
      }
      a.SetResult(r.value);
      var o := a.WaitForResult();
      n := Some(o.n);
    }

    /** Stores the new configuration and has the worker close its chain
        and build a new one. The input window is left as it is; closing
        the identity chain marks the input finished. */
    method Reinit(conf: Configuration)
      requires Valid() && running
      modifies this`conf, this`streamOpen, this`Created, this`hasFinished
      modifies this`inputOff, this`inputLen, this`Pending, this`Taken
      ensures Valid() && running && streamOpen && this.conf == conf
      ensures Created == old(Created) + 1
      ensures hasFinished == (old(hasFinished) || old(streamOpen))
      ensures inputOff == old(inputOff) && inputLen == old(inputLen) && Pending == old(Pending) && Taken == old(Taken)
    {
      this.conf := conf;
      var a := new Action(null, 0, 0, true);
      var _ := Serve(a);
      var _ := a.WaitForResult();
    }

    /** `reset`: a reinit with the current configuration. */
    method Reset()
      requires Valid() && running
      modifies this`conf, this`streamOpen, this`Created, this`hasFinished
      modifies this`inputOff, this`inputLen, this`Pending, this`Taken
      ensures Valid() && running && streamOpen && conf == old(conf)
      ensures Created == old(Created) + 1
      ensures hasFinished == (old(hasFinished) || old(streamOpen))
      ensures inputOff == old(inputOff) && inputLen == old(inputLen) && Pending == old(Pending) && Taken == old(Taken)
    {
      Reinit(conf);
    }

    /** Sends the worker an end request and waits for it to stop; on its
        way out it closes its chain, if it built one. */
    method End()
      requires Valid() && running
      modifies this`streamOpen, this`Created, this`hasFinished, this`running
      modifies this`inputOff, this`inputLen, this`Pending, this`Taken
      ensures Valid() && !running && !streamOpen
      ensures hasFinished == (old(hasFinished) || old(streamOpen))
      ensures Pending == old(Pending) && Taken == old(Taken)
    {
      var a := new Action(null, -1, -1, false);
      var stop := Serve(a);
      Shutdown();
    }

    /** One turn of the worker's loop, as a function of its state: an end
        request makes it close its chain and stop; any other request is
        served as `Step` says. */
    method Turn(a: Action) returns (stop: bool)
      requires Valid() && running && a.WellFormed() && (a.bytes != null ==> a.bytes != inputBytes)
      modifies this`streamOpen, this`Created, this`hasFinished, this`running
      modifies this`inputOff, this`inputLen, this`Pending, this`Taken, a`result, a.bytes
      ensures Valid() && stop == a.IsEnd()
      ensures !stop ==> running && (State(), a.result) == Step(old(State()), a.AsRequest())
      ensures stop ==>
        && !running && !streamOpen && Pending == old(Pending) && a.result == old(a.result)
        && hasFinished == (old(hasFinished) || old(streamOpen))
      ensures old(Taken) <= Taken && Taken + Pending == old(Taken) + old(Pending)
    {
      stop := Serve(a);
      if stop {
        Shutdown();
      }
    }

    /** One turn of `Pump` at position `k` of its queue, where `run` is
        the run over the whole queue: the worker takes `queue[k]`, and
        either stops, the run having served exactly the requests before
        it, or serves it and stores the result the run gives it. */
    method Advance(queue: seq<Action>, k: nat, ghost reqs: seq<Request>, ghost run: (Worker, seq<Outcome>))
      returns (stop: bool)
      requires Valid() && running && k < |queue| && reqs == Requests(queue) && k <= |run.1|
      requires queue[k].WellFormed() && (queue[k].bytes != null ==> queue[k].bytes != inputBytes)
      requires forall i :: 0 <= i < |queue| && i != k ==> queue[i] != queue[k]
      requires forall i :: 0 <= i < k ==> queue[i].result == run.1[i]
      requires run.0 == Run(State(), reqs[k..]).0 && run.1[k..] == Run(State(), reqs[k..]).1
      modifies this`streamOpen, this`Created, this`hasFinished, this`running
      modifies this`inputOff, this`inputLen, this`Pending, this`Taken, queue[k], queue[k].bytes
      ensures Valid()
      ensures stop ==>
        && |run.1| == k && run.0 == old(State())
        && !running && !streamOpen && Pending == old(Pending)
        && hasFinished == (old(hasFinished) || old(streamOpen))
      ensures !stop ==>
        && running && k < |run.1| && queue[k].result == run.1[k]
        && run.0 == Run(State(), reqs[k + 1..]).0 && run.1[k + 1..] == Run(State(), reqs[k + 1..]).1
      ensures forall i :: 0 <= i < (if stop then k else k + 1) ==> queue[i].result == run.1[i]
      ensures forall i :: (if stop then k else k + 1) <= i < |queue| ==> queue[i].result == old(queue[i].result)
    {
      ghost var tail := reqs[k..];
      assert tail[0] == queue[k].AsRequest();
      stop := Turn(queue[k]);
      if stop {
        return;
      }
      assert tail[1..] == reqs[k + 1..];
      assert run.1[k + 1..] == run.1[k..][1..];
    }

    /** The worker's loop over the requests in `queue`, in order: every
        request before the first end request is served; at the end
        request the worker closes its chain and stops. Without an end
        request it is still waiting for the next one. */
    method Pump(queue: seq<Action>) returns (served: nat)
      requires Valid() && running
      requires forall i :: 0 <= i < |queue| ==> queue[i].WellFormed() && (queue[i].bytes != null ==> queue[i].bytes != inputBytes)
      requires forall i, j :: 0 <= i < j < |queue| ==> queue[i] != queue[j]
      modifies this`streamOpen, this`Created, this`hasFinished, this`running
      modifies this`inputOff, this`inputLen, this`Pending, this`Taken
      modifies set a | a in queue
      modifies set a | a in queue && a.bytes != null :: a.bytes
      ensures Valid()
      ensures var run := Run(old(State()), Requests(queue));
        && served == |run.1|
        && (forall i :: 0 <= i < served ==> queue[i].result == run.1[i])
        && (served == |queue| ==> running && State() == run.0)
        && (served < |queue| ==>
              && !running && !streamOpen && Pending == run.0.pending
              && hasFinished == (run.0.finished || run.0.open))
      ensures forall i :: served <= i < |queue| ==> queue[i].result == old(queue[i].result)
    {
      ghost var reqs := Requests(queue);
      ghost var run := Run(State(), reqs);
      served := 0;
      assert reqs[0..] == reqs && run.1[0..] == run.1;
      while served < |queue|
        invariant Valid() && running && served <= |queue| && served <= |run.1|
        invariant run.0 == Run(State(), reqs[served..]).0 && run.1[served..] == Run(State(), reqs[served..]).1
        invariant forall i :: 0 <= i < served ==> queue[i].result == run.1[i]
        invariant forall i :: served <= i < |queue| ==> queue[i].result == old(queue[i].result)
        decreases |queue| - served
      {
        var stop := Advance(queue, served, reqs, run);
        if stop {
          break;
        }
        served := served + 1;
      }
      assert served == |queue| ==> reqs[served..] == [];
    }
  }
}
