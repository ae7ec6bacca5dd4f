/** The decompression adapter driven the way its own unit tests drive
    it, with the identity chain. The tests use the twelve bytes of
    "Hello World!"; here any twelve bytes will do. */
module StreamDecompressorScenarios {
  import opened Common
  import opened StreamDecompressor

  /** A fresh adapter wants input, has counted nothing, holds nothing and
      is not finished. */
  method Created() returns (needsInput: bool, read: nat, written: nat, remaining: nat, finished: bool)
    ensures needsInput && read == 0 && written == 0 && remaining == 0 && !finished
  {
    var c := new StreamDecompressor(map[]);
    needsInput := c.NeedsInput();
    read, written := c.GetBytesRead(), c.GetBytesWritten();
    remaining := c.GetRemaining();
    finished := c.Finished();
    c.End();
  }

  /** Once given input, the adapter no longer wants any and holds all of
      it; after `finish` it is still not finished. */
  method InputThenFinish(text: seq<byte>) returns (needsInput: bool, remaining: nat, finished: bool)
    requires |text| == 12
    ensures !needsInput && remaining == 12 && !finished
  {
    var c := new StreamDecompressor(map[]);
    var b := NewArray(text);
    c.SetInput(b, 0, b.Length);
    needsInput := c.NeedsInput();
    remaining := c.GetRemaining();
    c.Finish();
    finished := c.Finished();
    c.End();
  }

  /** One request with room for more than the input returns all of it
      and leaves the adapter finished with nothing remaining. */
  method DecompressOnce(text: seq<byte>) returns (n: int, out: seq<byte>, finished: bool, remaining: nat)
    requires |text| == 12
    ensures n == 12 && out == text && finished && remaining == 0
  {
    var c := new StreamDecompressor(map[]);
    var b := NewArray(text);
    c.SetInput(b, 0, b.Length);
    c.Finish();
    var buf := new byte[b.Length + 1];
    ghost var buf0 := buf[..];
    n := c.Decompress(buf, 0, buf.Length);
    SplicedPrefix(buf0, 0, text);
    out := buf[..12];
    finished := c.Finished();
    remaining := c.GetRemaining();
    c.End();
  }

  /** The first half of the two-request scenario: with all of `text` in
      the window and `finish` called, a six-byte request takes the first
      six bytes. */
  method FirstHalf(text: seq<byte>) returns (c: StreamDecompressor, buf: array<byte>, n1: int)
    requires |text| == 12
    ensures fresh(c) && fresh(buf) && c.inputBytes != buf
    ensures c.Valid() && c.running && c.Pending == text[6..] && c.hasFinished
    ensures buf.Length == 13 && n1 == 6 && buf[..6] == text[..6]
  {
    c := new StreamDecompressor(map[]);
    var b := NewArray(text);
    c.SetInput(b, 0, b.Length);
    c.Finish();
    buf := new byte[b.Length + 1];
    ghost var buf0 := buf[..];
    n1 := c.Decompress(buf, 0, 6);
    SplicedPrefix(buf0, 0, text[..6]);
  }

  /** A six-byte request takes the first half and the next request the
      rest. */
  method DecompressTwice(text: seq<byte>) returns (n1: int, finished1: bool, n2: int, out: seq<byte>, finished2: bool, remaining: nat)
    requires |text| == 12
    ensures n1 == 6 && !finished1 && n2 == 6 && out == text && finished2 && remaining == 0
  {
    var c, buf;
    c, buf, n1 := FirstHalf(text);
    finished1 := c.Finished();
    ghost var mid := buf[..];
    n2 := c.Decompress(buf, 6, 7);
    SplicedPrefix(mid, 6, text[6..]);
    assert text[..6] + text[6..] == text;
    out := buf[..12];
    finished2 := c.Finished();
    remaining := c.GetRemaining();
    c.End();
  }

  /** The first half of the two-window scenario: an adapter given the
      first six bytes of `text` returns them to a request with room for
      everything. */
  method FirstWindow(text: seq<byte>) returns (c: StreamDecompressor, b: array<byte>, buf: array<byte>, n1: int)
    requires |text| == 12
    ensures fresh(c) && fresh(b) && fresh(buf) && b != buf
    ensures c.Valid() && c.running && c.inputBytes == b && c.Pending == [] && !c.hasFinished
    ensures b[..] == text && buf.Length == 13
    ensures n1 == 6 && buf[..6] == text[..6]
  {
    c := new StreamDecompressor(map[]);
    b := NewArray(text);
    c.SetInput(b, 0, 6);
    buf := new byte[b.Length + 1];
    ghost var buf0 := buf[..];
    n1 := c.Decompress(buf, 0, buf.Length);
    SplicedPrefix(buf0, 0, text[..6]);
  }

  /** The input arrives in two windows; each request returns what the
      window before it held. */
  method InputTwice(text: seq<byte>) returns (n1: int, n2: int, out: seq<byte>)
    requires |text| == 12
    ensures n1 == 6 && n2 == 6 && out == text
  {
    var c, b, buf;
    c, b, buf, n1 := FirstWindow(text);
    c.SetInput(b, 6, 6);
    c.Finish();
    ghost var mid := buf[..];
    n2 := c.Decompress(buf, 6, 7);
    SplicedPrefix(mid, 6, text[6..]);
    assert text[..6] + text[6..] == text;
    out := buf[..12];
    c.End();
  }

  /** A run over a read of `len` bytes, a recreate request and an end
      request, starting from a worker that holds `text`, has not been
      told the input is finished and has no chain yet. */
  lemma {:induction false} ReadRecreateEnd(text: seq<byte>, len: nat, rs: seq<Request>)
    requires |text| <= len && |rs| >= 3
    requires rs[0] == Request(true, len, false) && rs[1] == Request(false, 0, true) && IsEndRequest(rs[2])
    ensures Run(Worker(text, false, false), rs).0 == Worker([], true, true)
    ensures Run(Worker(text, false, false), rs).1 == [Count(|text|), Marker]
  {
    var w1 := Worker([], false, true);
    assert text[|text|..] == [];
    assert Step(Worker(text, false, false), rs[0]) == (w1, Count(|text|));
    var w2 := Worker([], true, true);
    assert Step(w1, rs[1..][0]) == (w2, Marker);
    assert Run(w2, rs[1..][1..]).1 == [];
    assert Run(w1, rs[1..]).0 == w2 && Run(w1, rs[1..]).1 == [Marker];
  }

  /** The worker's loop over a read, a recreate request, an end request
      and a read it never gets to: it serves the first two, and closing
      the first chain marks the input finished. */
  method PumpUntilEnd(text: seq<byte>) returns (served: nat, first: Outcome, second: Outcome, last: Outcome, finished: bool)
    requires |text| == 12
    ensures served == 2 && first == Count(12) && second == Marker && last == Unset && finished
  {
    var c := new StreamDecompressor(map[]);
    var b := NewArray(text);
    c.SetInput(b, 0, b.Length);
    var buf := new byte[20];
    var read := new Action(buf, 0, 20, false);
    var recreate := new Action(null, 0, 0, true);
    var end := new Action(null, -1, -1, false);
    var late := new Action(buf, 0, 20, false);
    var queue := [read, recreate, end, late];
    ghost var rs := Requests(queue);
    ReadRecreateEnd(text, 20, rs);
    assert c.State() == Worker(text, false, false);
    served := c.Pump(queue);
    assert served == 2 && queue[3] == late && queue[0] == read && queue[1] == recreate;
    first, second, last := read.result, recreate.result, late.result;
    finished := c.hasFinished;
  }

  /** The single-byte read as written returns the byte after the window:
      with the window holding the first two of three bytes, it returns
      the third, where the intended read returns the first. */
  method ReadByteMisreads() returns (asWritten: Result<int, Exception>, intended: int)
    ensures asWritten == Ok(0x43) && intended == 0x41
  {
    var c := new StreamDecompressor(map[]);
    var b := NewArray([0x41, 0x42, 0x43]);
    assert b.Length == 3 && b[0] == 0x41 && b[2] == 0x43;
    c.SetInput(b, 0, 2);
    asWritten := c.ReadByteAsWritten();
    c.SetInput(b, 0, 2);
    intended := c.ReadByte();
  }

  /** When the window ends at the end of its array, the single-byte read
      as written fails. */
  method ReadByteOverruns() returns (asWritten: Result<int, Exception>)
    ensures asWritten == Err(ArrayIndexOutOfBoundsException)
  {
    var c := new StreamDecompressor(map[]);
    var b := NewArray([0x41, 0x42, 0x43]);
    assert b.Length == 3;
    c.SetInput(b, 1, 2);
    asWritten := c.ReadByteAsWritten();
  }

  /** Hadoop's decompressor stream asks for output before it has given
      any input. As written, the worker's copy from the missing window
      throws and the worker dies with its chain closed, so the request is
      never answered. */
  method DecompressBeforeInputHangs(len: nat) returns (n: Option<int>, running: bool, finished: bool)
    ensures n == None && !running && finished
  {
    var c := new StreamDecompressor(map[]);
    var buf := new byte[len];
    n := c.DecompressAsWritten(buf, 0, len);
    running, finished := c.running, c.hasFinished;
  }

  /** The same first request as intended: nothing is read, and the adapter
      asks for input. */
  method DecompressBeforeInputReadsNothing(len: nat) returns (n: int, needsInput: bool)
    ensures n == 0 && needsInput
  {
    var c := new StreamDecompressor(map[]);
    var buf := new byte[len];
    n := c.Decompress(buf, 0, len);
    needsInput := c.NeedsInput();
    c.End();
  }
}
