/** The adapter driven the way its own unit tests drive it, with the
    chains the tests build: the identity chain and one that writes a
    six-byte header while it is being built. The tests use the twelve
    bytes of "Hello World!"; here any twelve bytes will do. */
module StreamCompressorScenarios {
  import opened Common
  import opened StreamCompressor

  /** `s[..k] + s[k..]` is `s`. */
  lemma Halves(s: seq<byte>, k: nat)
    requires k <= |s|
    ensures s[..k] + s[k..] == s
  {
  }

  /** A fresh adapter wants input, has counted nothing and is not finished. */
  method Created() returns (needsInput: bool, read: nat, written: nat, finished: bool)
    ensures needsInput && read == 0 && written == 0 && !finished
  {
    var c := new StreamCompressor(Identity, map[], DEFAULT_INITIAL_BUFFER_SIZE);
    needsInput := c.NeedsInput();
    read, written := c.numBytesRead, c.numBytesWritten;
    finished := c.Finished();
    c.End();
  }

  /** Once given input, the adapter no longer wants any; after `finish` it
      is still not finished, since the input has not been compressed. */
  method InputThenFinish(text: seq<byte>) returns (needsInput: bool, finished: bool)
    requires |text| == 12
    ensures !needsInput && !finished
  {
    var c := new StreamCompressor(Identity, map[], DEFAULT_INITIAL_BUFFER_SIZE);
    var b := NewArray(text);
    c.SetInput(b, 0, b.Length);
    needsInput := c.NeedsInput();
    c.Finish();
    finished := c.Finished();
    c.End();
  }

  /** One compress call into a window one byte larger than the input
      returns the whole input and leaves the adapter finished. */
  method CompressOnce(text: seq<byte>) returns (n: nat, out: seq<byte>, finished: bool)
    requires |text| == 12
    ensures n == 12 && out == text && finished
  {
    var c := new StreamCompressor(Identity, map[], DEFAULT_INITIAL_BUFFER_SIZE);
    var b := NewArray(text);
    c.SetInput(b, 0, b.Length);
    c.Finish();
    assert c.Queue(13) == text;
    var buf := new byte[b.Length + 1];
    ghost var buf0 := buf[..];
    n := c.Compress(buf, 0, buf.Length);
    SplicedPrefix(buf0, 0, text);
    out := buf[..12];
    finished := c.Finished();
    c.End();
  }

  /** A six-byte window takes the first half; the rest waits in the buffer
      and the second call returns it. */
  method CompressTwice(text: seq<byte>) returns (n1: nat, finished1: bool, n2: nat, out: seq<byte>, finished2: bool)
    requires |text| == 12
    ensures n1 == 6 && !finished1 && n2 == 6 && out == text && finished2
  {
    var c := new StreamCompressor(Identity, map[], DEFAULT_INITIAL_BUFFER_SIZE);
    var b := NewArray(text);
    c.SetInput(b, 0, b.Length);
    c.Finish();
    assert c.Queue(6) == text;
    var buf := new byte[b.Length + 1];
    ghost var buf0 := buf[..];
    n1 := c.Compress(buf, 0, 6);
    assert c.Buffered == text[6..] && c.streamClosed;
    finished1 := c.Finished();
    assert c.Queue(7) == text[6..];
    n2 := c.Compress(buf, 6, 7);
    SpliceTwice(buf0, 0, text[..6], text[6..]);
    Halves(text, 6);
    SplicedPrefix(buf0, 0, text);
    out := buf[..12];
    finished2 := c.Finished();
    c.End();
  }

  /** The first half shared by the two-window scenarios: an adapter over
      `p` is given the first six bytes of `text`, and a compress call with
      room for everything returns what the chain wrote while being built
      followed by those six bytes. */
  method FirstWindow(p: Pipeline, text: seq<byte>) returns (c: StreamCompressor, b: array<byte>, buf: array<byte>, n1: nat)
    requires |text| == 12 && (p.Headed? ==> |p.header| >= 4)
    ensures fresh(c) && fresh(b) && fresh(buf) && fresh(c.bufferBytes)
    ensures b != buf && c.bufferBytes != b && c.bufferBytes != buf
    ensures c.Valid() && c.Buffered == [] && !c.streamClosed && !c.hasFinished && c.outputBytes == null
    ensures b[..] == text && buf.Length == |HeaderOf(p)| + 13
    ensures n1 == |HeaderOf(p)| + 6 && buf[..n1] == HeaderOf(p) + text[..6]
  {
    c := new StreamCompressor(p, map[], DEFAULT_INITIAL_BUFFER_SIZE);
    b := NewArray(text);
    c.SetInput(b, 0, 6);
    assert c.Pending == text[..6] && c.bufferLen == |HeaderOf(p)|;
    ghost var q := c.Queue(|HeaderOf(p)| + 13);
    assert q == HeaderOf(p) + text[..6];
    buf := new byte[|HeaderOf(p)| + 13];
    ghost var buf0 := buf[..];
    n1 := c.Compress(buf, 0, buf.Length);
    assert n1 == |q| && c.Buffered == [];
    assert q[..n1] == q;
    assert buf[..] == Splice(buf0, 0, q);
    SplicedPrefix(buf0, 0, q);
    assert buf[..n1] == buf0[..0] + q;
  }

  /** The second half shared by the two-window scenarios: the adapter
      left by `FirstWindow` is given the last six bytes and finished, and
      a compress call at `at` returns those six bytes. */
  method SecondWindow(c: StreamCompressor, b: array<byte>, buf: array<byte>, at: nat, text: seq<byte>) returns (n2: nat)
    requires |text| == 12 && b[..] == text && at + 7 <= buf.Length
    requires b != buf && c.bufferBytes != b && c.bufferBytes != buf
    requires c.Valid() && c.Buffered == [] && !c.streamClosed && !c.hasFinished && c.outputBytes == null
    modifies c, c.bufferBytes, buf
    ensures c.Valid() && n2 == 6
    ensures buf[..at + 6] == old(buf[..at]) + text[6..]
  {
    c.SetInput(b, 6, 6);
    c.Finish();
    ghost var q := c.Queue(7);
    assert q == text[6..];
    ghost var mid := buf[..];
    n2 := c.Compress(buf, at, 7);
    assert n2 == 6;
    SplicedPrefix(mid, at, q);
  }

  /** The input arrives in two windows; each compress call returns what
      the window before it held. */
  method InputTwice(text: seq<byte>) returns (n1: nat, n2: nat, out: seq<byte>)
    requires |text| == 12
    ensures n1 == 6 && n2 == 6 && out == text
  {
    var c, b, buf;
    c, b, buf, n1 := FirstWindow(Identity, text);
    n2 := SecondWindow(c, b, buf, 6, text);
    Halves(text, 6);
    out := buf[..12];
    c.End();
  }

  /** The header the chain wrote while it was being built comes out
      first, followed by the input. */
  method HeadedTwice(header: seq<byte>, text: seq<byte>) returns (n1: nat, n2: nat, out: seq<byte>)
    requires |header| == 6 && |text| == 12
    ensures n1 == 12 && n2 == 6 && out == header + text
  {
    var c, b, buf;
    c, b, buf, n1 := FirstWindow(Headed(header), text);
    n2 := SecondWindow(c, b, buf, 12, text);
    Halves(text, 6);
    out := buf[..18];
    assert out == header + text[..6] + text[6..];
    c.End();
  }
}
