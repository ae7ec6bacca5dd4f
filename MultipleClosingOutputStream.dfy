/** An output stream that, when closed, closes a whole list of streams,
    last first. Writes go to the last stream of the list, as in a filter
    stream; closing is what this class adds. */
module MultipleClosingOutputStream {
  import opened Common

  /** A record of close calls, in the order they were made, shared by the
      streams of one chain. It exists only to state the order. */
  class Journal {
    ghost var closes: seq<Stream>

    constructor ()
      ensures closes == []
    {
      closes := [];
    }
  }

  /** A downstream output stream, as far as closing goes: closing it
      either succeeds or throws `closeError`. */
  class Stream {
    const closeError: Option<Exception>
    ghost const journal: Journal
    var closed: bool

    constructor (closeError: Option<Exception>, journal: Journal)
      ensures this.closeError == closeError && this.journal == journal && !closed
    {
      this.closeError := closeError;
      this.journal := journal;
      closed := false;
    }

    /** `close`: recorded in the journal whether or not it fails. */
    method Close() returns (e: Option<Exception>)
      modifies this`closed, journal`closes
      ensures journal.closes == old(journal.closes) + [this]
      ensures e == closeError
      ensures closed == (old(closed) || closeError.None?)
    {
      journal.closes := journal.closes + [this];
      e := closeError;
      if e.None? {
        closed := true;
      }
    }
  }

  /** `s` backwards. */
  function Reversed<T>(s: seq<T>): (r: seq<T>)
    ensures |r| == |s|
  {
    if s == [] then [] else Reversed(s[1..]) + [s[0]]
  }

  /** Element `i` of the reversed sequence is element `|s| - 1 - i` of
      the original. */
  lemma {:induction false} ReversedIndex<T>(s: seq<T>, i: nat)
    requires i < |s|
    ensures Reversed(s)[i] == s[|s| - 1 - i]
  {
    if i < |s| - 1 {
      ReversedIndex(s[1..], i);
    }
  }

  /** Reversing a suffix one element longer puts that element last. */
  lemma ReversedStep<T>(s: seq<T>, i: nat)
    requires i < |s|
    ensures Reversed(s[i..]) == Reversed(s[i + 1..]) + [s[i]]
  {
    assert s[i..][1..] == s[i + 1..];
  }

  /** The index of the last stream whose close fails, or -1 if none does. */
  function LastFailure(streams: seq<Stream>): (k: int)
    ensures -1 <= k < |streams|
    ensures k >= 0 ==> streams[k].closeError.Some?
    ensures forall j :: k < j < |streams| ==> streams[j].closeError.None?
  {
    if streams == [] then -1
    else if streams[|streams| - 1].closeError.Some? then |streams| - 1
    else LastFailure(streams[..|streams| - 1])
  }

  class MultipleClosingOutputStream {
    /** The stream writes go to: the last of `streams`. */
    const out: Stream
    /** The streams closed by `Close`, first to last. */
    var streams: seq<Stream>
    ghost const journal: Journal

    ghost predicate Valid()
      reads this
    {
      |streams| > 0 && forall s :: s in streams ==> s.journal == journal
    }

    /** The list constructor: the last stream becomes the filter target
        and the whole list is kept. */
    constructor FromList(streams: seq<Stream>)
      requires |streams| > 0 && forall s :: s in streams ==> s.journal == streams[0].journal
      ensures Valid() && out == streams[|streams| - 1] && this.streams == streams
    {
      out := streams[|streams| - 1];
      journal := streams[0].journal;
      this.streams := streams;
    }

    /** The single-stream constructor: a filter stream that also closes
        its target. */
    constructor (out: Stream)
      ensures Valid() && this.out == out && streams == [out]
    {
      this.out := out;
      journal := out.journal;
      streams := [out];
    }

    /** Closes every registered stream from the last to the first. The
        first close that throws ends the loop and its exception is the
        result; the streams before it are not touched. */
    method Close() returns (e: Option<Exception>)
      requires Valid()
      modifies (set s | s in streams), journal`closes
      ensures var k := LastFailure(streams);
        && e == (if k < 0 then None else streams[k].closeError)
        && journal.closes == old(journal.closes) + Reversed(streams[if k < 0 then 0 else k..])
        && (forall j :: k < j < |streams| ==> streams[j].closed)
        && (forall s :: s in streams[..k + 1] && s !in streams[k + 1..] ==> s.closed == old(s.closed))
    {
      var ss := streams;
      ghost var k := LastFailure(ss);
      var i := |ss|;
      while i > 0
        invariant 0 <= i <= |ss| && k < i
        invariant journal.closes == old(journal.closes) + Reversed(ss[i..])
        invariant forall j :: i <= j < |ss| ==> ss[j].closed
        invariant forall s :: s in ss && s !in ss[i..] ==> s.closed == old(s.closed)
        decreases i
      {
        ReversedStep(ss, i - 1);
        e := ss[i - 1].Close();
        if e.Some? {
          assert k == i - 1;
          return;
        }
        i := i - 1;
      }
      assert ss[0..] == ss;
      e := None;
    }
  }

  /** `new MultipleClosingOutputStream(list)`: an empty list makes the
      constructor fail on `get(-1)`, which `ArrayList` of Java 8 reports
      as an ArrayIndexOutOfBoundsException (later versions throw its
      superclass IndexOutOfBoundsException). */
  method Create(streams: seq<Stream>) returns (r: Result<MultipleClosingOutputStream, Exception>)
    requires forall s :: s in streams ==> s.journal == streams[0].journal
    ensures streams == [] <==> r == Err(ArrayIndexOutOfBoundsException)
    ensures r.Ok? ==> fresh(r.value) && r.value.Valid() && r.value.out == streams[|streams| - 1] && r.value.streams == streams
  {
    if |streams| == 0 {
      return Err(ArrayIndexOutOfBoundsException);
    }
    var m := new MultipleClosingOutputStream.FromList(streams);
    r := Ok(m);
  }
}
