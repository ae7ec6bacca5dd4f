/** Closing a chain of three streams, as the compressor builds one. */
module MultipleClosingOutputStreamScenarios {
  import opened Common
  import opened MultipleClosingOutputStream

  /** The middle stream fails to close: the last stream is closed first,
      then the middle one, whose exception is the result; the first stream
      is never closed. */
  method MiddleFailure() returns (e: Option<Exception>, first: Stream, middle: Stream, last: Stream, journal: Journal)
    ensures e == Some(IOException("middle"))
    ensures journal.closes == [last, middle]
    ensures last.closed && !middle.closed && !first.closed
  {
    journal := new Journal();
    first := new Stream(None, journal);
    middle := new Stream(Some(IOException("middle")), journal);
    last := new Stream(None, journal);
    var m := new MultipleClosingOutputStream.FromList([first, middle, last]);
    assert LastFailure([first, middle, last]) == 1 by {
      assert [first, middle, last][..2] == [first, middle];
    }
    e := m.Close();
    assert [first, middle, last][1..] == [middle, last];
    assert Reversed([middle, last]) == [last, middle] by {
      assert [middle, last][1..] == [last];
      assert [last][1..] == [];
    }
    assert [first, middle, last][..2] == [first, middle];
  }

  /** Every stream closes: all three are closed, last first, and no
      exception results. */
  method AllClose() returns (e: Option<Exception>, first: Stream, middle: Stream, last: Stream, journal: Journal)
    ensures e == None
    ensures journal.closes == [last, middle, first]
    ensures last.closed && middle.closed && first.closed
  {
    journal := new Journal();
    first := new Stream(None, journal);
    middle := new Stream(None, journal);
    last := new Stream(None, journal);
    var streams := [first, middle, last];
    var m := new MultipleClosingOutputStream.FromList(streams);
    assert LastFailure(streams) == -1 by {
      assert streams[..2] == [first, middle];
      assert streams[..2][..1] == [first];
      assert streams[..2][..1][..0] == [];
    }
    e := m.Close();
    assert Reversed(streams) == [last, middle, first] by {
      assert [last][1..] == [];
      assert Reversed([last]) == [last];
      assert [middle, last][1..] == [last];
      assert Reversed([middle, last]) == [last, middle];
      assert streams[1..] == [middle, last];
    }
    assert streams[0..] == streams;
  }
}
