/** The cases of reader_test.go, derived from the general results about the
    sized reader rather than by running it. */
module ReaderExamples {
  import opened ByteStrings
  import opened Segments
  import opened Reader

  /** `Test_shift`: a move down by two, the same move clipped at the end of
      the array, a move of nothing, and the two moves that are not
      downwards. */
  lemma ShiftCases()
    ensures Shift([0, 1, 2, 3, 4, 5, 6], 3, 1, 3) == ([0, 3, 4, 5, 4, 5, 6], 3)
    ensures Shift([0, 1, 2, 3, 4, 5, 6], 3, 1, 5) == ([0, 3, 4, 5, 6, 5, 6], 4)
    ensures Shift([0, 1, 2, 3, 4, 5, 6], 3, 1, 0) == ([0, 1, 2, 3, 4, 5, 6], 0)
    ensures Shift([0, 1, 2, 3, 4, 5, 6], 1, 1, 0) == ([0, 1, 2, 3, 4, 5, 6], 0)
    ensures Shift([0, 1, 2, 3, 4, 5, 6], 1, 2, 0) == ([0, 1, 2, 3, 4, 5, 6], 0)
  {
    var a: Bytes := [0, 1, 2, 3, 4, 5, 6];
    assert a[..1] + a[3..6] + a[4..] == [0, 3, 4, 5, 4, 5, 6];
    assert a[..1] + a[3..7] + a[5..] == [0, 3, 4, 5, 6, 5, 6];
    assert a[..1] + a[3..3] + a[1..] == a;
  }

  const Underscore: byte := 95
  const TestPart: Bytes := [84, 101, 115, 116, 95]
  const StringPart: Bytes := [115, 116, 114, 105, 110, 103, 95]
  const EndedPart: Bytes := [32, 101, 110, 100, 101, 100, 32, 50, 32, 102, 105, 108, 108]
  const EdPart: Bytes := [32, 101, 100]

  lemma PartsDelimited()
    ensures AllDelimited([TestPart, StringPart, [Underscore]], Underscore)
    ensures Concat([TestPart, StringPart, [Underscore]]) == TestPart + StringPart + [Underscore]
  {
    var lines := [TestPart, StringPart, [Underscore]];
    assert lines[1..] == [StringPart, [Underscore]] && lines[1..][1..] == [[Underscore]];
    assert Concat([[Underscore]]) == [Underscore] + Concat([]);
    assert Concat([StringPart, [Underscore]]) == StringPart + [Underscore];
    assert TestPart[..4] == [84, 101, 115, 116];
    assert StringPart[..6] == [115, 116, 114, 105, 110, 103];
    assert [Underscore][..0] == [];
  }

  /** A whole stream read with a 16-byte read size, from a `strings.Reader`
      over `data`. */
  function ReadWith16(data: Bytes): Stream {
    ReadAll(NewSizedBufReader(Source(data, 0, EOF), 16), Underscore)
  }

  /** With lines that all fit, the stream is the split of the data with the
      rest last, and it ends with `io.EOF`. */
  lemma {:induction false} ReadWith16Splits(lines: seq<Bytes>, tail: Bytes)
    requires AllDelimited(lines, Underscore) && Underscore !in tail && 0 < |tail| <= 32
    requires forall i :: 0 <= i < |lines| ==> |lines[i]| <= 32
    ensures ReadWith16(Concat(lines) + tail).segs == lines + [tail]
    ensures ReadWith16(Concat(lines) + tail).err == EOF
  {
    var data := Concat(lines) + tail;
    var r := NewSizedBufReader(Source(data, 0, EOF), 16);
    assert Unread(r) == data;
    LinesFitOf(lines, tail, Underscore, 32);
    ReadAllOverflow(r, Underscore);
    ReadAllAsSplit(r, Underscore);
    SplitAfterOf(lines, tail, Underscore);
    AsLinesInverse(ReadAll(r, Underscore).segs, Underscore);
  }

  /** "one read to buffer": `Test_string__ ed` gives `Test_`, `string_`,
      `_`, ` ed`, then `io.EOF`. */
  lemma OneReadToBuffer()
    ensures ReadWith16(TestPart + StringPart + [Underscore] + EdPart).segs == [TestPart, StringPart, [Underscore], EdPart]
    ensures ReadWith16(TestPart + StringPart + [Underscore] + EdPart).err == EOF
  {
    var lines := [TestPart, StringPart, [Underscore]];
    PartsDelimited();
    ReadWith16Splits(lines, EdPart);
  }

  /** "two reads to buffer": `Test_string__ ended 2 fill` gives `Test_`,
      `string_`, `_`, ` ended 2 fill`, then `io.EOF`. */
  lemma TwoReadsToBuffer()
    ensures ReadWith16(TestPart + StringPart + [Underscore] + EndedPart).segs == [TestPart, StringPart, [Underscore], EndedPart]
    ensures ReadWith16(TestPart + StringPart + [Underscore] + EndedPart).err == EOF
  {
    var lines := [TestPart, StringPart, [Underscore]];
    PartsDelimited();
    ReadWith16Splits(lines, EndedPart);
  }
}
