/** The segment stream between the reader and the parser: what repeated
    `ReadString(delim)` calls return when nothing limits the buffer, and the
    errors that end the stream. */
module Segments {
  import opened ByteStrings

  /** `io.EOF`, the sized reader's `ErrBufferOverflow`, and any other failure
      the underlying source reports. */
  datatype ReadError = EOF | BufferOverflow | SourceFailure

  /** A segment as `ReadString` returns it without error: it ends with
      `delim`, its only occurrence. */
  predicate Delimited(seg: Bytes, delim: byte) {
    |seg| > 0 && seg[|seg| - 1] == delim && delim !in seg[..|seg| - 1]
  }

  predicate AllDelimited(ss: seq<Bytes>, delim: byte) {
    forall i :: 0 <= i < |ss| ==> Delimited(ss[i], delim)
  }

  lemma AllDelimitedCons(s: Bytes, ss: seq<Bytes>, delim: byte)
    requires Delimited(s, delim) && AllDelimited(ss, delim)
    ensures AllDelimited([s] + ss, delim)
  {
  }

  function Concat(ss: seq<Bytes>): Bytes {
    if ss == [] then [] else ss[0] + Concat(ss[1..])
  }

  lemma ConcatCons(s: Bytes, ss: seq<Bytes>, tail: Bytes)
    ensures Concat([s] + ss) + tail == s + (Concat(ss) + tail)
  {
    assert ([s] + ss)[1..] == ss;
  }

  lemma {:induction false} ConcatAppend(ss: seq<Bytes>, s: Bytes)
    ensures Concat(ss + [s]) == Concat(ss) + s
  {
    if ss == [] {
      assert [] + [s] == [s];
    } else {
      ConcatAppend(ss[1..], s);
      assert (ss + [s])[1..] == ss[1..] + [s];
    }
  }

  /** The data cut after every `delim`: the delimited segments in order,
      then the rest, which holds no `delim`. */
  function SplitAfter(data: Bytes, delim: byte): (r: (seq<Bytes>, Bytes))
    ensures Concat(r.0) + r.1 == data
    ensures AllDelimited(r.0, delim)
    ensures delim !in r.1
    decreases |data|
  {
    var k := IndexByte(data, delim);
    if k < 0 then ([], data)
    else
      var rest := SplitAfter(data[k + 1..], delim);
      SplitStep(data, delim, k, rest.0, rest.1);
      var segs := [data[..k + 1]] + rest.0;
      (segs, rest.1)
  }

  lemma SplitStep(data: Bytes, delim: byte, k: nat, segs: seq<Bytes>, tail: Bytes)
    requires k < |data| && data[k] == delim && delim !in data[..k]
    requires Concat(segs) + tail == data[k + 1..] && AllDelimited(segs, delim)
    ensures Concat([data[..k + 1]] + segs) + tail == data
    ensures AllDelimited([data[..k + 1]] + segs, delim)
  {
    var seg := data[..k + 1];
    ConcatCons(seg, segs, tail);
    assert data == seg + data[k + 1..];
    assert seg[..k] == data[..k];
    AllDelimitedCons(seg, segs, delim);
  }

  lemma DelimitedHead(s: Bytes, more: Bytes, delim: byte)
    requires Delimited(s, delim)
    ensures IndexByte(s + more, delim) == |s| - 1
    ensures (s + more)[..|s|] == s && (s + more)[|s|..] == more
  {
    assert s == s[..|s| - 1] + [delim];
    assert s + more == s[..|s| - 1] + [delim] + more;
    IndexByteOfPrefixed(s[..|s| - 1], delim, more);
  }

  /** The split is the only way to write the data as delimited segments
      followed by a delimiter-free rest. */
  lemma {:induction false} SplitAfterOf(segs: seq<Bytes>, tail: Bytes, delim: byte)
    requires AllDelimited(segs, delim)
    requires delim !in tail
    ensures SplitAfter(Concat(segs) + tail, delim) == (segs, tail)
  {
    if segs != [] {
      var s := segs[0];
      var more := Concat(segs[1..]) + tail;
      ConcatCons(s, segs[1..], tail);
      assert [s] + segs[1..] == segs;
      DelimitedHead(s, more, delim);
      SplitAfterOf(segs[1..], tail, delim);
      var data := Concat(segs) + tail;
      assert data == s + more;
      assert SplitAfter(data, delim) == ([data[..|s|]] + segs[1..], tail);
    } else {
      assert Concat(segs) + tail == tail;
    }
  }
}
