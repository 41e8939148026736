/** reader.go: `SizedBufferedReader`, a reader with a buffer that never
    grows. `ReadString(delim)` hands out the bytes up to and including the
    next `delim`; a line that does not fit in the buffer ends the stream with
    `ErrBufferOverflow`. The `io.Reader` underneath is a byte string read
    the way `strings.Reader` reads one. */
module Reader {
  import opened ByteStrings
  import opened Segments

  /** `minReadSize`. */
  const MinReadSize: nat := 16

  function Min(a: int, b: int): int {
    if a < b then a else b
  }

  /** The `io.Reader` under the buffer: `data` read front to back from
      `off`, reporting `end` (`io.EOF` or a failure) once it is used up. */
  datatype Source = Source(data: Bytes, off: nat, end: ReadError)

  predicate Exhausted(src: Source) {
    src.off >= |src.data|
  }

  /** What the source still holds. */
  function Left(src: Source): Bytes {
    if src.off <= |src.data| then src.data[src.off..] else []
  }

  datatype ReadReply = ReadReply(n: nat, err: Option<ReadError>, src: Source)

  /** `Read(p)` with `len(p) == space`, as `strings.Reader` does it: as
      many bytes as fit and are left, and an error only once nothing is
      left, never both. */
  function SourceRead(src: Source, space: nat): (r: ReadReply)
    requires src.off <= |src.data|
    ensures r.src.data == src.data && r.src.end == src.end && r.src.off <= |src.data|
    ensures r.err.Some? <==> Exhausted(src)
    ensures r.err.Some? ==> r.err == Some(src.end) && r.n == 0 && r.src == src
    ensures r.n <= space && src.off + r.n <= |src.data|
    ensures Left(src) == src.data[src.off..src.off + r.n] + Left(r.src)
    ensures r.n < space ==> Exhausted(r.src)
  {
    if src.off >= |src.data| then ReadReply(0, Some(src.end), src)
    else
      var n := Min(space, |src.data| - src.off);
      ReadReply(n, None, src.(off := src.off + n))
  }

  /** `shift`: moves `length` bytes of `arr` from `src` down to `dst`,
      clipped at the end of `arr`. A move that is not downwards, or has a
      negative length, moves nothing. Gives the new contents and the count. */
  function Shift(arr: Bytes, src: int, dst: int, length: int): (r: (Bytes, nat))
    requires src > dst && length >= 0 ==> 0 <= dst && src <= |arr|
    ensures |r.0| == |arr|
    ensures src <= dst || length < 0 ==> r == (arr, 0)
    ensures src > dst && length >= 0 ==>
      && r.1 <= length && src + r.1 <= |arr|
      && (r.1 < length ==> src + r.1 == |arr|)
      && r.0[dst..dst + r.1] == arr[src..src + r.1]
      && r.0[..dst] == arr[..dst] && r.0[dst + r.1..] == arr[dst + r.1..]
  {
    if src <= dst || length < 0 then (arr, 0)
    else
      var n := if length > |arr| - src then |arr| - src else length;
      (arr[..dst] + arr[src..src + n] + arr[dst + n..], n)
  }

  /** `SizedBufferedReader`: the buffer, the unread window `buf[pos..len]`,
      the source, the read size and the error kept for later. */
  datatype SizedReader = SizedReader(
    buf: Bytes, pos: nat, len: nat, src: Source, readSize: int, pendingErr: Option<ReadError>)

  /** What holds while `ReadString` works: a buffer of at least two read
      sizes, a window inside it that is full unless the source is used up,
      and a kept error that is the source's own only when it is used up. */
  predicate Shape(r: SizedReader) {
    && |r.buf| >= 2 * MinReadSize
    && r.pos <= r.len <= |r.buf|
    && r.src.off <= |r.src.data| && r.src.end != BufferOverflow
    && (r.len == 0 || r.len == |r.buf| || Exhausted(r.src))
    && (r.pendingErr.Some? && r.pendingErr != Some(BufferOverflow) ==>
          r.pendingErr == Some(r.src.end) && Exhausted(r.src))
  }

  /** What holds between calls as well: the window starts at 0 only when it
      is empty, and a kept error means the window has been handed out. */
  predicate Valid(r: SizedReader) {
    && Shape(r)
    && (r.pos > 0 || r.len == 0)
    && (r.pendingErr.Some? ==> r.pos == r.len)
  }

  /** The bytes a reader has yet to hand out. */
  function Unread(r: SizedReader): Bytes
    requires r.pos <= r.len <= |r.buf|
  {
    r.buf[r.pos..r.len] + Left(r.src)
  }

  /** `NewSizedBufReader`: the read size is raised to `minReadSize`, and the
      buffer holds two read sizes. */
  function NewSizedBufReader(src: Source, readSize: int): (r: SizedReader)
    ensures r.readSize == if readSize < MinReadSize then MinReadSize else readSize
    ensures |r.buf| == 2 * r.readSize
    ensures r.pos == 0 && r.len == 0 && r.src == src && r.pendingErr.None?
    ensures src.off <= |src.data| && src.end != BufferOverflow ==> Valid(r) && Unread(r) == Left(src)
  {
    var bufSize := readSize;
    var size := if readSize < MinReadSize then MinReadSize else readSize;
    var bufSize' := if bufSize < size * 2 then size * 2 else bufSize;
    SizedReader(seq(bufSize', _ => 0), 0, 0, src, size, None)
  }

  /** Lines 69-74: the unread window moved to the front of the buffer. With
      the window starting at 0 the shift moves nothing and the window is
      dropped; `Valid` keeps that from happening. */
  function Compact(r: SizedReader): (c: SizedReader)
    requires r.pos <= r.len <= |r.buf|
    ensures c.src == r.src && c.pendingErr == r.pendingErr && |c.buf| == |r.buf| && c.readSize == r.readSize
    ensures c.pos == 0 && c.len <= r.len
    ensures r.pos > 0 ==> c.buf[..c.len] == r.buf[r.pos..r.len]
    ensures r.pos == 0 ==> c.len == 0
  {
    var index := -1;
    var m := Shift(r.buf[..r.len], r.pos + index + 1, 0, r.len - r.pos);
    r.(buf := m.0 + r.buf[r.len..], pos := 0, len := m.1)
  }

  /** Lines 67-74: the window is moved to the front when fewer than
      `minReadSize` bytes are free. There is room to read afterwards, and the
      window starts the buffer unless the source is used up. */
  function Room(r: SizedReader): (c: SizedReader)
    requires Valid(r) && r.pendingErr.None?
    ensures c.src == r.src && c.pendingErr.None? && |c.buf| == |r.buf| && c.readSize == r.readSize
    ensures c.pos <= c.len < |c.buf|
    ensures c.buf[c.pos..c.len] == r.buf[r.pos..r.len] && Unread(c) == Unread(r)
    ensures c.pos == 0 || Exhausted(c.src)
    ensures r.len + MinReadSize < |r.buf| ==> c == r
    ensures r.len + MinReadSize >= |r.buf| ==> c.pos == 0 && c.buf[..c.len] == r.buf[r.pos..r.len]
  {
    if r.len + MinReadSize >= |r.buf| then Compact(r) else r
  }

  /** Lines 67-83 when nothing is kept: compact when fewer than
      `minReadSize` bytes are free, then one read into the free space. An
      error is kept; a read of nothing without error would be kept as
      `ErrBufferOverflow`, but there is always room. */
  function Fill(r: SizedReader): (f: SizedReader)
    requires Valid(r) && r.pendingErr.None?
    ensures Shape(f) && |f.buf| == |r.buf| && f.readSize == r.readSize
    ensures f.src.data == r.src.data && f.src.end == r.src.end
    ensures Unread(f) == Unread(r)
    ensures f.len - f.pos == |Unread(r)| || (f.pos == 0 && f.len == |f.buf|)
    ensures f.pendingErr.Some? ==>
      f.pendingErr == Some(r.src.end) && Exhausted(f.src) && f.buf[f.pos..f.len] == r.buf[r.pos..r.len]
  {
    var c := Room(r);
    var reply := SourceRead(c.src, |c.buf| - c.len);
    var buf := c.buf[..c.len] + c.src.data[c.src.off..c.src.off + reply.n] + c.buf[c.len + reply.n..];
    var pending := if reply.err.Some? then reply.err else if reply.n == 0 then Some(BufferOverflow) else None;
    FillWindow(c, reply, buf);
    c.(buf := buf, len := c.len + reply.n, src := reply.src, pendingErr := pending)
  }

  lemma FillWindow(c: SizedReader, reply: ReadReply, buf: Bytes)
    requires c.pos <= c.len < |c.buf| && c.src.off <= |c.src.data|
    requires reply == SourceRead(c.src, |c.buf| - c.len)
    requires buf == c.buf[..c.len] + c.src.data[c.src.off..c.src.off + reply.n] + c.buf[c.len + reply.n..]
    ensures |buf| == |c.buf|
    ensures buf[c.pos..c.len + reply.n] + Left(reply.src) == Unread(c)
  {
    var got := c.src.data[c.src.off..c.src.off + reply.n];
    assert buf[c.pos..c.len + reply.n] == c.buf[c.pos..c.len] + got;
  }

  /** A call's outcome: the segment, the error returned with it, and the
      reader afterwards. */
  datatype Got = Got(s: Bytes, err: Option<ReadError>, next: SizedReader)

  /** Lines 87-93: unless an error is kept, a read of nothing asks the
      source for one, and when there is none the buffer is taken to be full. */
  function Probe(r: SizedReader): (p: SizedReader)
    requires Shape(r)
    ensures Shape(p) && p == r.(pendingErr := p.pendingErr)
    ensures p.pendingErr ==
      if r.pendingErr.Some? then r.pendingErr
      else if Exhausted(r.src) then Some(r.src.end) else Some(BufferOverflow)
  {
    if r.pendingErr.None? then
      var err := SourceRead(r.src, 0).err;
      r.(pendingErr := if err.None? then Some(BufferOverflow) else err)
    else r
  }

  /** Lines 94-99: with an error kept, the window goes out if it is not
      empty, and the kept error otherwise. */
  function HandOut(r: SizedReader): (g: Got)
    requires Shape(r) && r.pendingErr.Some?
    ensures Valid(g.next) && g.s + Unread(g.next) == Unread(r)
    ensures g.next.buf == r.buf && g.next.src == r.src && g.next.readSize == r.readSize
    ensures g.s == r.buf[r.pos..r.len] && g.next.pendingErr == r.pendingErr
    ensures g.err.Some? <==> g.s == []
    ensures g.err.Some? ==> g.err == g.next.pendingErr
  {
    var s := r.buf[r.pos..r.len];
    if |s| > 0 then Got(s, None, r.(pos := r.pos + |s|))
    else Got(s, r.pendingErr, r)
  }

  /** Lines 100-110: `delim` at `index` in the window. The segment through
      it goes out; when it ends the window, the window is reset and the kept
      error goes with it. */
  function Through(r: SizedReader, index: nat): (g: Got)
    requires Shape(r) && r.pendingErr.None? && r.pos + index < r.len
    ensures Valid(g.next) && g.s + Unread(g.next) == Unread(r)
    ensures g.next.buf == r.buf && g.next.src == r.src && g.next.readSize == r.readSize
    ensures g.s == r.buf[r.pos..r.pos + index + 1] && g.err.None? && g.next.pendingErr.None?
    ensures r.pos + index == r.len - 1 ==> g.next.pos == 0 && g.next.len == 0
    ensures r.pos + index < r.len - 1 ==> g.next.pos == r.pos + index + 1 && g.next.len == r.len
  {
    if r.pos + index == r.len - 1 then
      Got(r.buf[r.pos..r.len], r.pendingErr, r.(pos := 0, len := 0))
    else
      var s := r.buf[r.pos..r.pos + index + 1];
      assert r.buf[r.pos..r.len] == s + r.buf[r.pos + index + 1..r.len];
      Got(s, None, r.(pos := r.pos + |s|))
  }

  /** Lines 86-110, once the search is over: `index` is where `delim` sits
      in the window, or -1. */
  function Finish(r: SizedReader, index: int): (g: Got)
    requires Shape(r) && -1 <= index < r.len - r.pos
    requires r.pendingErr.Some? ==> index < 0
    ensures Valid(g.next) && g.s + Unread(g.next) == Unread(r)
    ensures |g.next.buf| == |r.buf| && g.next.src == r.src && g.next.readSize == r.readSize
    ensures r.pendingErr.Some? ==> g.next.pendingErr == r.pendingErr
    ensures g.err.Some? <==> g.s == []
    ensures g.err.Some? ==> g.err == g.next.pendingErr
    ensures index >= 0 ==> g.s == r.buf[r.pos..r.pos + index + 1] && g.next.pendingErr == r.pendingErr
    ensures index < 0 ==> g.s == r.buf[r.pos..r.len] && g.next.pendingErr == Probe(r).pendingErr
  {
    if index == -1 then HandOut(Probe(r)) else Through(r, index)
  }

  /** `ReadString(delim)`: the bytes up to and including the next `delim`,
      or what is left when there is none. Nothing is lost or reordered; a
      segment holding `delim` ends with it; an error comes only with an
      empty segment and is then kept; a segment cut short without `delim`
      leaves an error kept for the next call. */
  function ReadString(r: SizedReader, delim: byte): (g: Got)
    requires Valid(r)
    ensures Valid(g.next) && |g.next.buf| == |r.buf| && g.next.src.data == r.src.data && g.next.src.end == r.src.end
    ensures g.s + Unread(g.next) == Unread(r)
    ensures g.err.Some? <==> g.s == []
    ensures g.err.Some? ==> g.err == g.next.pendingErr
    ensures r.pendingErr.Some? ==> g.next.pendingErr == r.pendingErr
    ensures delim in g.s ==> Delimited(g.s, delim)
    ensures g.s != [] && delim !in g.s ==> g.next.pendingErr.Some?
  {
    if Search(r, delim) < 0 && r.pendingErr.None? then Refilled(r, delim) else Ready(r, delim)
  }

  /** Lines 86-110 straight away: `delim` is in the window, or an error is
      kept. */
  function Ready(r: SizedReader, delim: byte): (g: Got)
    requires Valid(r) && (Search(r, delim) >= 0 || r.pendingErr.Some?)
    ensures Valid(g.next) && |g.next.buf| == |r.buf| && g.next.src.data == r.src.data && g.next.src.end == r.src.end
    ensures g.s + Unread(g.next) == Unread(r)
    ensures g.err.Some? <==> g.s == []
    ensures g.err.Some? ==> g.err == g.next.pendingErr
    ensures r.pendingErr.Some? ==> g.next.pendingErr == r.pendingErr
    ensures delim in g.s ==> Delimited(g.s, delim)
    ensures g.s != [] && delim !in g.s ==> g.next.pendingErr.Some?
  {
    KeptWindowEmpty(r, delim);
    ReadyDelimited(r, delim);
    Finish(r, Search(r, delim))
  }

  /** A reader keeping an error has handed out its whole window. */
  lemma KeptWindowEmpty(r: SizedReader, delim: byte)
    requires Valid(r)
    ensures r.pendingErr.Some? ==> Search(r, delim) < 0
  {
    if r.pendingErr.Some? {
      assert r.buf[r.pos..r.len] == [];
    }
  }

  /** What the window search hands out is cut at `delim`, or holds none. */
  lemma ReadyDelimited(r: SizedReader, delim: byte)
    requires Valid(r) && (Search(r, delim) >= 0 || r.pendingErr.Some?)
    ensures var g := (KeptWindowEmpty(r, delim); Finish(r, Search(r, delim)));
      && (delim in g.s ==> Delimited(g.s, delim))
      && (g.s != [] && delim !in g.s ==> g.next.pendingErr.Some?)
  {
    KeptWindowEmpty(r, delim);
    var index := Search(r, delim);
    var g := Finish(r, index);
    FinishDelimited(r, index, delim);
    assert index < 0 ==> g.next.pendingErr == r.pendingErr;
  }

  /** Lines 63-66: the window is searched only when the buffer holds bytes. */
  function Search(r: SizedReader, delim: byte): (index: int)
    requires r.pos <= r.len <= |r.buf|
    ensures index == IndexByte(r.buf[r.pos..r.len], delim)
  {
    if r.len > 0 then IndexByte(r.buf[r.pos..r.len], delim) else -1
  }

  /** Lines 67-110 when the window holds no `delim` and nothing is kept:
      one read, one more search, then the outcome. */
  function Refilled(r: SizedReader, delim: byte): (g: Got)
    requires Valid(r) && r.pendingErr.None? && Search(r, delim) < 0
    ensures Valid(g.next) && |g.next.buf| == |r.buf| && g.next.src.data == r.src.data && g.next.src.end == r.src.end
    ensures g.s + Unread(g.next) == Unread(r)
    ensures g.err.Some? <==> g.s == []
    ensures g.err.Some? ==> g.err == g.next.pendingErr
    ensures delim in g.s ==> Delimited(g.s, delim)
    ensures g.s != [] && delim !in g.s ==> g.next.pendingErr.Some?
  {
    var f := Fill(r);
    RefilledDelimited(r, delim);
    Finish(f, IndexByte(f.buf[f.pos..f.len], delim))
  }

  /** After the read the window is searched again: a kept error means it
      still holds no `delim`, and what is handed out is cut at `delim` or
      holds none. */
  lemma RefilledDelimited(r: SizedReader, delim: byte)
    requires Valid(r) && r.pendingErr.None? && Search(r, delim) < 0
    ensures var f := Fill(r);
      var index := IndexByte(f.buf[f.pos..f.len], delim);
      && (f.pendingErr.Some? ==> index < 0)
      && (delim in Finish(f, index).s ==> Delimited(Finish(f, index).s, delim))
      && (Finish(f, index).s != [] && delim !in Finish(f, index).s ==> Finish(f, index).next.pendingErr.Some?)
  {
    var f := Fill(r);
    var index := IndexByte(f.buf[f.pos..f.len], delim);
    assert f.pendingErr.Some? ==> index < 0;
    var g := Finish(f, index);
    FinishDelimited(f, index, delim);
    assert index < 0 ==> g.next.pendingErr == Probe(f).pendingErr;
  }

  /** The segment `Finish` hands out is cut through the `delim` at `index`,
      or holds none when there is none. */
  lemma FinishDelimited(r: SizedReader, index: int, delim: byte)
    requires Shape(r) && index == IndexByte(r.buf[r.pos..r.len], delim)
    requires r.pendingErr.Some? ==> index < 0
    ensures delim in Finish(r, index).s ==> Delimited(Finish(r, index).s, delim)
    ensures index < 0 <==> delim !in Finish(r, index).s
  {
    FinishSegment(r, index);
    WindowCut(r.buf[r.pos..r.len], index, delim, Finish(r, index).s);
  }

  /** `Finish` hands out the window through `index`, or all of it. */
  lemma FinishSegment(r: SizedReader, index: int)
    requires Shape(r) && -1 <= index < r.len - r.pos
    requires r.pendingErr.Some? ==> index < 0
    ensures index >= 0 ==> Finish(r, index).s == r.buf[r.pos..r.len][..index + 1]
    ensures index < 0 ==> Finish(r, index).s == r.buf[r.pos..r.len]
  {
    if index >= 0 {
      WindowPrefix(r.buf, r.pos, r.len, index + 1);
    }
  }

  /** A slice of the buffer from the window's start is a prefix of the window. */
  lemma WindowPrefix(buf: Bytes, pos: nat, len: nat, k: nat)
    requires pos + k <= len <= |buf|
    ensures buf[pos..pos + k] == buf[pos..len][..k]
  {
  }

  /** The window cut through the first `delim`, or whole when it has none. */
  lemma WindowCut(w: Bytes, index: int, delim: byte, s: Bytes)
    requires index == IndexByte(w, delim)
    requires index >= 0 ==> s == w[..index + 1]
    requires index < 0 ==> s == w
    ensures delim in s ==> Delimited(s, delim)
    ensures index < 0 <==> delim !in s
  {
    if index >= 0 {
      assert s[..index] == w[..index];
      assert s[index] == delim;
    }
  }

  /** Once an error is kept, every call returns it with nothing else and
      changes nothing. */
  lemma KeptErrorRepeats(r: SizedReader, delim: byte)
    requires Valid(r) && r.pendingErr.Some?
    ensures ReadString(r, delim) == Got([], r.pendingErr, r)
  {
    assert r.buf[r.pos..r.len] == [];
  }

  /** `delim` ends a line within the first `size` bytes of `u`, or `u`
      holds no `delim` and is at most `size` bytes long. */
  predicate Fits(u: Bytes, delim: byte, size: nat) {
    var k := IndexByte(u, delim);
    if k < 0 then |u| <= size else k < size
  }

  /** The first line of `u` as a buffer of `size` bytes can hold it: through
      the first `delim`, else all of `u`, cut at `size` bytes either way. */
  function FirstLine(u: Bytes, delim: byte, size: nat): (line: Bytes)
    ensures line <= u
  {
    var k := IndexByte(u, delim);
    if 0 <= k < size then u[..k + 1] else u[..Min(|u|, size)]
  }

  lemma FoundLine(w: Bytes, rest: Bytes, delim: byte, size: nat)
    requires IndexByte(w, delim) >= 0 && |w| <= size
    ensures FirstLine(w + rest, delim, size) == w[..IndexByte(w, delim) + 1]
    ensures Fits(w + rest, delim, size)
  {
    IndexByteAppend(w, rest, delim);
    assert (w + rest)[..IndexByte(w, delim) + 1] == w[..IndexByte(w, delim) + 1];
  }

  lemma WholeLine(w: Bytes, delim: byte, size: nat)
    requires IndexByte(w, delim) < 0 && |w| <= size
    ensures FirstLine(w, delim, size) == w && Fits(w, delim, size)
  {
    assert w[..|w|] == w;
  }

  lemma LongLine(w: Bytes, rest: Bytes, delim: byte)
    requires IndexByte(w, delim) < 0 && rest != []
    ensures FirstLine(w + rest, delim, |w|) == w && !Fits(w + rest, delim, |w|)
  {
    IndexByteAppend(w, rest, delim);
    assert (w + rest)[..|w|] == w;
  }

  /** What one call returns, in terms of the unread bytes alone: the first
      line when it fits in the buffer, and otherwise a buffer's worth of it
      with `ErrBufferOverflow` kept for the next call. */
  lemma ReadStringWindow(r: SizedReader, delim: byte)
    requires Valid(r) && r.pendingErr != Some(BufferOverflow)
    ensures ReadString(r, delim).s == FirstLine(Unread(r), delim, |r.buf|)
    ensures ReadString(r, delim).next.pendingErr == Some(BufferOverflow) <==> !Fits(Unread(r), delim, |r.buf|)
  {
    if Search(r, delim) >= 0 {
      ReadyWindow(r, delim);
    } else if r.pendingErr.Some? {
      KeptErrorRepeats(r, delim);
      assert Unread(r) == [];
    } else {
      RefilledWindow(r, delim);
    }
  }

  lemma ReadyWindow(r: SizedReader, delim: byte)
    requires Valid(r) && Search(r, delim) >= 0
    ensures Ready(r, delim).s == FirstLine(Unread(r), delim, |r.buf|)
    ensures Ready(r, delim).next.pendingErr == r.pendingErr && Fits(Unread(r), delim, |r.buf|)
  {
    FoundLine(r.buf[r.pos..r.len], Left(r.src), delim, |r.buf|);
  }

  lemma RefilledWindow(r: SizedReader, delim: byte)
    requires Valid(r) && r.pendingErr.None? && Search(r, delim) < 0
    ensures Refilled(r, delim).s == FirstLine(Unread(r), delim, |r.buf|)
    ensures Refilled(r, delim).next.pendingErr == Some(BufferOverflow) <==> !Fits(Unread(r), delim, |r.buf|)
  {
    var f := Fill(r);
    assert Refilled(r, delim) == Finish(f, IndexByte(f.buf[f.pos..f.len], delim));
    FilledWindow(f, delim);
  }

  /** After the read: the window is all that is unread, or a full buffer. */
  lemma FilledWindow(f: SizedReader, delim: byte)
    requires Shape(f)
    requires f.len - f.pos == |Unread(f)| || (f.pos == 0 && f.len == |f.buf|)
    requires f.pendingErr != Some(BufferOverflow)
    requires f.pendingErr.Some? ==> Exhausted(f.src) && IndexByte(f.buf[f.pos..f.len], delim) < 0
    ensures var g := Finish(f, IndexByte(f.buf[f.pos..f.len], delim));
      && g.s == FirstLine(Unread(f), delim, |f.buf|)
      && (g.next.pendingErr == Some(BufferOverflow) <==> !Fits(Unread(f), delim, |f.buf|))
  {
    var fw := f.buf[f.pos..f.len];
    var index := IndexByte(fw, delim);
    FinishSegment(f, index);
    if index >= 0 {
      FoundLine(fw, Left(f.src), delim, |f.buf|);
    } else if |fw| == |Unread(f)| {
      assert Left(f.src) == [] && fw + Left(f.src) == fw;
      assert Exhausted(f.src);
      WholeLine(fw, delim, |f.buf|);
    } else {
      LongLine(fw, Left(f.src), delim);
    }
  }

  /** What a stream of segments looks like: each ends with `delim`, except
      that the last may be a non-empty piece without it. */
  predicate WellCut(segs: seq<Bytes>, delim: byte) {
    forall i :: 0 <= i < |segs| ==>
      Delimited(segs[i], delim) || (i == |segs| - 1 && segs[i] != [] && delim !in segs[i])
  }

  /** The parser's loop over a reader: calls until the first error, which
      ends the stream. */
  datatype Stream = Stream(segs: seq<Bytes>, err: ReadError, rest: SizedReader)

  function ReadAll(r: SizedReader, delim: byte): (st: Stream)
    requires Valid(r)
    ensures Valid(st.rest) && Concat(st.segs) + Unread(st.rest) == Unread(r)
    ensures WellCut(st.segs, delim)
    ensures st.err != BufferOverflow ==> st.err == r.src.end && Unread(st.rest) == []
    decreases |Unread(r)|
  {
    var g := ReadString(r, delim);
    if g.err.Some? then Ended(g, r, delim)
    else
      var st := ReadAll(g.next, delim);
      assert delim !in g.s ==> st.segs == [] by {
        if delim !in g.s {
          KeptErrorRepeats(g.next, delim);
        }
      }
      Cons(g, st, r, delim)
  }

  /** The call that returns an error ends the stream with nothing more. */
  function Ended(g: Got, r: SizedReader, delim: byte): (st: Stream)
    requires Valid(r) && Valid(g.next) && g.err.Some? && g.s == [] && Unread(g.next) == Unread(r)
    requires g.err == g.next.pendingErr && g.next.src.end == r.src.end
    ensures Valid(st.rest) && Concat(st.segs) + Unread(st.rest) == Unread(r)
    ensures WellCut(st.segs, delim)
    ensures st.err != BufferOverflow ==> st.err == r.src.end && Unread(st.rest) == []
  {
    assert g.next.buf[g.next.pos..g.next.len] == [];
    Stream([], g.err.value, g.next)
  }

  /** A segment returned without error goes in front of the rest of the
      stream. */
  function Cons(g: Got, st: Stream, r: SizedReader, delim: byte): (st': Stream)
    requires Valid(r) && Valid(g.next) && g.s != []
    requires g.s + Unread(g.next) == Unread(r) && g.next.src.end == r.src.end
    requires delim in g.s ==> Delimited(g.s, delim)
    requires delim !in g.s ==> st.segs == []
    requires Valid(st.rest) && Concat(st.segs) + Unread(st.rest) == Unread(g.next)
    requires WellCut(st.segs, delim)
    requires st.err != BufferOverflow ==> st.err == g.next.src.end && Unread(st.rest) == []
    ensures Valid(st'.rest) && Concat(st'.segs) + Unread(st'.rest) == Unread(r)
    ensures WellCut(st'.segs, delim)
    ensures st'.err != BufferOverflow ==> st'.err == r.src.end && Unread(st'.rest) == []
  {
    ConcatCons(g.s, st.segs, Unread(st.rest));
    Stream([g.s] + st.segs, st.err, st.rest)
  }

  /** A stream read the way `bufio.Reader` gives it to `read`: the segments
      that end with `delim`, then the rest. */
  function AsLines(segs: seq<Bytes>, delim: byte): (seq<Bytes>, Bytes) {
    if |segs| > 0 && delim !in segs[|segs| - 1] then (segs[..|segs| - 1], segs[|segs| - 1]) else (segs, [])
  }

  lemma WellCutAsLines(segs: seq<Bytes>, delim: byte)
    requires WellCut(segs, delim)
    ensures SplitAfter(Concat(segs), delim) == AsLines(segs, delim)
  {
    var p := AsLines(segs, delim);
    if |segs| > 0 && delim !in segs[|segs| - 1] {
      assert segs == p.0 + [p.1];
      ConcatAppend(p.0, p.1);
      assert AllDelimited(p.0, delim) by {
        forall i | 0 <= i < |p.0| ensures Delimited(p.0[i], delim) {
          assert p.0[i] == segs[i];
        }
      }
    } else {
      assert Concat(segs) + [] == Concat(segs);
      assert AllDelimited(segs, delim) by {
        forall i | 0 <= i < |segs| ensures Delimited(segs[i], delim) {
          if i == |segs| - 1 {
            assert delim in segs[i];
          }
        }
      }
    }
    SplitAfterOf(p.0, p.1, delim);
  }

  /** Unless a line overflows the buffer, the sized reader cuts the stream
      exactly where `bufio.Reader` does: its segments are the split after
      every `delim`, the unterminated rest coming last without an error. */
  lemma ReadAllAsSplit(r: SizedReader, delim: byte)
    requires Valid(r) && ReadAll(r, delim).err != BufferOverflow
    ensures SplitAfter(Unread(r), delim) == AsLines(ReadAll(r, delim).segs, delim)
    ensures ReadAll(r, delim).err == r.src.end
  {
    var st := ReadAll(r, delim);
    assert Concat(st.segs) + [] == Concat(st.segs);
    WellCutAsLines(st.segs, delim);
  }

  /** Every line of `u`, the rest included, fits in `size` bytes. */
  predicate LinesFit(u: Bytes, delim: byte, size: nat)
    decreases |u|
  {
    var k := IndexByte(u, delim);
    if k < 0 then |u| <= size else k < size && LinesFit(u[k + 1..], delim, size)
  }

  /** A stream ends in `ErrBufferOverflow` exactly when one of its lines
      does not fit in the buffer. */
  lemma {:induction false} ReadAllOverflow(r: SizedReader, delim: byte)
    requires Valid(r) && r.pendingErr != Some(BufferOverflow)
    ensures ReadAll(r, delim).err == BufferOverflow <==> !LinesFit(Unread(r), delim, |r.buf|)
    decreases |Unread(r)|
  {
    var g := ReadString(r, delim);
    var u := Unread(r);
    ReadStringWindow(r, delim);
    if g.err.Some? {
      if g.err != Some(BufferOverflow) {
        assert u == [];
      }
    } else if g.next.pendingErr == Some(BufferOverflow) {
      KeptErrorRepeats(g.next, delim);
      assert ReadAll(g.next, delim).err == BufferOverflow;
    } else {
      ReadAllOverflow(g.next, delim);
      FitsStep(u, delim, |r.buf|);
      assert Unread(g.next) == u[|g.s|..];
    }
  }

  lemma FitsStep(u: Bytes, delim: byte, size: nat)
    requires Fits(u, delim, size)
    ensures LinesFit(u, delim, size) == LinesFit(u[|FirstLine(u, delim, size)|..], delim, size)
  {
    var k := IndexByte(u, delim);
    if k < 0 {
      assert u[|u|..] == [];
    }
  }

  /** Delimited segments and a rest, none longer than `size`, fit. */
  lemma {:induction false} LinesFitOf(segs: seq<Bytes>, tail: Bytes, delim: byte, size: nat)
    requires AllDelimited(segs, delim) && delim !in tail && |tail| <= size
    requires forall i :: 0 <= i < |segs| ==> |segs[i]| <= size
    ensures LinesFit(Concat(segs) + tail, delim, size)
    decreases |segs|
  {
    if segs == [] {
      assert Concat(segs) + tail == tail;
    } else {
      var more := Concat(segs[1..]) + tail;
      ConcatCons(segs[0], segs[1..], tail);
      assert [segs[0]] + segs[1..] == segs;
      DelimitedHead(segs[0], more, delim);
      LinesFitOf(segs[1..], tail, delim, size);
    }
  }

  /** `AsLines` loses nothing: the stream is the lines, then the rest if
      there is one. */
  lemma AsLinesInverse(segs: seq<Bytes>, delim: byte)
    requires WellCut(segs, delim)
    ensures var p := AsLines(segs, delim); segs == if p.1 == [] then p.0 else p.0 + [p.1]
  {
  }
}
