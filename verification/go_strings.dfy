/** strings.go: the byte trims applied to every segment and inside records. */
module GoStrings {
  import opened ByteStrings

  /** `utf8.RuneSelf`: bytes below it are whole one-byte runes. */
  const RuneSelf: byte := 0x80

  /** `SpaceTrimmed`: the bytes of `" \t"`, space and tab. */
  const SpaceTrimmed: Bytes := [32, 9]

  /** `CutFunc`, applied to the rune a byte starts. A byte at or above
      `RuneSelf` starts a multi-byte or invalid rune, whose value is never
      below `RuneSelf`, so it is never cut. */
  predicate CutFunc(b: byte) {
    b < RuneSelf && b in SpaceTrimmed
  }

  /** Only space and tab are cut; in particular a newline is kept. */
  lemma CutFuncIsSpaceOrTab(b: byte)
    ensures CutFunc(b) <==> b == ' ' as int || b == '\t' as int
    ensures !CutFunc('\n' as int) && !CutFunc('\r' as int)
  {
    assert SpaceTrimmed == [' ' as int, '\t' as int];
  }

  /** `TrimLeftAnyByte`: drops the longest prefix of `s` made of bytes of `trim`.
      The source walks `s` rune by rune; since every byte of `trim` is ASCII,
      a trimmed byte is a whole rune and the walk advances one byte at a time. */
  function TrimLeftAnyByte(s: Bytes, trim: Bytes): (r: Bytes)
    requires forall t :: t in trim ==> t < RuneSelf
    ensures IsSuffix(r, s)
    ensures forall i :: 0 <= i < |s| - |r| ==> s[i] in trim
    ensures |r| > 0 ==> r[0] !in trim
  {
    if |s| > 0 && s[0] in trim then TrimLeftAnyByte(s[1..], trim) else s
  }

  /** Trimming again changes nothing. */
  lemma TrimLeftAnyByteIdempotent(s: Bytes, trim: Bytes)
    requires forall t :: t in trim ==> t < RuneSelf
    ensures TrimLeftAnyByte(TrimLeftAnyByte(s, trim), trim) == TrimLeftAnyByte(s, trim)
  {
  }

  /** Conversely, a run of `trim` bytes in front of a byte outside `trim` is
      exactly what is removed. */
  lemma TrimLeftAnyByteOf(pre: Bytes, s: Bytes, trim: Bytes)
    requires forall t :: t in trim ==> t < RuneSelf
    requires forall i :: 0 <= i < |pre| ==> pre[i] in trim
    requires |s| > 0 ==> s[0] !in trim
    ensures TrimLeftAnyByte(pre + s, trim) == s
  {
    var line := pre + s;
    assert forall k :: 0 <= k < |pre| ==> line[k] in trim;
    assert |s| > 0 ==> line[|pre|] !in trim;
  }

  /** The right half of `strings.TrimFunc(s, CutFunc)`. */
  function TrimRightCut(s: Bytes): (r: Bytes)
    ensures |r| <= |s| && r == s[..|r|]
    ensures forall i :: |r| <= i < |s| ==> CutFunc(s[i])
    ensures |r| > 0 ==> !CutFunc(r[|r| - 1])
  {
    if |s| > 0 && CutFunc(s[|s| - 1]) then TrimRightCut(s[..|s| - 1]) else s
  }

  /** Bytes that `CutFunc` cuts, all of them. */
  predicate AllCut(x: Bytes) {
    forall i :: 0 <= i < |x| ==> CutFunc(x[i])
  }

  /** `strings.TrimFunc(s, CutFunc)`: `s` is the result with a run of cut
      bytes on either side, and the result neither starts nor ends with one. */
  function TrimFunc(s: Bytes): (r: Bytes)
    ensures var lo := |s| - |TrimLeftAnyByte(s, SpaceTrimmed)|;
            && lo + |r| <= |s| && s == s[..lo] + r + s[lo + |r|..]
            && AllCut(s[..lo]) && AllCut(s[lo + |r|..])
    ensures |r| > 0 ==> !CutFunc(r[0]) && !CutFunc(r[|r| - 1])
  {
    var left := TrimLeftAnyByte(s, SpaceTrimmed);
    var r := TrimRightCut(left);
    TrimFuncParts(s, left, r);
    r
  }

  /** The two trims split `s` into a cut run, the result and a cut run. */
  lemma TrimFuncParts(s: Bytes, left: Bytes, r: Bytes)
    requires left == TrimLeftAnyByte(s, SpaceTrimmed) && r == TrimRightCut(left)
    ensures var lo := |s| - |left|;
            && lo + |r| <= |s| && s == s[..lo] + r + s[lo + |r|..]
            && AllCut(s[..lo]) && AllCut(s[lo + |r|..])
  {
    var lo := |s| - |left|;
    assert lo + |r| <= |s|;
    LeadingCut(s, lo);
    assert AllCut(s[..lo]);
    TrailingCut(left, r);
    assert AllCut(left[|r|..]);
    Joined(s, left, r, lo);
    assert s == s[..lo] + r + s[lo + |r|..];
    assert AllCut(s[lo + |r|..]);
  }

  lemma LeadingCut(s: Bytes, lo: nat)
    requires lo <= |s| && forall i :: 0 <= i < lo ==> s[i] in SpaceTrimmed
    ensures AllCut(s[..lo])
  {
    forall i | 0 <= i < lo ensures CutFunc(s[..lo][i]) {
      assert s[..lo][i] == s[i];
    }
  }

  lemma TrailingCut(left: Bytes, r: Bytes)
    requires |r| <= |left| && forall i :: |r| <= i < |left| ==> CutFunc(left[i])
    ensures AllCut(left[|r|..])
  {
    forall k | 0 <= k < |left| - |r| ensures CutFunc(left[|r|..][k]) {
      assert left[|r|..][k] == left[|r| + k];
    }
  }

  lemma Joined(s: Bytes, left: Bytes, r: Bytes, lo: nat)
    requires lo + |left| == |s| && left == s[lo..] && |r| <= |left| && r == left[..|r|]
    ensures s == s[..lo] + r + s[lo + |r|..] && s[lo + |r|..] == left[|r|..]
  {
    assert s == s[..lo] + left;
    assert left == r + left[|r|..];
    assert s[lo + |r|..] == left[|r|..];
  }

  /** A line that ends in a byte other than space or tab keeps that byte
      as its last after the trim. */
  lemma TrimFuncKeepsLast(s: Bytes)
    requires |s| > 0 && !CutFunc(s[|s| - 1])
    ensures |TrimFunc(s)| > 0 && TrimFunc(s)[|TrimFunc(s)| - 1] == s[|s| - 1]
  {
    var r := TrimFunc(s);
    var lo := |s| - |TrimLeftAnyByte(s, SpaceTrimmed)|;
    var tail := s[lo + |r|..];
    assert |tail| == 0;
    assert s == s[..lo] + r;
  }
}
