/** parser.go, lines 144-148 and 174-241: the markers of the input and the
    helpers that consume the current line from its front. In the source each
    helper rewrites the parser's `line` field; here each returns what is left
    of the line. */
module Scanner {
  import opened ByteStrings
  import opened GoStrings

  /** The bytes of `<root>`, `<item` and `/>`. */
  const ItemRoot: Bytes := [60, 114, 111, 111, 116, 62]
  const Item: Bytes := [60, 105, 116, 101, 109]
  const ItemClose: Bytes := [47, 62]

  const Quote: byte := 34
  const EqualsSign: byte := 61

  /** The outcome of a helper that indexes `line[0]`: on an empty line the
      source panics. */
  datatype Scan<T> = Scanned(value: T, rest: Bytes) | Panic

  /** `IsRoot` and `IsItem`: on success everything through the first
      occurrence of `marker` is dropped; on failure the line is unchanged. */
  function SkipThrough(line: Bytes, marker: Bytes): (r: (bool, Bytes))
    ensures !r.0 <==> forall j :: !OccursAt(line, marker, j)
    ensures !r.0 ==> r.1 == line
    ensures r.0 ==> var k := |line| - |r.1| - |marker|;
                    FirstAt(line, marker, k) && r.1 == line[k + |marker|..]
  {
    var i := Index(line, marker);
    if i == -1 then (false, line) else (true, line[i + |marker|..])
  }

  /** `IsRoot`: finds `<root>` and drops the line through it. */
  function IsRoot(line: Bytes): (r: (bool, Bytes))
    ensures !r.0 <==> forall j :: !OccursAt(line, ItemRoot, j)
    ensures !r.0 ==> r.1 == line
    ensures r.0 ==> exists k :: FirstAt(line, ItemRoot, k) && r.1 == line[k + |ItemRoot|..]
  {
    SkipThrough(line, ItemRoot)
  }

  /** `IsItem`: finds `<item` and drops the line through it. */
  function IsItem(line: Bytes): (r: (bool, Bytes))
    ensures !r.0 <==> forall j :: !OccursAt(line, Item, j)
    ensures !r.0 ==> r.1 == line
    ensures r.0 ==> exists k :: FirstAt(line, Item, k) && r.1 == line[k + |Item|..]
  {
    SkipThrough(line, Item)
  }

  /** `TrimLeftSpace`: drops the leading spaces and tabs and tells whether
      there were any. */
  function TrimLeftSpace(line: Bytes): (r: Scan<bool>)
    ensures r.Panic? <==> |line| == 0
    ensures r.Scanned? ==>
      && IsSuffix(r.rest, line)
      && (forall i :: 0 <= i < |line| - |r.rest| ==> line[i] in SpaceTrimmed)
      && (|r.rest| > 0 ==> r.rest[0] !in SpaceTrimmed)
      && (r.value <==> |r.rest| < |line|)
  {
    if |line| == 0 then Panic
    else if line[0] == ' ' as int || line[0] == '\t' as int then
      Scanned(true, TrimLeftAnyByte(line, SpaceTrimmed))
    else
      Scanned(false, line)
  }

  /** `IsItemClose`: after the left trim, consumes `/>` if the line starts
      with it; the trim stays done either way. */
  function IsItemClose(line: Bytes): (r: Scan<bool>)
    ensures r.Panic? <==> |line| == 0
    ensures r.Scanned? ==>
      var t := TrimLeftSpace(line).rest;
      && (r.value ==> t == ItemClose + r.rest)
      && (!r.value ==> r.rest == t && !HasPrefix(t, ItemClose))
  {
    match TrimLeftSpace(line)
    case Panic => Panic
    case Scanned(_, t) =>
      if HasPrefix(t, ItemClose) then
        assert t == ItemClose + t[|ItemClose|..];
        Scanned(true, t[|ItemClose|..])
      else
        Scanned(false, t)
  }

  /** `ExtractName`: after the left trim, succeeds exactly when a `=` occurs
      past the first byte, yielding the bytes before the first `=` and
      consuming the line through it. On failure only the trim is done. */
  function ExtractName(line: Bytes): (r: Scan<Option<Bytes>>)
    ensures r.Panic? <==> |line| == 0
    ensures r.Scanned? ==>
      var t := TrimLeftSpace(line).rest;
      && (r.value.Some? ==> |r.value.value| > 0 && EqualsSign !in r.value.value
                            && t == r.value.value + [EqualsSign] + r.rest)
      && (r.value.None? ==> r.rest == t && (EqualsSign !in t || t[0] == EqualsSign))
  {
    match TrimLeftSpace(line)
    case Panic => Panic
    case Scanned(_, t) =>
      var p := SplitName(t);
      Scanned(p.0, p.1)
  }

  /** The search for `=` in the trimmed line: a name is the non-empty run of
      bytes before the first `=`. */
  function SplitName(t: Bytes): (r: (Option<Bytes>, Bytes))
    ensures r.0.Some? ==> |r.0.value| > 0 && EqualsSign !in r.0.value && t == r.0.value + [EqualsSign] + r.1
    ensures r.0.None? ==> r.1 == t && (EqualsSign !in t || t[0] == EqualsSign)
  {
    var eq := IndexByte(t, EqualsSign);
    if eq > 0 then
      assert t == t[..eq] + [EqualsSign] + t[eq + 1..];
      (Some(t[..eq]), t[eq + 1..])
    else
      (None, t)
  }

  /** `ExtractQuotedValue`: succeeds exactly when the line starts with `"`
      and another `"` follows, yielding the bytes between the two and
      consuming the line through the second. On failure the line is
      unchanged (the value the source returns then is discarded by every
      caller). */
  function ExtractQuotedValue(line: Bytes): (r: Scan<Option<Bytes>>)
    ensures r.Panic? <==> |line| == 0
    ensures r.Scanned? && r.value.Some? ==>
      line == [Quote] + r.value.value + [Quote] + r.rest && Quote !in r.value.value
    ensures r.Scanned? && r.value.None? ==>
      r.rest == line && (line[0] != Quote || Quote !in line[1..])
  {
    if |line| == 0 then Panic
    else if line[0] == Quote then
      var q := IndexByte(line[1..], Quote);
      if q >= 0 then
        assert line == [Quote] + line[1..q + 1] + [Quote] + line[q + 2..];
        Scanned(Some(line[1..q + 1]), line[q + 2..])
      else
        Scanned(None, line)
    else
      Scanned(None, line)
  }

  /** `Empty`. */
  predicate Empty(line: Bytes) {
    |line| == 0
  }

  predicate IsDigit(b: byte) {
    '0' as int <= b <= '9' as int
  }

  predicate AllDigits(s: Bytes) {
    forall i :: 0 <= i < |s| ==> IsDigit(s[i])
  }

  /** The value of a string of decimal digits. */
  function DecimalValue(s: Bytes): nat
    requires AllDigits(s)
  {
    if |s| == 0 then 0 else DecimalValue(s[..|s| - 1]) * 10 + (s[|s| - 1] - '0' as int)
  }

  /** The largest value of the 16-bit range `ParseUint` is asked for. */
  const MaxUint16: nat := 65535

  lemma {:induction false} DecimalValueMonotone(s: Bytes, i: nat)
    requires AllDigits(s) && i <= |s|
    ensures AllDigits(s[..i]) && DecimalValue(s[..i]) <= DecimalValue(s)
    decreases |s| - i
  {
    if i < |s| {
      DecimalValueMonotone(s[..|s| - 1], i);
      assert s[..|s| - 1][..i] == s[..i];
    } else {
      assert s[..i] == s;
    }
  }

  /** The digit loop of `strconv.ParseUint` in base 10 with a 16-bit range:
      a non-digit is a syntax error, a value past `MaxUint16` a range error. */
  function ParseDigits(s: Bytes, i: nat, n: nat): (r: Option<nat>)
    requires i <= |s| && AllDigits(s[..i]) && n == DecimalValue(s[..i]) && n <= MaxUint16
    ensures r.Some? <==> AllDigits(s) && DecimalValue(s) <= MaxUint16
    ensures r.Some? ==> r.value == DecimalValue(s)
    decreases |s| - i
  {
    if i == |s| then
      assert s[..i] == s;
      Some(n)
    else if !IsDigit(s[i]) then
      None
    else
      var n1 := n * 10 + (s[i] - '0' as int);
      assert s[..i + 1][..i] == s[..i];
      assert AllDigits(s[..i + 1]) && DecimalValue(s[..i + 1]) == n1;
      if n1 > MaxUint16 then
        assert AllDigits(s) ==> DecimalValue(s) > MaxUint16 by {
          if AllDigits(s) {
            DecimalValueMonotone(s, i + 1);
          }
        }
        None
      else
        ParseDigits(s, i + 1, n1)
  }

  /** `strconv.ParseUint(s, 10, 16)`, its error reduced to `None`: succeeds
      exactly on a non-empty string of decimal digits whose value fits in 16
      bits. Leading zeros are accepted; signs and underscores are not. */
  function ParseUint16(s: Bytes): (r: Option<nat>)
    ensures r.Some? <==> |s| > 0 && AllDigits(s) && DecimalValue(s) <= MaxUint16
    ensures r.Some? ==> r.value == DecimalValue(s) && r.value <= MaxUint16
  {
    if |s| == 0 then None
    else
      assert s[..0] == [];
      ParseDigits(s, 0, 0)
  }

  /** The shortest decimal spelling of `n`, the inverse of `ParseUint16` on
      its range. */
  function FormatUint(n: nat): (r: Bytes)
    ensures |r| > 0 && AllDigits(r)
  {
    if n < 10 then ['0' as int + n] else FormatUint(n / 10) + ['0' as int + n % 10]
  }

  lemma {:induction false} DecimalValueOfFormat(n: nat)
    ensures DecimalValue(FormatUint(n)) == n
  {
    if n >= 10 {
      DecimalValueOfFormat(n / 10);
      var f := FormatUint(n);
      assert f[..|f| - 1] == FormatUint(n / 10);
    }
  }

  /** Parsing the decimal spelling of a 16-bit value gives the value back. */
  lemma ParseFormatRoundTrip(n: nat)
    requires n <= MaxUint16
    ensures ParseUint16(FormatUint(n)) == Some(n)
  {
    DecimalValueOfFormat(n);
  }

  /** Spaces and tabs only. */
  predicate Blank(s: Bytes) {
    forall i :: 0 <= i < |s| ==> s[i] in SpaceTrimmed
  }

  /** A marker not preceded by its own first byte is found right where it
      stands. */
  lemma SkipThroughOf(pre: Bytes, marker: Bytes, rest: Bytes)
    requires |marker| > 0 && marker[0] !in pre
    ensures SkipThrough(pre + marker + rest, marker) == (true, rest)
  {
    var line := pre + marker + rest;
    assert line[|pre|..|pre| + |marker|] == marker;
    forall j | 0 <= j < |pre| ensures !OccursAt(line, marker, j) {
      assert line[j] == pre[j];
      assert line[j] != marker[0];
    }
    FirstAtIsIndex(line, marker, |pre|);
    assert line[|pre| + |marker|..] == rest;
  }

  /** Leading blanks in front of a non-blank byte are what the trim removes. */
  lemma TrimLeftSpaceOf(pre: Bytes, s: Bytes)
    requires |pre + s| > 0 && Blank(pre)
    requires |s| > 0 ==> s[0] !in SpaceTrimmed
    ensures TrimLeftSpace(pre + s) == Scanned(|pre| > 0, s)
  {
    assert SpaceTrimmed == [' ' as int, '\t' as int];
    TrimLeftAnyByteOf(pre, s, SpaceTrimmed);
    if |pre| == 0 {
      assert pre + s == s;
    } else {
      assert (pre + s)[0] == pre[0];
    }
  }

  /** `/>` after blanks closes the item. */
  lemma IsItemCloseOf(pre: Bytes, rest: Bytes)
    requires Blank(pre)
    ensures IsItemClose(pre + ItemClose + rest) == Scanned(true, rest)
  {
    assert pre + ItemClose + rest == pre + (ItemClose + rest);
    TrimLeftSpaceOf(pre, ItemClose + rest);
    assert (ItemClose + rest)[..|ItemClose|] == ItemClose;
    assert (ItemClose + rest)[|ItemClose|..] == rest;
  }

  /** A line whose first non-blank byte is not `/` does not close the item. */
  lemma IsItemCloseNot(pre: Bytes, s: Bytes)
    requires Blank(pre) && |s| > 0 && s[0] !in SpaceTrimmed && s[0] != '/' as int
    ensures IsItemClose(pre + s) == Scanned(false, s)
  {
    TrimLeftSpaceOf(pre, s);
    assert s[0] != ItemClose[0];
  }

  /** `name=` after blanks yields `name` when it holds no `=` and starts with
      a non-blank byte. */
  lemma ExtractNameOf(pre: Bytes, name: Bytes, rest: Bytes)
    requires Blank(pre) && |name| > 0 && name[0] !in SpaceTrimmed && EqualsSign !in name
    ensures ExtractName(pre + name + [EqualsSign] + rest) == Scanned(Some(name), rest)
  {
    var t := name + [EqualsSign] + rest;
    assert pre + name + [EqualsSign] + rest == pre + t;
    TrimLeftSpaceOf(pre, t);
    SplitNameOf(name, rest);
  }

  lemma SplitNameOf(name: Bytes, rest: Bytes)
    requires |name| > 0 && EqualsSign !in name
    ensures SplitName(name + [EqualsSign] + rest) == (Some(name), rest)
  {
    var t := name + [EqualsSign] + rest;
    IndexByteOfPrefixed(name, EqualsSign, rest);
    assert t[..|name|] == name;
    assert t[|name| + 1..] == rest;
  }

  /** A trimmed line without `=` past its first byte yields no name and is
      left whole. */
  lemma ExtractNameNoneOf(s: Bytes)
    requires |s| > 0 && s[0] !in SpaceTrimmed && (EqualsSign !in s || s[0] == EqualsSign)
    ensures ExtractName(s) == Scanned(None, s)
  {
    TrimLeftSpaceOf([], s);
    assert [] + s == s;
    assert IndexByte(s, EqualsSign) <= 0;
  }

  /** What `IsItemClose` leaves is a suffix of the line; unless `/>` was
      consumed, it is empty only if the line is all blanks. */
  lemma IsItemCloseRest(line: Bytes)
    requires |line| > 0
    ensures var r := IsItemClose(line);
            && IsSuffix(r.rest, line)
            && (!r.value && line[|line| - 1] !in SpaceTrimmed ==> |r.rest| > 0)
  {
    var t := TrimLeftSpace(line).rest;
    var r := IsItemClose(line);
    if r.value {
      SuffixOfAppend(ItemClose, r.rest);
      SuffixTrans(r.rest, t, line);
    }
  }

  /** What `ExtractName` leaves is a suffix of the line, shorter when a name
      was read, and not empty then unless the line ends in `=`. */
  lemma ExtractNameRest(line: Bytes)
    requires |line| > 0
    ensures var r := ExtractName(line);
            && IsSuffix(r.rest, line)
            && (r.value.Some? ==> |r.rest| < |line|)
            && (r.value.Some? && line[|line| - 1] != EqualsSign ==> |r.rest| > 0)
  {
    var t := TrimLeftSpace(line).rest;
    var r := ExtractName(line);
    if r.value.Some? {
      SuffixOfAppend(r.value.value + [EqualsSign], r.rest);
      SuffixTrans(r.rest, t, line);
      SuffixKeepsLast(t, line);
    }
  }

  /** A value between quotes that holds no quote is read back exactly. */
  lemma ExtractQuotedValueOf(v: Bytes, rest: Bytes)
    requires Quote !in v
    ensures ExtractQuotedValue([Quote] + v + [Quote] + rest) == Scanned(Some(v), rest)
  {
    var line := [Quote] + v + [Quote] + rest;
    assert line[1..] == v + [Quote] + rest;
    IndexByteOfPrefixed(v, Quote, rest);
    assert line[1..|v| + 1] == v;
    assert line[|v| + 2..] == rest;
  }

  /** Skipping through a marker that does not end the line keeps the
      line's last byte. */
  lemma SkipThroughKeepsLast(line: Bytes, marker: Bytes)
    requires SkipThrough(line, marker).0 && |line| > 0 && |marker| > 0
    requires line[|line| - 1] != marker[|marker| - 1]
    ensures var rest := SkipThrough(line, marker).1;
            |rest| > 0 && rest[|rest| - 1] == line[|line| - 1]
  {
    var rest := SkipThrough(line, marker).1;
    var k := |line| - |rest| - |marker|;
    assert line[k..k + |marker|][|marker| - 1] == line[k + |marker| - 1];
  }

  /** The left trim keeps a last byte that is not blank. */
  lemma TrimLeftSpaceKeepsLast(line: Bytes)
    requires |line| > 0 && line[|line| - 1] !in SpaceTrimmed
    ensures var r := TrimLeftSpace(line);
            r.Scanned? && |r.rest| > 0 && r.rest[|r.rest| - 1] == line[|line| - 1]
  {
  }
}
