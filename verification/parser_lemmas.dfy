/** What `read` makes of a whole document (parser.go, lines 243-403): a
    prologue before `<root>`, then a run of segments of a few known shapes,
    each the text up to a `>`. The records sent and the broken count follow
    from the shapes alone; the statistics then follow from the records. */
module ParserLemmas {
  import opened ByteStrings
  import opened GoStrings
  import opened Segments
  import opened Statistics
  import opened StatisticLemmas
  import opened Scanner
  import opened Tokenizer
  import opened TokenizerLemmas
  import opened Parser

  /** `pat` occurs nowhere in `s`. */
  ghost predicate Absent(s: Bytes, pat: Bytes) {
    forall j :: !OccursAt(s, pat, j)
  }

  /** A byte string that does not hold the first byte of `pat` does not hold `pat`. */
  lemma AbsentByFirst(s: Bytes, pat: Bytes)
    requires |pat| > 0 && pat[0] !in s
    ensures Absent(s, pat)
  {
    forall j | 0 <= j && j + |pat| <= |s| ensures !OccursAt(s, pat, j) {
      assert s[j..j + |pat|][0] == s[j];
    }
  }

  /** A byte string whose only first byte of `pat` is not followed by the
      second does not hold `pat`. */
  lemma AbsentButOne(x: Bytes, rest: Bytes, pat: Bytes)
    requires |pat| >= 2 && pat[0] !in x && pat[0] !in rest
    requires |rest| > 0 ==> rest[0] != pat[1]
    ensures Absent(x + [pat[0]] + rest, pat)
  {
    var s := x + [pat[0]] + rest;
    forall j | 0 <= j && j + |pat| <= |s| ensures !OccursAt(s, pat, j) {
      assert s[j..j + |pat|][0] == s[j];
      if j == |x| {
        assert s[j..j + |pat|][1] == rest[0];
      }
    }
  }

  /** A piece of a byte string without `pat` holds no `pat` either. */
  lemma AbsentIn(a: Bytes, m: Bytes, b: Bytes, pat: Bytes)
    requires Absent(a + m + b, pat)
    ensures Absent(m, pat)
  {
    forall j | 0 <= j && j + |pat| <= |m| ensures !OccursAt(m, pat, j) {
      assert !OccursAt(a + m + b, pat, |a| + j);
      assert (a + m + b)[|a| + j..|a| + j + |pat|] == m[j..j + |pat|];
    }
  }

  /** Trimming spaces and tabs never brings `pat` in. */
  lemma TrimFuncAbsent(s: Bytes, pat: Bytes)
    requires Absent(s, pat)
    ensures Absent(TrimFunc(s), pat)
  {
    var r := TrimFunc(s);
    var lo := |s| - |TrimLeftAnyByte(s, SpaceTrimmed)|;
    AbsentIn(s[..lo], r, s[lo + |r|..], pat);
  }

  /** What may come before an item marker in its segment: no `<`, and no
      leading blank for the trim to take. */
  predicate Lead(pre: Bytes) {
    Item[0] !in pre && (|pre| > 0 ==> pre[0] !in SpaceTrimmed)
  }

  /** A segment that starts with a lead and a `<`, and ends in a byte
      other than a blank, is left alone by the trim. */
  lemma TrimFuncKept(pre: Bytes, body: Bytes)
    requires Lead(pre) && |body| > 0 && body[0] == Item[0] && body[|body| - 1] !in SpaceTrimmed
    ensures TrimFunc(pre + body) == pre + body
  {
    var s := pre + body;
    assert s[0] !in SpaceTrimmed;
    assert TrimLeftAnyByte(s, SpaceTrimmed) == s;
    var r := TrimFunc(s);
    assert s == r + s[|r|..];
    CutTail(s, |r|);
  }

  /** A run of blanks at the end of `s` ends it with a blank. */
  lemma CutTail(s: Bytes, k: nat)
    requires k <= |s| && AllCut(s[k..])
    ensures k == |s| || CutFunc(s[|s| - 1])
  {
    if k < |s| {
      assert s[k..][|s| - k - 1] == s[|s| - 1];
    }
  }

  /** In `waitItem`, a segment without `<item` changes nothing. */
  lemma NoItemScan(t: Tok, line: Bytes)
    requires t.state == WaitItem && Absent(line, Item)
    ensures ScanLine(t, line) == Done(t)
  {
    assert Step(t, line) == Stop(t);
  }

  /** In `waitRoot`, a segment without `<root>` changes nothing. */
  lemma NoRootScan(t: Tok, line: Bytes)
    requires t.state == WaitRoot && Absent(line, ItemRoot)
    ensures ScanLine(t, line) == Done(t)
  {
    assert Step(t, line) == Stop(t);
  }

  /** A segment ending in `<root>` moves `waitRoot` to `waitItem`. */
  lemma RootScan(t: Tok, pre: Bytes)
    requires t.state == WaitRoot && Lead(pre)
    ensures ScanLine(t, TrimFunc(pre + ItemRoot)) == Done(t.(state := WaitItem))
  {
    TrimFuncKept(pre, ItemRoot);
    SkipThroughOf(pre, ItemRoot, []);
    assert pre + ItemRoot + [] == pre + ItemRoot;
    var u := t.(state := WaitItem);
    assert Step(t, pre + ItemRoot) == Next(u, []);
    ScanLineNext(t, pre + ItemRoot, u, []);
    NoItemScan(u, []);
  }

  /** Between items: awaiting one, holding an empty record. */
  predicate Idle(t: Tok) {
    t.state == WaitItem && t.house == EmptyHouse
  }

  /** The shapes of segment the fixture of parser_test.go is made of, each
      with its bytes given by `Text`:
      - `Record`: a lead and a whole item, `<item city=".." street=".."
        house=".." floor=".." />`;
      - `EmptyItem`: a lead and `<item />`;
      - `HouseFirst`: a lead, then an item whose first attribute is `house`;
      - `Unquoted`: a lead, then an item whose first value has no quotes;
      - `Other`: anything without `<item`. */
  datatype Segment =
    | Record(pre: Bytes, h: House)
    | EmptyItem(pre: Bytes)
    | HouseFirst(pre: Bytes, v: Bytes, rest: Bytes)
    | Unquoted(pre: Bytes, name: Bytes, rest: Bytes)
    | Other(s: Bytes)

  const Blank1: Bytes := [' ' as int]

  function Text(g: Segment): Bytes {
    match g
    case Record(pre, h) => pre + ItemLine(h)
    case Other(s) => s
    case _ => g.pre + Item + Blank1 + Opened(g)
  }

  /** What follows `<item ` in a segment that is not a whole record. */
  function Opened(g: Segment): Bytes
    requires !g.Record? && !g.Other?
  {
    match g
    case EmptyItem(_) => ItemClose
    case HouseFirst(_, v, rest) => Attr(HouseName, v) + rest
    case Unquoted(_, name, rest) => name + [EqualsSign] + rest
  }

  /** The records a segment sends. */
  function Sent(g: Segment): seq<House> {
    match g
    case Record(_, h) => [h]
    case EmptyItem(_) => [EmptyHouse]
    case _ => []
  }

  /** The broken items a segment counts. */
  function Breaks(g: Segment): nat {
    if g.HouseFirst? || g.Unquoted? then 1 else 0
  }

  /** The segment does not end with a blank. */
  predicate Unblank(rest: Bytes) {
    |rest| > 0 ==> rest[|rest| - 1] !in SpaceTrimmed
  }

  /** What each shape needs to be read as its name says. */
  ghost predicate WellFormed(g: Segment) {
    match g
    case Record(pre, h) => Lead(pre) && Complete(h) && Clean(h)
    case EmptyItem(pre) => Lead(pre)
    case HouseFirst(pre, v, rest) => Lead(pre) && Quote !in v && Absent(rest, Item) && Unblank(rest)
    case Unquoted(pre, name, rest) =>
      && Lead(pre) && Plain(name) && |rest| > 0 && (rest[0] != Quote || Quote !in rest[1..])
      && Absent(rest, Item) && Unblank(rest)
    case Other(s) => Absent(s, Item)
  }

  /** An item marker and a blank open the attributes that follow. */
  lemma OpenScan(t: Tok, pre: Bytes, a: Bytes)
    requires t.state == WaitItem && Item[0] !in pre && |a| > 0 && a[0] !in SpaceTrimmed
    ensures ScanLine(t, pre + Item + Blank1 + a) == ScanLine(t.(state := WaitName), a)
  {
    assert Blank(Blank1) by { FieldNamesPlain(); }
    assert pre + Item + Blank1 + a == pre + Item + (Blank1 + a);
    ItemOpens(t, pre, Blank1, a);
    ScanLineNext(t, pre + Item + (Blank1 + a), t.(state := WaitName), a);
  }

  /** What the attributes after an item marker and a blank scan to, the whole
      segment scans to. */
  lemma ItemThen(t: Tok, g: Segment, u: Tok)
    requires !g.Record? && !g.Other?
    requires t.state == WaitItem && Item[0] !in g.pre && |Opened(g)| > 0 && Opened(g)[0] !in SpaceTrimmed
    requires ScanLine(t.(state := WaitName), Opened(g)) == Done(u)
    ensures ScanLine(t, Text(g)) == Done(u)
  {
    OpenScan(t, g.pre, Opened(g));
  }

  /** `/>` alone sends the record. */
  lemma CloseAloneScan(t: Tok)
    requires t.state == WaitName
    ensures ScanLine(t, ItemClose) == Done(Pushed(t))
  {
    assert Blank([]) by { FieldNamesPlain(); }
    assert [] + ItemClose + [] == ItemClose;
    ItemCloseSends(t, [], []);
  }

  /** `<item />` sends the record held, which is empty between items. */
  lemma EmptyItemScan(t: Tok, pre: Bytes)
    requires t.state == WaitItem && Item[0] !in pre
    ensures ScanLine(t, Text(EmptyItem(pre))) == Done(Pushed(t.(state := WaitName)))
  {
    CloseAloneScan(t.(state := WaitName));
    ItemThen(t, EmptyItem(pre), Pushed(t.(state := WaitName)));
  }

  /** In `waitName` with an empty record, `house="v"` is read and breaks the item. */
  lemma HouseAttrStep(t: Tok, v: Bytes, rest: Bytes)
    requires t.state == WaitName && t.house == EmptyHouse && Quote !in v
    ensures Step(t, Attr(HouseName, v) + rest) == Next(Broken(t), rest)
  {
    assert Blank([]) by { FieldNamesPlain(); }
    assert [] + HouseName + [EqualsSign] + ([Quote] + v + [Quote] + rest) == Attr(HouseName, v) + rest;
    HouseNeedsStreet(t, [], v, rest);
  }

  /** In `waitName` with an empty record, `house="v"` breaks the item and the
      rest of the segment holds no item. */
  lemma HouseAttrBreaks(t: Tok, v: Bytes, rest: Bytes)
    requires t.state == WaitName && t.house == EmptyHouse && Quote !in v && Absent(rest, Item)
    ensures ScanLine(t, Attr(HouseName, v) + rest) == Done(Broken(t))
  {
    HouseAttrStep(t, v, rest);
    ScanLineNext(t, Attr(HouseName, v) + rest, Broken(t), rest);
    NoItemScan(Broken(t), rest);
  }

  /** An item that opens with `house` before any `street` is broken; the
      rest of its segment holds no item. */
  lemma HouseFirstScan(t: Tok, pre: Bytes, v: Bytes, rest: Bytes)
    requires Idle(t) && Item[0] !in pre && Quote !in v && Absent(rest, Item)
    ensures ScanLine(t, Text(HouseFirst(pre, v, rest))) == Done(Broken(t.(state := WaitName)))
  {
    HouseEnds(v, rest);
    HouseAttrBreaks(t.(state := WaitName), v, rest);
    ItemThen(t, HouseFirst(pre, v, rest), Broken(t.(state := WaitName)));
  }

  /** `house="v"` and what follows start with a letter and end as the rest does. */
  lemma HouseEnds(v: Bytes, rest: Bytes)
    ensures var a := Attr(HouseName, v) + rest;
      && |a| > 0 && a[0] !in SpaceTrimmed
      && (Unblank(rest) ==> a[|a| - 1] !in SpaceTrimmed)
  {
    var a := Attr(HouseName, v) + rest;
    assert a[0] == HouseName[0];
  }

  /** In `waitName` with an empty record, `name=` without a quoted value
      breaks the item. */
  lemma UnquotedAttrStep(t: Tok, name: Bytes, rest: Bytes)
    requires t.state == WaitName && t.house == EmptyHouse && Plain(name)
    requires |rest| > 0 && (rest[0] != Quote || Quote !in rest[1..])
    ensures Step(t, name + [EqualsSign] + rest) == Next(Broken(t), rest)
  {
    assert Blank([]) by { FieldNamesPlain(); }
    assert [] + name + [EqualsSign] + rest == name + [EqualsSign] + rest;
    UnquotedValueBreaks(t, [], name, rest);
  }

  /** ... and the rest of the segment holds no item. */
  lemma UnquotedAttrBreaks(t: Tok, name: Bytes, rest: Bytes)
    requires t.state == WaitName && t.house == EmptyHouse && Plain(name)
    requires |rest| > 0 && (rest[0] != Quote || Quote !in rest[1..]) && Absent(rest, Item)
    ensures ScanLine(t, name + [EqualsSign] + rest) == Done(Broken(t))
  {
    UnquotedAttrStep(t, name, rest);
    ScanLineNext(t, name + [EqualsSign] + rest, Broken(t), rest);
    NoItemScan(Broken(t), rest);
  }

  /** An item whose first value is not quoted is broken; the rest of its
      segment holds no item. */
  lemma UnquotedScan(t: Tok, pre: Bytes, name: Bytes, rest: Bytes)
    requires Idle(t) && Item[0] !in pre && Plain(name)
    requires |rest| > 0 && (rest[0] != Quote || Quote !in rest[1..]) && Absent(rest, Item)
    ensures ScanLine(t, Text(Unquoted(pre, name, rest))) == Done(Broken(t.(state := WaitName)))
  {
    UnquotedEnds(name, rest);
    UnquotedAttrBreaks(t.(state := WaitName), name, rest);
    ItemThen(t, Unquoted(pre, name, rest), Broken(t.(state := WaitName)));
  }

  /** `name=` and what follows start as the name does and end as the rest does. */
  lemma UnquotedEnds(name: Bytes, rest: Bytes)
    requires |name| > 0 && |rest| > 0
    ensures var a := name + [EqualsSign] + rest;
      |a| > 0 && a[0] == name[0] && a[|a| - 1] == rest[|rest| - 1]
  {
  }

  /** An item written out starts with `<` and ends with `>`. */
  lemma ItemLineEnds(h: House)
    ensures var l := ItemLine(h); |l| > 0 && l[0] == Item[0] && l[|l| - 1] == Gt
  {
  }

  /** The trim leaves every item segment alone. */
  lemma SegmentTrim(g: Segment)
    requires WellFormed(g) && !g.Other?
    ensures TrimFunc(Text(g)) == Text(g)
  {
    match g
    case Record(pre, h) =>
      ItemLineEnds(h);
      TrimFuncKept(pre, ItemLine(h));
    case EmptyItem(pre) =>
      ItemTrimKept(pre, ItemClose);
    case HouseFirst(pre, v, rest) =>
      HouseEnds(v, rest);
      ItemTrimKept(pre, Attr(HouseName, v) + rest);
    case Unquoted(pre, name, rest) =>
      UnquotedEnds(name, rest);
      ItemTrimKept(pre, name + [EqualsSign] + rest);
  }

  /** An item segment with a lead is left alone by the trim. */
  lemma ItemTrimKept(pre: Bytes, a: Bytes)
    requires Lead(pre) && |a| > 0 && a[|a| - 1] !in SpaceTrimmed
    ensures TrimFunc(pre + Item + Blank1 + a) == pre + Item + Blank1 + a
  {
    assert pre + Item + Blank1 + a == pre + (Item + Blank1 + a);
    TrimFuncKept(pre, Item + Blank1 + a);
  }

  /** A segment without `<item` changes nothing, trimmed or not. */
  lemma OtherScan(t: Tok, s: Bytes)
    requires t.state == WaitItem && Absent(s, Item)
    ensures ScanLine(t, TrimFunc(s)) == Done(t)
  {
    TrimFuncAbsent(s, Item);
    NoItemScan(t, TrimFunc(s));
  }

  /** Where a well-formed segment leaves an idle tokenizer: between items,
      with its records sent and its broken items counted. */
  function After(t: Tok, g: Segment): Tok {
    Tok(WaitItem, EmptyHouse, t.broken + Breaks(g), t.pushed + Sent(g))
  }

  /** An item segment, untrimmed, takes an idle tokenizer to `After`. */
  lemma ItemSegmentScan(t: Tok, g: Segment)
    requires Idle(t) && WellFormed(g) && !g.Other?
    ensures ScanLine(t, Text(g)) == Done(After(t, g))
  {
    match g
    case Record(pre, h) =>
      assert After(t, g) == Tok(WaitItem, EmptyHouse, t.broken, t.pushed + [h]);
      ItemLineRoundTrip(t, pre, h);
    case EmptyItem(pre) =>
      assert After(t, g) == Pushed(t.(state := WaitName));
      EmptyItemScan(t, pre);
    case HouseFirst(pre, v, rest) =>
      assert After(t, g) == Broken(t.(state := WaitName)) by {
        assert t.pushed + [] == t.pushed;
      }
      HouseFirstScan(t, pre, v, rest);
    case Unquoted(pre, name, rest) =>
      assert After(t, g) == Broken(t.(state := WaitName)) by {
        assert t.pushed + [] == t.pushed;
      }
      UnquotedScan(t, pre, name, rest);
  }

  /** Between items, a well-formed segment sends exactly its records and
      counts exactly its broken items, and leaves the tokenizer between items. */
  lemma SegmentScan(t: Tok, g: Segment)
    requires Idle(t) && WellFormed(g)
    ensures ScanLine(t, TrimFunc(Text(g))) == Done(After(t, g))
  {
    if g.Other? {
      assert After(t, g) == t by {
        assert t.pushed + [] == t.pushed;
      }
      OtherScan(t, g.s);
    } else {
      SegmentTrim(g);
      ItemSegmentScan(t, g);
    }
  }

  /** No `>` in a shape's own bytes before the one that ends it. */
  predicate GtFree(g: Segment) {
    match g
    case Record(pre, h) => Gt !in pre && Gt !in h.city && Gt !in h.street && Gt !in h.house
    case EmptyItem(pre) => Gt !in pre
    case HouseFirst(pre, v, rest) => Gt !in pre && Gt !in v && Delimited(rest, Gt)
    case Unquoted(pre, name, rest) => Gt !in pre && Gt !in name && Delimited(rest, Gt)
    case Other(s) => Delimited(s, Gt)
  }

  lemma DelimitedAfter(x: Bytes, d: Bytes)
    requires Gt !in x && Delimited(d, Gt)
    ensures Delimited(x + d, Gt)
  {
    assert (x + d)[..|x + d| - 1] == x + d[..|d| - 1];
  }

  lemma AttrGtFree(name: Bytes, v: Bytes)
    requires Gt !in name && Gt !in v
    ensures Gt !in Attr(name, v)
  {
  }

  lemma AttributesGtFree(h: House)
    requires Gt !in h.city && Gt !in h.street && Gt !in h.house
    ensures Gt !in Attributes(h)
  {
    AttrGtFree(CityName, h.city);
    AttrGtFree(StreetName, h.street);
    AttrGtFree(HouseName, h.house);
    AttrGtFree(FloorName, FormatUint(h.floor));
  }

  /** A shape free of `>` is exactly one segment of the reader. */
  lemma TextDelimited(g: Segment)
    requires GtFree(g)
    ensures Delimited(Text(g), Gt)
  {
    match g
    case Record(pre, h) => RecordDelimited(pre, h);
    case EmptyItem(pre) =>
      assert Text(g) == pre + Item + Blank1 + ['/' as int] + [Gt];
      DelimitedAfter(pre + Item + Blank1 + ['/' as int], [Gt]);
    case HouseFirst(pre, v, rest) =>
      AttrGtFree(HouseName, v);
      OpenedDelimited(pre, Attr(HouseName, v), rest);
    case Unquoted(pre, name, rest) =>
      OpenedDelimited(pre, name + [EqualsSign], rest);
    case Other(_) =>
  }

  lemma RecordDelimited(pre: Bytes, h: House)
    requires Gt !in pre && Gt !in h.city && Gt !in h.street && Gt !in h.house
    ensures Delimited(pre + ItemLine(h), Gt)
  {
    AttributesGtFree(h);
    var x := pre + Item + [' ' as int] + Attributes(h) + [' ' as int] + ['/' as int];
    assert pre + ItemLine(h) == x + [Gt];
    DelimitedAfter(x, [Gt]);
  }

  lemma OpenedDelimited(pre: Bytes, a: Bytes, rest: Bytes)
    requires Gt !in pre && Gt !in a && Delimited(rest, Gt)
    ensures Delimited(pre + Item + Blank1 + (a + rest), Gt)
  {
    assert pre + Item + Blank1 + (a + rest) == pre + Item + Blank1 + a + rest;
    DelimitedAfter(pre + Item + Blank1 + a, rest);
  }

  /** The segments a run of shapes is read as. */
  function Texts(gs: seq<Segment>): (r: seq<Bytes>)
    ensures |r| == |gs|
  {
    seq(|gs|, i requires 0 <= i < |gs| => Text(gs[i]))
  }

  /** The records a run of shapes sends, in order. */
  function AllSent(gs: seq<Segment>): seq<House> {
    if gs == [] then [] else Sent(gs[0]) + AllSent(gs[1..])
  }

  /** The broken items of a run of shapes. */
  function AllBreaks(gs: seq<Segment>): nat {
    if gs == [] then 0 else Breaks(gs[0]) + AllBreaks(gs[1..])
  }

  /** A run of shapes from `k` on is its `k`-th shape, then the run after it. */
  lemma RunFrom(gs: seq<Segment>, k: nat)
    requires k < |gs|
    ensures AllSent(gs[k..]) == Sent(gs[k]) + AllSent(gs[k + 1..])
    ensures AllBreaks(gs[k..]) == Breaks(gs[k]) + AllBreaks(gs[k + 1..])
  {
    assert gs[k..][0] == gs[k] && gs[k..][1..] == gs[k + 1..];
  }

  ghost predicate AllWellFormed(gs: seq<Segment>) {
    forall i :: 0 <= i < |gs| ==> WellFormed(gs[i])
  }

  /** One segment scanned, the loop goes on with the next. */
  lemma ScanLinesCons(t: Tok, lines: seq<Bytes>, u: Tok)
    requires |lines| > 0 && ScanLine(t, TrimFunc(lines[0])) == Done(u)
    ensures ScanLines(t, lines) == ScanLines(u, lines[1..])
  {
  }

  /** Where a run of well-formed shapes leaves an idle tokenizer: between
      items, with their records sent and their broken items counted. */
  function Across(t: Tok, gs: seq<Segment>): Tok {
    Tok(WaitItem, EmptyHouse, t.broken + AllBreaks(gs), t.pushed + AllSent(gs))
  }

  /** Between items, the loop over a run of well-formed segments sends
      exactly their records and counts exactly their broken items, and ends
      between items. */
  lemma {:induction false} SegmentsScan(t: Tok, gs: seq<Segment>)
    requires Idle(t) && AllWellFormed(gs)
    ensures ScanLines(t, Texts(gs)) == Done(Across(t, gs))
    decreases |gs|
  {
    if gs == [] {
      assert Across(t, gs) == t by {
        assert t.pushed + [] == t.pushed;
      }
    } else {
      WellFormedSplit(gs);
      FirstSegmentScan(t, gs);
      SegmentsScan(After(t, gs[0]), gs[1..]);
      AfterThenRest(t, gs);
    }
  }

  lemma WellFormedSplit(gs: seq<Segment>)
    requires |gs| > 0 && AllWellFormed(gs)
    ensures WellFormed(gs[0]) && AllWellFormed(gs[1..])
  {
    assert forall i :: 0 <= i < |gs| - 1 ==> gs[1..][i] == gs[i + 1];
  }

  /** The first shape's records and broken items, then the rest's, are the
      run's. */
  lemma AfterThenRest(t: Tok, gs: seq<Segment>)
    requires |gs| > 0
    ensures Across(After(t, gs[0]), gs[1..]) == Across(t, gs)
  {
    assert t.pushed + Sent(gs[0]) + AllSent(gs[1..]) == t.pushed + AllSent(gs);
  }

  /** The loop over a run of shapes scans the first, then the rest. */
  lemma FirstSegmentScan(t: Tok, gs: seq<Segment>)
    requires Idle(t) && |gs| > 0 && WellFormed(gs[0])
    ensures ScanLines(t, Texts(gs)) == ScanLines(After(t, gs[0]), Texts(gs[1..]))
  {
    assert Texts(gs)[1..] == Texts(gs[1..]);
    assert Texts(gs)[0] == Text(gs[0]);
    SegmentScan(t, gs[0]);
    ScanLinesCons(t, Texts(gs), After(t, gs[0]));
  }

  /** Before `<root>`, segments without it change nothing. */
  lemma {:induction false} HeadsScan(t: Tok, heads: seq<Bytes>)
    requires t.state == WaitRoot
    requires forall i :: 0 <= i < |heads| ==> Absent(heads[i], ItemRoot)
    ensures ScanLines(t, heads) == Done(t)
    decreases |heads|
  {
    if heads != [] {
      TrimFuncAbsent(heads[0], ItemRoot);
      NoRootScan(t, TrimFunc(heads[0]));
      ScanLinesCons(t, heads, t);
      HeadsScan(t, heads[1..]);
    }
  }

  /** The segments of a document: a prologue, the `<root>` segment, then the
      shapes. */
  function Document(heads: seq<Bytes>, pre: Bytes, gs: seq<Segment>): seq<Bytes> {
    heads + [pre + ItemRoot] + Texts(gs)
  }

  /** The `<root>` segment moves the loop from `waitRoot` to `waitItem`. */
  lemma RootLineScan(t: Tok, pre: Bytes, rest: seq<Bytes>)
    requires t.state == WaitRoot && Lead(pre)
    ensures ScanLines(t, [pre + ItemRoot] + rest) == ScanLines(t.(state := WaitItem), rest)
  {
    RootScan(t, pre);
    ScanLinesCons(t, [pre + ItemRoot] + rest, t.(state := WaitItem));
    assert ([pre + ItemRoot] + rest)[1..] == rest;
  }

  /** A last segment without `<item` changes nothing between items. */
  lemma TailScan(t: Tok, tail: Bytes)
    requires t.state == WaitItem && Absent(tail, Item)
    ensures ScanLines(t, [tail]) == Done(t)
  {
    TrimFuncAbsent(tail, Item);
    NoItemScan(t, TrimFunc(tail));
    ScanLinesCons(t, [tail], t);
  }

  /** The tokenizer once the root is open. */
  const Rooted: Tok := Start.(state := WaitItem)

  /** The loop over a whole well-formed document ends where its shapes leave
      the tokenizer once the root is open. */
  lemma DocumentScan(heads: seq<Bytes>, pre: Bytes, gs: seq<Segment>, tail: Bytes)
    requires forall i :: 0 <= i < |heads| ==> Absent(heads[i], ItemRoot)
    requires Lead(pre) && AllWellFormed(gs) && Absent(tail, Item)
    ensures ScanLines(Start, Document(heads, pre, gs) + [tail]) == Done(Across(Rooted, gs))
  {
    var body := Texts(gs) + [tail];
    assert Document(heads, pre, gs) + [tail] == heads + ([pre + ItemRoot] + body);
    assert ScanLines(Start, heads + ([pre + ItemRoot] + body)) == ScanLines(Rooted, body) by {
      HeadsScan(Start, heads);
      ScanLinesConcat(Start, heads, [pre + ItemRoot] + body);
      RootLineScan(Start, pre, body);
    }
    assert ScanLines(Rooted, body) == Done(Across(Rooted, gs)) by {
      SegmentsScan(Rooted, gs);
      TailScan(Across(Rooted, gs), tail);
      ScanLinesConcat(Rooted, Texts(gs), [tail]);
    }
  }

  /** A well-formed document read to `io.EOF` sends the records of its shapes
      followed by the empty record left at the end, and counts the broken
      items of its shapes. */
  lemma DocumentTokenize(heads: seq<Bytes>, pre: Bytes, gs: seq<Segment>, tail: Bytes)
    requires forall i :: 0 <= i < |heads| ==> Absent(heads[i], ItemRoot)
    requires Lead(pre) && AllWellFormed(gs) && Absent(tail, Item)
    ensures Tokenize(Input(Document(heads, pre, gs), tail, EOF))
         == Parsed(AllSent(gs) + [EmptyHouse], AllBreaks(gs), None)
  {
    var input := Input(Document(heads, pre, gs), tail, EOF);
    assert Fed(input) == Document(heads, pre, gs) + [tail];
    DocumentScan(heads, pre, gs, tail);
    assert Across(Rooted, gs).pushed == AllSent(gs) by {
      assert [] + AllSent(gs) == AllSent(gs);
    }
  }

  /** What `read` makes of the records the tokenizer sends: every complete
      record is an item and an occurrence of its address; the known addresses
      are exactly those with a complete record; and a city's bucket counts
      the first sightings of its addresses whose floor falls in it. */
  lemma ReadStatistics(input: Input)
    requires Tokenize(input).Parsed?
    ensures var p := Tokenize(input);
      var r := Read(input);
      && r.Finished? && r.err == p.err
      && r.stat.broken == p.broken
      && r.stat.items == CountComplete(p.records)
      && (forall a :: Count(r.stat, a) == Occurrences(p.records, a))
      && (forall a :: a in r.stat.addresses <==> Occurrences(p.records, a) > 0)
      && (forall c :: c in r.stat.floors <==> c in Cities(FirstSightings({}, p.records)))
      && (forall c, i :: 0 <= i < Buckets ==>
            Hist(r.stat, c)[i] == Tally(FirstSightings({}, p.records), c, i))
  {
    var hs := Tokenize(input).records;
    var s := AddAll(Init(), hs);
    assert Read(input) == Finished(s.(broken := Tokenize(input).broken), Tokenize(input).err);
    forall a ensures Count(s, a) == Occurrences(hs, a) && (a in s.addresses <==> Occurrences(hs, a) > 0) {
      AddAllCounts(Init(), hs, a);
    }
    forall c ensures c in s.floors <==> c in Cities(FirstSightings({}, hs)) {
      AddAllCities(Init(), hs, c);
      assert Init().addresses.Keys == {};
    }
    forall c, i | 0 <= i < Buckets ensures Hist(s, c)[i] == Tally(FirstSightings({}, hs), c, i) {
      AddAllFloors(Init(), hs, c, i);
      assert Init().addresses.Keys == {};
    }
  }

  /** What `read` makes of a well-formed document read to `io.EOF`: no error,
      the broken items of its shapes, and the statistics of their records. */
  lemma DocumentRead(heads: seq<Bytes>, pre: Bytes, gs: seq<Segment>, tail: Bytes)
    requires forall i :: 0 <= i < |heads| ==> Absent(heads[i], ItemRoot)
    requires Lead(pre) && AllWellFormed(gs) && Absent(tail, Item)
    ensures var r := Read(Input(Document(heads, pre, gs), tail, EOF));
      var hs := AllSent(gs) + [EmptyHouse];
      && r.Finished? && r.err == None
      && r.stat.broken == AllBreaks(gs)
      && r.stat.items == CountComplete(hs)
      && (forall a :: Count(r.stat, a) == Occurrences(hs, a))
      && (forall a :: a in r.stat.addresses <==> Occurrences(hs, a) > 0)
      && (forall c :: c in r.stat.floors <==> c in Cities(FirstSightings({}, hs)))
      && (forall c, i :: 0 <= i < Buckets ==> Hist(r.stat, c)[i] == Tally(FirstSightings({}, hs), c, i))
  {
    DocumentTokenize(heads, pre, gs, tail);
    ReadStatistics(Input(Document(heads, pre, gs), tail, EOF));
  }

  /** A document whose prologue segments and shapes each end at their only
      `>`, followed by a rest without one, is read back as exactly those
      segments, then that rest with `io.EOF`. */
  lemma DocumentInput(heads: seq<Bytes>, pre: Bytes, gs: seq<Segment>, tail: Bytes)
    requires AllDelimited(heads, Gt) && Gt !in pre && Gt !in tail
    requires forall i :: 0 <= i < |gs| ==> GtFree(gs[i])
    ensures InputOf(Concat(Document(heads, pre, gs)) + tail) == Input(Document(heads, pre, gs), tail, EOF)
  {
    var d := Document(heads, pre, gs);
    forall i | 0 <= i < |d| ensures Delimited(d[i], Gt) {
      if i < |heads| {
        assert d[i] == heads[i];
      } else if i == |heads| {
        DelimitedAfter(pre, ItemRoot);
      } else {
        assert d[i] == Text(gs[i - |heads| - 1]);
        TextDelimited(gs[i - |heads| - 1]);
      }
    }
    SplitAfterOf(d, tail, Gt);
  }
}
