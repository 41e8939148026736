/** What one pass of the `NEW_LINE` loop does on lines of a given shape
    (parser.go, lines 275-387), and what the loop does with a whole item. */
module TokenizerLemmas {
  import opened ByteStrings
  import opened GoStrings
  import opened Statistics
  import opened Scanner
  import opened Tokenizer

  /** An attribute name `ExtractName` reads back whole: not empty, no `=`,
      not starting with a blank or with the `/` of `/>`. */
  predicate Plain(name: Bytes) {
    |name| > 0 && name[0] !in SpaceTrimmed && name[0] != '/' as int && EqualsSign !in name
  }

  lemma FieldNamesPlain()
    ensures Plain(CityName) && Plain(StreetName) && Plain(HouseName) && Plain(FloorName)
    ensures CityName != StreetName && CityName != HouseName && CityName != FloorName
    ensures StreetName != HouseName && StreetName != FloorName && HouseName != FloorName
    ensures Blank([' ' as int]) && Blank([])
  {
  }

  /** In `waitName`, a blank-led `name=` hands the rest of the line to the
      `switch name`. */
  lemma NameStepOf(t: Tok, pre: Bytes, name: Bytes, more: Bytes)
    requires t.state == WaitName && Blank(pre) && Plain(name)
    ensures Step(t, pre + name + [EqualsSign] + more) == Attribute(t, name, more)
  {
    var s := name + [EqualsSign] + more;
    assert pre + name + [EqualsSign] + more == pre + s;
    IsItemCloseNot(pre, s);
    ExtractNameOf([], name, more);
    assert [] + name + [EqualsSign] + more == s;
  }

  /** A quoted value is read, and the rest of the line goes on. */
  lemma QuotedAttribute(t: Tok, name: Bytes, v: Bytes, rest: Bytes)
    requires t.state == WaitName && !Repeated(t.house, name) && Quote !in v
    ensures Attribute(t, name, [Quote] + v + [Quote] + rest) == Next(Accept(t, name, Some(v)), rest)
  {
    ExtractQuotedValueOf(v, rest);
  }

  /** Every repeated field gives the item up: counted broken, record reset,
      `waitItem`; the line goes on just past the `=`. */
  lemma RepeatedFieldBreaks(t: Tok, pre: Bytes, name: Bytes, rest: Bytes)
    requires t.state == WaitName && Blank(pre) && Repeated(t.house, name)
    ensures Step(t, pre + name + [EqualsSign] + rest) == Next(Broken(t), rest)
  {
    FieldNamesPlain();
    NameStepOf(t, pre, name, rest);
  }

  /** A value that is not quoted, or whose quote is not closed, gives the
      item up whatever the name; the line is left as it was after the `=`. */
  lemma UnquotedValueBreaks(t: Tok, pre: Bytes, name: Bytes, line: Bytes)
    requires t.state == WaitName && Blank(pre) && Plain(name) && !Repeated(t.house, name)
    requires |line| > 0 && (line[0] != Quote || Quote !in line[1..])
    ensures Step(t, pre + name + [EqualsSign] + line) == Next(Broken(t), line)
  {
    NameStepOf(t, pre, name, line);
  }

  /** An empty city or street gives the item up. */
  lemma EmptyCityOrStreetBreaks(t: Tok, pre: Bytes, name: Bytes, rest: Bytes)
    requires t.state == WaitName && Blank(pre) && (name == CityName || name == StreetName)
    requires !Repeated(t.house, name)
    ensures Step(t, pre + name + [EqualsSign, Quote, Quote] + rest) == Next(Broken(t), rest)
  {
    FieldNamesPlain();
    assert [EqualsSign, Quote, Quote] + rest == [EqualsSign] + ([Quote] + [] + [Quote] + rest);
    assert pre + name + [EqualsSign, Quote, Quote] + rest == pre + name + [EqualsSign] + ([Quote] + [] + [Quote] + rest);
    NameStepOf(t, pre, name, [Quote] + [] + [Quote] + rest);
    QuotedAttribute(t, name, [], rest);
  }

  /** A first, non-empty city is kept and the item goes on. */
  lemma CityIsSet(t: Tok, pre: Bytes, v: Bytes, rest: Bytes)
    requires t.state == WaitName && Blank(pre) && |t.house.city| == 0
    requires |v| > 0 && Quote !in v
    ensures Step(t, pre + CityName + [EqualsSign] + ([Quote] + v + [Quote] + rest))
         == Next(t.(house := t.house.(city := v)), rest)
  {
    FieldNamesPlain();
    NameStepOf(t, pre, CityName, [Quote] + v + [Quote] + rest);
    QuotedAttribute(t, CityName, v, rest);
  }

  /** A first, non-empty street is kept and the item goes on. */
  lemma StreetIsSet(t: Tok, pre: Bytes, v: Bytes, rest: Bytes)
    requires t.state == WaitName && Blank(pre) && |t.house.street| == 0
    requires |v| > 0 && Quote !in v
    ensures Step(t, pre + StreetName + [EqualsSign] + ([Quote] + v + [Quote] + rest))
         == Next(t.(house := t.house.(street := v)), rest)
  {
    FieldNamesPlain();
    NameStepOf(t, pre, StreetName, [Quote] + v + [Quote] + rest);
    QuotedAttribute(t, StreetName, v, rest);
  }

  /** A first house number is kept only if a street is already set, and then
      even when it is empty: the emptiness test looks at the street. */
  lemma HouseNeedsStreet(t: Tok, pre: Bytes, v: Bytes, rest: Bytes)
    requires t.state == WaitName && Blank(pre) && |t.house.house| == 0 && Quote !in v
    ensures Step(t, pre + HouseName + [EqualsSign] + ([Quote] + v + [Quote] + rest))
         == Next(if |t.house.street| == 0 then Broken(t) else t.(house := t.house.(house := v)), rest)
  {
    FieldNamesPlain();
    NameStepOf(t, pre, HouseName, [Quote] + v + [Quote] + rest);
    QuotedAttribute(t, HouseName, v, rest);
  }

  /** A first floor is kept when it is a decimal number in 1..65535;
      otherwise the record is dropped without counting the item broken. */
  lemma FloorIsParsed(t: Tok, pre: Bytes, v: Bytes, rest: Bytes)
    requires t.state == WaitName && Blank(pre) && t.house.floor == 0 && Quote !in v
    ensures var r := Step(t, pre + FloorName + [EqualsSign] + ([Quote] + v + [Quote] + rest));
      && r.Next? && r.line == rest
      && (if |v| > 0 && AllDigits(v) && 0 < DecimalValue(v) <= MaxUint16
          then r.t == t.(house := t.house.(floor := DecimalValue(v)))
          else r.t == Dropped(t) && r.t.broken == t.broken)
  {
    FloorStep(t, pre, v, rest);
    AcceptFloor(t, v);
  }

  /** A first quoted floor is handed to the `floor` case. */
  lemma FloorStep(t: Tok, pre: Bytes, v: Bytes, rest: Bytes)
    requires t.state == WaitName && Blank(pre) && t.house.floor == 0 && Quote !in v
    ensures Step(t, pre + FloorName + [EqualsSign] + ([Quote] + v + [Quote] + rest))
         == Next(Accept(t, FloorName, Some(v)), rest)
  {
    assert Plain(FloorName) && !Repeated(t.house, FloorName) by { FieldNamesPlain(); }
    NameStepOf(t, pre, FloorName, [Quote] + v + [Quote] + rest);
    QuotedAttribute(t, FloorName, v, rest);
  }

  lemma AcceptFloor(t: Tok, v: Bytes)
    requires t.state == WaitName
    ensures Accept(t, FloorName, Some(v))
         == if |v| > 0 && AllDigits(v) && 0 < DecimalValue(v) <= MaxUint16
            then t.(house := t.house.(floor := DecimalValue(v)))
            else Dropped(t)
  {
    FieldNamesPlain();
    assert FloorName != CityName && FloorName != StreetName && FloorName != HouseName;
    var n := ParseUint16(v);
    assert Accept(t, FloorName, Some(v))
        == if n.None? || n.value == 0 then Dropped(t) else t.(house := t.house.(floor := n.value));
    if |v| > 0 && AllDigits(v) && 0 < DecimalValue(v) <= MaxUint16 {
      assert n == Some(DecimalValue(v));
    } else {
      assert n.None? || n.value == 0;
    }
  }

  /** A quoted value of an unknown name is skipped. */
  lemma UnknownNameSkipped(t: Tok, pre: Bytes, name: Bytes, v: Bytes, rest: Bytes)
    requires t.state == WaitName && Blank(pre) && Plain(name) && Quote !in v
    requires name != CityName && name != StreetName && name != HouseName && name != FloorName
    ensures Step(t, pre + name + [EqualsSign] + ([Quote] + v + [Quote] + rest)) == Next(t, rest)
  {
    NameStepOf(t, pre, name, [Quote] + v + [Quote] + rest);
    QuotedAttribute(t, name, v, rest);
  }

  /** Without a usable `=` the item is counted broken and `waitItem` is
      resumed on the trimmed line, but the record is kept. */
  lemma MissingEqualsKeepsRecord(t: Tok, pre: Bytes, s: Bytes)
    requires t.state == WaitName && Blank(pre) && |s| > 0
    requires s[0] !in SpaceTrimmed && s[0] != '/' as int
    requires EqualsSign !in s || s[0] == EqualsSign
    ensures Step(t, pre + s) == Next(t.(state := WaitItem, broken := t.broken + 1), s)
  {
    IsItemCloseNot(pre, s);
    assert NameValue(t, s) == Next(t.(state := WaitItem, broken := t.broken + 1), s) by {
      ExtractNameNoneOf(s);
    }
    assert Step(t, pre + s) == NameStep(t, pre + s);
  }

  /** `/>` sends the record once, resets it and leaves the line. */
  lemma ItemCloseSends(t: Tok, pre: Bytes, rest: Bytes)
    requires t.state == WaitName && Blank(pre)
    ensures Step(t, pre + ItemClose + rest) == Stop(Pushed(t))
  {
    IsItemCloseOf(pre, rest);
  }

  /** An item marker followed by blanks opens the item's attributes. */
  lemma ItemOpens(t: Tok, pre: Bytes, sp: Bytes, s: Bytes)
    requires t.state == WaitItem && Item[0] !in pre
    requires |sp| > 0 && Blank(sp) && (|s| > 0 ==> s[0] !in SpaceTrimmed)
    ensures Step(t, pre + Item + (sp + s)) == Next(t.(state := WaitName), s)
  {
    SkipThroughOf(pre, Item, sp + s);
    TrimLeftSpaceOf(sp, s);
  }

  /** An item marker followed by anything but a blank gives the item up and
      drops the rest of the line. */
  lemma ItemWithoutBlankBreaks(t: Tok, pre: Bytes, s: Bytes)
    requires t.state == WaitItem && Item[0] !in pre && |s| > 0 && s[0] !in SpaceTrimmed
    ensures Step(t, pre + Item + s) == Stop(Broken(t))
  {
    SkipThroughOf(pre, Item, s);
    TrimLeftSpaceOf([], s);
    assert [] + s == s;
  }

  /** A line that ends right after the item marker makes `TrimLeftSpace`
      index an empty line. */
  lemma ItemAtEndPanics(t: Tok, pre: Bytes)
    requires t.state == WaitItem && Item[0] !in pre
    ensures ScanLine(t, pre + Item) == LinePanic
  {
    SkipThroughOf(pre, Item, []);
    assert pre + Item + [] == pre + Item;
  }

  function Quoted(v: Bytes): Bytes {
    [Quote] + v + [Quote]
  }

  /** An attribute as the input spells it: `name="v"`. */
  function Attr(name: Bytes, v: Bytes): Bytes {
    name + [EqualsSign] + Quoted(v)
  }

  /** A line that ends right after a value makes the next `IsItemClose`
      index an empty line: input cut off after `<item city="x"` panics. */
  lemma ValueAtEndPanics(t: Tok, pre: Bytes, v: Bytes)
    requires t.state == WaitItem && Item[0] !in pre && |t.house.city| == 0
    requires |v| > 0 && Quote !in v
    ensures ScanLine(t, pre + Item + ([' ' as int] + Attr(CityName, v))) == LinePanic
  {
    var sp: Bytes := [' ' as int];
    var attrs := Attr(CityName, v);
    var t1 := t.(state := WaitName);
    var t2 := t1.(house := t1.house.(city := v));
    assert ScanLine(t2, []) == LinePanic by {
      assert Step(t2, []) == StepPanic;
    }
    assert ScanLine(t1, attrs) == ScanLine(t2, []) by {
      assert attrs == [] + CityName + [EqualsSign] + ([Quote] + v + [Quote] + []);
      assert Blank([]) by { FieldNamesPlain(); }
      CityIsSet(t1, [], v, []);
      ScanLineNext(t1, attrs, t2, []);
    }
    assert ScanLine(t, pre + Item + (sp + attrs)) == ScanLine(t1, attrs) by {
      assert |attrs| > 0 && attrs[0] !in SpaceTrimmed by {
        FieldNamesPlain();
        assert attrs[0] == CityName[0];
      }
      assert Blank(sp) by { FieldNamesPlain(); }
      ItemOpens(t, pre, sp, attrs);
      ScanLineNext(t, pre + Item + (sp + attrs), t1, attrs);
    }
  }

  /** An attribute after a blank. */
  function Field(name: Bytes, v: Bytes): Bytes {
    [' ' as int] + Attr(name, v)
  }

  /** The attributes of a record in the usual order, one blank apart. */
  function Attributes(h: House): Bytes {
    Attr(CityName, h.city) + Field(StreetName, h.street) + Field(HouseName, h.house)
      + Field(FloorName, FormatUint(h.floor))
  }

  /** An item as the input spells it: `<item city="C" street="S" house="H" floor="F" />`. */
  function ItemLine(h: House): Bytes {
    Item + [' ' as int] + Attributes(h) + [' ' as int] + ItemClose
  }

  /** In `waitName`, a blank-led attribute is read as its name says. */
  lemma AttrStep(t: Tok, pre: Bytes, name: Bytes, v: Bytes, rest: Bytes)
    requires t.state == WaitName && Blank(pre) && Plain(name) && !Repeated(t.house, name) && Quote !in v
    ensures Step(t, pre + Attr(name, v) + rest) == Next(Accept(t, name, Some(v)), rest)
  {
    assert pre + Attr(name, v) + rest == pre + name + [EqualsSign] + ([Quote] + v + [Quote] + rest);
    NameStepOf(t, pre, name, [Quote] + v + [Quote] + rest);
    QuotedAttribute(t, name, v, rest);
  }

  /** Scanning goes on where a pass leaves off. */
  lemma ScanLineNext(t: Tok, line: Bytes, t': Tok, line': Bytes)
    requires Step(t, line) == Next(t', line')
    ensures ScanLine(t, line) == ScanLine(t', line')
  {
  }

  /** A blank-led attribute read in `waitName` hands the rest of the line
      to the next pass. */
  lemma AttrScan(t: Tok, pre: Bytes, name: Bytes, v: Bytes, rest: Bytes)
    requires t.state == WaitName && Blank(pre) && Plain(name) && !Repeated(t.house, name) && Quote !in v
    ensures ScanLine(t, pre + Attr(name, v) + rest) == ScanLine(Accept(t, name, Some(v)), rest)
  {
    AttrStep(t, pre, name, v, rest);
    ScanLineNext(t, pre + Attr(name, v) + rest, Accept(t, name, Some(v)), rest);
  }

  /** The four attributes, read in order into an empty record, give the
      record back. */
  lemma FieldsRead(t: Tok, h: House, rest: Bytes)
    requires t.state == WaitName && t.house == EmptyHouse && Complete(h) && Clean(h)
    ensures ScanLine(t, Attributes(h) + rest) == ScanLine(t.(house := h), rest)
  {
    var r1 := Field(StreetName, h.street) + Field(HouseName, h.house) + Field(FloorName, FormatUint(h.floor)) + rest;
    AttributesThen(h, rest);
    var t1 := t.(house := t.house.(city := h.city));
    assert t1.(house := h) == t.(house := h);
    CityRead(t, h, r1);
    StreetToFloorRead(t1, h, rest);
  }

  lemma AttributesThen(h: House, rest: Bytes)
    ensures Attributes(h) + rest
         == [] + Attr(CityName, h.city)
            + (Field(StreetName, h.street) + Field(HouseName, h.house) + Field(FloorName, FormatUint(h.floor)) + rest)
  {
  }

  lemma CityRead(t: Tok, h: House, r1: Bytes)
    requires t.state == WaitName && t.house == EmptyHouse && Complete(h) && Clean(h)
    ensures ScanLine(t, [] + Attr(CityName, h.city) + r1) == ScanLine(t.(house := t.house.(city := h.city)), r1)
  {
    assert Plain(CityName) && Blank([]) && !Repeated(t.house, CityName) by { FieldNamesPlain(); }
    assert Accept(t, CityName, Some(h.city)) == t.(house := t.house.(city := h.city));
    AttrScan(t, [], CityName, h.city, r1);
  }

  lemma StreetToFloorRead(t1: Tok, h: House, rest: Bytes)
    requires t1.state == WaitName && t1.house == EmptyHouse.(city := h.city) && Complete(h) && Clean(h)
    ensures ScanLine(t1, Field(StreetName, h.street) + Field(HouseName, h.house) + Field(FloorName, FormatUint(h.floor)) + rest)
         == ScanLine(t1.(house := h), rest)
  {
    var sp: Bytes := [' ' as int];
    var r2 := Field(HouseName, h.house) + Field(FloorName, FormatUint(h.floor)) + rest;
    assert Field(StreetName, h.street) + Field(HouseName, h.house) + Field(FloorName, FormatUint(h.floor)) + rest
        == sp + Attr(StreetName, h.street) + r2;
    var t2 := t1.(house := t1.house.(street := h.street));
    assert Accept(t1, StreetName, Some(h.street)) == t2 by { FieldNamesPlain(); }
    assert Plain(StreetName) && Blank(sp) && !Repeated(t1.house, StreetName) by { FieldNamesPlain(); }
    AttrScan(t1, sp, StreetName, h.street, r2);
    HouseToFloorRead(t2, h, rest);
  }

  lemma HouseToFloorRead(t2: Tok, h: House, rest: Bytes)
    requires t2.state == WaitName && t2.house == EmptyHouse.(city := h.city, street := h.street)
    requires Complete(h) && Clean(h)
    ensures ScanLine(t2, Field(HouseName, h.house) + Field(FloorName, FormatUint(h.floor)) + rest)
         == ScanLine(t2.(house := h), rest)
  {
    var sp: Bytes := [' ' as int];
    var r3 := Field(FloorName, FormatUint(h.floor)) + rest;
    assert Field(HouseName, h.house) + Field(FloorName, FormatUint(h.floor)) + rest
        == sp + Attr(HouseName, h.house) + r3;
    var t3 := t2.(house := t2.house.(house := h.house));
    assert Accept(t2, HouseName, Some(h.house)) == t3 by { FieldNamesPlain(); }
    assert Plain(HouseName) && Blank(sp) && !Repeated(t2.house, HouseName) by { FieldNamesPlain(); }
    AttrScan(t2, sp, HouseName, h.house, r3);
    FloorRead(t3, h, rest);
  }

  lemma FloorRead(t3: Tok, h: House, rest: Bytes)
    requires t3.state == WaitName && t3.house == h.(floor := 0) && Complete(h) && Clean(h)
    ensures ScanLine(t3, Field(FloorName, FormatUint(h.floor)) + rest) == ScanLine(t3.(house := h), rest)
  {
    var sp: Bytes := [' ' as int];
    var f := FormatUint(h.floor);
    assert Quote !in f by {
      assert forall i :: 0 <= i < |f| ==> IsDigit(f[i]);
    }
    assert Accept(t3, FloorName, Some(f)) == t3.(house := h) by {
      DecimalValueOfFormat(h.floor);
      AcceptFloor(t3, f);
      assert t3.house.(floor := h.floor) == h;
    }
    assert Field(FloorName, f) + rest == sp + Attr(FloorName, f) + rest;
    assert Plain(FloorName) && Blank(sp) && !Repeated(t3.house, FloorName) by { FieldNamesPlain(); }
    AttrScan(t3, sp, FloorName, f, rest);
  }

  /** An item written out from a complete, clean record and read from
      `waitItem` sends exactly that record and nothing else, and counts
      nothing broken. */
  lemma ItemLineRoundTrip(t: Tok, pre: Bytes, h: House)
    requires t.state == WaitItem && t.house == EmptyHouse && Item[0] !in pre
    requires Complete(h) && Clean(h)
    ensures ScanLine(t, pre + ItemLine(h)) == Done(Tok(WaitItem, EmptyHouse, t.broken, t.pushed + [h]))
  {
    var close := [' ' as int] + ItemClose;
    var t1 := t.(state := WaitName);
    var t2 := t1.(house := h);
    CloseScan(t2);
    FieldsRead(t1, h, close);
    ItemOpenScan(t, pre, h);
  }

  /** The item marker and its blank open the attributes. */
  lemma ItemOpenScan(t: Tok, pre: Bytes, h: House)
    requires t.state == WaitItem && Item[0] !in pre && |h.city| > 0
    ensures ScanLine(t, pre + ItemLine(h)) == ScanLine(t.(state := WaitName), Attributes(h) + ([' ' as int] + ItemClose))
  {
    var sp: Bytes := [' ' as int];
    var s := Attributes(h) + (sp + ItemClose);
    assert |s| > 0 && s[0] !in SpaceTrimmed by {
      FieldNamesPlain();
      assert s[0] == CityName[0];
    }
    assert Blank(sp) by { FieldNamesPlain(); }
    assert pre + ItemLine(h) == pre + Item + (sp + s);
    ItemOpens(t, pre, sp, s);
    ScanLineNext(t, pre + ItemLine(h), t.(state := WaitName), s);
  }

  /** The closing ` />` sends the record and ends the line. */
  lemma CloseScan(t: Tok)
    requires t.state == WaitName
    ensures ScanLine(t, [' ' as int] + ItemClose) == Done(Pushed(t))
  {
    var sp: Bytes := [' ' as int];
    assert Blank(sp) by { FieldNamesPlain(); }
    assert sp + ItemClose == sp + ItemClose + [];
    ItemCloseSends(t, sp, []);
  }
}
