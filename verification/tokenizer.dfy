/** parser.go, lines 136-142 and 243-403: the state machine of `read`, run
    over the segments of the input after `strings.TrimFunc(line, CutFunc)`.
    Sending a record on `pushChan` becomes appending it to `pushed`; the
    records are added to the statistics afterwards, in order, as the single
    consumer of the channel does. */
module Tokenizer {
  import opened ByteStrings
  import opened GoStrings
  import opened Segments
  import opened Statistics
  import opened Scanner

  /** `State`. */
  datatype State = WaitRoot | WaitItem | WaitName

  /** The second component of the termination measure of the `NEW_LINE`
      loop; the first is the length of the line. */
  function Rank(s: State): nat {
    match s
    case WaitItem => 0
    case WaitName => 1
    case WaitRoot => 2
  }

  /** The variables of `read` that live across segments: the state, the
      record under construction, the parser's `broken` counter, and the
      records sent on `pushChan` so far. */
  datatype Tok = Tok(state: State, house: House, broken: nat, pushed: seq<House>)

  /** Where `read` starts. */
  const Start: Tok := Tok(WaitRoot, EmptyHouse, 0, [])

  /** One pass of the `NEW_LINE` loop: go on with what is left of the line,
      leave the loop, or panic. */
  datatype Outcome = Next(t: Tok, line: Bytes) | Stop(t: Tok) | StepPanic

  datatype LineResult = Done(t: Tok) | LinePanic

  const Gt: byte := 62

  /** The bytes of the attribute names `city`, `street`, `house` and `floor`. */
  const CityName: Bytes := [99, 105, 116, 121]
  const StreetName: Bytes := [115, 116, 114, 101, 101, 116]
  const HouseName: Bytes := [104, 111, 117, 115, 101]
  const FloorName: Bytes := [102, 108, 111, 111, 114]

  /** A broken item: counted, the record reset, the next item awaited. */
  function Broken(t: Tok): Tok {
    t.(state := WaitItem, house := EmptyHouse, broken := t.broken + 1)
  }

  /** A bad floor: the record reset and the next item awaited, without
      counting the item as broken. */
  function Dropped(t: Tok): Tok {
    t.(state := WaitItem, house := EmptyHouse)
  }

  /** `/>`: the record is sent and reset. */
  function Pushed(t: Tok): Tok {
    Tok(WaitItem, EmptyHouse, t.broken, t.pushed + [t.house])
  }

  /** The field `name` names is set already. */
  predicate Repeated(h: House, name: Bytes) {
    || (name == CityName && |h.city| > 0)
    || (name == StreetName && |h.street| > 0)
    || (name == HouseName && |h.house| > 0)
    || (name == FloorName && h.floor > 0)
  }

  /** What a record can hold: values read between quotes, a floor in the
      range `ParseUint` was asked for. */
  predicate Clean(h: House) {
    Quote !in h.city && Quote !in h.street && Quote !in h.house && h.floor <= MaxUint16
  }

  predicate AllClean(hs: seq<House>) {
    forall i :: 0 <= i < |hs| ==> Clean(hs[i])
  }

  /** Every record the tokenizer holds or has sent is clean. */
  predicate Sound(t: Tok) {
    Clean(t.house) && AllClean(t.pushed)
  }

  /** The line still ends with the `>` its segment was read up to. */
  predicate Closed(line: Bytes) {
    |line| > 0 && line[|line| - 1] == Gt
  }

  /** A segment read up to `>` keeps this while it is scanned: the line ends
      with `>`, or it is used up outside `waitName`. */
  predicate Safe(s: State, line: Bytes) {
    Closed(line) || (line == [] && s != WaitName)
  }

  /** The `switch name` of `waitName` once the value after `name=` has been
      looked for: a known field is set, an unknown one ignored, or the record
      is given up. Each outcome either keeps `waitName` or resets the record. */
  function Accept(t: Tok, name: Bytes, v: Option<Bytes>): (r: Tok)
    requires t.state == WaitName
    ensures r.pushed == t.pushed
    ensures r.broken == t.broken || r == Broken(t)
    ensures r.state == WaitName || r.house == EmptyHouse
    ensures Clean(t.house) && (v.Some? ==> Quote !in v.value) ==> Clean(r.house)
  {
    if name == CityName then
      if v.None? || |v.value| == 0 then Broken(t) else t.(house := t.house.(city := v.value))
    else if name == StreetName then
      if v.None? || |v.value| == 0 then Broken(t) else t.(house := t.house.(street := v.value))
    else if name == HouseName then
      if v.None? || |t.house.street| == 0 then Broken(t) else t.(house := t.house.(house := v.value))
    else if name == FloorName then
      if v.None? then Broken(t)
      else
        var n := ParseUint16(v.value);
        if n.None? || n.value == 0 then Dropped(t) else t.(house := t.house.(floor := n.value))
    else if v.None? then Broken(t)
    else t
  }

  /** The `switch name` of `waitName`, entered with the line just past the
      `=`: a repeated field gives the record up at once, anything else reads
      the quoted value first. It never leaves the loop. */
  function Attribute(t: Tok, name: Bytes, line: Bytes): (r: Outcome)
    requires t.state == WaitName
    ensures r.StepPanic? ==> |line| == 0
    ensures !r.StepPanic? ==> r.Next? && IsSuffix(r.line, line) && r.t.pushed == t.pushed
    ensures r.Next? ==> r.t.broken == t.broken || r.t == Broken(t)
    ensures r.Next? ==> r.t.state == WaitName || r.t.house == EmptyHouse
    ensures Sound(t) && r.Next? ==> Sound(r.t)
    ensures Closed(line) ==> r.Next? && Closed(r.line)
  {
    if Repeated(t.house, name) then Next(Broken(t), line)
    else
      match ExtractQuotedValue(line)
      case Panic => StepPanic
      case Scanned(v, rest) =>
        assert IsSuffix(rest, line) by {
          if v.Some? {
            assert line[|line| - |rest|..] == rest;
          }
        }
        Next(Accept(t, name, v), rest)
  }

  /** `waitName` past the `/>` and emptiness tests: the line is trimmed and
      not empty. A missing `=` counts the item broken but keeps the record. */
  function NameValue(t: Tok, line: Bytes): (r: Outcome)
    requires t.state == WaitName && |line| > 0
    ensures r.Next? ==> IsSuffix(r.line, line) && (|r.line| < |line| || r.t.state == WaitItem)
    ensures !r.StepPanic? ==> r.Next? && r.t.pushed == t.pushed
    ensures r.Next? ==> r.t.broken == t.broken || (r.t.broken == t.broken + 1 && r.t.state == WaitItem)
    ensures Sound(t) && r.Next? ==> Sound(r.t)
    ensures Closed(line) ==> r.Next? && Safe(r.t.state, r.line)
  {
    match ExtractName(line)
    case Panic => StepPanic
    case Scanned(name, rest) =>
      assert IsSuffix(rest, line) && (name.Some? ==> |rest| < |line|) by { ExtractNameRest(line); }
      assert Closed(line) && name.Some? ==> Closed(rest) by {
        if Closed(line) && name.Some? {
          ExtractNameRest(line);
          SuffixKeepsLast(rest, line);
        }
      }
      if name.None? then Next(t.(state := WaitItem, broken := t.broken + 1), rest)
      else
        var r := Attribute(t, name.value, rest);
        if r.Next? then SuffixTrans(r.line, rest, line); r else r
  }

  /** Sending the record keeps every record clean. */
  lemma PushedSound(t: Tok)
    ensures Sound(t) ==> Sound(Pushed(t))
  {
  }

  /** The `waitName` case. */
  function NameStep(t: Tok, line: Bytes): (r: Outcome)
    requires t.state == WaitName
    ensures r.Next? ==> IsSuffix(r.line, line) && (|r.line| < |line| || r.t.state == WaitItem)
    ensures r.Next? ==> r.t.pushed == t.pushed
    ensures r.Stop? ==> r.t == t || r.t == Pushed(t)
    ensures r.Next? ==> r.t.broken == t.broken || (r.t.broken == t.broken + 1 && r.t.state == WaitItem)
    ensures Sound(t) && !r.StepPanic? ==> Sound(r.t)
    ensures Closed(line) ==> !r.StepPanic? && (r.Next? ==> Safe(r.t.state, r.line)) && (r.Stop? ==> r.t.state != WaitName)
  {
    match IsItemClose(line)
    case Panic => StepPanic
    case Scanned(closed, rest) =>
      assert IsSuffix(rest, line) by { IsItemCloseRest(line); }
      assert Closed(line) && !closed ==> Closed(rest) by {
        if Closed(line) && !closed {
          IsItemCloseRest(line);
          SuffixKeepsLast(rest, line);
        }
      }
      if closed then PushedSound(t); Stop(Pushed(t))
      else if Empty(rest) then Stop(t)
      else
        var r := NameValue(t, rest);
        if r.Next? then SuffixTrans(r.line, rest, line); r else r
  }

  /** The `waitRoot` case. */
  function RootStep(t: Tok, line: Bytes): (r: Outcome)
    requires t.state == WaitRoot
    ensures !r.StepPanic?
    ensures r.Next? ==> IsSuffix(r.line, line) && |r.line| < |line| && r.t == t.(state := WaitItem)
    ensures r.Stop? ==> r.t == t
    ensures Closed(line) && r.Next? ==> Safe(r.t.state, r.line)
  {
    var p := IsRoot(line);
    if p.0 then Next(t.(state := WaitItem), p.1) else Stop(t)
  }

  /** `waitItem` just past an item marker: a blank must follow, or the item
      is given up and the rest of the line dropped. */
  function ItemOpen(t: Tok, line: Bytes): (r: Outcome)
    requires t.state == WaitItem
    ensures r.StepPanic? <==> |line| == 0
    ensures r.Next? ==> IsSuffix(r.line, line) && |r.line| < |line| && r.t == t.(state := WaitName)
    ensures r.Stop? ==> r.t == Broken(t)
    ensures Closed(line) ==> !r.StepPanic? && (r.Next? ==> Closed(r.line))
  {
    match TrimLeftSpace(line)
    case Panic => StepPanic
    case Scanned(spaced, rest) =>
      if spaced then
        assert Closed(line) ==> Closed(rest) by {
          if Closed(line) {
            assert Gt !in SpaceTrimmed;
            TrimLeftSpaceKeepsLast(line);
          }
        }
        Next(t.(state := WaitName), rest)
      else if Empty(rest) then Stop(t)
      else Stop(Broken(t))
  }

  /** The `waitItem` case. */
  function ItemStep(t: Tok, line: Bytes): (r: Outcome)
    requires t.state == WaitItem
    ensures r.Next? ==> IsSuffix(r.line, line) && |r.line| < |line| && r.t == t.(state := WaitName)
    ensures r.Stop? ==> r.t == t || r.t == Broken(t)
    ensures Safe(WaitItem, line) ==> !r.StepPanic? && (r.Next? ==> Closed(r.line))
  {
    var p := IsItem(line);
    if !p.0 then Stop(t)
    else
      var k := |line| - |p.1| - |Item|;
      assert FirstAt(line, Item, k);
      assert |line| > 0;
      assert Closed(line) ==> Closed(p.1) by {
        if Closed(line) {
          assert Item[|Item| - 1] != Gt;
          SkipThroughKeepsLast(line, Item);
        }
      }
      var r := ItemOpen(t, p.1);
      if r.Next? then SuffixTrans(r.line, p.1, line); r else r
  }

  /** One pass of the `NEW_LINE` loop. A pass that goes on shortens the line
      or lowers the rank of the state, so the loop ends; it sends at most the
      one record it holds, and counts at most one broken item. */
  function Step(t: Tok, line: Bytes): (r: Outcome)
    ensures r.Next? ==> IsSuffix(r.line, line) && (|r.line| < |line| || Rank(r.t.state) < Rank(t.state))
    ensures !r.StepPanic? ==> r.t.pushed == t.pushed || (r.Stop? && t.state == WaitName && r.t == Pushed(t))
    ensures !r.StepPanic? ==> r.t.broken == t.broken || (r.t.broken == t.broken + 1 && r.t.state == WaitItem)
    ensures Sound(t) && !r.StepPanic? ==> Sound(r.t)
    ensures Safe(t.state, line) ==> !r.StepPanic? && (r.Next? ==> Safe(r.t.state, r.line)) && (r.Stop? ==> r.t.state != WaitName)
    ensures r.StepPanic? ==> t.state != WaitRoot
  {
    match t.state
    case WaitRoot => RootStep(t, line)
    case WaitItem => ItemStep(t, line)
    case WaitName => NameStep(t, line)
  }

  /** The `NEW_LINE` loop over one line. */
  function ScanLine(t: Tok, line: Bytes): (r: LineResult)
    ensures r.Done? ==> t.pushed <= r.t.pushed && t.broken <= r.t.broken
    ensures Sound(t) && r.Done? ==> Sound(r.t)
    ensures Safe(t.state, line) ==> r.Done? && r.t.state != WaitName
    decreases |line|, Rank(t.state)
  {
    match Step(t, line)
    case StepPanic => LinePanic
    case Stop(t') => Done(t')
    case Next(t', line') => ScanLine(t', line')
  }
}
