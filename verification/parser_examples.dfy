/** The document of `TestAddressParser` in parser_test.go (lines 17-113),
    segment by segment, and the statistics `read` makes of it. */
module ParserExamples {
  import opened ByteStrings
  import opened Segments
  import opened Statistics
  import opened StatisticLemmas
  import opened Scanner
  import opened Tokenizer
  import opened TokenizerLemmas
  import opened Parser
  import opened ParserLemmas

  /** The Cyrillic letters of the document's names, in UTF-8. */
  const UpperBe: Bytes := [208, 145]
  const UpperDe: Bytes := [208, 148]
  const UpperO: Bytes := [208, 158]
  const A: Bytes := [208, 176]
  const Be: Bytes := [208, 177]
  const I: Bytes := [208, 184]
  const Ka: Bytes := [208, 186]
  const El: Bytes := [208, 187]
  const En: Bytes := [208, 189]
  const O: Bytes := [208, 190]
  const Zhe: Bytes := [208, 182]
  const Er: Bytes := [209, 128]
  const Es: Bytes := [209, 129]
  const Te: Bytes := [209, 130]
  const U: Bytes := [209, 131]
  const Tse: Bytes := [209, 134]
  const Sha: Bytes := [209, 136]
  const Soft: Bytes := [209, 140]
  const Ya: Bytes := [209, 143]
  const Space: Bytes := [32]

  /** The place and street names of the document. */
  const Barnaul: Bytes := UpperBe + A + Er + En + A + U + El
  const Bratsk: Bytes := UpperBe + Er + A + Te + Es + Ka
  const Ulitsa: Bytes := U + El + I + Tse + A
  const FarStreet: Bytes := UpperDe + A + El + Soft + En + Ya + Ya + Space + Ulitsa
  const NearStreet: Bytes := UpperBe + El + I + Zhe + En + Ya + Ya + Space + Ulitsa
  const OctoberStreet: Bytes :=
    UpperBe + O + El + Soft + Sha + A + Ya + Space
    + UpperO + Ka + Te + Ya + Be + Er + Soft + Es + Ka + A + Ya + Space + Ulitsa

  /** The house numbers `56`, `6`, `65` and `66`. */
  const No56: Bytes := [53, 54]
  const No6: Bytes := [54]
  const No65: Bytes := [54, 53]
  const No66: Bytes := [54, 54]

  /** `<?xml version="1.0" encoding="utf-8"?>`, the prologue: a `<` and
      the rest. */
  const XmlRest: Bytes :=
    [63, 120, 109, 108]
    + Field([118, 101, 114, 115, 105, 111, 110], [49, 46, 48])
    + Field([101, 110, 99, 111, 100, 105, 110, 103], [117, 116, 102, 45, 56])
    + [63, 62]
  const XmlDeclaration: Bytes := [60] + XmlRest

  /** `</root>`. */
  const RootClose: Bytes := [60, 47, 114, 111, 111, 116, 62]

  const NewLine: Bytes := [10]
  const BlankLine: Bytes := [10, 10]

  /** The attributes of the two broken items after their first one. */
  const FloorThree: Bytes := Field(FloorName, [51]) + [' ' as int] + ItemClose
  const StreetHouseFloor: Bytes := Field(StreetName, FarStreet) + Field(HouseName, No6) + FloorThree

  const FarFirst: House := House(Barnaul, FarStreet, No56, 2)
  const October65: House := House(Bratsk, OctoberStreet, No65, 5)
  const Far6: House := House(Barnaul, FarStreet, No6, 3)
  const Near6: House := House(Barnaul, NearStreet, No6, 2)
  const FarAgain: House := House(Barnaul, FarStreet, No56, 3)
  const October66: House := House(Bratsk, OctoberStreet, No66, 7)

  /** After `<root>`: a whole item, `<item />`, an item whose `house` comes
      before its `street`, an item whose `city` has no quoted value, five
      whole items, and `</root>`. */
  const Shapes: seq<Segment> := [
    Record(NewLine, FarFirst),
    EmptyItem(BlankLine),
    HouseFirst(BlankLine, No6, FloorThree),
    Unquoted(NewLine, CityName, StreetHouseFloor),
    Record(BlankLine, October65),
    Record(NewLine, Far6),
    Record(NewLine, Near6),
    Record(NewLine, FarAgain),
    Record(BlankLine, October66),
    Other(NewLine + RootClose)
  ]

  /** The whole document: the prologue, `\n<root>`, the shapes, and the
      line break before the closing backquote. */
  function Fixture(): Bytes {
    Concat(Document([XmlDeclaration], NewLine, Shapes)) + NewLine
  }

  /** The records `read` sends for the document: six complete ones, and the
      empty record of `<item />` and of the end of the stream. */
  const Records: seq<House> := [FarFirst, EmptyHouse, October65, Far6, Near6, FarAgain, October66, EmptyHouse]

  const WantAddresses: map<Address, nat> := map[
    AddressOf(FarFirst) := 2,
    AddressOf(Far6) := 1,
    AddressOf(Near6) := 1,
    AddressOf(October65) := 1,
    AddressOf(October66) := 1]

  const WantFloors: map<Bytes, seq<nat>> := map[
    Barnaul := [0, 2, 1, 0, 0, 0],
    Bratsk := [0, 0, 0, 0, 1, 1]]

  lemma FloorThreeDelimited()
    ensures Delimited(FloorThree, Gt)
  {
    AttrGtFree(FloorName, [51]);
    assert FloorThree == Field(FloorName, [51]) + [' ' as int, '/' as int] + [Gt];
    DelimitedAfter(Field(FloorName, [51]) + [' ' as int, '/' as int], [Gt]);
  }

  lemma StreetHouseFloorDelimited()
    ensures Delimited(StreetHouseFloor, Gt)
  {
    AttrGtFree(StreetName, FarStreet);
    AttrGtFree(HouseName, No6);
    FloorThreeDelimited();
    DelimitedAfter(Field(StreetName, FarStreet) + Field(HouseName, No6), FloorThree);
  }

  /** A field value of the document: not empty, and free of quotes and of `>`. */
  predicate Bare(v: Bytes) {
    |v| > 0 && Quote !in v && Gt !in v
  }

  lemma PlacesBare()
    ensures Bare(Barnaul) && Bare(Bratsk)
  {
  }

  lemma StreetsBare()
    ensures Bare(FarStreet) && Bare(NearStreet) && Bare(OctoberStreet)
  {
  }

  /** A whole item of the document. */
  lemma RecordShape(pre: Bytes, h: House)
    requires pre == NewLine || pre == BlankLine
    requires Bare(h.city) && Bare(h.street) && Bare(h.house) && 0 < h.floor <= MaxUint16
    ensures WellFormed(Record(pre, h)) && GtFree(Record(pre, h))
  {
  }

  /** The six whole items of the document. */
  lemma HousesBare()
    ensures forall h :: h in {FarFirst, October65, Far6, Near6, FarAgain, October66} ==>
      Bare(h.city) && Bare(h.street) && Bare(h.house) && 0 < h.floor <= MaxUint16
  {
    PlacesBare();
    StreetsBare();
  }

  lemma ShapeGtFree(i: nat)
    requires i < |Shapes|
    ensures GtFree(Shapes[i])
  {
    HousesBare();
    if i == 0 || 4 <= i <= 8 {
      RecordShape(Shapes[i].pre, Shapes[i].h);
    } else if i == 2 {
      FloorThreeDelimited();
    } else if i == 3 {
      StreetHouseFloorDelimited();
    } else if i == 9 {
      assert Delimited(NewLine + RootClose, Gt);
    }
  }

  /** Every shape of the document ends at its only `>`. */
  lemma ShapesGtFree()
    ensures forall i :: 0 <= i < |Shapes| ==> GtFree(Shapes[i])
  {
    forall i | 0 <= i < |Shapes| ensures GtFree(Shapes[i]) {
      ShapeGtFree(i);
    }
  }

  /** The reader cuts the document into its prologue, `\n<root>`, its
      shapes and a last line break. */
  lemma FixtureInput()
    ensures InputOf(Fixture()) == Input(Document([XmlDeclaration], NewLine, Shapes), NewLine, EOF)
  {
    ShapesGtFree();
    assert Delimited(XmlDeclaration, Gt);
    DocumentInput([XmlDeclaration], NewLine, Shapes, NewLine);
  }

  lemma HouseFirstShape()
    ensures WellFormed(HouseFirst(BlankLine, No6, FloorThree))
  {
    AbsentByFirst(FloorThree, Item);
    assert FloorThree[|FloorThree| - 1] == Gt;
  }

  /** A field holds a byte other than a blank, `=` or a quote only where its
      name or value does. */
  lemma FieldWithout(name: Bytes, v: Bytes, b: byte)
    requires b !in name && b !in v && b != ' ' as int && b != EqualsSign && b != Quote
    ensures b !in Field(name, v)
  {
  }

  lemma StreetHouseFloorNoItem()
    ensures Absent(StreetHouseFloor, Item)
  {
    StreetsBare();
    assert Item[0] !in FarStreet;
    FieldWithout(StreetName, FarStreet, Item[0]);
    FieldWithout(HouseName, No6, Item[0]);
    FieldWithout(FloorName, [51], Item[0]);
    AbsentByFirst(StreetHouseFloor, Item);
  }

  lemma UnquotedShape()
    ensures WellFormed(Unquoted(NewLine, CityName, StreetHouseFloor))
  {
    FieldNamesPlain();
    StreetHouseFloorNoItem();
    StreetHouseFloorDelimited();
    assert StreetHouseFloor[0] == ' ' as int;
  }

  lemma RootEndShape()
    ensures WellFormed(Other(NewLine + RootClose))
  {
    AbsentButOne(NewLine, RootClose[1..], Item);
    assert NewLine + [Item[0]] + RootClose[1..] == NewLine + RootClose;
  }

  lemma ShapeWellFormed(i: nat)
    requires i < |Shapes|
    ensures WellFormed(Shapes[i])
  {
    HousesBare();
    if i == 0 || 4 <= i <= 8 {
      RecordShape(Shapes[i].pre, Shapes[i].h);
    } else if i == 2 {
      HouseFirstShape();
    } else if i == 3 {
      UnquotedShape();
    } else if i == 9 {
      RootEndShape();
    }
  }

  /** Every shape of the document is well formed. */
  lemma ShapesWellFormed()
    ensures AllWellFormed(Shapes)
  {
    forall i | 0 <= i < |Shapes| ensures WellFormed(Shapes[i]) {
      ShapeWellFormed(i);
    }
  }

  /** The last three shapes send two complete records. */
  lemma LastShapesSend()
    ensures AllSent(Shapes[7..]) == [FarAgain, October66]
    ensures AllBreaks(Shapes[7..]) == 0
  {
    var gs := Shapes;
    assert gs[10..] == [];
    RunFrom(gs, 9);
    RunFrom(gs, 8);
    RunFrom(gs, 7);
  }

  /** The shapes from the fifth on send five complete records. */
  lemma LaterShapesSend()
    ensures AllSent(Shapes[4..]) == [October65, Far6, Near6, FarAgain, October66]
    ensures AllBreaks(Shapes[4..]) == 0
  {
    var gs := Shapes;
    LastShapesSend();
    RunFrom(gs, 6);
    RunFrom(gs, 5);
    RunFrom(gs, 4);
  }

  /** The shapes send the six complete records and the empty one of
      `<item />`, and break two items. */
  lemma ShapesSend()
    ensures AllSent(Shapes) + [EmptyHouse] == Records
    ensures AllBreaks(Shapes) == 2
  {
    var gs := Shapes;
    LaterShapesSend();
    RunFrom(gs, 3);
    RunFrom(gs, 2);
    RunFrom(gs, 1);
    RunFrom(gs, 0);
    assert gs[0..] == gs;
  }

  /** The document's prologue holds no `<root>`, and its last line no `<item`. */
  lemma EndsPlain()
    ensures Absent(XmlDeclaration, ItemRoot) && Absent(NewLine, Item)
  {
    AbsentButOne([], XmlRest, ItemRoot);
    assert [] + [ItemRoot[0]] + XmlRest == XmlDeclaration;
    AbsentByFirst(NewLine, Item);
  }

  lemma ShapesTokenize()
    ensures Tokenize(Input(Document([XmlDeclaration], NewLine, Shapes), NewLine, EOF))
         == Parsed(AllSent(Shapes) + [EmptyHouse], AllBreaks(Shapes), None)
  {
    ShapesWellFormed();
    EndsPlain();
    DocumentTokenize([XmlDeclaration], NewLine, Shapes, NewLine);
  }

  /** The tokenizer sends the records of the document and counts its two
      broken items. */
  lemma FixtureTokenize()
    ensures Tokenize(InputOf(Fixture())) == Parsed(Records, 2, None)
  {
    FixtureInput();
    ShapesTokenize();
    ShapesSend();
  }

  /** The names and numbers of the document tell its addresses apart. */
  lemma NamesDistinct()
    ensures Barnaul != Bratsk
    ensures FarStreet != NearStreet && FarStreet != OctoberStreet && NearStreet != OctoberStreet
    ensures No56 != No6 && No65 != No66
  {
    assert FarStreet[1] != NearStreet[1];
    assert No65[1] != No66[1];
  }

  /** Six of the records are complete. */
  lemma RecordsComplete()
    ensures CountComplete(Records) == 6
  {
    var hs := Records;
    assert hs[8..] == [];
    CompleteFrom(hs, 7);
    CompleteFrom(hs, 6);
    CompleteFrom(hs, 5);
    CompleteFrom(hs, 4);
    CompleteFrom(hs, 3);
    CompleteFrom(hs, 2);
    CompleteFrom(hs, 1);
    CompleteFrom(hs, 0);
    assert hs[0..] == hs;
  }

  /** Each address occurs as often among the records as the test expects. */
  lemma RecordsOccur(a: Address)
    ensures Occurrences(Records, a) == CountIn(WantAddresses, a)
  {
    var hs := Records;
    assert hs[8..] == [];
    OccurrencesFrom(hs, 7, a);
    OccurrencesFrom(hs, 6, a);
    OccurrencesFrom(hs, 5, a);
    OccurrencesFrom(hs, 4, a);
    OccurrencesFrom(hs, 3, a);
    OccurrencesFrom(hs, 2, a);
    OccurrencesFrom(hs, 1, a);
    OccurrencesFrom(hs, 0, a);
    assert hs[0..] == hs;
    NamesDistinct();
  }

  /** The records whose floor `add` credits: the first complete record of
      each address, in order. */
  const Sighted: seq<House> := [FarFirst, October65, Far6, Near6, October66]

  /** The addresses of the complete records, told apart. */
  lemma AddressesDistinct()
    ensures AddressOf(Far6) != AddressOf(FarFirst) && AddressOf(Far6) != AddressOf(October65)
    ensures AddressOf(Near6) !in {AddressOf(FarFirst), AddressOf(October65), AddressOf(Far6)}
    ensures AddressOf(October66)
        !in {AddressOf(FarFirst), AddressOf(October65), AddressOf(Far6), AddressOf(Near6)}
    ensures AddressOf(October65) != AddressOf(FarFirst)
    ensures AddressOf(FarAgain) == AddressOf(FarFirst)
  {
    NamesDistinct();
  }

  lemma LaterSightings()
    ensures FirstSightings({AddressOf(FarFirst), AddressOf(October65)}, Records[3..])
         == [Far6, Near6, October66]
  {
    var hs := Records;
    var s3 := {AddressOf(FarFirst), AddressOf(October65)};
    var s4 := s3 + {AddressOf(Far6)};
    var s5 := s4 + {AddressOf(Near6)};
    var s7 := s5 + {AddressOf(October66)};
    AddressesDistinct();
    assert FirstSightings(s7, hs[7..]) == [] by {
      assert hs[8..] == [];
      SightingsFrom(hs, 7, s7);
    }
    assert FirstSightings(s5, hs[6..]) == [October66] by {
      SightingsFrom(hs, 6, s5);
    }
    assert FirstSightings(s5, hs[5..]) == [October66] by {
      SightingsFrom(hs, 5, s5);
    }
    assert FirstSightings(s4, hs[4..]) == [Near6, October66] by {
      SightingsFrom(hs, 4, s4);
    }
    SightingsFrom(hs, 3, s3);
  }

  lemma SecondSightings()
    ensures FirstSightings({AddressOf(FarFirst)}, Records[1..])
         == [October65, Far6, Near6, October66]
  {
    var hs := Records;
    var s1 := {AddressOf(FarFirst)};
    AddressesDistinct();
    LaterSightings();
    assert FirstSightings(s1, hs[2..]) == [October65, Far6, Near6, October66] by {
      SightingsFrom(hs, 2, s1);
      assert s1 + {AddressOf(October65)} == {AddressOf(FarFirst), AddressOf(October65)};
    }
    SightingsFrom(hs, 1, s1);
  }

  /** The document's first sightings: the second record of the repeated
      address and the empty records are passed over. */
  lemma RecordsSightings()
    ensures FirstSightings({}, Records) == Sighted
  {
    var hs := Records;
    SecondSightings();
    SightingsFrom(hs, 0, {});
    assert {} + {AddressOf(FarFirst)} == {AddressOf(FarFirst)};
    assert hs[0..] == hs;
  }

  /** Both cities of the document have a first sighting. */
  lemma SightingsCities()
    ensures Cities(Sighted) == {Barnaul, Bratsk}
  {
    assert Sighted[0].city == Barnaul && Sighted[1].city == Bratsk;
  }

  /** Bucket `i` of a city holds as many first sightings as the test expects. */
  lemma SightingsTally(c: Bytes, i: nat)
    requires i < Buckets
    ensures Tally(Sighted, c, i) == HistIn(WantFloors, c)[i]
  {
    var hs := Sighted;
    assert hs[5..] == [];
    TallyFrom(hs, 4, c, i);
    TallyFrom(hs, 3, c, i);
    TallyFrom(hs, 2, c, i);
    TallyFrom(hs, 1, c, i);
    TallyFrom(hs, 0, c, i);
    assert hs[0..] == hs;
    NamesDistinct();
  }

  /** A count map that agrees with the records on every address is the
      one the test expects. */
  lemma AddressesAre(m: map<Address, nat>)
    requires forall a :: CountIn(m, a) == Occurrences(Records, a)
    requires forall a :: a in m <==> Occurrences(Records, a) > 0
    ensures m == WantAddresses
  {
    forall a ensures (a in m <==> a in WantAddresses) && (a in m ==> m[a] == WantAddresses[a]) {
      RecordsOccur(a);
    }
  }

  /** Histograms that agree with the first sightings on every city and
      bucket are the ones the test expects. */
  lemma FloorsAre(f: map<Bytes, seq<nat>>)
    requires HistsWellFormed(f)
    requires forall c :: c in f <==> c in Cities(FirstSightings({}, Records))
    requires forall c, i :: 0 <= i < Buckets ==> HistIn(f, c)[i] == Tally(FirstSightings({}, Records), c, i)
    ensures f == WantFloors
  {
    RecordsSightings();
    SightingsCities();
    assert f.Keys == WantFloors.Keys;
    forall c | c in f ensures f[c] == WantFloors[c] {
      forall i | 0 <= i < Buckets ensures f[c][i] == WantFloors[c][i] {
        SightingsTally(c, i);
      }
    }
  }

  /** `TestAddressParser`: `read` of the test's document finds six complete
      items, two broken ones, five addresses of which one is seen twice, and
      the floor histograms of Barnaul and Bratsk. */
  lemma FixtureRead()
    ensures Read(InputOf(Fixture())) == Finished(Statistic(6, 2, WantAddresses, WantFloors), None)
  {
    var input := InputOf(Fixture());
    FixtureTokenize();
    ReadStatistics(input);
    RecordsComplete();
    var st := Read(input).stat;
    AddressesAre(st.addresses);
    FloorsAre(st.floors);
  }
}
