/** parser.go, lines 13-105: the record under construction and the
    statistics it is aggregated into. */
module Statistics {
  import opened ByteStrings

  /** `maxFloor`: floors 1..5 have a bucket each, higher floors share the last. */
  const MaxFloor: nat := 5
  const Buckets: nat := MaxFloor + 1

  /** `House`: a record as the tokenizer builds it; `floor` is 0 while unset. */
  datatype House = House(city: Bytes, street: Bytes, house: Bytes, floor: nat)

  /** `House.reset`: all fields cleared. */
  const EmptyHouse: House := House([], [], [], 0)

  /** `Address`: the identity of a record. */
  datatype Address = Address(city: Bytes, street: Bytes, house: Bytes)

  /** `Statistic`: `Addresses` counts occurrences per address, `Floors` maps a
      city to its floor histogram. */
  datatype Statistic = Statistic(
    items: nat,
    broken: nat,
    addresses: map<Address, nat>,
    floors: map<Bytes, seq<nat>>)

  /** The completeness test of `add`. */
  predicate Complete(h: House) {
    |h.city| > 0 && |h.house| > 0 && |h.street| > 0 && h.floor > 0
  }

  function AddressOf(h: House): Address {
    Address(h.city, h.street, h.house)
  }

  /** The bucket a floor is credited to. */
  function Bucket(floor: nat): nat
    requires floor > 0
  {
    if floor > MaxFloor then MaxFloor else floor - 1
  }

  /** A fresh histogram, `make([]uint, maxFloor+1)`. */
  function Zeros(): seq<nat> {
    seq(Buckets, _ => 0)
  }

  /** The count of `a` in `m`, a missing key counting as 0. */
  function CountIn(m: map<Address, nat>, a: Address): nat {
    if a in m then m[a] else 0
  }

  function Count(s: Statistic, a: Address): nat {
    CountIn(s.addresses, a)
  }

  /** The histogram of `city` in `f`, an absent city counting as all zeros. */
  function HistIn(f: map<Bytes, seq<nat>>, city: Bytes): seq<nat> {
    if city in f then f[city] else Zeros()
  }

  function Hist(s: Statistic, city: Bytes): seq<nat> {
    HistIn(s.floors, city)
  }

  /** Every histogram has one bucket per floor class. */
  predicate HistsWellFormed(f: map<Bytes, seq<nat>>) {
    forall c :: c in f ==> |f[c]| == Buckets
  }

  predicate HistogramsWellFormed(s: Statistic) {
    HistsWellFormed(s.floors)
  }

  ghost function SumCounts(m: map<Address, nat>): nat
    decreases |m|
  {
    if m == map[] then 0
    else
      var a :| a in m;
      assert |(m - {a}).Keys| < |m.Keys| by {
        assert (m - {a}).Keys == m.Keys - {a};
      }
      m[a] + SumCounts(m - {a})
  }

  function Total(v: seq<nat>): nat {
    if v == [] then 0 else v[0] + Total(v[1..])
  }

  /** `Items` is the sum of the address counts and every histogram is well formed. */
  ghost predicate Valid(s: Statistic) {
    HistogramsWellFormed(s) && s.items == SumCounts(s.addresses)
  }

  function CityAddresses(s: Statistic, city: Bytes): set<Address> {
    set a | a in s.addresses && a.city == city
  }

  /** Every known address has credited exactly one bucket of its city. */
  ghost predicate HistogramAgrees(s: Statistic) {
    forall c :: Total(Hist(s, c)) == |CityAddresses(s, c)|
  }

  /** `Statistic.Init`. */
  function Init(): (s: Statistic)
    ensures Valid(s) && HistogramAgrees(s)
    ensures s.items == 0 && s.broken == 0
    ensures s.addresses == map[] && s.floors == map[]
    ensures forall a :: Count(s, a) == 0
    ensures forall c :: Hist(s, c) == Zeros()
  {
    var s := Statistic(0, 0, map[], map[]);
    assert forall c :: Total(Hist(s, c)) == 0 by {
      ZerosTotal();
    }
    s
  }

  lemma ZerosTotal()
    ensures Total(Zeros()) == 0
  {
    var z := Zeros();
    assert z[1..][1..][1..][1..][1..][1..] == [];
  }

  /** `Statistic.add`: a complete record counts one more item; the first
      sighting of an address also credits its floor bucket, later ones do not. */
  function Add(s: Statistic, h: House): (r: Statistic)
    requires HistogramsWellFormed(s)
    ensures HistogramsWellFormed(r)
    ensures !Complete(h) ==> r == s
    ensures Complete(h) ==> r.items == s.items + 1 && r.broken == s.broken
    ensures Complete(h) ==>
      && r.addresses.Keys == s.addresses.Keys + {AddressOf(h)}
      && Count(r, AddressOf(h)) == Count(s, AddressOf(h)) + 1
      && (forall a :: a != AddressOf(h) ==> Count(r, a) == Count(s, a))
    ensures Complete(h) && AddressOf(h) in s.addresses ==> r.floors == s.floors
    ensures Complete(h) && AddressOf(h) !in s.addresses ==>
      && r.floors.Keys == s.floors.Keys + {h.city}
      && (forall c :: c != h.city ==> Hist(r, c) == Hist(s, c))
      && (forall i :: 0 <= i < Buckets ==>
            Hist(r, h.city)[i] == Hist(s, h.city)[i] + (if i == Bucket(h.floor) then 1 else 0))
  {
    if Complete(h) then
      var a := AddressOf(h);
      if a in s.addresses then
        s.(items := s.items + 1, addresses := s.addresses[a := s.addresses[a] + 1])
      else
        var v := if h.city in s.floors then s.floors[h.city] else Zeros();
        var b := Bucket(h.floor);
        s.(items := s.items + 1,
           addresses := s.addresses[a := 1],
           floors := s.floors[h.city := v[b := v[b] + 1]])
    else
      s
  }

  /** Keywise sum of two count maps. */
  function MergeCounts(m: map<Address, nat>, o: map<Address, nat>): (r: map<Address, nat>)
    ensures r.Keys == m.Keys + o.Keys
    ensures forall a :: CountIn(r, a) == CountIn(m, a) + CountIn(o, a)
  {
    map a | a in m.Keys + o.Keys :: CountIn(m, a) + CountIn(o, a)
  }

  /** Elementwise sum of two histograms. */
  function AddHist(u: seq<nat>, v: seq<nat>): (r: seq<nat>)
    requires |u| == Buckets && |v| == Buckets
    ensures |r| == Buckets
    ensures forall i :: 0 <= i < Buckets ==> r[i] == u[i] + v[i]
  {
    seq(Buckets, i requires 0 <= i < Buckets => u[i] + v[i])
  }

  /** Elementwise sum of two histogram maps. */
  function MergeFloors(f: map<Bytes, seq<nat>>, g: map<Bytes, seq<nat>>): (r: map<Bytes, seq<nat>>)
    requires HistsWellFormed(f) && HistsWellFormed(g)
    ensures HistsWellFormed(r)
    ensures r.Keys == f.Keys + g.Keys
    ensures forall c :: HistIn(r, c) == AddHist(HistIn(f, c), HistIn(g, c))
  {
    var r := map c | c in f.Keys + g.Keys :: AddHist(HistIn(f, c), HistIn(g, c));
    assert forall c :: HistIn(r, c) == AddHist(HistIn(f, c), HistIn(g, c)) by {
      forall c ensures HistIn(r, c) == AddHist(HistIn(f, c), HistIn(g, c)) {
        if c !in r {
          assert AddHist(Zeros(), Zeros()) == Zeros();
        }
      }
    }
    r
  }

  /** `Statistic.Merge`: counters add, address counts add keywise and
      histograms add elementwise, absent entries counting as zero. */
  function Merge(s: Statistic, o: Statistic): (r: Statistic)
    requires HistogramsWellFormed(s) && HistogramsWellFormed(o)
    ensures HistogramsWellFormed(r)
    ensures r.items == s.items + o.items && r.broken == s.broken + o.broken
    ensures r.addresses.Keys == s.addresses.Keys + o.addresses.Keys
    ensures forall a :: Count(r, a) == Count(s, a) + Count(o, a)
    ensures r.floors.Keys == s.floors.Keys + o.floors.Keys
    ensures forall c, i :: 0 <= i < Buckets ==> Hist(r, c)[i] == Hist(s, c)[i] + Hist(o, c)[i]
  {
    Statistic(s.items + o.items, s.broken + o.broken,
              MergeCounts(s.addresses, o.addresses), MergeFloors(s.floors, o.floors))
  }

  /** The number of complete records in `hs`. */
  function CountComplete(hs: seq<House>): nat {
    if hs == [] then 0 else (if Complete(hs[0]) then 1 else 0) + CountComplete(hs[1..])
  }

  /** The consumer loop of `statProcessor`: `add` applied to every record, in order. */
  function AddAll(s: Statistic, hs: seq<House>): (r: Statistic)
    requires HistogramsWellFormed(s)
    ensures HistogramsWellFormed(r)
    ensures r.broken == s.broken
    ensures r.items == s.items + CountComplete(hs)
    decreases |hs|
  {
    if hs == [] then s else AddAll(Add(s, hs[0]), hs[1..])
  }
}
