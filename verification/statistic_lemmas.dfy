/** Laws of the statistics aggregator: the invariants `Init` establishes and
    `add` and `Merge` preserve, and the algebra of `Merge`. */
module StatisticLemmas {
  import opened ByteStrings
  import opened Statistics

  lemma {:induction false} SumCountsRemove(m: map<Address, nat>, a: Address)
    requires a in m
    ensures SumCounts(m) == m[a] + SumCounts(m - {a})
    decreases |m|
  {
    var b :| b in m && SumCounts(m) == m[b] + SumCounts(m - {b});
    if b != a {
      assert |(m - {b}).Keys| < |m.Keys| by {
        assert (m - {b}).Keys == m.Keys - {b};
      }
      SumCountsRemove(m - {b}, a);
      assert |(m - {a}).Keys| < |m.Keys| by {
        assert (m - {a}).Keys == m.Keys - {a};
      }
      SumCountsRemove(m - {a}, b);
      assert m - {b} - {a} == m - {a} - {b};
    }
  }

  lemma SumCountsUpdate(m: map<Address, nat>, a: Address, v: nat)
    ensures SumCounts(m[a := v]) == SumCounts(m) - CountIn(m, a) + v
  {
    SumCountsRemove(m[a := v], a);
    assert m[a := v] - {a} == m - {a};
    if a in m {
      SumCountsRemove(m, a);
    } else {
      assert m - {a} == m;
    }
  }

  lemma MergeCountsStep(m: map<Address, nat>, o: map<Address, nat>, a: Address)
    requires a in o
    ensures MergeCounts(m, o) == MergeCounts(m, o - {a})[a := CountIn(m, a) + o[a]]
  {
    var l := MergeCounts(m, o);
    var r := MergeCounts(m, o - {a})[a := CountIn(m, a) + o[a]];
    assert l.Keys == r.Keys;
    forall k | k in l
      ensures l[k] == r[k]
    {
      assert CountIn(l, k) == CountIn(m, k) + CountIn(o, k);
      if k != a {
        assert CountIn(o - {a}, k) == CountIn(o, k);
        assert r[k] == CountIn(MergeCounts(m, o - {a}), k);
      }
    }
  }

  lemma MergeCountsSumStep(m: map<Address, nat>, o: map<Address, nat>, a: Address)
    requires a in o
    ensures SumCounts(MergeCounts(m, o)) == SumCounts(MergeCounts(m, o - {a})) + o[a]
  {
    var merged' := MergeCounts(m, o - {a});
    MergeCountsStep(m, o, a);
    assert CountIn(merged', a) == CountIn(m, a) by {
      assert CountIn(o - {a}, a) == 0;
    }
    SumCountsUpdate(merged', a, CountIn(m, a) + o[a]);
  }

  /** Summing the counts of a keywise sum gives the sum of the sums. */
  lemma {:induction false} MergeCountsSum(m: map<Address, nat>, o: map<Address, nat>)
    ensures SumCounts(MergeCounts(m, o)) == SumCounts(m) + SumCounts(o)
    decreases |o|
  {
    if o == map[] {
      var l := MergeCounts(m, o);
      assert l.Keys == m.Keys;
      forall k | k in l
        ensures l[k] == m[k]
      {
        assert CountIn(l, k) == CountIn(m, k) + CountIn(o, k);
      }
      assert l == m;
    } else {
      var a :| a in o;
      var o' := o - {a};
      assert |o'.Keys| < |o.Keys| by {
        assert o'.Keys == o.Keys - {a};
      }
      MergeCountsSum(m, o');
      MergeCountsSumStep(m, o, a);
      SumCountsRemove(o, a);
    }
  }

  /** `add` keeps `Items` equal to the sum of the address counts. */
  lemma AddPreservesValid(s: Statistic, h: House)
    requires Valid(s)
    ensures Valid(Add(s, h))
  {
    if Complete(h) {
      var a := AddressOf(h);
      SumCountsUpdate(s.addresses, a, CountIn(s.addresses, a) + 1);
    }
  }

  lemma {:induction false} TotalBump(v: seq<nat>, i: nat)
    requires i < |v|
    ensures Total(v[i := v[i] + 1]) == Total(v) + 1
  {
    if i > 0 {
      TotalBump(v[1..], i - 1);
      assert v[i := v[i] + 1][1..] == v[1..][i - 1 := v[i] + 1];
    }
  }

  lemma {:induction false} TotalPointwise(u: seq<nat>, v: seq<nat>, w: seq<nat>)
    requires |u| == |v| == |w|
    requires forall i :: 0 <= i < |w| ==> w[i] == u[i] + v[i]
    ensures Total(w) == Total(u) + Total(v)
  {
    if |w| > 0 {
      TotalPointwise(u[1..], v[1..], w[1..]);
    }
  }

  lemma AddKeepsCityTotal(s: Statistic, h: House, c: Bytes)
    requires HistogramsWellFormed(s)
    requires Total(Hist(s, c)) == |CityAddresses(s, c)|
    ensures Total(Hist(Add(s, h), c)) == |CityAddresses(Add(s, h), c)|
  {
    if Complete(h) {
      if AddressOf(h) in s.addresses {
        AddSeenAddress(s, h, c);
      } else if c == h.city {
        AddNewAddress(s, h);
      } else {
        AddOtherCity(s, h, c);
      }
    }
  }

  /** An address seen before changes neither the city's addresses nor its histogram. */
  lemma AddSeenAddress(s: Statistic, h: House, c: Bytes)
    requires HistogramsWellFormed(s) && Complete(h) && AddressOf(h) in s.addresses
    ensures CityAddresses(Add(s, h), c) == CityAddresses(s, c) && Hist(Add(s, h), c) == Hist(s, c)
  {
    assert Add(s, h).addresses.Keys == s.addresses.Keys;
  }

  /** A new address joins its city's addresses and credits one bucket. */
  lemma AddNewAddress(s: Statistic, h: House)
    requires HistogramsWellFormed(s) && Complete(h) && AddressOf(h) !in s.addresses
    ensures CityAddresses(Add(s, h), h.city) == CityAddresses(s, h.city) + {AddressOf(h)}
    ensures AddressOf(h) !in CityAddresses(s, h.city)
    ensures Total(Hist(Add(s, h), h.city)) == Total(Hist(s, h.city)) + 1
  {
    var r := Add(s, h);
    var a := AddressOf(h);
    var c := h.city;
    forall x ensures x in CityAddresses(r, c) <==> x in CityAddresses(s, c) + {a} {
      assert x in r.addresses <==> x in s.addresses || x == a;
    }
    var v := Hist(s, c);
    var b := Bucket(h.floor);
    assert Hist(r, c) == v[b := v[b] + 1];
    TotalBump(v, b);
  }

  /** A new address of another city leaves this city alone. */
  lemma AddOtherCity(s: Statistic, h: House, c: Bytes)
    requires HistogramsWellFormed(s) && Complete(h) && AddressOf(h) !in s.addresses && c != h.city
    ensures CityAddresses(Add(s, h), c) == CityAddresses(s, c) && Hist(Add(s, h), c) == Hist(s, c)
  {
    var r := Add(s, h);
    forall x ensures x in CityAddresses(r, c) <==> x in CityAddresses(s, c) {
      assert x in r.addresses <==> x in s.addresses || x == AddressOf(h);
    }
  }

  /** `add` credits exactly one bucket for each address it sees first, so the
      histogram total of a city stays the number of its distinct addresses. */
  lemma AddPreservesHistogramAgrees(s: Statistic, h: House)
    requires HistogramsWellFormed(s) && HistogramAgrees(s)
    ensures HistogramAgrees(Add(s, h))
  {
    forall c ensures Total(Hist(Add(s, h), c)) == |CityAddresses(Add(s, h), c)| {
      AddKeepsCityTotal(s, h, c);
    }
  }

  lemma MergeCountsCommutative(m: map<Address, nat>, o: map<Address, nat>)
    ensures MergeCounts(m, o) == MergeCounts(o, m)
  {
    var l := MergeCounts(m, o);
    var r := MergeCounts(o, m);
    forall a | a in l
      ensures l[a] == r[a]
    {
      assert CountIn(l, a) == CountIn(r, a);
    }
  }

  lemma MergeCountsAssociative(m: map<Address, nat>, o: map<Address, nat>, p: map<Address, nat>)
    ensures MergeCounts(MergeCounts(m, o), p) == MergeCounts(m, MergeCounts(o, p))
  {
    var l := MergeCounts(MergeCounts(m, o), p);
    var r := MergeCounts(m, MergeCounts(o, p));
    forall a | a in l
      ensures l[a] == r[a]
    {
      assert CountIn(l, a) == CountIn(r, a);
    }
  }

  lemma MergeCountsIdentity(m: map<Address, nat>)
    ensures MergeCounts(m, map[]) == m
    ensures MergeCounts(map[], m) == m
  {
    var l := MergeCounts(m, map[]);
    forall a | a in l
      ensures l[a] == m[a]
    {
      assert CountIn(l, a) == CountIn(m, a);
    }
    var r := MergeCounts(map[], m);
    forall a | a in r
      ensures r[a] == m[a]
    {
      assert CountIn(r, a) == CountIn(m, a);
    }
  }

  /** Two histogram maps that agree on every city are equal. */
  lemma HistsExt(f: map<Bytes, seq<nat>>, g: map<Bytes, seq<nat>>)
    requires HistsWellFormed(f) && HistsWellFormed(g)
    requires f.Keys == g.Keys
    requires forall c, i :: 0 <= i < Buckets ==> HistIn(f, c)[i] == HistIn(g, c)[i]
    ensures f == g
  {
    forall c | c in f
      ensures f[c] == g[c]
    {
      forall i | 0 <= i < Buckets
        ensures f[c][i] == g[c][i]
      {
        assert HistIn(f, c)[i] == HistIn(g, c)[i];
      }
    }
  }

  lemma MergeFloorsCommutative(f: map<Bytes, seq<nat>>, g: map<Bytes, seq<nat>>)
    requires HistsWellFormed(f) && HistsWellFormed(g)
    ensures MergeFloors(f, g) == MergeFloors(g, f)
  {
    var l := MergeFloors(f, g);
    var r := MergeFloors(g, f);
    forall c, i | 0 <= i < Buckets
      ensures HistIn(l, c)[i] == HistIn(r, c)[i]
    {
      assert HistIn(l, c) == AddHist(HistIn(f, c), HistIn(g, c));
      assert HistIn(r, c) == AddHist(HistIn(g, c), HistIn(f, c));
    }
    HistsExt(l, r);
  }

  lemma AddHistAssociative(u: seq<nat>, v: seq<nat>, w: seq<nat>)
    requires |u| == Buckets && |v| == Buckets && |w| == Buckets
    ensures AddHist(AddHist(u, v), w) == AddHist(u, AddHist(v, w))
  {
    var l := AddHist(AddHist(u, v), w);
    var r := AddHist(u, AddHist(v, w));
    forall i | 0 <= i < Buckets
      ensures l[i] == r[i]
    {
    }
  }

  lemma MergeFloorsAssociative(f: map<Bytes, seq<nat>>, g: map<Bytes, seq<nat>>, h: map<Bytes, seq<nat>>)
    requires HistsWellFormed(f) && HistsWellFormed(g) && HistsWellFormed(h)
    ensures MergeFloors(MergeFloors(f, g), h) == MergeFloors(f, MergeFloors(g, h))
  {
    forall c ensures HistIn(MergeFloors(MergeFloors(f, g), h), c) == HistIn(MergeFloors(f, MergeFloors(g, h)), c) {
      MergeFloorsAssociativeAt(f, g, h, c);
    }
    HistMapsEqual(MergeFloors(MergeFloors(f, g), h), MergeFloors(f, MergeFloors(g, h)));
  }

  /** Histogram maps with the same cities and the same histograms are equal. */
  lemma HistMapsEqual(f: map<Bytes, seq<nat>>, g: map<Bytes, seq<nat>>)
    requires f.Keys == g.Keys && forall c :: HistIn(f, c) == HistIn(g, c)
    ensures f == g
  {
    forall c | c in f
      ensures f[c] == g[c]
    {
      assert HistIn(f, c) == HistIn(g, c);
    }
  }

  lemma MergeFloorsAssociativeAt(f: map<Bytes, seq<nat>>, g: map<Bytes, seq<nat>>, h: map<Bytes, seq<nat>>, c: Bytes)
    requires HistsWellFormed(f) && HistsWellFormed(g) && HistsWellFormed(h)
    ensures HistIn(MergeFloors(MergeFloors(f, g), h), c) == HistIn(MergeFloors(f, MergeFloors(g, h)), c)
  {
    AddHistAssociative(HistIn(f, c), HistIn(g, c), HistIn(h, c));
  }

  lemma MergeFloorsIdentity(f: map<Bytes, seq<nat>>)
    requires HistsWellFormed(f)
    ensures MergeFloors(f, map[]) == f
    ensures MergeFloors(map[], f) == f
  {
    var l := MergeFloors(f, map[]);
    var r := MergeFloors(map[], f);
    forall c, i | 0 <= i < Buckets
      ensures HistIn(l, c)[i] == HistIn(f, c)[i] && HistIn(r, c)[i] == HistIn(f, c)[i]
    {
      assert HistIn(l, c) == AddHist(HistIn(f, c), Zeros());
      assert HistIn(r, c) == AddHist(Zeros(), HistIn(f, c));
    }
    HistsExt(l, f);
    HistsExt(r, f);
  }

  /** `Merge` is commutative. */
  lemma MergeCommutative(s: Statistic, o: Statistic)
    requires HistogramsWellFormed(s) && HistogramsWellFormed(o)
    ensures Merge(s, o) == Merge(o, s)
  {
    MergeCountsCommutative(s.addresses, o.addresses);
    MergeFloorsCommutative(s.floors, o.floors);
  }

  /** `Merge` is associative. */
  lemma MergeAssociative(s: Statistic, o: Statistic, p: Statistic)
    requires HistogramsWellFormed(s) && HistogramsWellFormed(o) && HistogramsWellFormed(p)
    ensures Merge(Merge(s, o), p) == Merge(s, Merge(o, p))
  {
    MergeCountsAssociative(s.addresses, o.addresses, p.addresses);
    MergeFloorsAssociative(s.floors, o.floors, p.floors);
  }

  /** A freshly initialised statistic is the identity of `Merge`. */
  lemma MergeIdentity(s: Statistic)
    requires HistogramsWellFormed(s)
    ensures Merge(s, Init()) == s
    ensures Merge(Init(), s) == s
  {
    MergeCountsIdentity(s.addresses);
    MergeFloorsIdentity(s.floors);
  }

  /** `Merge` keeps `Items` equal to the sum of the address counts. */
  lemma MergePreservesValid(s: Statistic, o: Statistic)
    requires Valid(s) && Valid(o)
    ensures Valid(Merge(s, o))
  {
    MergeCountsSum(s.addresses, o.addresses);
    assert Merge(s, o).addresses == MergeCounts(s.addresses, o.addresses);
  }

  lemma MergeCityAddresses(s: Statistic, o: Statistic, c: Bytes)
    requires HistogramsWellFormed(s) && HistogramsWellFormed(o)
    ensures CityAddresses(Merge(s, o), c) == CityAddresses(s, c) + CityAddresses(o, c)
  {
    var r := Merge(s, o);
    forall x
      ensures x in CityAddresses(r, c) <==> x in CityAddresses(s, c) + CityAddresses(o, c)
    {
      assert x in r.addresses <==> x in s.addresses || x in o.addresses;
    }
  }

  lemma MergeCityTotal(s: Statistic, o: Statistic, c: Bytes)
    requires HistogramsWellFormed(s) && HistogramsWellFormed(o)
    ensures Total(Hist(Merge(s, o), c)) == Total(Hist(s, c)) + Total(Hist(o, c))
  {
    var r := Merge(s, o);
    assert Hist(r, c) == AddHist(Hist(s, c), Hist(o, c));
    TotalPointwise(Hist(s, c), Hist(o, c), Hist(r, c));
  }

  lemma MergeDisjointCityTotal(s: Statistic, o: Statistic, c: Bytes)
    requires HistogramsWellFormed(s) && HistogramsWellFormed(o)
    requires Total(Hist(s, c)) == |CityAddresses(s, c)|
    requires Total(Hist(o, c)) == |CityAddresses(o, c)|
    requires s.addresses.Keys !! o.addresses.Keys
    ensures Total(Hist(Merge(s, o), c)) == |CityAddresses(Merge(s, o), c)|
  {
    MergeCityTotal(s, o, c);
    MergeCityAddresses(s, o, c);
    assert CityAddresses(s, c) !! CityAddresses(o, c);
  }

  /** When the two address sets are disjoint, `Merge` keeps the histogram
      totals equal to the numbers of distinct addresses. */
  lemma MergeDisjointPreservesHistogramAgrees(s: Statistic, o: Statistic)
    requires HistogramsWellFormed(s) && HistogramsWellFormed(o)
    requires HistogramAgrees(s) && HistogramAgrees(o)
    requires s.addresses.Keys !! o.addresses.Keys
    ensures HistogramAgrees(Merge(s, o))
  {
    forall c ensures Total(Hist(Merge(s, o), c)) == |CityAddresses(Merge(s, o), c)| {
      MergeDisjointCityTotal(s, o, c);
    }
  }

  /** When the address sets overlap, `Merge` counts a shared address twice in
      its city's histogram although the city has one such address. */
  lemma MergeOverlapBreaksHistogramAgrees(h: House)
    requires Complete(h)
    ensures var once := Add(Init(), h);
      && HistogramAgrees(once)
      && !HistogramAgrees(Merge(once, once))
  {
    var once := Add(Init(), h);
    AddPreservesHistogramAgrees(Init(), h);
    var r := Merge(once, once);
    var c := h.city;
    MergeCityTotal(once, once, c);
    MergeCityAddresses(once, once, c);
    assert CityAddresses(once, c) == {AddressOf(h)};
  }

  /** The first record of an address decides its floor bucket: a later record
      of the same address with another floor only raises the count. */
  lemma FirstFloorWins(s: Statistic, h1: House, h2: House)
    requires HistogramsWellFormed(s)
    requires Complete(h1) && Complete(h2) && AddressOf(h1) == AddressOf(h2)
    requires AddressOf(h1) !in s.addresses
    ensures var r := Add(Add(s, h1), h2);
      && Count(r, AddressOf(h1)) == 2
      && r.items == s.items + 2
      && (forall i :: 0 <= i < Buckets ==>
            Hist(r, h1.city)[i] == Hist(s, h1.city)[i] + (if i == Bucket(h1.floor) then 1 else 0))
  {
  }

  /** The consumer loop keeps both invariants. */
  lemma {:induction false} AddAllPreserves(s: Statistic, hs: seq<House>)
    requires Valid(s) && HistogramAgrees(s)
    ensures Valid(AddAll(s, hs)) && HistogramAgrees(AddAll(s, hs))
    decreases |hs|
  {
    if hs != [] {
      AddPreservesValid(s, hs[0]);
      AddPreservesHistogramAgrees(s, hs[0]);
      AddAllPreserves(Add(s, hs[0]), hs[1..]);
    }
  }

  /** The complete records of `a` among `hs`. */
  function Occurrences(hs: seq<House>, a: Address): nat {
    if hs == [] then 0
    else (if Complete(hs[0]) && AddressOf(hs[0]) == a then 1 else 0) + Occurrences(hs[1..], a)
  }

  /** The complete records of `hs` whose address is neither in `seen` nor on
      an earlier complete record: those whose floor `add` credits. */
  function FirstSightings(seen: set<Address>, hs: seq<House>): seq<House>
    decreases |hs|
  {
    if hs == [] then []
    else if Complete(hs[0]) && AddressOf(hs[0]) !in seen then
      [hs[0]] + FirstSightings(seen + {AddressOf(hs[0])}, hs[1..])
    else FirstSightings(seen, hs[1..])
  }

  /** The complete records of `hs` in `city` whose floor falls in bucket `i`. */
  function Tally(hs: seq<House>, city: Bytes, i: nat): nat {
    if hs == [] then 0
    else
      (if Complete(hs[0]) && hs[0].city == city && Bucket(hs[0].floor) == i then 1 else 0)
      + Tally(hs[1..], city, i)
  }

  /** The records from `k` on are the `k`-th, then the rest: so they count. */
  lemma CompleteFrom(hs: seq<House>, k: nat)
    requires k < |hs|
    ensures CountComplete(hs[k..]) == (if Complete(hs[k]) then 1 else 0) + CountComplete(hs[k + 1..])
  {
    assert hs[k..][0] == hs[k] && hs[k..][1..] == hs[k + 1..];
  }

  lemma OccurrencesFrom(hs: seq<House>, k: nat, a: Address)
    requires k < |hs|
    ensures Occurrences(hs[k..], a)
         == (if Complete(hs[k]) && AddressOf(hs[k]) == a then 1 else 0) + Occurrences(hs[k + 1..], a)
  {
    assert hs[k..][0] == hs[k] && hs[k..][1..] == hs[k + 1..];
  }

  lemma SightingsFrom(hs: seq<House>, k: nat, seen: set<Address>)
    requires k < |hs|
    ensures FirstSightings(seen, hs[k..])
         == if Complete(hs[k]) && AddressOf(hs[k]) !in seen
            then [hs[k]] + FirstSightings(seen + {AddressOf(hs[k])}, hs[k + 1..])
            else FirstSightings(seen, hs[k + 1..])
  {
    assert hs[k..][0] == hs[k] && hs[k..][1..] == hs[k + 1..];
  }

  lemma TallyFrom(hs: seq<House>, k: nat, city: Bytes, i: nat)
    requires k < |hs|
    ensures Tally(hs[k..], city, i)
         == (if Complete(hs[k]) && hs[k].city == city && Bucket(hs[k].floor) == i then 1 else 0)
            + Tally(hs[k + 1..], city, i)
  {
    assert hs[k..][0] == hs[k] && hs[k..][1..] == hs[k + 1..];
  }

  /** The consumer loop counts every complete record of an address, and an
      address is known exactly when it was known before or occurs. */
  lemma {:induction false} AddAllCounts(s: Statistic, hs: seq<House>, a: Address)
    requires HistogramsWellFormed(s)
    ensures Count(AddAll(s, hs), a) == Count(s, a) + Occurrences(hs, a)
    ensures a in AddAll(s, hs).addresses <==> a in s.addresses || Occurrences(hs, a) > 0
    decreases |hs|
  {
    if hs != [] {
      var h := hs[0];
      var s1 := Add(s, h);
      assert a in s1.addresses <==> a in s.addresses || (Complete(h) && AddressOf(h) == a);
      assert Count(s1, a) == Count(s, a) + (if Complete(h) && AddressOf(h) == a then 1 else 0);
      AddAllCounts(s1, hs[1..], a);
    }
  }

  /** The consumer loop credits bucket `i` of a city once per first sighting
      of an address of that city whose floor falls in it. */
  lemma {:induction false} AddAllFloors(s: Statistic, hs: seq<House>, c: Bytes, i: nat)
    requires HistogramsWellFormed(s) && i < Buckets
    ensures |Hist(AddAll(s, hs), c)| == Buckets
    ensures Hist(AddAll(s, hs), c)[i]
         == Hist(s, c)[i] + Tally(FirstSightings(s.addresses.Keys, hs), c, i)
    decreases |hs|
  {
    if hs == [] {
      assert |Hist(s, c)| == Buckets;
    } else {
      var h := hs[0];
      var s1 := Add(s, h);
      var rest := FirstSightings(s1.addresses.Keys, hs[1..]);
      AddAllFloors(s1, hs[1..], c, i);
      if Complete(h) && AddressOf(h) !in s.addresses {
        assert s1.addresses.Keys == s.addresses.Keys + {AddressOf(h)};
        assert FirstSightings(s.addresses.Keys, hs) == [h] + rest;
        assert ([h] + rest)[1..] == rest;
        assert Hist(s1, c)[i] == Hist(s, c)[i] + (if c == h.city && Bucket(h.floor) == i then 1 else 0);
      } else {
        assert s1.addresses.Keys == s.addresses.Keys;
        assert Hist(s1, c) == Hist(s, c);
      }
    }
  }

  /** The cities of `hs`. */
  function Cities(hs: seq<House>): set<Bytes> {
    set h | h in hs :: h.city
  }

  /** The consumer loop gives a city a histogram exactly when it had one or
      one of its addresses is sighted for the first time. */
  lemma {:induction false} AddAllCities(s: Statistic, hs: seq<House>, c: Bytes)
    requires HistogramsWellFormed(s)
    ensures c in AddAll(s, hs).floors <==> c in s.floors || c in Cities(FirstSightings(s.addresses.Keys, hs))
    decreases |hs|
  {
    if hs != [] {
      var h := hs[0];
      var s1 := Add(s, h);
      var rest := FirstSightings(s1.addresses.Keys, hs[1..]);
      AddAllCities(s1, hs[1..], c);
      if Complete(h) && AddressOf(h) !in s.addresses {
        assert s1.addresses.Keys == s.addresses.Keys + {AddressOf(h)};
        assert FirstSightings(s.addresses.Keys, hs) == [h] + rest;
        assert Cities([h] + rest) == {h.city} + Cities(rest) by {
          assert forall x :: x in [h] + rest <==> x == h || x in rest;
        }
      } else {
        assert s1.addresses.Keys == s.addresses.Keys;
        assert s1.floors == s.floors;
      }
    }
  }
}
