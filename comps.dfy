/** The comparable-properties pipeline of app.js (buildComps): one synthetic
    record per raw point, seeded by its index and the asset type, then three
    filters, a stable sort by distance and a cut to the first 40. */
module Comps {
  import opened JsNumbers
  import opened Seed
  import opened ArrayOps
  import opened Assets

  /** The analysed location; its display label plays no part here. */
  datatype Subject = Subject(lat: real, lng: real)

  /** A raw point of the heat-map dataset. */
  datatype Point = Point(lat: real, lng: real)

  /** The caller's constraints, as Number() read them from the form. */
  datatype Filters = Filters(minClearHeight: real, yearBuiltMin: real, yearBuiltMax: real)

  datatype Comp = Comp(
    id: nat,
    name: string,
    lat: real,
    lng: real,
    assetType: AssetType,
    distance: real,
    sf: int,
    clearHeight: int,
    yearBuilt: int,
    askRent: real)

  function Distance(c: Comp): real {
    c.distance
  }

  function Id(c: Comp): int {
    c.id
  }

  /** The seed of the record at index idx: hashCode(`${idx}|${assetType}`). */
  function CompSeed(idx: nat, t: AssetType): (seed: int)
    ensures 0 <= seed <= TwoTo31
  {
    HashCodeOf(NatToString(idx) + "|" + Name(t))
  }

  lemma RentFactorBounds(rentBase: real, s: real)
    requires rentBase > 0.0 && 0.0 <= s < 1.0
    ensures 0.75 * rentBase <= rentBase * (0.75 + s * 0.5) <= 1.25 * rentBase
  {
    assert rentBase * (0.75 + s * 0.5) == 0.75 * rentBase + 0.5 * (rentBase * s);
    assert 0.0 <= rentBase * s <= rentBase;
  }

  /** The synthetic record for raw point p at index idx. */
  function MakeComp(num: Numerics, subject: Subject, t: AssetType, idx: nat, p: Point): (c: Comp)
    ensures c.id == idx
  {
    var distance := num.haversineMiles(subject.lat, subject.lng, p.lat, p.lng);
    var seed := CompSeed(idx, t);
    var sf := Round(15000.0 + num.seeded(seed) * 110000.0);
    var clearHeight := Round(12.0 + num.seeded(seed + 99) * 30.0);
    var yearBuilt := 1970 + Round(num.seeded(seed + 199) * 55.0);
    var askRent := FixedValue(ProfileOf(t).rentBase * (0.75 + num.seeded(seed + 299) * 0.5), 2);
    Comp(idx, Name(t) + " Comp " + NatToString(idx + 1), p.lat, p.lng, t,
         distance, sf, clearHeight, yearBuilt, askRent)
  }

  /** A record's identity and position come from idx and p, its distance
      from the subject, and its size, clear height, year and rent from four
      streams of one seed, so they fall in fixed ranges whatever seeded
      returns. */
  lemma MakeCompFields(num: Numerics, subject: Subject, t: AssetType, idx: nat, p: Point)
    ensures var c := MakeComp(num, subject, t, idx, p);
      && c.name == Name(t) + " Comp " + NatToString(idx + 1)
      && c.lat == p.lat && c.lng == p.lng && c.assetType == t
      && c.distance == num.haversineMiles(subject.lat, subject.lng, p.lat, p.lng)
      && 15000 <= c.sf <= 125000
      && 12 <= c.clearHeight <= 42
      && 1970 <= c.yearBuilt <= 2025
      && 0.75 * ProfileOf(t).rentBase - 0.005 <= c.askRent <= 1.25 * ProfileOf(t).rentBase + 0.005
  {
    var seed := CompSeed(idx, t);
    var rent := ProfileOf(t).rentBase * (0.75 + num.seeded(seed + 299) * 0.5);
    RentFactorBounds(ProfileOf(t).rentBase, num.seeded(seed + 299));
    FixedValueClose(rent, 2);
    assert Pow10(2) == 100;
  }

  /** Everything but the distance is fixed by the index and the asset type:
      the same index gets the same synthetic building wherever the subject
      and the point are. */
  lemma GeneratedFieldsIgnoreLocation(num: Numerics, s1: Subject, s2: Subject, t: AssetType, idx: nat, p1: Point, p2: Point)
    ensures var c1, c2 := MakeComp(num, s1, t, idx, p1), MakeComp(num, s2, t, idx, p2);
      c1.id == c2.id && c1.name == c2.name && c1.sf == c2.sf && c1.clearHeight == c2.clearHeight
      && c1.yearBuilt == c2.yearBuilt && c1.askRent == c2.askRent
  {
  }

  /** The first filter of buildComps: within 5 miles and within the size band. */
  predicate NearAndSized(c: Comp, minSf: real, maxSf: real) {
    c.distance <= 5.0 && c.sf as real >= minSf && c.sf as real <= maxSf
  }

  /** The second filter: at least the minimum clear height. */
  predicate TallEnough(c: Comp, filters: Filters) {
    c.clearHeight as real >= filters.minClearHeight
  }

  /** The third filter: built within the year range. */
  predicate BuiltInRange(c: Comp, filters: Filters) {
    c.yearBuilt as real >= filters.yearBuiltMin && c.yearBuilt as real <= filters.yearBuiltMax
  }

  /** The three filters of buildComps, taken together, written out. */
  predicate Passes(c: Comp, subjectSF: real, filters: Filters) {
    && c.distance <= 5.0
    && subjectSF * 0.5 <= c.sf as real <= subjectSF * 1.5
    && c.clearHeight as real >= filters.minClearHeight
    && filters.yearBuiltMin <= c.yearBuilt as real <= filters.yearBuiltMax
  }

  /** rawPoints.map(...): one record per raw point, in order. */
  function Generate(num: Numerics, subject: Subject, t: AssetType, raw: seq<Point>): (r: seq<Comp>)
    ensures |r| == |raw|
    ensures forall i :: 0 <= i < |r| ==> r[i] == MakeComp(num, subject, t, i, raw[i])
  {
    seq(|raw|, i requires 0 <= i < |raw| => MakeComp(num, subject, t, i, raw[i]))
  }

  /** The mapped records after the three filter calls: those that pass, in
      index order. */
  function Candidates(num: Numerics, subject: Subject, t: AssetType, subjectSF: real, filters: Filters, raw: seq<Point>): (r: seq<Comp>)
    ensures IncreasingBy(r, Id)
    ensures forall i :: 0 <= i < |r| ==>
      r[i].id < |raw| && r[i] == MakeComp(num, subject, t, r[i].id, raw[r[i].id]) && Passes(r[i], subjectSF, filters)
    ensures forall idx :: 0 <= idx < |raw| && Passes(MakeComp(num, subject, t, idx, raw[idx]), subjectSF, filters) ==>
      MakeComp(num, subject, t, idx, raw[idx]) in r
  {
    var minSf := subjectSF * 0.5;
    var maxSf := subjectSF * 1.5;
    var mapped := Generate(num, subject, t, raw);
    var near := Filter(mapped, (c: Comp) => NearAndSized(c, minSf, maxSf));
    var tall := Filter(near, (c: Comp) => TallEnough(c, filters));
    var dated := Filter(tall, (c: Comp) => BuiltInRange(c, filters));
    CandidatesFacts(num, subject, t, subjectSF, filters, raw, minSf, maxSf, mapped, near, tall, dated);
    dated
  }

  lemma CandidatesFacts(num: Numerics, subject: Subject, t: AssetType, subjectSF: real, filters: Filters, raw: seq<Point>,
                        minSf: real, maxSf: real, mapped: seq<Comp>, near: seq<Comp>, tall: seq<Comp>, dated: seq<Comp>)
    requires minSf == subjectSF * 0.5 && maxSf == subjectSF * 1.5
    requires mapped == Generate(num, subject, t, raw)
    requires near == Filter(mapped, (c: Comp) => NearAndSized(c, minSf, maxSf))
    requires tall == Filter(near, (c: Comp) => TallEnough(c, filters))
    requires dated == Filter(tall, (c: Comp) => BuiltInRange(c, filters))
    ensures IncreasingBy(dated, Id)
    ensures forall i :: 0 <= i < |dated| ==>
      dated[i].id < |raw| && dated[i] == MakeComp(num, subject, t, dated[i].id, raw[dated[i].id]) && Passes(dated[i], subjectSF, filters)
    ensures forall idx :: 0 <= idx < |raw| && Passes(MakeComp(num, subject, t, idx, raw[idx]), subjectSF, filters) ==>
      MakeComp(num, subject, t, idx, raw[idx]) in dated
  {
    FilterOfIndexed(mapped, (c: Comp) => NearAndSized(c, minSf, maxSf), Id);
    CandidatesOrdered(mapped, near, tall, dated, minSf, maxSf, filters);
    forall i | 0 <= i < |dated|
      ensures dated[i].id < |raw| && dated[i] == MakeComp(num, subject, t, dated[i].id, raw[dated[i].id])
      ensures Passes(dated[i], subjectSF, filters)
    {
      CandidateSound(num, subject, t, subjectSF, filters, raw, minSf, maxSf, mapped, near, tall, dated, dated[i]);
    }
    forall idx | 0 <= idx < |raw| && Passes(MakeComp(num, subject, t, idx, raw[idx]), subjectSF, filters)
      ensures MakeComp(num, subject, t, idx, raw[idx]) in dated
    {
      CandidateComplete(num, subject, t, subjectSF, filters, raw, minSf, maxSf, mapped, near, tall, dated, idx);
    }
  }

  /** Filtering the index-ordered records keeps them in index order. */
  lemma CandidatesOrdered(mapped: seq<Comp>, near: seq<Comp>, tall: seq<Comp>, dated: seq<Comp>, minSf: real, maxSf: real, filters: Filters)
    requires IncreasingBy(mapped, Id)
    requires near == Filter(mapped, (c: Comp) => NearAndSized(c, minSf, maxSf))
    requires tall == Filter(near, (c: Comp) => TallEnough(c, filters))
    requires dated == Filter(tall, (c: Comp) => BuiltInRange(c, filters))
    ensures IncreasingBy(dated, Id)
  {
    FilterKeepsOrder(mapped, (c: Comp) => NearAndSized(c, minSf, maxSf), Id);
    FilterKeepsOrder(near, (c: Comp) => TallEnough(c, filters), Id);
    FilterKeepsOrder(tall, (c: Comp) => BuiltInRange(c, filters), Id);
  }

  /** A record that survives the three filters passes them all and is the
      record generated for its index. */
  lemma CandidateSound(num: Numerics, subject: Subject, t: AssetType, subjectSF: real, filters: Filters, raw: seq<Point>,
                       minSf: real, maxSf: real, mapped: seq<Comp>, near: seq<Comp>, tall: seq<Comp>, dated: seq<Comp>, c: Comp)
    requires minSf == subjectSF * 0.5 && maxSf == subjectSF * 1.5
    requires |mapped| == |raw| && forall i :: 0 <= i < |mapped| ==> mapped[i] == MakeComp(num, subject, t, i, raw[i])
    requires forall x :: x in Filter(mapped, (c: Comp) => NearAndSized(c, minSf, maxSf)) ==> 0 <= Id(x) < |mapped| && mapped[Id(x)] == x
    requires near == Filter(mapped, (c: Comp) => NearAndSized(c, minSf, maxSf))
    requires tall == Filter(near, (c: Comp) => TallEnough(c, filters))
    requires dated == Filter(tall, (c: Comp) => BuiltInRange(c, filters))
    requires c in dated
    ensures c.id < |raw| && c == MakeComp(num, subject, t, c.id, raw[c.id]) && Passes(c, subjectSF, filters)
  {
    assert c in tall && BuiltInRange(c, filters);
    assert c in near && TallEnough(c, filters);
    assert NearAndSized(c, minSf, maxSf);
    assert mapped[c.id] == c;
  }

  /** A generated record that passes the three filters survives them. */
  lemma CandidateComplete(num: Numerics, subject: Subject, t: AssetType, subjectSF: real, filters: Filters, raw: seq<Point>,
                          minSf: real, maxSf: real, mapped: seq<Comp>, near: seq<Comp>, tall: seq<Comp>, dated: seq<Comp>, idx: nat)
    requires minSf == subjectSF * 0.5 && maxSf == subjectSF * 1.5
    requires |mapped| == |raw| && forall i :: 0 <= i < |mapped| ==> mapped[i] == MakeComp(num, subject, t, i, raw[i])
    requires near == Filter(mapped, (c: Comp) => NearAndSized(c, minSf, maxSf))
    requires tall == Filter(near, (c: Comp) => TallEnough(c, filters))
    requires dated == Filter(tall, (c: Comp) => BuiltInRange(c, filters))
    requires idx < |raw| && Passes(MakeComp(num, subject, t, idx, raw[idx]), subjectSF, filters)
    ensures MakeComp(num, subject, t, idx, raw[idx]) in dated
  {
    var c := MakeComp(num, subject, t, idx, raw[idx]);
    assert mapped[idx] == c;
    assert c in near;
    assert c in tall;
  }

  /** buildComps: the passing records nearest the subject first, at most 40.
      Every record returned passes all filters and is the record generated
      for its own index; the list is ordered by distance, and records at the
      same distance keep their index order (the sort is stable); a passing
      record is left out only when 40 records that come before it fill the
      list. */
  function BuildComps(num: Numerics, subject: Subject, t: AssetType, subjectSF: real, filters: Filters, raw: seq<Point>): (r: seq<Comp>)
    ensures |r| <= 40
    ensures forall i :: 0 <= i < |r| ==>
      r[i].id < |raw| && r[i] == MakeComp(num, subject, t, r[i].id, raw[r[i].id]) && Passes(r[i], subjectSF, filters)
    ensures forall i, j :: 0 <= i < j < |r| ==>
      r[i].distance < r[j].distance || (r[i].distance == r[j].distance && r[i].id < r[j].id)
    ensures forall idx :: 0 <= idx < |raw| ==>
      var c := MakeComp(num, subject, t, idx, raw[idx]);
      Passes(c, subjectSF, filters) && c !in r ==>
        |r| == 40 && forall d :: d in r ==> d.distance < c.distance || (d.distance == c.distance && d.id < c.id)
  {
    var candidates := Candidates(num, subject, t, subjectSF, filters, raw);
    var sorted := SortBy(candidates, Distance);
    var r := Take(sorted, 40);
    BuildCompsFacts(num, subject, t, subjectSF, filters, raw, candidates, sorted, r);
    r
  }

  lemma BuildCompsFacts(num: Numerics, subject: Subject, t: AssetType, subjectSF: real, filters: Filters, raw: seq<Point>,
                        candidates: seq<Comp>, sorted: seq<Comp>, r: seq<Comp>)
    requires candidates == Candidates(num, subject, t, subjectSF, filters, raw)
    requires sorted == SortBy(candidates, Distance) && r == Take(sorted, 40)
    ensures forall i :: 0 <= i < |r| ==>
      r[i].id < |raw| && r[i] == MakeComp(num, subject, t, r[i].id, raw[r[i].id]) && Passes(r[i], subjectSF, filters)
    ensures forall i, j :: 0 <= i < j < |r| ==>
      r[i].distance < r[j].distance || (r[i].distance == r[j].distance && r[i].id < r[j].id)
    ensures forall idx :: 0 <= idx < |raw| ==>
      var c := MakeComp(num, subject, t, idx, raw[idx]);
      Passes(c, subjectSF, filters) && c !in r ==>
        |r| == 40 && forall d :: d in r ==> d.distance < c.distance || (d.distance == c.distance && d.id < c.id)
  {
    TakeSound(num, subject, t, subjectSF, filters, raw, candidates, sorted, r);
    SortByThenBy(candidates, Distance, Id);
    TakeOrdered(candidates, sorted, r);
    TakeComplete(num, subject, t, subjectSF, filters, raw, candidates, sorted, r);
  }

  lemma TakeSound(num: Numerics, subject: Subject, t: AssetType, subjectSF: real, filters: Filters, raw: seq<Point>,
                  candidates: seq<Comp>, sorted: seq<Comp>, r: seq<Comp>)
    requires candidates == Candidates(num, subject, t, subjectSF, filters, raw)
    requires sorted == SortBy(candidates, Distance) && r == Take(sorted, 40)
    ensures forall i :: 0 <= i < |r| ==>
      r[i].id < |raw| && r[i] == MakeComp(num, subject, t, r[i].id, raw[r[i].id]) && Passes(r[i], subjectSF, filters)
  {
    forall i | 0 <= i < |r|
      ensures r[i].id < |raw| && r[i] == MakeComp(num, subject, t, r[i].id, raw[r[i].id]) && Passes(r[i], subjectSF, filters)
    {
      assert r[i] == sorted[i];
      assert sorted[i] in multiset(candidates);
      var k :| 0 <= k < |candidates| && candidates[k] == r[i];
    }
  }

  lemma TakeOrdered(candidates: seq<Comp>, sorted: seq<Comp>, r: seq<Comp>)
    requires sorted == SortBy(candidates, Distance) && r == Take(sorted, 40)
    requires SortedThenBy(sorted, Distance, Id)
    ensures forall i, j :: 0 <= i < j < |r| ==>
      r[i].distance < r[j].distance || (r[i].distance == r[j].distance && r[i].id < r[j].id)
  {
    forall i, j | 0 <= i < j < |r|
      ensures r[i].distance < r[j].distance || (r[i].distance == r[j].distance && r[i].id < r[j].id)
    {
      assert r[i] == sorted[i] && r[j] == sorted[j];
      assert Distance(sorted[i]) < Distance(sorted[j]) || (Distance(sorted[i]) == Distance(sorted[j]) && Id(sorted[i]) < Id(sorted[j]));
    }
  }

  lemma TakeComplete(num: Numerics, subject: Subject, t: AssetType, subjectSF: real, filters: Filters, raw: seq<Point>,
                     candidates: seq<Comp>, sorted: seq<Comp>, r: seq<Comp>)
    requires candidates == Candidates(num, subject, t, subjectSF, filters, raw)
    requires sorted == SortBy(candidates, Distance) && r == Take(sorted, 40)
    requires SortedThenBy(sorted, Distance, Id)
    ensures forall idx :: 0 <= idx < |raw| ==>
      var c := MakeComp(num, subject, t, idx, raw[idx]);
      Passes(c, subjectSF, filters) && c !in r ==>
        |r| == 40 && forall d :: d in r ==> d.distance < c.distance || (d.distance == c.distance && d.id < c.id)
  {
    forall idx | 0 <= idx < |raw|
      ensures var c := MakeComp(num, subject, t, idx, raw[idx]);
        Passes(c, subjectSF, filters) && c !in r ==>
          |r| == 40 && forall d :: d in r ==> d.distance < c.distance || (d.distance == c.distance && d.id < c.id)
    {
      var c := MakeComp(num, subject, t, idx, raw[idx]);
      if Passes(c, subjectSF, filters) && c !in r {
        assert c in multiset(candidates);
        assert c in multiset(sorted);
        TakeOfSortedThenByOmits(sorted, Distance, Id, 40, c);
        forall d | d in r ensures d.distance < c.distance || (d.distance == c.distance && d.id < c.id) {
          assert Distance(d) < Distance(c) || (Distance(d) == Distance(c) && Id(d) < Id(c));
        }
      }
    }
  }

  /** Ids in the result are distinct: no point is reported twice. */
  lemma BuildCompsDistinct(num: Numerics, subject: Subject, t: AssetType, subjectSF: real, filters: Filters, raw: seq<Point>)
    ensures var r := BuildComps(num, subject, t, subjectSF, filters, raw);
      forall i, j :: 0 <= i < j < |r| ==> r[i].id != r[j].id
  {
  }

  /** No raw points, or none that pass, give an empty list, not an error. */
  lemma BuildCompsEmpty(num: Numerics, subject: Subject, t: AssetType, subjectSF: real, filters: Filters, raw: seq<Point>)
    requires forall idx :: 0 <= idx < |raw| ==> !Passes(MakeComp(num, subject, t, idx, raw[idx]), subjectSF, filters)
    ensures BuildComps(num, subject, t, subjectSF, filters, raw) == []
  {
  }
}
