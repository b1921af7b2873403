/** The route ranking of app.js: normalizeRouteName, and the block of
    fetchNearbyRoutes that turns the Overpass elements into the nearest
    distinct routes, through a Map keyed by route label. */
module Routes {
  import opened Seed
  import opened JsStrings
  import opened ArrayOps
  import opened Comps
  import opened Wrappers

  /** The OSM tags an element may carry; each is absent or a string. */
  datatype Tags = Tags(refTag: Option<string>, name: Option<string>, highway: Option<string>)

  /** The `out center` position of a way. */
  datatype Center = Center(lat: real, lon: real)

  /** An Overpass element: its tags and its center, each possibly missing. */
  datatype Element = Element(tags: Option<Tags>, center: Option<Center>)

  /** A ranked route: {name, distance}. */
  datatype Route = Route(name: string, distance: real)

  function RouteDistance(r: Route): real {
    r.distance
  }

  function RouteName(r: Route): string {
    r.name
  }

  const UnnamedRoute: string := "Unnamed route"

  /** A JavaScript string is truthy when it is not empty. */
  predicate Truthy(o: Option<string>) {
    o.Some? && o.value != []
  }

  /** `tags.x ? tags.x.trim() : ''`. */
  function TrimmedTag(o: Option<string>): (r: string)
    ensures IsClean(r)
    ensures o.None? ==> r == []
  {
    if Truthy(o) then Trim(o.value) else []
  }

  /** normalizeRouteName: "ref (name)" when both trimmed tags are non-empty,
      otherwise whichever is non-empty, otherwise "Unnamed route". The label
      is never empty and never starts or ends with white space. */
  function NormalizeRouteName(tags: Tags): (routeLabel: string)
    ensures var refText, nameText := TrimmedTag(tags.refTag), TrimmedTag(tags.name);
      && (refText != [] && nameText != [] ==> routeLabel == refText + " (" + nameText + ")")
      && (refText != [] && nameText == [] ==> routeLabel == refText)
      && (refText == [] && nameText != [] ==> routeLabel == nameText)
      && (refText == [] && nameText == [] ==> routeLabel == UnnamedRoute)
    ensures routeLabel != [] && IsClean(routeLabel)
  {
    var refText := TrimmedTag(tags.refTag);
    var nameText := TrimmedTag(tags.name);
    if refText != [] && nameText != [] then
      CombinedIsClean(refText, nameText);
      refText + " (" + nameText + ")"
    else if refText != [] then refText
    else if nameText != [] then nameText
    else UnnamedRoute
  }

  lemma CombinedIsClean(refText: string, nameText: string)
    requires refText != [] && IsClean(refText)
    ensures IsClean(refText + " (" + nameText + ")")
  {
    var combined := refText + " (" + nameText + ")";
    assert combined[0] == refText[0];
    assert combined[|combined| - 1] == ')';
  }

  /** The label is "Unnamed route" exactly when both tags trim to nothing, or
      when the one present tag reads "Unnamed route" itself: a combined
      "ref (name)" routeLabel can never be it, as it holds a parenthesis. */
  lemma UnnamedExactly(tags: Tags)
    ensures var refText, nameText := TrimmedTag(tags.refTag), TrimmedTag(tags.name);
      NormalizeRouteName(tags) == UnnamedRoute <==>
        (refText == [] && (nameText == [] || nameText == UnnamedRoute)) || (nameText == [] && refText == UnnamedRoute)
  {
    var refText, nameText := TrimmedTag(tags.refTag), TrimmedTag(tags.name);
    if refText != [] && nameText != [] {
      CombinedIsNotUnnamed(refText, nameText);
    }
  }

  lemma CombinedIsNotUnnamed(refText: string, nameText: string)
    ensures refText + " (" + nameText + ")" != UnnamedRoute
  {
    var combined := refText + " (" + nameText + ")";
    assert combined[|refText| + 1] == '(';
    assert '(' !in UnnamedRoute;
  }

  /** `el.tags || {}`. */
  function TagsOf(el: Element): Tags {
    if el.tags.Some? then el.tags.value else Tags(None, None, None)
  }

  /** What the forEach callback would store for one element, if anything:
      nothing for an element without a center or a highway tag, or whose
      routeLabel is "Unnamed route"; otherwise its routeLabel and its distance from
      the subject. */
  function Sighting(num: Numerics, subject: Subject, el: Element): (r: Option<Route>)
    ensures r.Some? <==>
      el.center.Some? && Truthy(TagsOf(el).highway) && NormalizeRouteName(TagsOf(el)) != UnnamedRoute
    ensures r.Some? ==> (r.value.name == NormalizeRouteName(TagsOf(el))
      && r.value.distance == num.haversineMiles(subject.lat, subject.lng, el.center.value.lat, el.center.value.lon))
  {
    var tags := TagsOf(el);
    if el.center.None? || !Truthy(tags.highway) then None
    else
      var routeLabel := NormalizeRouteName(tags);
      if routeLabel == UnnamedRoute then None
      else Some(Route(routeLabel, num.haversineMiles(subject.lat, subject.lng, el.center.value.lat, el.center.value.lon)))
  }

  function AsList<R>(o: Option<R>): seq<R> {
    if o.Some? then [o.value] else []
  }

  /** The values f yields on els, in order, skipping the elements it passes
      over. */
  function Collect<E, R>(els: seq<E>, f: E -> Option<R>): seq<R> {
    if els == [] then [] else Collect(els[..|els| - 1], f) + AsList(f(els[|els| - 1]))
  }

  lemma CollectStep<E, R>(els: seq<E>, f: E -> Option<R>, i: nat)
    requires i < |els|
    ensures Collect(els[..i + 1], f) == Collect(els[..i], f) + AsList(f(els[i]))
  {
    assert els[..i + 1][..i] == els[..i];
  }

  /** Each collected value is what f yields on some element. */
  lemma {:induction false} CollectedFrom<E, R>(els: seq<E>, f: E -> Option<R>, r: R)
    requires r in Collect(els, f)
    ensures exists i :: 0 <= i < |els| && f(els[i]) == Some(r)
  {
    var n := |els| - 1;
    if r in Collect(els[..n], f) {
      CollectedFrom(els[..n], f, r);
      var i :| 0 <= i < n && f(els[..n][i]) == Some(r);
      assert els[..n][i] == els[i];
    } else {
      assert f(els[n]) == Some(r);
    }
  }

  /** Every value f yields on an element is collected. */
  lemma {:induction false} CollectHas<E, R>(els: seq<E>, f: E -> Option<R>, i: nat)
    requires i < |els| && f(els[i]).Some?
    ensures f(els[i]).value in Collect(els, f)
  {
    var n := |els| - 1;
    if i < n {
      assert els[..n][i] == els[i];
      CollectHas(els[..n], f, i);
    }
  }

  /** The sightings of the qualifying elements, in element order. */
  function Sightings(num: Numerics, subject: Subject, els: seq<Element>): seq<Route> {
    Collect(els, (el: Element) => Sighting(num, subject, el))
  }

  /** The distinct labels of rs in the order they first appear: the key order
      of a Map that rs is set into one by one. */
  function Labels(rs: seq<Route>): seq<string> {
    if rs == [] then []
    else
      var init := Labels(rs[..|rs| - 1]);
      var k := rs[|rs| - 1].name;
      if k in init then init else init + [k]
  }

  /** The least distance among the sightings labelled k, if there is one:
      a later sighting replaces the stored one only when it is strictly
      nearer. */
  function Nearest(rs: seq<Route>, k: string): Option<real> {
    if rs == [] then None
    else
      var best := Nearest(rs[..|rs| - 1], k);
      var r := rs[|rs| - 1];
      if r.name != k then best
      else if best.None? || r.distance < best.value then Some(r.distance)
      else best
  }

  /** Setting one more route into the map: its label is added last if it
      is new, and its distance replaces the stored one only when strictly
      nearer. */
  lemma AppendSighting(rs: seq<Route>, r: Route)
    ensures Labels(rs + [r]) == if r.name in Labels(rs) then Labels(rs) else Labels(rs) + [r.name]
    ensures forall k ::
      Nearest(rs + [r], k) == (
        if r.name != k then Nearest(rs, k)
        else if Nearest(rs, k).None? || r.distance < Nearest(rs, k).value then Some(r.distance)
        else Nearest(rs, k))
  {
    assert (rs + [r])[..|rs|] == rs;
  }

  /** A label is in the key order exactly when some sighting carries it. */
  lemma {:induction false} LabelsAreSighted(rs: seq<Route>)
    ensures forall k :: k in Labels(rs) <==> Nearest(rs, k).Some?
    ensures forall r :: r in rs ==> r.name in Labels(rs)
  {
    if rs != [] {
      var init := rs[..|rs| - 1];
      var last := rs[|rs| - 1];
      LabelsAreSighted(init);
      assert rs == init + [last];
      AppendSighting(init, last);
      forall r | r in rs ensures r.name in Labels(rs) {
        assert r in init || r == last;
      }
    }
  }

  lemma {:induction false} LabelsDistinct(rs: seq<Route>)
    ensures forall i, j :: 0 <= i < j < |Labels(rs)| ==> Labels(rs)[i] != Labels(rs)[j]
  {
    if rs != [] {
      LabelsDistinct(rs[..|rs| - 1]);
    }
  }

  /** The stored distance of label k is the least of its sightings: it is
      the distance of one of them and no sighting of k is nearer. */
  lemma {:induction false} NearestIsLeast(rs: seq<Route>, k: string)
    ensures Nearest(rs, k).Some? ==>
      && Route(k, Nearest(rs, k).value) in rs
      && forall r :: r in rs && r.name == k ==> Nearest(rs, k).value <= r.distance
  {
    if rs != [] {
      var init := rs[..|rs| - 1];
      var last := rs[|rs| - 1];
      NearestIsLeast(init, k);
      LabelsAreSighted(init);
      assert rs == init + [last];
      var best := Nearest(init, k);
      forall r | r in rs && r.name == k && Nearest(rs, k).Some?
        ensures Nearest(rs, k).value <= r.distance
      {
        if r in init {
          assert best.Some? by {
            assert k in Labels(init);
          }
        } else {
          assert r == last;
        }
      }
    }
  }

  /** Array.from(deduped.values()) as a function of the sightings. */
  function Deduped(rs: seq<Route>): (d: seq<Route>)
    ensures |d| == |Labels(rs)|
    ensures forall j :: 0 <= j < |d| ==> d[j].name == Labels(rs)[j]
    ensures forall j :: 0 <= j < |d| ==> Nearest(rs, d[j].name) == Some(d[j].distance)
  {
    var labels := Labels(rs);
    LabelsAreSighted(rs);
    seq(|labels|, j requires 0 <= j < |labels| => Route(labels[j], Nearest(rs, labels[j]).value))
  }

  /** The ranking as a function of the elements: the per-label nearest
      sightings, sorted by distance (stably, so first-seen order breaks
      ties), the first 8. */
  function Ranked(num: Numerics, subject: Subject, els: seq<Element>): seq<Route> {
    Take(SortBy(Deduped(Sightings(num, subject, els)), RouteDistance), 8)
  }

  /** `Array.isArray(data.elements) ? data.elements : []`. */
  function ElementsOf(data: Option<seq<Element>>): (els: seq<Element>)
    ensures data.None? ==> els == []
  {
    if data.Some? then data.value else []
  }

  /** A Map from route label to route that remembers the order in which its
      keys were first set. */
  class RouteMap {
    var keys: seq<string>
    var table: map<string, Route>

    ghost predicate Valid()
      reads this
    {
      (forall k :: k in table <==> k in keys)
      && (forall i, j :: 0 <= i < j < |keys| ==> keys[i] != keys[j])
    }

    constructor ()
      ensures Valid() && keys == [] && table == map[]
    {
      keys := [];
      table := map[];
    }

    /** Map.prototype.get. */
    function Get(k: string): (r: Option<Route>)
      reads this
      ensures r.Some? <==> k in table
      ensures r.Some? ==> r.value == table[k]
    {
      if k in table then Some(table[k]) else None
    }

    /** Map.prototype.set: a new key goes last, an existing one keeps its
        place. */
    method Set(k: string, v: Route)
      requires Valid()
      modifies this
      ensures Valid()
      ensures table == old(table)[k := v]
      ensures keys == if k in old(table) then old(keys) else old(keys) + [k]
    {
      if k !in table {
        keys := keys + [k];
      }
      table := table[k := v];
    }

    /** Map.prototype.values, in key order. */
    function Values(): (vs: seq<Route>)
      requires Valid()
      reads this
      ensures |vs| == |keys|
      ensures forall j :: 0 <= j < |vs| ==> vs[j] == table[keys[j]]
    {
      seq(|keys|, j requires 0 <= j < |keys| && keys[j] in table reads this => table[keys[j]])
    }
  }

  /** A map state (its key order and its table) that holds, for the
      sightings rs, the labels in first-seen order and for each label its
      nearest sighting. */
  ghost predicate Tracks(keys: seq<string>, table: map<string, Route>, rs: seq<Route>) {
    && keys == Labels(rs)
    && (forall k :: k in table <==> k in keys)
    && (forall k :: k in table ==> table[k].name == k && Nearest(rs, k) == Some(table[k].distance))
  }

  /** One step of the forEach keeps the map tracking the sightings so far. */
  lemma TracksStep(keys: seq<string>, table: map<string, Route>, rs: seq<Route>, r: Route)
    requires Tracks(keys, table, rs)
    ensures r.name !in table || r.distance < table[r.name].distance ==>
      Tracks(if r.name in table then keys else keys + [r.name], table[r.name := r], rs + [r])
    ensures !(r.name !in table || r.distance < table[r.name].distance) ==> Tracks(keys, table, rs + [r])
  {
    LabelsAreSighted(rs);
    AppendSighting(rs, r);
  }

  lemma TracksValues(keys: seq<string>, table: map<string, Route>, rs: seq<Route>, vs: seq<Route>)
    requires Tracks(keys, table, rs)
    requires |vs| == |keys| && forall j :: 0 <= j < |vs| ==> vs[j] == table[keys[j]]
    ensures vs == Deduped(rs)
  {
  }

  lemma SightingsStep(num: Numerics, subject: Subject, els: seq<Element>, i: nat)
    requires i < |els|
    ensures Sightings(num, subject, els[..i + 1]) == Sightings(num, subject, els[..i]) + AsList(Sighting(num, subject, els[i]))
  {
    CollectStep(els, (el: Element) => Sighting(num, subject, el), i);
  }

  /** The dedup block of fetchNearbyRoutes over the decoded response: the
      forEach sets each qualifying element's route into the map unless the
      map already holds a route of that label at most as far; the result is
      the map's values in key order. */
  method DedupRoutes(num: Numerics, subject: Subject, elements: seq<Element>) returns (values: seq<Route>)
    ensures values == Deduped(Sightings(num, subject, elements))
  {
    var deduped := new RouteMap();
    var i := 0;
    assert Sightings(num, subject, elements[..0]) == [] by {
      assert elements[..0] == [];
    }
    assert Tracks(deduped.keys, deduped.table, Sightings(num, subject, elements[..0]));
    while i < |elements|
      invariant 0 <= i <= |elements|
      invariant deduped.Valid()
      invariant Tracks(deduped.keys, deduped.table, Sightings(num, subject, elements[..i]))
    {
      var el := elements[i];
      var tags := TagsOf(el);
      ghost var seen := Sightings(num, subject, elements[..i]);
      ghost var next := Sightings(num, subject, elements[..i + 1]);
      SightingsStep(num, subject, elements, i);
      if el.center.Some? && Truthy(tags.highway) {
        var routeLabel := NormalizeRouteName(tags);
        if routeLabel != UnnamedRoute {
          var distance := num.haversineMiles(subject.lat, subject.lng, el.center.value.lat, el.center.value.lon);
          var route := Route(routeLabel, distance);
          assert next == seen + [route] by {
            assert AsList(Sighting(num, subject, el)) == [route];
          }
          TracksStep(deduped.keys, deduped.table, seen, route);
          var existing := deduped.Get(routeLabel);
          if existing.None? || distance < existing.value.distance {
            deduped.Set(routeLabel, route);
          }
          assert Tracks(deduped.keys, deduped.table, next);
        } else {
          assert next == seen by {
            assert AsList(Sighting(num, subject, el)) == [];
          }
          assert Tracks(deduped.keys, deduped.table, next);
        }
      } else {
        assert next == seen by {
          assert AsList(Sighting(num, subject, el)) == [];
        }
        assert Tracks(deduped.keys, deduped.table, next);
      }
      assert Tracks(deduped.keys, deduped.table, next);
      i := i + 1;
      assert next == Sightings(num, subject, elements[..i]);
    }
    assert elements[..i] == elements;
    values := deduped.Values();
    TracksValues(deduped.keys, deduped.table, Sightings(num, subject, elements), values);
  }

  /** The rank step of fetchNearbyRoutes: the deduplicated routes sorted by
      distance, the first 8. */
  method RankRoutes(num: Numerics, subject: Subject, data: Option<seq<Element>>) returns (ranked: seq<Route>)
    ensures ranked == Ranked(num, subject, ElementsOf(data))
  {
    var values := DedupRoutes(num, subject, ElementsOf(data));
    ranked := Take(SortBy(values, RouteDistance), 8);
  }

  /** Each sighting is the sighting of some element. */
  lemma SightingsFromElements(num: Numerics, subject: Subject, els: seq<Element>)
    ensures forall r :: r in Sightings(num, subject, els) ==>
      exists i :: 0 <= i < |els| && Sighting(num, subject, els[i]) == Some(r)
  {
    forall r | r in Sightings(num, subject, els)
      ensures exists i :: 0 <= i < |els| && Sighting(num, subject, els[i]) == Some(r)
    {
      CollectedFrom(els, (el: Element) => Sighting(num, subject, el), r);
    }
  }

  /** Every qualifying element's sighting is among the sightings. */
  lemma ElementIsSighted(num: Numerics, subject: Subject, els: seq<Element>, i: nat)
    requires i < |els| && Sighting(num, subject, els[i]).Some?
    ensures Sighting(num, subject, els[i]).value in Sightings(num, subject, els)
  {
    CollectHas(els, (el: Element) => Sighting(num, subject, el), i);
  }

  /** The ranking holds at most 8 routes, nearest first. */
  lemma RankedSorted(num: Numerics, subject: Subject, els: seq<Element>)
    ensures var r := Ranked(num, subject, els);
      |r| <= 8 && forall i, j :: 0 <= i < j < |r| ==> r[i].distance <= r[j].distance
  {
    var sorted := SortBy(Deduped(Sightings(num, subject, els)), RouteDistance);
    var r := Ranked(num, subject, els);
    forall i, j | 0 <= i < j < |r| ensures r[i].distance <= r[j].distance {
      assert r[i] == sorted[i] && r[j] == sorted[j];
      assert RouteDistance(sorted[i]) <= RouteDistance(sorted[j]);
    }
  }

  /** No label appears twice in the ranking. */
  lemma RankedDistinct(num: Numerics, subject: Subject, els: seq<Element>)
    ensures var r := Ranked(num, subject, els);
      forall i, j :: 0 <= i < j < |r| ==> r[i].name != r[j].name
  {
    var rs := Sightings(num, subject, els);
    var d := Deduped(rs);
    var sorted := SortBy(d, RouteDistance);
    LabelsDistinct(rs);
    assert DistinctBy(d, RouteName);
    DistinctByPermutation(d, sorted, RouteName);
    var r := Ranked(num, subject, els);
    forall i, j | 0 <= i < j < |r| ensures r[i].name != r[j].name {
      assert r[i] == sorted[i] && r[j] == sorted[j];
      assert RouteName(sorted[i]) != RouteName(sorted[j]);
    }
  }

  /** Every ranked route is a sighting, not named "Unnamed route", whose
      distance is the least among the sightings of its label. */
  lemma RankedNearest(num: Numerics, subject: Subject, els: seq<Element>)
    ensures var rs, r := Sightings(num, subject, els), Ranked(num, subject, els);
      forall x :: x in r ==>
        && x in rs
        && x.name != UnnamedRoute
        && Nearest(rs, x.name) == Some(x.distance)
        && forall y :: y in rs && y.name == x.name ==> x.distance <= y.distance
  {
    var rs := Sightings(num, subject, els);
    var d := Deduped(rs);
    var sorted := SortBy(d, RouteDistance);
    SightingsFromElements(num, subject, els);
    forall x | x in Ranked(num, subject, els)
      ensures x in rs && x.name != UnnamedRoute && Nearest(rs, x.name) == Some(x.distance)
      ensures forall y :: y in rs && y.name == x.name ==> x.distance <= y.distance
    {
      assert x in multiset(sorted);
      assert x in d;
      var j :| 0 <= j < |d| && d[j] == x;
      NearestIsLeast(rs, x.name);
      var i :| 0 <= i < |els| && Sighting(num, subject, els[i]) == Some(x);
    }
  }

  /** A label that was sighted but is not ranked lost to eight routes none
      farther than its nearest sighting. */
  lemma RankedComplete(num: Numerics, subject: Subject, els: seq<Element>)
    ensures var rs, r := Sightings(num, subject, els), Ranked(num, subject, els);
      forall y :: y in rs && (forall x :: x in r ==> x.name != y.name) ==>
        |r| == 8 && forall x :: x in r ==> x.distance <= y.distance
  {
    var rs := Sightings(num, subject, els);
    var d := Deduped(rs);
    var sorted := SortBy(d, RouteDistance);
    var r := Ranked(num, subject, els);
    LabelsAreSighted(rs);
    forall y | y in rs && (forall x :: x in r ==> x.name != y.name)
      ensures |r| == 8 && forall x :: x in r ==> x.distance <= y.distance
    {
      var j :| 0 <= j < |Labels(rs)| && Labels(rs)[j] == y.name;
      var best := d[j];
      NearestIsLeast(rs, y.name);
      assert best in multiset(sorted);
      assert best !in r;
      TakeOfSortedOmits(sorted, RouteDistance, 8, best);
      forall x | x in r ensures x.distance <= y.distance {
        assert RouteDistance(x) <= RouteDistance(best);
      }
    }
  }

  /** Among routes at the same distance the ranking keeps the order in which
      their labels were first seen. */
  lemma RankedTiesInFirstSeenOrder(rs: seq<Route>, k: real)
    ensures WithKey(SortBy(Deduped(rs), RouteDistance), RouteDistance, k) == WithKey(Deduped(rs), RouteDistance, k)
  {
    SortByStable(Deduped(rs), RouteDistance, k);
  }

  /** Without an elements array there is nothing to rank. */
  lemma RankedOfNoElements(num: Numerics, subject: Subject)
    ensures Ranked(num, subject, ElementsOf(None)) == []
  {
  }
}
