/**
 * `get_nearby_places_overpass`: turn the elements returned by the point-of-interest service
 * into place records, drop repeated places (first one wins), and keep the five nearest.
 *
 * The service is represented by its decoded answer (`OverpassResponse`). The great-circle
 * distance in miles, already rounded to three decimals, is the parameter `miles`; Python's
 * `round(x, 5)` used in the repeat key is the parameter `round5`.
 */
module Overpass {
  import opened Wrappers
  import opened Geo
  import opened Text
  import opened Ranking

  /** A JSON `tags` object: its members in the object's own order. */
  type Tags = seq<(string, string)>

  /** The `center` object of a way or relation; `None` stands for a missing member. */
  datatype Center = Center(lat: Option<real>, lon: Option<real>)

  /** One item of the answer's `elements` array; `None` stands for a missing member. */
  datatype Element = Element(lat: Option<real>, lon: Option<real>, center: Option<Center>, tags: Tags)

  /**
   * The answer: `Failed` when the request, its HTTP status, the JSON decoding or the lookup of
   * `elements` raised; otherwise the elements in the order the service sent them.
   */
  datatype OverpassResponse = Failed | Elements(elements: seq<Element>)

  /** A place record as the page shows it. */
  datatype Place = Place(name: string, address: string, lat: real, lon: real, distance: real)

  /** What a place is recognised by when it comes back twice: its name and rounded position. */
  type Key = (string, real, real)

  const AddressKeys: seq<string> := ["addr:street", "addr:postcode", "addr:city"]
  const NoAddress: string := "No address"

  /** How many places one search returns at most. */
  const MaxPlaces: nat := 5

  function Distance(p: Place): real {
    p.distance
  }

  /** `tags.get(k)`. */
  function Lookup(tags: Tags, k: string): (r: Option<string>)
    ensures r.Some? ==> (k, r.value) in tags
    ensures r.None? <==> forall i :: 0 <= i < |tags| ==> tags[i].0 != k
  {
    if tags == [] then None
    else if tags[0].0 == k then Some(tags[0].1)
    else Lookup(tags[1..], k)
  }

  /** `element.get("tags", {}).get("name", osm_filter)`: the name tag, or else the filter itself. */
  function PlaceName(tags: Tags, filter: string): (r: string)
    ensures (forall i :: 0 <= i < |tags| ==> tags[i].0 != "name") ==> r == filter
    ensures (exists i :: 0 <= i < |tags| && tags[i].0 == "name") ==> ("name", r) in tags
  {
    match Lookup(tags, "name")
    case Some(v) => v
    case None => filter
  }

  /** No tag is an address tag. */
  predicate NoAddressTags(tags: Tags) {
    forall i :: 0 <= i < |tags| ==> tags[i].0 !in AddressKeys
  }

  /** The value of one tag when it is an address tag. */
  function AddressPart(tag: (string, string)): seq<string> {
    if tag.0 in AddressKeys then [tag.1] else []
  }

  /** The values of the address tags, in the order of the tags. */
  function AddressParts(tags: Tags): (r: seq<string>)
    ensures |r| <= |tags|
  {
    if tags == [] then []
    else AddressPart(tags[0]) + AddressParts(tags[1..])
  }

  /** There is no address part exactly when no tag is an address tag. */
  lemma {:induction false} AddressPartsEmpty(tags: Tags)
    ensures AddressParts(tags) == [] <==> NoAddressTags(tags)
  {
    if tags != [] {
      AddressPartsEmpty(tags[1..]);
      assert forall i :: 1 <= i < |tags| ==> tags[i] == tags[1..][i - 1];
    }
  }

  /**
   * The address follows the tags' own order: the parts of two runs of tags are the parts of
   * the first run followed by those of the second (so other tags never matter).
   */
  lemma {:induction false} AddressPartsKeepOrder(a: Tags, b: Tags)
    ensures AddressParts(a + b) == AddressParts(a) + AddressParts(b)
  {
    if a == [] {
      assert a + b == b;
    } else {
      AddressPartsKeepOrder(a[1..], b);
      assert (a + b)[0] == a[0];
      assert (a + b)[1..] == a[1..] + b;
      var h, x, y := AddressPart(a[0]), AddressParts(a[1..]), AddressParts(b);
      assert AddressParts(a + b) == h + (x + y);
      assert AddressParts(a) == h + x;
      assert h + (x + y) == (h + x) + y;
    }
  }

  /** The positions of the address tags, in increasing order. */
  function AddressAt(tags: Tags): (idx: seq<nat>)
    ensures forall k :: 0 <= k < |idx| ==> idx[k] < |tags| && tags[idx[k]].0 in AddressKeys
    ensures forall k, l :: 0 <= k < l < |idx| ==> idx[k] < idx[l]
  {
    if tags == [] then []
    else
      var n := |tags| - 1;
      AddressAt(tags[..n]) + (if tags[n].0 in AddressKeys then [n] else [])
  }

  /** Every address tag is at one of those positions. */
  lemma {:induction false} AddressAtCovers(tags: Tags, i: nat)
    requires i < |tags| && tags[i].0 in AddressKeys
    ensures i in AddressAt(tags)
  {
    var n := |tags| - 1;
    if i < n {
      AddressAtCovers(tags[..n], i);
    }
  }

  /**
   * The address parts are exactly the values of the address tags: the k-th part is the value
   * of the k-th address tag, and there are no other parts.
   */
  lemma {:induction false} AddressPartsAreTagValues(tags: Tags)
    ensures |AddressParts(tags)| == |AddressAt(tags)|
    ensures forall k :: 0 <= k < |AddressAt(tags)| ==> AddressParts(tags)[k] == tags[AddressAt(tags)[k]].1
  {
    if tags != [] {
      var n := |tags| - 1;
      AddressPartsAreTagValues(tags[..n]);
      AddressPartsKeepOrder(tags[..n], [tags[n]]);
      assert tags[..n] + [tags[n]] == tags;
      assert [tags[n]][1..] == [];
      assert AddressParts([tags[n]]) == AddressPart(tags[n]);
    }
  }

  /** The address line: the address tag values joined by ", ", or "No address". */
  function Address(tags: Tags): (r: string)
    ensures NoAddressTags(tags) ==> r == NoAddress
    ensures !NoAddressTags(tags) ==> r == Join(AddressParts(tags), ", ")
  {
    AddressPartsEmpty(tags);
    var parts := AddressParts(tags);
    if parts == [] then NoAddress else Join(parts, ", ")
  }

  /** Where an element is: its own position, its center, nowhere (skipped), or a broken answer. */
  datatype Located = Skipped | Malformed | At(point: Coordinate)

  /**
   * The coordinate source of an element: its own `lat`/`lon` first, then its `center`; with
   * neither it is skipped. A `lat` without `lon`, or a `center` without both, makes the source's
   * indexing raise.
   */
  function Locate(e: Element): (r: Located)
    ensures e.lat.Some? && e.lon.Some? ==> r == At(Coordinate(e.lat.value, e.lon.value))
    ensures r.At? && e.lat.None? ==> e.center.Some? && e.center.value.lat == Some(r.point.lat)
                                     && e.center.value.lon == Some(r.point.lon)
    ensures r == Skipped <==> e.lat.None? && e.center.None?
    ensures r == Malformed <==> (e.lat.Some? && e.lon.None?)
                                || (e.lat.None? && e.center.Some? && (e.center.value.lat.None? || e.center.value.lon.None?))
  {
    if e.lat.Some? then
      if e.lon.Some? then At(Coordinate(e.lat.value, e.lon.value)) else Malformed
    else if e.center.Some? then
      if e.center.value.lat.Some? && e.center.value.lon.Some? then
        At(Coordinate(e.center.value.lat.value, e.center.value.lon.value))
      else Malformed
    else Skipped
  }

  /** The record built for an element found at `at`. */
  function PlaceOf(e: Element, filter: string, origin: Coordinate,
                   miles: (Coordinate, Coordinate) -> real, at: Coordinate): (p: Place)
    ensures (forall i :: 0 <= i < |e.tags| ==> e.tags[i].0 != "name") ==> p.name == filter
    ensures (exists i :: 0 <= i < |e.tags| && e.tags[i].0 == "name") ==> ("name", p.name) in e.tags
    ensures NoAddressTags(e.tags) ==> p.address == NoAddress
    ensures !NoAddressTags(e.tags) ==> p.address == Join(AddressParts(e.tags), ", ")
    ensures p.lat == at.lat && p.lon == at.lon && p.distance == miles(origin, at)
  {
    Place(PlaceName(e.tags, filter), Address(e.tags), at.lat, at.lon, miles(origin, at))
  }

  /**
   * The records of the located elements, in element order, before any repeat is dropped; `None`
   * when some element is malformed, since that aborts the whole search.
   */
  function Candidates(es: seq<Element>, filter: string, origin: Coordinate,
                      miles: (Coordinate, Coordinate) -> real): (r: Option<seq<Place>>)
    ensures r.Some? <==> forall i :: 0 <= i < |es| ==> !Locate(es[i]).Malformed?
    ensures r.Some? ==> |r.value| <= |es|
  {
    if es == [] then Some([])
    else
      var init := Candidates(es[..|es| - 1], filter, origin, miles);
      var e := es[|es| - 1];
      assert forall i :: 0 <= i < |es| - 1 ==> es[..|es| - 1][i] == es[i];
      match Locate(e)
      case Malformed => None
      case Skipped => init
      case At(p) => if init.None? then None else Some(init.value + [PlaceOf(e, filter, origin, miles, p)])
  }

  /** One more element: what `Candidates` gains from the element at position `i`. */
  lemma CandidatesStep(es: seq<Element>, i: nat, filter: string, origin: Coordinate,
                       miles: (Coordinate, Coordinate) -> real)
    requires i < |es|
    ensures Locate(es[i]).Skipped? ==>
      Candidates(es[..i + 1], filter, origin, miles) == Candidates(es[..i], filter, origin, miles)
    ensures Locate(es[i]).At? && Candidates(es[..i], filter, origin, miles).Some? ==>
      Candidates(es[..i + 1], filter, origin, miles) ==
        Some(Candidates(es[..i], filter, origin, miles).value + [PlaceOf(es[i], filter, origin, miles, Locate(es[i]).point)])
  {
    assert es[..i + 1][..i] == es[..i];
    assert es[..i + 1][i] == es[i];
  }

  /** The positions of the located elements, in increasing order. */
  function LocatedAt(es: seq<Element>): (idx: seq<nat>)
    ensures forall k :: 0 <= k < |idx| ==> idx[k] < |es| && Locate(es[idx[k]]).At?
    ensures forall k, l :: 0 <= k < l < |idx| ==> idx[k] < idx[l]
  {
    if es == [] then []
    else
      var n := |es| - 1;
      var before := LocatedAt(es[..n]);
      assert forall k :: 0 <= k < |before| ==> es[before[k]] == es[..n][before[k]];
      before + if Locate(es[n]).At? then [n] else []
  }

  /** Every located element is listed by `LocatedAt`. */
  lemma {:induction false} LocatedAtCovers(es: seq<Element>, i: nat)
    requires i < |es| && Locate(es[i]).At?
    ensures i in LocatedAt(es)
  {
    var n := |es| - 1;
    if i < n {
      assert es[..n][i] == es[i];
      LocatedAtCovers(es[..n], i);
    }
  }

  /**
   * The candidates are the records of the located elements, one each, in element order.
   */
  lemma {:induction false} CandidatesFromElements(es: seq<Element>, filter: string, origin: Coordinate,
                                                  miles: (Coordinate, Coordinate) -> real)
    requires Candidates(es, filter, origin, miles).Some?
    ensures var c := Candidates(es, filter, origin, miles).value;
      var idx := LocatedAt(es);
      && |c| == |idx|
      && forall k :: 0 <= k < |c| ==> c[k] == PlaceOf(es[idx[k]], filter, origin, miles, Locate(es[idx[k]]).point)
  {
    if es != [] {
      var n := |es| - 1;
      var init := es[..n];
      CandidatesFromElements(init, filter, origin, miles);
      var c0 := Candidates(init, filter, origin, miles).value;
      var before := LocatedAt(init);
      assert forall k :: 0 <= k < |before| ==> es[before[k]] == init[before[k]];
      if Locate(es[n]).At? {
        assert Candidates(es, filter, origin, miles).value == c0 + [PlaceOf(es[n], filter, origin, miles, Locate(es[n]).point)];
        assert LocatedAt(es) == before + [n];
      } else {
        assert Candidates(es, filter, origin, miles).value == c0;
        assert LocatedAt(es) == before;
      }
    }
  }

  /** The de-duplication key: the name and both coordinates rounded; address and distance play no part. */
  function KeyOf(p: Place, round5: real -> real): Key {
    (p.name, round5(p.lat), round5(p.lon))
  }

  /**
   * Two places share a key exactly when they have the same name and the same rounded
   * coordinates, whatever their addresses and distances.
   */
  lemma SameKey(p: Place, q: Place, round5: real -> real)
    ensures KeyOf(p, round5) == KeyOf(q, round5)
            <==> p.name == q.name && round5(p.lat) == round5(q.lat) && round5(p.lon) == round5(q.lon)
  {
  }

  function KeysOf(ps: seq<Place>, round5: real -> real): set<Key> {
    set i | 0 <= i < |ps| :: KeyOf(ps[i], round5)
  }

  /** The `seen` check: keeps a place only when no earlier kept place has its key. */
  function DedupFirst(ps: seq<Place>, round5: real -> real): (r: seq<Place>)
    ensures |r| <= |ps|
  {
    if ps == [] then []
    else
      var kept := DedupFirst(ps[..|ps| - 1], round5);
      var p := ps[|ps| - 1];
      if KeyOf(p, round5) in KeysOf(kept, round5) then kept else kept + [p]
  }

  lemma KeysOfSnoc(ps: seq<Place>, p: Place, round5: real -> real)
    ensures KeysOf(ps + [p], round5) == KeysOf(ps, round5) + {KeyOf(p, round5)}
  {
    var l := ps + [p];
    assert forall i :: 0 <= i < |ps| ==> l[i] == ps[i];
    assert l[|ps|] == p;
  }

  /** One more place: it is kept exactly when its key is new. */
  lemma DedupFirstSnoc(ps: seq<Place>, p: Place, round5: real -> real)
    ensures var kept := DedupFirst(ps, round5);
      DedupFirst(ps + [p], round5) == if KeyOf(p, round5) in KeysOf(kept, round5) then kept else kept + [p]
  {
    assert (ps + [p])[..|ps|] == ps;
    assert (ps + [p])[|ps|] == p;
  }

  /** Dropping repeats loses no key: every key of the input is the key of some kept place. */
  lemma {:induction false} DedupKeepsEveryKey(ps: seq<Place>, round5: real -> real)
    ensures KeysOf(DedupFirst(ps, round5), round5) == KeysOf(ps, round5)
  {
    if ps != [] {
      var n := |ps| - 1;
      DedupKeepsEveryKey(ps[..n], round5);
      KeysOfSnoc(ps[..n], ps[n], round5);
      KeysOfSnoc(DedupFirst(ps[..n], round5), ps[n], round5);
      assert ps[..n] + [ps[n]] == ps;
    }
  }

  /** No two places of `ps` share a key. */
  predicate UniqueKeys(ps: seq<Place>, round5: real -> real) {
    forall i, j :: 0 <= i < j < |ps| ==> KeyOf(ps[i], round5) != KeyOf(ps[j], round5)
  }

  /** No two kept places share a key. */
  lemma {:induction false} DedupUniqueKeys(ps: seq<Place>, round5: real -> real)
    ensures UniqueKeys(DedupFirst(ps, round5), round5)
  {
    if ps != [] {
      var n := |ps| - 1;
      DedupUniqueKeys(ps[..n], round5);
      var kept := DedupFirst(ps[..n], round5);
      var p := ps[n];
      if KeyOf(p, round5) !in KeysOf(kept, round5) {
        var r := kept + [p];
        assert DedupFirst(ps, round5) == r;
        forall i, j | 0 <= i < j < |r| ensures KeyOf(r[i], round5) != KeyOf(r[j], round5) {
          assert r[i] == kept[i];
          if j == |kept| {
            assert r[j] == p;
            assert KeyOf(kept[i], round5) in KeysOf(kept, round5);
          } else {
            assert r[j] == kept[j];
          }
        }
      } else {
        assert DedupFirst(ps, round5) == kept;
      }
    }
  }

  /** `r` is `ps` at the strictly increasing positions `idx`. */
  predicate PicksFrom<T(==)>(ps: seq<T>, r: seq<T>, idx: seq<nat>) {
    && |idx| == |r|
    && (forall k :: 0 <= k < |idx| ==> idx[k] < |ps| && r[k] == ps[idx[k]])
    && (forall k, l :: 0 <= k < l < |idx| ==> idx[k] < idx[l])
  }

  /** Every place of `r` has a key that no earlier place of `ps` (before its position) has. */
  predicate FirstOfTheirKey(ps: seq<Place>, r: seq<Place>, idx: seq<nat>, round5: real -> real)
    requires |idx| == |r|
  {
    forall k, j :: 0 <= k < |idx| && 0 <= j < idx[k] && j < |ps| ==> KeyOf(ps[j], round5) != KeyOf(r[k], round5)
  }

  /**
   * The kept places are a subsequence of the input, in input order, and each kept place is the
   * first place of the input with its key.
   */
  lemma {:induction false} DedupFirstWins(ps: seq<Place>, round5: real -> real) returns (idx: seq<nat>)
    ensures PicksFrom(ps, DedupFirst(ps, round5), idx)
    ensures FirstOfTheirKey(ps, DedupFirst(ps, round5), idx, round5)
  {
    if ps == [] {
      idx := [];
    } else {
      var n := |ps| - 1;
      var init := ps[..n];
      var p := ps[n];
      var before := DedupFirstWins(init, round5);
      var kept := DedupFirst(init, round5);
      if KeyOf(p, round5) in KeysOf(kept, round5) {
        idx := before;
        assert DedupFirst(ps, round5) == kept;
        assert forall j :: 0 <= j < n ==> init[j] == ps[j];
      } else {
        idx := before + [n];
        var r := kept + [p];
        assert DedupFirst(ps, round5) == r;
        DedupKeepsEveryKey(init, round5);
        forall k | 0 <= k < |idx| ensures idx[k] < |ps| && r[k] == ps[idx[k]] {
          if k < |before| {
            assert r[k] == kept[k] == init[before[k]];
          }
        }
        forall k, j | 0 <= k < |idx| && 0 <= j < idx[k] && j < |ps|
          ensures KeyOf(ps[j], round5) != KeyOf(r[k], round5)
        {
          assert ps[j] == init[j];
          if k == |before| {
            assert KeyOf(init[j], round5) in KeysOf(init, round5);
          } else {
            assert r[k] == kept[k];
          }
        }
      }
    }
  }

  /** `get_nearby_places_overpass(lat, lon, osm_filter)` as a function of the service's answer. */
  function Nearby(origin: Coordinate, filter: string, response: OverpassResponse,
                  round5: real -> real, miles: (Coordinate, Coordinate) -> real): (r: seq<Place>)
    ensures |r| <= MaxPlaces
    ensures SortedBy(r, Distance)
  {
    match response
    case Failed => []
    case Elements(es) =>
      match Candidates(es, filter, origin, miles)
      case None => []
      case Some(c) => TopBy(DedupFirst(c, round5), Distance, MaxPlaces)
  }

  /**
   * What one search promises: nothing when the service failed or an element was malformed;
   * otherwise at most five places, non-decreasing by distance, all different by key, drawn from
   * the de-duplicated records, and each at least as near as every record that was left out.
   */
  lemma {:induction false} NearbyKeepsNearest(origin: Coordinate, filter: string, response: OverpassResponse,
                                              round5: real -> real, miles: (Coordinate, Coordinate) -> real)
    ensures response.Failed? ==> Nearby(origin, filter, response, round5, miles) == []
    ensures response.Elements? && Candidates(response.elements, filter, origin, miles).None?
            ==> Nearby(origin, filter, response, round5, miles) == []
    ensures var r := Nearby(origin, filter, response, round5, miles);
      forall i, j :: 0 <= i < j < |r| ==> KeyOf(r[i], round5) != KeyOf(r[j], round5)
    ensures response.Elements? && Candidates(response.elements, filter, origin, miles).Some? ==>
      var u := DedupFirst(Candidates(response.elements, filter, origin, miles).value, round5);
      var r := Nearby(origin, filter, response, round5, miles);
      && |r| == (if |u| < MaxPlaces then |u| else MaxPlaces)
      && multiset(r) <= multiset(u)
      && (forall x, y | x in r && y in multiset(u) - multiset(r) :: Distance(x) <= Distance(y))
  {
    if response.Elements? && Candidates(response.elements, filter, origin, miles).Some? {
      var u := DedupFirst(Candidates(response.elements, filter, origin, miles).value, round5);
      assert Nearby(origin, filter, response, round5, miles) == TopBy(u, Distance, MaxPlaces);
      TopByKeepsNearest(u, Distance, MaxPlaces);
      DedupUniqueKeys(Candidates(response.elements, filter, origin, miles).value, round5);
      var id := (p: Place) => KeyOf(p, round5);
      assert DistinctBy(u, id);
      TopByKeepsDistinct(u, Distance, id, MaxPlaces);
    }
  }

  /**
   * The search loop: walks the elements in order, skips those without a position, keeps the
   * first place of each key in `seen`, and finally keeps the five nearest.
   */
  method NearbyPlaces(origin: Coordinate, filter: string, response: OverpassResponse,
                      round5: real -> real, miles: (Coordinate, Coordinate) -> real)
    returns (places: seq<Place>)
    ensures places == Nearby(origin, filter, response, round5, miles)
  {
    if response.Failed? {
      return [];
    }
    var elements := response.elements;
    var seen: set<Key> := {};
    var found: seq<Place> := [];
    for i := 0 to |elements|
      invariant Candidates(elements[..i], filter, origin, miles).Some?
      invariant found == DedupFirst(Candidates(elements[..i], filter, origin, miles).value, round5)
      invariant seen == KeysOf(found, round5)
    {
      var element := elements[i];
      CandidatesStep(elements, i, filter, origin, miles);
      var lat: real, lon: real;
      if element.lat.Some? {
        if element.lon.None? {
          assert Locate(elements[i]).Malformed?;
          return [];
        }
        lat, lon := element.lat.value, element.lon.value;
      } else if element.center.Some? {
        if element.center.value.lat.None? || element.center.value.lon.None? {
          assert Locate(elements[i]).Malformed?;
          return [];
        }
        lat, lon := element.center.value.lat.value, element.center.value.lon.value;
      } else {
        assert Locate(element).Skipped?;
        continue;
      }
      var name := PlaceName(element.tags, filter);
      var address := Address(element.tags);
      var place := Place(name, address, lat, lon, miles(origin, Coordinate(lat, lon)));
      assert place == PlaceOf(element, filter, origin, miles, Locate(element).point);
      ghost var before := Candidates(elements[..i], filter, origin, miles).value;
      assert Candidates(elements[..i + 1], filter, origin, miles).value == before + [place];
      DedupFirstSnoc(before, place, round5);
      var key := (name, round5(lat), round5(lon));
      if key in seen {
        continue;
      }
      seen := seen + {key};
      KeysOfSnoc(found, place, round5);
      found := found + [place];
    }
    assert elements[..|elements|] == elements;
    places := TopBy(found, Distance, MaxPlaces);
  }
}
