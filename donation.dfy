/**
 * The page's "Donate" action: normalise the typed postcode, geocode it, search each switched-on
 * category of drop-off point, merge the results in category order, keep the five nearest, and
 * pick the tree-planting site and region label.
 *
 * The point-of-interest service is the parameter `overpass`, giving the decoded answer to the
 * query for a filter around a coordinate; the geocoding service is `geocoder`; the rounding and
 * distance functions are `round5` and `miles`, as in `Overpass`.
 */
module Donation {
  import opened Text
  import opened Geo
  import opened Regions
  import opened Ranking
  import opened Overpass

  /** The four kinds of drop-off point, in the order the page searches them. */
  datatype Category = School | Supermarket | PostOffice | Recycling

  /**
   * The search filter of each category: a `key=value` tag filter on the `amenity` key, except
   * for supermarkets, which are found by their `shop` key.
   */
  function Filter(c: Category): (r: string)
    ensures c != Supermarket <==> |r| > 8 && r[..8] == "amenity="
    ensures c == Supermarket <==> |r| > 5 && r[..5] == "shop="
  {
    match c
    case School => var f := "amenity=school"; assert f[..8] == "amenity=" && f[..5][0] != "shop="[0]; f
    case Supermarket => var f := "shop=supermarket"; assert f[..5] == "shop=" && f[..8][0] != "amenity="[0]; f
    case PostOffice => var f := "amenity=post_office"; assert f[..8] == "amenity=" && f[..5][0] != "shop="[0]; f
    case Recycling => var f := "amenity=recycling"; assert f[..8] == "amenity=" && f[..5][0] != "shop="[0]; f
  }

  /** The `type` label each category's places are shown with: a pictograph, a space, a name. */
  function Label(c: Category): (r: string)
    ensures |r| > 2 && r[0] as int >= 0x2600
    ensures exists i :: 0 < i < |r| - 1 && r[i] == ' ' && forall k :: 0 <= k < i ==> r[k] as int >= 0x2600
  {
    match c
    case School => var l := "\U{1F3EB} School"; assert l[1] == ' '; l
    case Supermarket => var l := "\U{1F6D2} Supermarket"; assert l[1] == ' '; l
    case PostOffice => var l := "\U{1F4EE} Post Office"; assert l[1] == ' '; l
    case Recycling => var l := "\U{267B}\U{FE0F} Recycling Centre"; assert l[2] == ' '; l
  }

  /** Different categories are searched with different filters. */
  lemma FiltersDiffer(c: Category, other: Category)
    requires c != other
    ensures Filter(c) != Filter(other)
  {
    match c
    case School => assert Filter(c)[8] == 's';
    case Supermarket => assert Filter(c)[0] == 's';
    case PostOffice => assert Filter(c)[8] == 'p';
    case Recycling => assert Filter(c)[8] == 'r';
  }

  /** Different categories are shown with different labels. */
  lemma LabelsDiffer(c: Category, other: Category)
    requires c != other
    ensures Label(c) != Label(other)
  {
    match c
    case School => assert Label(c)[2] == 'S';
    case Supermarket => assert Label(c)[2] == 'S' && Label(c)[3] == 'u';
    case PostOffice => assert Label(c)[2] == 'P';
    case Recycling => assert Label(c)[3] == 'R';
  }

  /** The four check boxes. */
  datatype Toggles = Toggles(schools: bool, supermarkets: bool, postOffices: bool, recycling: bool)

  function Enabled(toggles: Toggles, c: Category): bool {
    match c
    case School => toggles.schools
    case Supermarket => toggles.supermarkets
    case PostOffice => toggles.postOffices
    case Recycling => toggles.recycling
  }

  /** A place as listed in the merged results: the place with its category label. */
  datatype DropOff = DropOff(kind: string, place: Place)

  function DropOffDistance(d: DropOff): real {
    d.place.distance
  }

  /** How many drop-off points the page lists at most. */
  const MaxShown: nat := 5

  /** The places the search for category `c` around `origin` returns. */
  function Found(c: Category, origin: Coordinate, overpass: (Coordinate, string) -> OverpassResponse,
                 round5: real -> real, miles: (Coordinate, Coordinate) -> real): seq<Place>
  {
    Nearby(origin, Filter(c), overpass(origin, Filter(c)), round5, miles)
  }

  function Tag(kind: string, places: seq<Place>): seq<DropOff> {
    seq(|places|, i requires 0 <= i < |places| => DropOff(kind, places[i]))
  }

  /** Labelling one more place adds it, labelled, at the end. */
  lemma TagSnoc(kind: string, places: seq<Place>, i: nat)
    requires i < |places|
    ensures Tag(kind, places[..i + 1]) == Tag(kind, places[..i]) + [DropOff(kind, places[i])]
  {
  }

  /**
   * The labelled places of category `c`, or nothing when its box is unticked: at most five,
   * each the place its search found at that position, with the category's label.
   */
  function Section(c: Category, origin: Coordinate, toggles: Toggles,
                   overpass: (Coordinate, string) -> OverpassResponse,
                   round5: real -> real, miles: (Coordinate, Coordinate) -> real): (r: seq<DropOff>)
    ensures !Enabled(toggles, c) ==> r == []
    ensures |r| <= MaxPlaces
    ensures Enabled(toggles, c) ==> |r| == |Found(c, origin, overpass, round5, miles)|
    ensures forall i :: 0 <= i < |r| ==> r[i].kind == Label(c) && r[i].place == Found(c, origin, overpass, round5, miles)[i]
  {
    if Enabled(toggles, c) then Tag(Label(c), Found(c, origin, overpass, round5, miles)) else []
  }

  /** `all_places` before sorting: the sections in category order. */
  function Gathered(origin: Coordinate, toggles: Toggles, overpass: (Coordinate, string) -> OverpassResponse,
                    round5: real -> real, miles: (Coordinate, Coordinate) -> real): (r: seq<DropOff>)
    ensures |r| <= 4 * MaxPlaces
    ensures toggles == Toggles(false, false, false, false) ==> r == []
  {
    Section(School, origin, toggles, overpass, round5, miles)
    + Section(Supermarket, origin, toggles, overpass, round5, miles)
    + Section(PostOffice, origin, toggles, overpass, round5, miles)
    + Section(Recycling, origin, toggles, overpass, round5, miles)
  }

  /** One category's search, appended place by place, with its label, to `all`. */
  method CollectCategory(all: seq<DropOff>, c: Category, origin: Coordinate,
                         overpass: (Coordinate, string) -> OverpassResponse,
                         round5: real -> real, miles: (Coordinate, Coordinate) -> real)
    returns (r: seq<DropOff>)
    ensures r == all + Tag(Label(c), Found(c, origin, overpass, round5, miles))
  {
    var filter, kind := Filter(c), Label(c);
    var places := NearbyPlaces(origin, filter, overpass(origin, filter), round5, miles);
    r := all;
    for i := 0 to |places|
      invariant r == all + Tag(kind, places[..i])
    {
      TagSnoc(kind, places, i);
      r := r + [DropOff(kind, places[i])];
    }
    assert places[..|places|] == places;
  }

  /**
   * The merge: each switched-on category's places are appended in category order, and the
   * merged list is sorted by distance (stably) and cut to its first five.
   */
  method DropOffLocations(origin: Coordinate, toggles: Toggles,
                          overpass: (Coordinate, string) -> OverpassResponse,
                          round5: real -> real, miles: (Coordinate, Coordinate) -> real)
    returns (shown: seq<DropOff>)
    ensures shown == TopBy(Gathered(origin, toggles, overpass, round5, miles), DropOffDistance, MaxShown)
  {
    var all: seq<DropOff> := [];
    if toggles.schools {
      var next := CollectCategory(all, School, origin, overpass, round5, miles);
      all := next;
    }
    assert all == Section(School, origin, toggles, overpass, round5, miles);
    if toggles.supermarkets {
      var next := CollectCategory(all, Supermarket, origin, overpass, round5, miles);
      all := next;
    }
    assert all == Section(School, origin, toggles, overpass, round5, miles)
                  + Section(Supermarket, origin, toggles, overpass, round5, miles);
    if toggles.postOffices {
      var next := CollectCategory(all, PostOffice, origin, overpass, round5, miles);
      all := next;
    }
    assert all == Section(School, origin, toggles, overpass, round5, miles)
                  + Section(Supermarket, origin, toggles, overpass, round5, miles)
                  + Section(PostOffice, origin, toggles, overpass, round5, miles);
    if toggles.recycling {
      var next := CollectCategory(all, Recycling, origin, overpass, round5, miles);
      all := next;
    }
    assert all == Gathered(origin, toggles, overpass, round5, miles);
    if all != [] {
      shown := TopBy(all, DropOffDistance, MaxShown);
    } else {
      shown := [];
    }
  }

  /**
   * The listed drop-off points: at most five, nearest first, taken from the merged searches,
   * none farther than a merged place that was left out, and none at all exactly when every
   * switched-on search came back empty.
   */
  lemma ShownAreNearest(origin: Coordinate, toggles: Toggles, overpass: (Coordinate, string) -> OverpassResponse,
                        round5: real -> real, miles: (Coordinate, Coordinate) -> real)
    ensures var all := Gathered(origin, toggles, overpass, round5, miles);
      var shown := TopBy(all, DropOffDistance, MaxShown);
      && |shown| == (if |all| < MaxShown then |all| else MaxShown)
      && SortedBy(shown, DropOffDistance)
      && multiset(shown) <= multiset(all)
      && (forall x, y | x in shown && y in multiset(all) - multiset(shown) ::
            DropOffDistance(x) <= DropOffDistance(y))
      && (shown == [] <==> all == [])
  {
    TopByKeepsNearest(Gathered(origin, toggles, overpass, round5, miles), DropOffDistance, MaxShown);
  }

  /** Where a merged entry comes from: a switched-on category, with that category's label. */
  lemma {:induction false} GatheredFromEnabled(origin: Coordinate, toggles: Toggles,
                                               overpass: (Coordinate, string) -> OverpassResponse,
                                               round5: real -> real, miles: (Coordinate, Coordinate) -> real,
                                               d: DropOff)
      returns (c: Category)
    requires d in Gathered(origin, toggles, overpass, round5, miles)
    ensures Enabled(toggles, c) && d.kind == Label(c) && d.place in Found(c, origin, overpass, round5, miles)
  {
    var s1 := Section(School, origin, toggles, overpass, round5, miles);
    var s2 := Section(Supermarket, origin, toggles, overpass, round5, miles);
    var s3 := Section(PostOffice, origin, toggles, overpass, round5, miles);
    var s4 := Section(Recycling, origin, toggles, overpass, round5, miles);
    assert Gathered(origin, toggles, overpass, round5, miles) == s1 + s2 + s3 + s4;
    if d in s1 {
      c := School;
    } else if d in s2 {
      c := Supermarket;
    } else if d in s3 {
      c := PostOffice;
    } else {
      c := Recycling;
    }
    InSection(c, origin, toggles, overpass, round5, miles, d);
  }

  lemma InSection(c: Category, origin: Coordinate, toggles: Toggles,
                  overpass: (Coordinate, string) -> OverpassResponse,
                  round5: real -> real, miles: (Coordinate, Coordinate) -> real, d: DropOff)
    requires d in Section(c, origin, toggles, overpass, round5, miles)
    ensures Enabled(toggles, c) && d.kind == Label(c) && d.place in Found(c, origin, overpass, round5, miles)
  {
    var s := Section(c, origin, toggles, overpass, round5, miles);
    var k :| 0 <= k < |s| && s[k] == d;
    assert d.place == Found(c, origin, overpass, round5, miles)[k];
  }

  /**
   * Every listed drop-off point is a place the search of a switched-on category returned,
   * shown with that category's label; so no point of an unticked category is ever listed.
   */
  lemma ShownFromEnabledSearches(origin: Coordinate, toggles: Toggles,
                                 overpass: (Coordinate, string) -> OverpassResponse,
                                 round5: real -> real, miles: (Coordinate, Coordinate) -> real,
                                 d: DropOff)
    requires d in TopBy(Gathered(origin, toggles, overpass, round5, miles), DropOffDistance, MaxShown)
    ensures exists c :: Enabled(toggles, c) && d.kind == Label(c) && d.place in Found(c, origin, overpass, round5, miles)
    ensures forall c :: !Enabled(toggles, c) ==> d.kind != Label(c)
  {
    var all := Gathered(origin, toggles, overpass, round5, miles);
    TopByKeepsNearest(all, DropOffDistance, MaxShown);
    assert d in multiset(all);
    var c := GatheredFromEnabled(origin, toggles, overpass, round5, miles, d);
    forall other | !Enabled(toggles, other) ensures d.kind != Label(other) {
      LabelsDiffer(c, other);
    }
  }

  /**
   * Ties keep the order in which the categories were searched: among listed points at the same
   * distance, the order is their order in the merged list (schools before supermarkets before
   * post offices before recycling centres, and each search's own order within a category).
   */
  lemma ShownTiesKeepCategoryOrder(origin: Coordinate, toggles: Toggles,
                                   overpass: (Coordinate, string) -> OverpassResponse,
                                   round5: real -> real, miles: (Coordinate, Coordinate) -> real,
                                   distance: real)
    ensures var all := Gathered(origin, toggles, overpass, round5, miles);
      WithKey(TopBy(all, DropOffDistance, MaxShown), DropOffDistance, distance)
      <= WithKey(all, DropOffDistance, distance)
  {
    TopByStable(Gathered(origin, toggles, overpass, round5, miles), DropOffDistance, MaxShown, distance);
  }

  /** What one press of "Donate" computes. */
  datatype Outcome = Outcome(postcode: string, origin: Coordinate, shown: seq<DropOff>,
                             site: Coordinate, region: string)

  /**
   * The "Donate" action on the typed postcode: the text box's value is lowered and stripped,
   * geocoded (which normalises it once more), searched around, and mapped to a site and label.
   */
  method Donate(typed: string, toggles: Toggles, geocoder: string -> GeoResponse,
                overpass: (Coordinate, string) -> OverpassResponse,
                round5: real -> real, miles: (Coordinate, Coordinate) -> real)
    returns (o: Outcome)
    ensures o.postcode == Normalize(typed)
    ensures o.origin == LookupPostcode(typed, geocoder)
    ensures o.shown == TopBy(Gathered(o.origin, toggles, overpass, round5, miles), DropOffDistance, MaxShown)
    ensures o.site == GetTreeSite(o.postcode) && o.region == RegionLabel(o.postcode)
    ensures o.region == "London area" && o.site != London <==>
            "n" <= o.postcode && !("ne" <= o.postcode) && !("n1" <= o.postcode)
  {
    var postcode := Strip(Lower(typed));
    var origin := LookupPostcode(postcode, geocoder);
    LookupNormalizedAgain(typed, geocoder);
    var shown := DropOffLocations(origin, toggles, overpass, round5, miles);
    NormalizeIsLower(typed);
    LabelMatchesSite(postcode);
    o := Outcome(postcode, origin, shown, GetTreeSite(postcode), RegionLabel(postcode));
  }
}
