/**
 * Concrete scenarios for the page's documented behaviour, proved from the general model.
 */
module Examples {
  import opened Wrappers
  import opened Text
  import opened Geo
  import opened Regions
  import opened Overpass
  import opened Ranking

  /** A blank on each side is removed, and only those. */
  lemma StripExample()
    ensures Strip(" ne23 ") == "ne23"
  {
    var s := " ne23 ";
    assert IsSpace(s[0]) && !IsSpace(s[1]) && s[1..] == "ne23 ";
    assert LeadingBlanks(s) == 1;
    assert IsSpace(s[5]) && !IsSpace(s[4]) && s[..5] == " ne23";
    assert TextEnd(s) == 5;
    assert s[1..5] == "ne23";
  }

  /** Capitals are lowered and the surrounding blanks removed. */
  lemma NormalizeExample()
    ensures Normalize(" NE23 ") == "ne23"
  {
    var s, t := " NE23 ", " ne23 ";
    assert Lower(s) == t by {
      assert LowerChar('N') == 'n' && LowerChar('E') == 'e';
      assert forall k :: 0 <= k < |s| ==> Lower(s)[k] == LowerChar(s[k]);
    }
    StripExample();
  }

  /** A typed postcode with surrounding blanks and capitals is answered with the service's coordinate. */
  lemma LookupSuccessExample(g: string -> GeoResponse)
    requires g("ne23") == Http(200, Json(Some(200.0), Some(GeoResult(Some(55.0), Some(-1.5)))))
    ensures LookupPostcode(" NE23 ", g) == Coordinate(55.0, -1.5)
  {
    NormalizeExample();
  }

  /** A 404, no answer, a body that is not JSON and a result without a longitude all fall back. */
  lemma LookupFailureExamples(g1: string -> GeoResponse, g2: string -> GeoResponse,
                              g3: string -> GeoResponse, g4: string -> GeoResponse)
    requires g1("ne23") == Http(404, Json(Some(404.0), None))
    requires g2("ne23") == NoResponse
    requires g3("ne23") == Http(200, NotJson)
    requires g4("ne23") == Http(200, Json(Some(200.0), Some(GeoResult(Some(55.0), None))))
    ensures LookupPostcode(" NE23 ", g1) == Fallback
    ensures LookupPostcode(" NE23 ", g2) == Fallback
    ensures LookupPostcode(" NE23 ", g3) == Fallback
    ensures LookupPostcode(" NE23 ", g4) == Fallback
  {
    NormalizeExample();
  }

  /** The address tags are joined in tag order; other tags in between do not matter. */
  lemma AddressExample()
    ensures Address([("addr:street", "Main St"), ("name", "Oak School"), ("addr:city", "Leeds")]) == "Main St, Leeds"
  {
    var tags := [("addr:street", "Main St"), ("name", "Oak School"), ("addr:city", "Leeds")];
    assert tags[1..][1..][1..] == [];
    assert AddressParts(tags[1..][1..]) == ["Leeds"];
    assert AddressParts(tags[1..]) == ["Leeds"];
    assert AddressParts(tags) == ["Main St", "Leeds"];
    assert ["Main St", "Leeds"][1..] == ["Leeds"];
  }

  /** Two located elements give two candidate places, in their order. */
  lemma CandidatesOfTwo(e1: Element, e2: Element, filter: string, origin: Coordinate,
                        miles: (Coordinate, Coordinate) -> real)
    requires Locate(e1).At? && Locate(e2).At?
    ensures Candidates([e1, e2], filter, origin, miles)
      == Some([PlaceOf(e1, filter, origin, miles, Locate(e1).point), PlaceOf(e2, filter, origin, miles, Locate(e2).point)])
  {
    var es := [e1, e2];
    var p1 := PlaceOf(e1, filter, origin, miles, Locate(e1).point);
    var p2 := PlaceOf(e2, filter, origin, miles, Locate(e2).point);
    assert es[..0] == [] && es[..2] == es && es[0] == e1 && es[1] == e2;
    CandidatesStep(es, 0, filter, origin, miles);
    CandidatesStep(es, 1, filter, origin, miles);
    assert [] + [p1] == [p1] && [p1] + [p2] == [p1, p2];
  }

  /** Of two places with the same key only the first is kept. */
  lemma DedupOfTwo(p1: Place, p2: Place, round5: real -> real)
    requires KeyOf(p1, round5) == KeyOf(p2, round5)
    ensures DedupFirst([p1, p2], round5) == [p1]
  {
    DedupFirstSnoc([], p1, round5);
    DedupFirstSnoc([p1], p2, round5);
    assert [] + [p1] == [p1] && [p1] + [p2] == [p1, p2];
    assert KeyOf(p2, round5) in KeysOf([p1], round5);
  }

  /**
   * Two features with the same name whose positions agree to five decimal places are listed
   * once, as the first of them: here one carries its own `lat`/`lon` and the other only a
   * `center`.
   */
  lemma RepeatedFeatureListedOnce(lat1: real, lon1: real, lat2: real, lon2: real, tags: Tags,
                                  filter: string, origin: Coordinate,
                                  round5: real -> real, miles: (Coordinate, Coordinate) -> real)
    requires round5(lat1) == round5(lat2) && round5(lon1) == round5(lon2)
    ensures var e1 := Element(Some(lat1), Some(lon1), None, tags);
      var e2 := Element(None, None, Some(Center(Some(lat2), Some(lon2))), tags);
      Nearby(origin, filter, Elements([e1, e2]), round5, miles)
        == [PlaceOf(e1, filter, origin, miles, Coordinate(lat1, lon1))]
  {
    var e1 := Element(Some(lat1), Some(lon1), None, tags);
    var e2 := Element(None, None, Some(Center(Some(lat2), Some(lon2))), tags);
    assert Locate(e2) == At(Coordinate(lat2, lon2));
    var p1 := PlaceOf(e1, filter, origin, miles, Coordinate(lat1, lon1));
    var p2 := PlaceOf(e2, filter, origin, miles, Coordinate(lat2, lon2));
    CandidatesOfTwo(e1, e2, filter, origin, miles);
    DedupOfTwo(p1, p2, round5);
    assert SortBy([p1], Distance) == [p1] by {
      assert [p1][1..] == [];
    }
  }

  /** A feature with a `lat` but no `lon` aborts the whole search, however good the others are. */
  lemma MalformedElementEmptiesSearch(origin: Coordinate, round5: real -> real, miles: (Coordinate, Coordinate) -> real)
    ensures var good := Element(Some(55.0), Some(-1.5), None, []);
      var bad := Element(Some(54.0), None, None, []);
      Nearby(origin, "amenity=school", Elements([good, bad]), round5, miles) == []
  {
    var bad := Element(Some(54.0), None, None, []);
    assert Locate(bad) == Malformed;
  }

  /** "nw1" is labelled "London area" while its trees go to the fallback site. */
  lemma NorthWestLondonExample()
    ensures RegionLabel("nw1") == "London area"
    ensures GetTreeSite("nw1") == Fallback
  {
    var p := "nw1";
    assert NoUpper(p);
    LabelMatchesSite(p);
    assert p[..1] == "n" && p[..2] == "nw";
    assert "nw"[1] != "ne"[1] && "nw"[1] != "n1"[1];
    assert "n" <= p && !("ne" <= p) && !("n1" <= p);
  }
}
