/**
 * The postcode resolver (`lookup_postcode`): normalise the typed postcode, ask the geocoding
 * service about it, and fall back to a fixed coordinate on any kind of failure.
 *
 * The service is a parameter `geocoder` mapping the normalised postcode (the only part of the
 * request URL that varies) to what came back; the HTTP call itself is not modelled.
 */
module Geo {
  import opened Wrappers
  import opened Text

  /** A latitude/longitude pair in degrees (the source's two-element lists). */
  datatype Coordinate = Coordinate(lat: real, lon: real)

  /** The coordinate returned whenever no usable answer is available. */
  const Fallback: Coordinate := Coordinate(54.5, -1.5)

  /**
   * The `result` object of a geocoding answer; `None` stands for a missing key (or a `result`
   * that is not an object), which makes the source's indexing raise.
   */
  datatype GeoResult = GeoResult(latitude: Option<real>, longitude: Option<real>)

  /**
   * The body of an HTTP answer: not a JSON object at all, or an object whose `status` member
   * and `result` member (absent: `None`) are given. A numeric `status`, integer or floating
   * point, is its value as a real, so `200` and `200.0` are the same; a `status` of any other
   * JSON type never equals 200 and is `None` here.
   */
  datatype GeoBody = NotJson | Json(status: Option<real>, result: Option<GeoResult>)

  /** No answer (connection error, timeout) or an HTTP answer with its status code and body. */
  datatype GeoResponse = NoResponse | Http(statusCode: int, body: GeoBody)

  /** The postcode in lower case with surrounding whitespace removed. */
  function Normalize(postcode: string): (r: string)
    ensures |r| <= |postcode|
  {
    Strip(Lower(postcode))
  }

  /**
   * A postcode normalises to the empty string exactly when it is empty or all whitespace;
   * otherwise the result starts and ends with a non-blank character.
   */
  lemma {:induction false} NormalizeBlank(postcode: string)
    ensures Normalize(postcode) == [] <==> forall i :: 0 <= i < |postcode| ==> IsSpace(postcode[i])
    ensures Normalize(postcode) != [] ==> !IsSpace(Normalize(postcode)[0]) && !IsSpace(Normalize(postcode)[|Normalize(postcode)| - 1])
  {
    var lowered := Lower(postcode);
    assert forall i :: 0 <= i < |postcode| ==> (IsSpace(lowered[i]) <==> IsSpace(postcode[i]));
  }

  /** A normalised postcode has no capitals. */
  lemma {:induction false} NormalizeIsLower(postcode: string)
    ensures NoUpper(Normalize(postcode))
  {
    var lowered := Lower(postcode);
    var i, j := StripIsSlice(lowered);
    assert forall k :: 0 <= k < j - i ==> Normalize(postcode)[k] == lowered[i + k];
  }

  /** A postcode without capitals or surrounding blanks is already normal. */
  lemma {:induction false} NormalizeKeepsNormal(postcode: string)
    requires NoUpper(postcode)
    requires postcode == [] || (!IsSpace(postcode[0]) && !IsSpace(postcode[|postcode| - 1]))
    ensures Normalize(postcode) == postcode
  {
    StripStripped(postcode);
  }

  /** Normalising twice is normalising once (the page normalises before calling the resolver). */
  lemma {:induction false} NormalizeIdempotent(postcode: string)
    ensures Normalize(Normalize(postcode)) == Normalize(postcode)
  {
    NormalizeIsLower(postcode);
    NormalizeBlank(postcode);
    NormalizeKeepsNormal(Normalize(postcode));
  }

  /**
   * The success test of the resolver: an HTTP 200 answer whose JSON object has `status` 200 and
   * a `result` holding both `latitude` and `longitude`. Any other answer is `None`: the source
   * either skips the branch or raises inside the `try`, and both end in the fallback.
   */
  function Answer(response: GeoResponse): (r: Option<Coordinate>)
    ensures r.Some? ==> response.Http? && response.statusCode == 200
    ensures r.Some? ==> response.body.Json? && response.body.status == Some(200.0) && response.body.result.Some?
    ensures r.Some? ==> response.body.result.value.latitude == Some(r.value.lat)
                        && response.body.result.value.longitude == Some(r.value.lon)
    ensures (response.Http? && response.statusCode == 200 && response.body.Json? && response.body.status == Some(200.0)
             && response.body.result.Some? && response.body.result.value.latitude.Some?
             && response.body.result.value.longitude.Some?) ==> r.Some?
  {
    match response
    case Http(200, Json(Some(status), Some(GeoResult(Some(lat), Some(lon))))) =>
      if status == 200.0 then Some(Coordinate(lat, lon)) else None
    case _ => None
  }

  /** `lookup_postcode(postcode)`. */
  function LookupPostcode(postcode: string, geocoder: string -> GeoResponse): (r: Coordinate)
    ensures (forall i :: 0 <= i < |postcode| ==> IsSpace(postcode[i])) ==> r == Fallback
    ensures r != Fallback ==> Normalize(postcode) != [] && Answer(geocoder(Normalize(postcode))) == Some(r)
    ensures Normalize(postcode) != [] && Answer(geocoder(Normalize(postcode))).Some?
            ==> r == Answer(geocoder(Normalize(postcode))).value
    ensures Normalize(postcode) != [] && Answer(geocoder(Normalize(postcode))).None? ==> r == Fallback
  {
    NormalizeBlank(postcode);
    var postcode := Normalize(postcode);
    if postcode == [] then Fallback
    else
      match Answer(geocoder(postcode))
      case Some(c) => c
      case None => Fallback
  }

  /** An empty or all-whitespace postcode never reaches the geocoding service. */
  lemma BlankPostcodeNeverQueries(postcode: string, g1: string -> GeoResponse, g2: string -> GeoResponse)
    requires forall i :: 0 <= i < |postcode| ==> IsSpace(postcode[i])
    ensures LookupPostcode(postcode, g1) == LookupPostcode(postcode, g2) == Fallback
  {
  }

  /** The only request that matters is the one for the normalised postcode. */
  lemma LookupAsksForNormalizedPostcode(postcode: string, g1: string -> GeoResponse, g2: string -> GeoResponse)
    requires g1(Normalize(postcode)) == g2(Normalize(postcode))
    ensures LookupPostcode(postcode, g1) == LookupPostcode(postcode, g2)
  {
  }

  /**
   * Looking up a postcode that was already normalised asks for the same thing and gives the
   * same coordinate as looking up the raw text.
   */
  lemma LookupNormalizedAgain(postcode: string, geocoder: string -> GeoResponse)
    ensures LookupPostcode(Normalize(postcode), geocoder) == LookupPostcode(postcode, geocoder)
  {
    NormalizeIdempotent(postcode);
  }
}
