# Tech for Trees: a verified model of the donation page

The page (`stream_app.py`) takes a donor's postcode and four check boxes. It then does five things:

- It geocodes the postcode with a postcode service. A blank postcode, or any failed or unexpected answer, gives the fallback coordinate (54.5, -1.5).
- For each ticked category (schools, supermarkets, post offices, recycling centres) it asks a point-of-interest service for nearby features.
- It turns those features into place records and drops repeated places. The first occurrence wins.
- It keeps the five nearest places of each search, merges the categories in a fixed order and again keeps the five nearest.
- It picks an illustrative tree-planting coordinate and a region label from the postcode prefix.

This project models that flow in Dafny and proves what each step promises.

Modules:

- `Text` (`text.dfy`) models Python's `str.lower()`, `str.strip()` and `", ".join`.
- `Geo` (`postcode.dfy`) models `lookup_postcode`. The postcode service is a function from the normalised postcode to its decoded answer.
- `Regions` (`regions.dfy`) models `get_tree_site` and the page's region-label chain. The two chains test different London prefixes ("n1" for the site, "n" for the label), and `LabelMatchesSite` states exactly where they disagree.
- `Ranking` (`ranking.dfy`) models Python's `sorted(..., key=...)[:n]` as a stable insertion sort. The sort is proved sorted, a permutation and stable, and it is proved to be the only stable ordering. It also proves that the kept prefix holds the nearest elements.
- `Overpass` (`overpass.dfy`) models `get_nearby_places_overpass`:
  - `Nearby` is the function specification.
  - `NearbyPlaces` is the source's loop, with its `seen` set, proved equal to `Nearby`.
- `Donation` (`donation.dfy`) models the "Donate" action:
  - `DropOffLocations` is the four-category merge, appending place by place.
  - `Donate` is the whole press of the button.
- `Examples` (`examples.dfy`) proves concrete scenarios from the general model.

External services and numeric library calls are parameters:

- `geocoder: string -> GeoResponse` is the postcode service, given the decoded HTTP answer for a normalised postcode.
- `overpass: (Coordinate, string) -> OverpassResponse` is the point-of-interest service, given the decoded answer for a filter around a coordinate.
- `miles` is the geodesic distance in miles, rounded to three decimals.
- `round5` is `round(x, 5)`.

## Model

| member | source | states |
|---|---|---|
| Text.LowerChar | stream_app.py:10 | a capital becomes the small letter at the same place in the alphabet; every other character is unchanged; the result is never a capital |
| Text.Lower | stream_app.py:10 | lowering keeps the length and leaves no capital; at each position a capital becomes the matching small letter and any other character stays; a text without capitals is unchanged |
| Text.LeadingBlanks | stream_app.py:10 | the count of leading whitespace: everything before it is whitespace and the character at it is not |
| Text.TextEnd | stream_app.py:10 | the end of the text without trailing whitespace: everything after it is whitespace and the character before it is not |
| Text.Strip | stream_app.py:10 | the stripped text is empty exactly when the input is all whitespace; otherwise it starts and ends with non-whitespace |
| Text.StripIsSlice | stream_app.py:10 | the stripped text is a contiguous slice of the input with only whitespace cut off on both sides |
| Text.StripStripped | stream_app.py:10 | stripping a text that has no outer whitespace returns it unchanged |
| Text.Join | stream_app.py:77 | joining no parts gives the empty text; joining one part gives that part |
| Text.JoinSnoc | stream_app.py:77 | joining one more part appends the separator and that part, so the parts appear in order with the separator between neighbours |
| Geo.Normalize | stream_app.py:10 | normalising never lengthens the postcode (its other properties are the lemmas below) |
| Geo.NormalizeBlank | stream_app.py:10-12 | the normalised postcode is empty exactly when the typed text is all whitespace; otherwise it has no outer whitespace |
| Geo.NormalizeIsLower | stream_app.py:10 | a normalised postcode has no capital letter |
| Geo.NormalizeKeepsNormal | stream_app.py:10 | a postcode already in lower case without outer whitespace is its own normal form |
| Geo.NormalizeIdempotent | stream_app.py:10 | normalising twice is normalising once |
| Geo.Answer | stream_app.py:16-21 | an answer is accepted exactly when it has HTTP 200, a JSON body whose `status` is numerically 200 (`200` and `200.0` alike) and a result that has both latitude and longitude, and it yields those two values |
| Geo.LookupPostcode | stream_app.py:9-24 | a blank postcode gives the fallback; a non-fallback result is the accepted answer for the non-empty normalised postcode; an accepted answer is returned; every other path gives the fallback |
| Geo.BlankPostcodeNeverQueries | stream_app.py:11-12 | for a blank postcode the result does not depend on the service at all |
| Geo.LookupAsksForNormalizedPostcode | stream_app.py:10-15 | two services that answer the normalised postcode alike give the same result: only that request matters |
| Geo.LookupNormalizedAgain | stream_app.py:124 | looking up the already normalised text box value gives what looking up the raw text would give |
| Regions.GetTreeSite | stream_app.py:34-45 | the site is one of the four table entries or the fallback |
| Regions.TreeSitePriority | stream_app.py:36-45 | each site is chosen exactly when its prefix matches the lowered postcode and no earlier prefix did (ne, yo, n1 or e, m, else the fallback) |
| Regions.RegionLabel | stream_app.py:168-176 | the label is one of the five labels the page can show |
| Regions.LabelMatchesSite | stream_app.py:167-176 | for a postcode without capitals, the label and the site agree for Northumberland, Yorkshire and Manchester (both ways); London's site implies the London label; "your region" implies the fallback site; the London label comes without the London site exactly for postcodes starting with "n" but not "ne" or "n1", and those get the fallback site |
| Ranking.WithKeyMembers | stream_app.py:94 | the elements of a given key are exactly the members with that key |
| Ranking.Insert | stream_app.py:94 | insertion adds one element, at the front or behind the old head, and keeps a sorted list sorted |
| Ranking.SortBy | stream_app.py:94 | the sorted list has the input's length and is non-decreasing by key |
| Ranking.InsertPermutes | stream_app.py:94 | insertion adds exactly the new element to the multiset |
| Ranking.SortByPermutes | stream_app.py:94 | sorting is a permutation |
| Ranking.InsertKeepsTies | stream_app.py:94 | among elements of one key, the inserted one goes first |
| Ranking.SortByStable | stream_app.py:94 | sorting keeps the input order among elements with equal keys |
| Ranking.SortedHeadIsLeast | stream_app.py:94 | the head of a sorted list has the least key |
| Ranking.StableOrderIsUnique | stream_app.py:94 | two sorted lists with the same elements of each key in the same order are equal |
| Ranking.SortByIsTheStableSort | stream_app.py:94 | any sorted list that keeps each key's input order is the result of `SortBy` |
| Ranking.TopBy | stream_app.py:94 | the kept prefix has length min(n, input length) and is sorted |
| Ranking.TopByKeepsNearest | stream_app.py:94 | the kept elements come from the input, and each is at least as near as every element left out |
| Ranking.InsertIds | stream_app.py:94 | insertion adds exactly the new element's identity to the identities present |
| Ranking.InsertKeepsDistinct | stream_app.py:94 | inserting an element with a new identity keeps identities distinct |
| Ranking.SortByKeepsDistinct | stream_app.py:94 | sorting keeps identities and keeps them distinct |
| Ranking.TopByKeepsDistinct | stream_app.py:94 | the kept prefix of a list with distinct identities has distinct identities |
| Ranking.WithKeyOfPrefix | stream_app.py:94 | the elements of one key in a prefix are a prefix of that key's elements |
| Ranking.TopByStable | stream_app.py:94 | cutting the sorted list keeps, among equal keys, a prefix of their input order |
| Overpass.Lookup | stream_app.py:74 | a found value belongs to that key; nothing is found exactly when no tag has the key |
| Overpass.PlaceName | stream_app.py:74 | without a `name` tag the name is the filter string; with one it is that tag's value |
| Overpass.AddressParts | stream_app.py:75-76 | there are never more address parts than tags |
| Overpass.AddressAt | stream_app.py:75-76 | the positions of address tags, increasing, each naming a tag whose key is `addr:street`, `addr:postcode` or `addr:city` |
| Overpass.AddressAtCovers | stream_app.py:75-76 | every tag with one of those keys is at one of those positions |
| Overpass.AddressPartsAreTagValues | stream_app.py:75-76 | the address parts are exactly the values of the address tags, the k-th part being the value of the k-th address tag |
| Overpass.AddressPartsEmpty | stream_app.py:75-77 | there are no address parts exactly when no tag is `addr:street`, `addr:postcode` or `addr:city` |
| Overpass.AddressPartsKeepOrder | stream_app.py:75-76 | the parts follow the tags' own order: the parts of two runs of tags are the first run's parts followed by the second's |
| Overpass.Address | stream_app.py:77 | without address tags the address is "No address"; with any, it is the address parts joined by ", " |
| Overpass.Locate | stream_app.py:67-72 | own `lat`/`lon` come first, then the `center`; an element with neither is skipped; a `lat` without `lon` or an incomplete `center` is malformed, exactly |
| Overpass.Candidates | stream_app.py:66-91 | records exist exactly when no element is malformed, and there are at most as many records as elements |
| Overpass.LocatedAt | stream_app.py:66-72 | the listed positions are increasing, in range and located |
| Overpass.LocatedAtCovers | stream_app.py:66-72 | every located element's position is listed |
| Overpass.CandidatesFromElements | stream_app.py:66-91 | the records are, one for one and in order, the records of the located elements |
| Overpass.PlaceOf | stream_app.py:74-91 | the record's name is the `name` tag's value, or the filter when there is no `name` tag; its address is "No address" without address tags and otherwise the address parts joined by ", "; it lies at the coordinate the element was found at, with the distance from the origin to that coordinate |
| Overpass.SameKey | stream_app.py:79 | two places share a key exactly when their names and both rounded coordinates agree; address and distance play no part |
| Overpass.DedupFirst | stream_app.py:79-82 | de-duplication never adds places |
| Overpass.DedupKeepsEveryKey | stream_app.py:79-82 | de-duplication loses no key: the kept keys are all the input keys |
| Overpass.DedupUniqueKeys | stream_app.py:79-82 | no two kept places share a key |
| Overpass.DedupFirstWins | stream_app.py:79-85 | the kept places are a subsequence of the input, in input order, and each is the first input place with its key |
| Overpass.Nearby | stream_app.py:60-97 | at most five places, non-decreasing by distance |
| Overpass.NearbyKeepsNearest | stream_app.py:60-97 | a failed request or a malformed element gives no places; otherwise the result has min(5, distinct places) entries with distinct keys, drawn from the de-duplicated records, each at least as near as every record left out |
| Overpass.NearbyPlaces | stream_app.py:60-97 | the loop with its `seen` set computes exactly `Nearby` |
| Donation.Filter | stream_app.py:139-152 | every category filters on the `amenity` key except supermarkets, which filter on `shop` |
| Donation.FiltersDiffer | stream_app.py:139-152 | different categories search with different filters |
| Donation.Label | stream_app.py:139-152 | each label starts with one or more code points at or above U+2600 (the pictograph), followed by a space and further text |
| Donation.LabelsDiffer | stream_app.py:138-152 | different categories are shown with different labels |
| Donation.Section | stream_app.py:138-152 | an unticked category contributes nothing; a ticked one contributes its search results in order, each with its label, at most five |
| Donation.Gathered | stream_app.py:136-152 | the merged list holds at most twenty places, and none when no box is ticked |
| Donation.CollectCategory | stream_app.py:138-140 | the result is the list so far followed by that category's search results, in their order, each labelled with the category |
| Donation.DropOffLocations | stream_app.py:136-159 | the shown list is the five nearest of the ticked categories' places, merged in category order and sorted stably |
| Donation.ShownAreNearest | stream_app.py:158-165 | at most five are shown, nearest first, drawn from the merged list, none farther than one left out; nothing is shown exactly when every ticked search came back empty |
| Donation.GatheredFromEnabled | stream_app.py:136-152 | every merged entry is a place returned by a ticked category's search, with that category's label |
| Donation.ShownFromEnabledSearches | stream_app.py:136-159 | every shown point comes from a ticked category's search and carries its label; no point of an unticked category is shown |
| Donation.ShownTiesKeepCategoryOrder | stream_app.py:159 | shown points at equal distance keep their merged order: category order, then each search's own order |
| Donation.Donate | stream_app.py:124-176 | the postcode is normalised once; the origin is the lookup of the typed text; the shown list is the merge for that origin; the site and label come from the normalised postcode and disagree exactly on "n" prefixes other than "ne" and "n1" |
| Examples.StripExample | stream_app.py:10 | " ne23 " strips to "ne23" |
| Examples.NormalizeExample | stream_app.py:10 | " NE23 " normalises to "ne23" |
| Examples.LookupSuccessExample | stream_app.py:9-24 | a good answer for "ne23" is returned for " NE23 " |
| Examples.LookupFailureExamples | stream_app.py:13-24 | a 404, no answer, a non-JSON body and a result without longitude each give the fallback |
| Examples.AddressExample | stream_app.py:75-77 | street and city tags around a name tag give "Main St, Leeds" |
| Examples.RepeatedFeatureListedOnce | stream_app.py:66-97 | two features with the same name whose coordinates round to the same five decimals, one with its own `lat`/`lon` and one with only a `center`, are listed once, as the first |
| Examples.MalformedElementEmptiesSearch | stream_app.py:66-70 | a `lat` without `lon` empties the whole search |
| Examples.NorthWestLondonExample | stream_app.py:167-176 | "nw1" is labelled "London area" while its trees go to the fallback site |

## Left out

- The Streamlit interface is not modelled: page set-up, styling, the name and item-count inputs, the messages, the `postcode.upper()` display and `time.sleep`. Only the values those messages show are computed.
- HTTP, JSON decoding and timeouts are not modelled. Each service is its decoded answer, as described above. `Failed` stands for any exception from the request, `raise_for_status`, the decoding or a missing `elements` member.
- The query text and its 8046 m radius are not modelled. The service answer is taken as given for a filter and an origin.
- The geodesic distance and Python's `round` are parameters, not definitions. A `ValueError` that geopy could raise for out-of-range coordinates would empty a search; the model's `miles` is total and does not capture that.
- The error message that `st.error` shows when a search fails is not modelled. Only the empty result is.
- Text.Lower: lowers only the ASCII capitals A to Z. Python's `str.lower()` also lowers other scripts, which no postcode prefix test depends on.
- Overpass.Lookup: a tags object is a sequence of key-value pairs in object order, and the first pair with a key wins. Python's JSON decoder keeps the last value of a repeated key. Objects with repeated keys are not modelled faithfully.
- JSON `null` is not modelled: a member that is present but `null` is treated as missing. In the source, a `null` element coordinate makes `round` raise and so empties that search, and a `null` postcode coordinate is returned and makes every later search fail.
- `tree_coords` is computed but never shown by the page. It is modelled as `Outcome.site`.
