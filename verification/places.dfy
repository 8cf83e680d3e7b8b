/** The record-building and fail-soft merge logic of `backend/places_api.py`. The HTTP exchange
    itself is replaced by its decoded outcome: an `ApiResponse` for a nearby search and a
    `DetailsResponse` for a place-details lookup. */
module Places {
  import opened Wrappers
  import opened Geometry

  /** The `opening_hours` object of a raw result, reduced to its `open_now` entry. */
  datatype OpeningHours = OpeningHours(openNow: Option<bool>)

  /** One entry of the `results` array of a nearby-search response. `None` marks a missing key. */
  datatype RawPlace = RawPlace(
    placeId: Option<string>,
    name: Option<string>,
    vicinity: Option<string>,
    lat: Option<real>,
    lng: Option<real>,
    rating: Option<real>,
    userRatingsTotal: Option<int>,
    types: Option<seq<string>>,
    priceLevel: Option<int>,
    openingHours: Option<OpeningHours>,
    photoCount: nat)

  /** The place record the rest of the pipeline passes around and eventually returns.
      `formattedAddress` and `distanceFromCenter` are `None` until a later stage sets them. */
  datatype Place = Place(
    placeId: Option<string>,
    name: string,
    address: string,
    lat: real,
    lng: real,
    rating: real,
    userRatingsTotal: int,
    types: seq<string>,
    keyword: string,
    distance: real,
    priceLevel: Option<int>,
    openNow: Option<bool>,
    photos: bool,
    website: Option<string>,
    emails: seq<string>,
    phone: Option<string>,
    formattedAddress: Option<string>,
    distanceFromCenter: Option<real>)

  /** The decoded outcome of one nearby-search request: the JSON body's `status` and `results`
      (each `None` when the key is missing), or a transport/decoding failure. */
  datatype ApiResponse =
    | Response(status: Option<string>, results: Option<seq<RawPlace>>)
    | RequestFailed

  /** The arguments of one `nearby_search` call. */
  datatype Query = Query(lat: real, lng: real, radiusKm: real, keyword: string)

  predicate HasCoordinates(q: RawPlace) {
    q.lat.Some? && q.lng.Some?
  }

  /** A place as first recorded: the keyword of the search that found it, no website, phone or
      emails yet, and none of the later stages' fields. */
  predicate FreshlyParsed(p: Place, keyword: string) {
    && p.keyword == keyword
    && p.website.None? && p.phone.None? && p.emails == []
    && p.formattedAddress.None? && p.distanceFromCenter.None?
  }

  /** One raw result turned into a record, with the source's defaults for missing keys. */
  function ParsePlace(geo: Geo, q: RawPlace, searchLat: real, searchLng: real, keyword: string): (p: Place)
    requires HasCoordinates(q)
    ensures FreshlyParsed(p, keyword)
    ensures p.placeId == q.placeId && p.lat == q.lat.value && p.lng == q.lng.value
    ensures q.name.None? ==> p.name == ""
    ensures q.name.Some? ==> p.name == q.name.value
    ensures q.vicinity.None? ==> p.address == ""
    ensures q.vicinity.Some? ==> p.address == q.vicinity.value
    ensures q.rating.None? ==> p.rating == 0.0
    ensures q.rating.Some? ==> p.rating == q.rating.value
    ensures q.userRatingsTotal.None? ==> p.userRatingsTotal == 0
    ensures q.userRatingsTotal.Some? ==> p.userRatingsTotal == q.userRatingsTotal.value
    ensures q.types.None? ==> p.types == []
    ensures q.types.Some? ==> p.types == q.types.value
    ensures p.priceLevel == q.priceLevel
    ensures q.openingHours.None? ==> p.openNow.None?
    ensures q.openingHours.Some? ==> p.openNow == q.openingHours.value.openNow
    ensures p.photos <==> q.photoCount > 0
    ensures p.distance == Round2(geo.distance(searchLat, searchLng, p.lat, p.lng))
  {
    var lat := q.lat.value;
    var lng := q.lng.value;
    Place(
      q.placeId, q.name.GetOr(""), q.vicinity.GetOr(""), lat, lng,
      q.rating.GetOr(0.0), q.userRatingsTotal.GetOr(0), q.types.GetOr([]), keyword,
      Round2(geo.distance(searchLat, searchLng, lat, lng)), q.priceLevel,
      match q.openingHours { case None => None case Some(h) => h.openNow },
      q.photoCount > 0, None, [], None, None, None)
  }

  /** `_parse_places`: results without both coordinates are skipped, the rest are converted in order. */
  function ParsePlaces(geo: Geo, raws: seq<RawPlace>, searchLat: real, searchLng: real, keyword: string)
    : (r: seq<Place>)
    ensures |r| <= |raws|
    ensures forall p :: p in r ==> FreshlyParsed(p, keyword)
    ensures (forall q :: q in raws ==> HasCoordinates(q)) ==> |r| == |raws|
    ensures (forall q :: q in raws ==> !HasCoordinates(q)) ==> r == []
  {
    if raws == [] then []
    else
      var rest := ParsePlaces(geo, raws[1..], searchLat, searchLng, keyword);
      if HasCoordinates(raws[0]) then [ParsePlace(geo, raws[0], searchLat, searchLng, keyword)] + rest
      else rest
  }

  /** Parsing distributes over concatenation, so the output keeps the input's order. */
  lemma {:induction false} ParsePlacesAppend(geo: Geo, a: seq<RawPlace>, b: seq<RawPlace>,
                                             searchLat: real, searchLng: real, keyword: string)
    ensures ParsePlaces(geo, a + b, searchLat, searchLng, keyword)
         == ParsePlaces(geo, a, searchLat, searchLng, keyword) + ParsePlaces(geo, b, searchLat, searchLng, keyword)
  {
    if a != [] {
      var head := if HasCoordinates(a[0]) then [ParsePlace(geo, a[0], searchLat, searchLng, keyword)] else [];
      assert (a + b)[0] == a[0] && (a + b)[1..] == a[1..] + b;
      ParsePlacesAppend(geo, a[1..], b, searchLat, searchLng, keyword);
      assert ParsePlaces(geo, a + b, searchLat, searchLng, keyword)
          == head + ParsePlaces(geo, a[1..] + b, searchLat, searchLng, keyword);
      assert ParsePlaces(geo, a, searchLat, searchLng, keyword)
          == head + ParsePlaces(geo, a[1..], searchLat, searchLng, keyword);
    } else {
      assert a + b == b;
    }
  }

  /** Every parsed record comes from a raw result that had both coordinates, and each such raw
      result yields exactly the record `ParsePlace` builds with the defaults. */
  lemma {:induction false} ParsePlacesOrigin(geo: Geo, raws: seq<RawPlace>,
                                             searchLat: real, searchLng: real, keyword: string)
    ensures forall p :: p in ParsePlaces(geo, raws, searchLat, searchLng, keyword) ==>
      exists q :: q in raws && HasCoordinates(q) && p == ParsePlace(geo, q, searchLat, searchLng, keyword)
    ensures forall q :: q in raws && HasCoordinates(q) ==>
      ParsePlace(geo, q, searchLat, searchLng, keyword) in ParsePlaces(geo, raws, searchLat, searchLng, keyword)
  {
    if raws != [] {
      ParsePlacesOrigin(geo, raws[1..], searchLat, searchLng, keyword);
      assert forall q :: q in raws ==> q == raws[0] || q in raws[1..];
    }
  }

  /** `nearby_search`: only status `OK` yields parsed results; `ZERO_RESULTS`, any other or missing
      status, and a failed request all yield no places. */
  function NearbySearch(geo: Geo, resp: ApiResponse, q: Query): (r: seq<Place>)
    ensures r != [] ==> resp.Response? && resp.status == Some("OK")
    ensures resp.Response? && resp.status == Some("OK") ==>
      r == ParsePlaces(geo, resp.results.GetOr([]), q.lat, q.lng, q.keyword)
    ensures forall p :: p in r ==> FreshlyParsed(p, q.keyword)
  {
    match resp
    case RequestFailed => []
    case Response(status, results) =>
      if status == Some("OK") then ParsePlaces(geo, results.GetOr([]), q.lat, q.lng, q.keyword)
      else []
  }

  /** A value of the place-details `result` object: a string, JSON null, or anything else. */
  datatype DetailValue = Text(s: string) | Null | Structured

  /** The `result` member of a details response: an object, or some other JSON value, which is
      falsy (null, empty list, …) or truthy. */
  datatype DetailsPayload = Object(fields: map<string, DetailValue>) | NonObject(truthy: bool)

  /** The decoded outcome of one place-details request. */
  datatype DetailsResponse =
    | DetailsReply(status: Option<string>, result: Option<DetailsPayload>)
    | DetailsRequestFailed

  /** `get_place_details`: the `result` member (an empty object when it is missing) on status
      `OK`; nothing on any other status or a failed request. */
  function GetPlaceDetails(resp: DetailsResponse): (r: Option<DetailsPayload>)
    ensures r.Some? <==> resp.DetailsReply? && resp.status == Some("OK")
    ensures r.Some? && resp.result.None? ==> r.value == Object(map[])
    ensures r.Some? && resp.result.Some? ==> r.value == resp.result.value
  {
    match resp
    case DetailsRequestFailed => None
    case DetailsReply(status, result) =>
      if status == Some("OK") then Some(result.GetOr(Object(map[]))) else None
  }

  /** `details.get(key)` for a string-valued field. */
  function TextField(fields: map<string, DetailValue>, key: string): Option<string> {
    if key in fields && fields[key].Text? then Some(fields[key].s) else None
  }

  /** A `place_id` that is present and non-empty, the only kind that is looked up. */
  predicate HasLookupId(p: Place) {
    p.placeId.Some? && p.placeId.value != ""
  }

  /** The non-empty details object found for `p`, if any: the only case in which `p` is updated. */
  function FoundDetails(p: Place, details: string -> DetailsResponse): Option<map<string, DetailValue>> {
    if !HasLookupId(p) then None
    else
      match GetPlaceDetails(details(p.placeId.value))
      case Some(Object(m)) => if |m| > 0 then Some(m) else None
      case _ => None
  }

  /** One iteration of `enrich_places_with_details`. A missing id, a failed lookup and an empty
      object leave the place as it is; so does a non-object payload, either because it is falsy or
      because reading from it raises and the handler keeps the place. */
  function EnrichPlace(p: Place, details: string -> DetailsResponse): (r: Place)
    ensures FoundDetails(p, details).None? ==> r == p
    ensures FoundDetails(p, details).Some? ==>
      var m := FoundDetails(p, details).value;
      && r.website == TextField(m, "website")
      && r.phone == TextField(m, "formatted_phone_number")
      && r.formattedAddress == (if "formatted_address" in m then TextField(m, "formatted_address") else Some(p.address))
    ensures r == p.(website := r.website, phone := r.phone, formattedAddress := r.formattedAddress)
  {
    if !HasLookupId(p) then p
    else
      match GetPlaceDetails(details(p.placeId.value))
      case None => p
      case Some(NonObject(_)) => p
      case Some(Object(m)) =>
        if |m| == 0 then p
        else
          p.(website := TextField(m, "website"),
             phone := TextField(m, "formatted_phone_number"),
             formattedAddress :=
               if "formatted_address" in m then TextField(m, "formatted_address") else Some(p.address))
  }

  /** `enrich_places_with_details`: one output per input, in the same order, each place updated
      at most in its website, phone and formatted address. */
  function EnrichPlaces(places: seq<Place>, details: string -> DetailsResponse): (r: seq<Place>)
    ensures |r| == |places|
    ensures forall i :: 0 <= i < |r| ==>
      r[i] == places[i].(website := r[i].website, phone := r[i].phone, formattedAddress := r[i].formattedAddress)
    ensures forall i :: 0 <= i < |r| && FoundDetails(places[i], details).None? ==> r[i] == places[i]
    ensures forall i :: 0 <= i < |r| && FoundDetails(places[i], details).Some? ==>
      var m := FoundDetails(places[i], details).value;
      && r[i].website == TextField(m, "website")
      && r[i].phone == TextField(m, "formatted_phone_number")
      && r[i].formattedAddress ==
           (if "formatted_address" in m then TextField(m, "formatted_address") else Some(places[i].address))
  {
    seq(|places|, i requires 0 <= i < |places| => EnrichPlace(places[i], details))
  }
}
