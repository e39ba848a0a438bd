/** The values the check-in engine stores and passes around: location records, the payload of the
    `SisterLocationReceived` event, contacts and trusted senders, and the location a parser extracts. */
module Records {
  import opened Wrappers
  import opened Numbers

  /** What a stored JSON string holds: the value it decodes to, or text that `JSON.parse` (or
      `new JSONArray`) rejects. Every writer stores the serialisation of an object or array, so a
      stored string is never empty. */
  datatype Json<T> = Decoded(value: T) | Malformed

  /** A `lastLocation_<phone>` record. A number or URL field that is absent or `null` is `None`;
      a falsy `timestamp` (absent or 0) is 0; `parsed` is only written by the native receiver. */
  datatype LocationRecord = LocationRecord(
    latitude: Option<Decimal>,
    longitude: Option<Decimal>,
    mapUrl: Option<string>,
    rawMessage: string,
    timestamp: nat,
    parsed: Option<bool>)

  /** The JSON payload of a `SisterLocationReceived` event. Absent text fields are empty, an absent
      timestamp is 0. */
  datatype LocationEvent = LocationEvent(
    from: string,
    canonicalPhone: string,
    rawMessage: string,
    parsed: bool,
    timestamp: nat,
    latitude: Option<Decimal>,
    longitude: Option<Decimal>,
    mapUrl: Option<string>)

  /** A sister as the brother's list stores her: `{ name, phone, code }`. */
  datatype Contact = Contact(name: string, phone: string, code: string)

  /** A trusted sender as the sister's list stores it: `{ phone, keyword }`. */
  datatype TrustedEntry = TrustedEntry(phone: string, keyword: string)

  /** A trusted sender in the older sister screen's list: `{ id, number, keyword }`. */
  datatype TrustedNumber = TrustedNumber(id: string, number: string, keyword: string)

  /** What a location parser extracts from a text: coordinates (with the map link rebuilt from them)
      or a map link alone. */
  datatype Location =
    | Coordinates(latitude: Decimal, longitude: Decimal, mapUrl: string)
    | MapLink(mapUrl: string)

  const GoogleMapsPrefix: string := "https://maps.google.com/?q="

  /** The map link every coordinate result carries: the prefix, the latitude, a comma, the longitude. */
  function GoogleMapsUrl(latText: string, lonText: string): (r: string)
    ensures |r| == |GoogleMapsPrefix| + |latText| + 1 + |lonText|
    ensures r[..|GoogleMapsPrefix|] == GoogleMapsPrefix
  {
    GoogleMapsPrefix + latText + "," + lonText
  }

  /** A JavaScript string is truthy when it is not empty. */
  predicate Truthy(s: Option<string>) { s.Some? && s.value != [] }

  /** `hasCoordsOrUrl`: a record with both coordinates (0 counts as present) or a non-empty map link. */
  predicate HasCoordsOrUrl(r: Option<LocationRecord>) {
    r.Some? && ((r.value.latitude.Some? && r.value.longitude.Some?) || Truthy(r.value.mapUrl))
  }

  /** `isSameCoord`: with four coordinates present, numeric equality of both pairs; otherwise, with two
      non-empty map links, equality of the links; otherwise false. */
  predicate IsSameCoord(a: Option<LocationRecord>, b: Option<LocationRecord>) {
    if a.None? || b.None? then false
    else if a.value.latitude.Some? && b.value.latitude.Some? && a.value.longitude.Some? && b.value.longitude.Some? then
      SameNumber(a.value.latitude.value, b.value.latitude.value) &&
      SameNumber(a.value.longitude.value, b.value.longitude.value)
    else if Truthy(a.value.mapUrl) && Truthy(b.value.mapUrl) then a.value.mapUrl.value == b.value.mapUrl.value
    else false
  }

  /** A record is the same location as itself exactly when it has coordinates or a link. */
  lemma IsSameCoordSelf(r: Option<LocationRecord>)
    ensures IsSameCoord(r, r) <==> HasCoordsOrUrl(r)
  {
  }

  /** `isSameCoord` does not depend on the order of its arguments. */
  lemma IsSameCoordSymmetric(a: Option<LocationRecord>, b: Option<LocationRecord>)
    ensures IsSameCoord(a, b) == IsSameCoord(b, a)
  {
  }

  /** Records that are the same location both have coordinates or a link. */
  lemma IsSameCoordHasLocation(a: Option<LocationRecord>, b: Option<LocationRecord>)
    requires IsSameCoord(a, b)
    ensures HasCoordsOrUrl(a) && HasCoordsOrUrl(b)
  {
  }

  /** `{ ...parsed, rawMessage, timestamp }`: a parser result completed into a record. */
  function Enrich(loc: Location, rawMessage: string, timestamp: nat): (r: LocationRecord)
    ensures HasCoordsOrUrl(Some(r)) <==> (loc.Coordinates? || loc.mapUrl != [])
    ensures r.mapUrl == Some(loc.mapUrl) && r.rawMessage == rawMessage && r.timestamp == timestamp
    ensures loc.Coordinates? ==> r.latitude == Some(loc.latitude) && r.longitude == Some(loc.longitude)
    ensures loc.MapLink? ==> r.latitude.None? && r.longitude.None?
  {
    match loc
    case Coordinates(lat, lon, url) => LocationRecord(Some(lat), Some(lon), Some(url), rawMessage, timestamp, None)
    case MapLink(url) => LocationRecord(None, None, Some(url), rawMessage, timestamp, None)
  }
}
