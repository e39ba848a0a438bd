/** The brother's native SMS receiver, `SisterSmsReceiver.onReceive`
    (android/app/src/main/java/com/sis/SisterSmsReceiver.java): it joins the parts of an inbound SMS,
    builds one location record, saves it in `SisterPrefs` under the sender's keys and the first matching
    sister's keys, and emits it to JavaScript. */
module SisterReceiver {
  import opened Wrappers
  import opened Text
  import opened Scan
  import opened Numbers
  import opened Records
  import opened Phones
  import Patterns
  import Lists
  import JavaLocation
  import RoundTrip
  import NativePrefs

  const SmsReceivedAction: string := "android.provider.Telephony.SMS_RECEIVED"

  /** One part of a multipart SMS: its originating address and body, each possibly `null`. */
  datatype SmsPart = SmsPart(address: Option<string>, body: Option<string>)

  /** The sender: the first address that is not `null`. */
  function FirstSender(parts: seq<SmsPart>): (r: Option<string>)
    ensures r.None? <==> forall i :: 0 <= i < |parts| ==> parts[i].address.None?
    ensures r.Some? ==> exists i :: (0 <= i < |parts| && parts[i].address == r &&
      forall j :: 0 <= j < i ==> parts[j].address.None?)
  {
    if parts == [] then None
    else
      var init := parts[..|parts| - 1];
      var r := FirstSender(init);
      assert forall i :: 0 <= i < |init| ==> init[i] == parts[i];
      if r.Some? then r else parts[|parts| - 1].address
  }

  /** The body: the bodies that are not `null`, concatenated in order. */
  function JoinBodies(parts: seq<SmsPart>): (r: string)
    ensures (forall i :: 0 <= i < |parts| ==> parts[i].body.None?) ==> r == []
  {
    if parts == [] then []
    else
      var init := parts[..|parts| - 1];
      assert forall i :: 0 <= i < |init| ==> init[i] == parts[i];
      JoinBodies(init) + parts[|parts| - 1].body.GetOr([])
  }

  /** Joining is compatible with splitting the parts anywhere. */
  lemma {:induction false} JoinBodiesAppend(a: seq<SmsPart>, b: seq<SmsPart>)
    ensures JoinBodies(a + b) == JoinBodies(a) + JoinBodies(b)
    decreases |b|
  {
    if b == [] {
      assert a + b == a;
    } else {
      var b', x := b[..|b| - 1], b[|b| - 1];
      assert b == b' + [x];
      assert a + b == (a + b') + [x];
      JoinBodiesAppend(a, b');
      JoinBodiesSnoc(a + b', x);
      JoinBodiesSnoc(b', x);
      Lists.AppendAssoc(JoinBodies(a), JoinBodies(b'), x.body.GetOr([]));
    }
  }

  /** One more part adds its body at the end. */
  lemma JoinBodiesSnoc(parts: seq<SmsPart>, p: SmsPart)
    ensures JoinBodies(parts + [p]) == JoinBodies(parts) + p.body.GetOr([])
  {
    assert (parts + [p])[..|parts|] == parts;
  }

  /** A single part with a body is read as that body. */
  lemma JoinBodiesSingle(p: SmsPart)
    ensures JoinBodies([p]) == p.body.GetOr([])
  {
    assert [p][..0] == [];
  }

  /** The loop over the parts: the first non-`null` address and the joined bodies. */
  method CombineParts(parts: seq<SmsPart>) returns (sender: Option<string>, body: string)
    ensures sender == FirstSender(parts) && body == JoinBodies(parts)
  {
    sender := None;
    body := [];
    var i := 0;
    while i < |parts|
      invariant 0 <= i <= |parts|
      invariant sender == FirstSender(parts[..i]) && body == JoinBodies(parts[..i])
    {
      assert parts[..i + 1][..i] == parts[..i];
      if sender.None? {
        sender := parts[i].address;
      }
      if parts[i].body.Some? {
        body := body + parts[i].body.value;
      }
      i := i + 1;
    }
    assert parts[..|parts|] == parts;
  }

  /** The saved record: the raw body, the time, and what `tryParseLocation` found; when it found nothing,
      the first URL of any host (trailing `.,)` removed) as the link. `parsed` says whether a link or
      coordinates were saved. */
  function BuildRecord(body: string, now: nat): (r: LocationRecord)
    ensures r.rawMessage == body && r.timestamp == now
    ensures r.parsed == Some(r.mapUrl.Some?)
    ensures r.parsed == Some(true) <==>
      JavaLocation.TryParseLocation(Some(body)).Some? || JavaLocation.FirstUrl(body).Some?
    ensures r.latitude.Some? <==> r.longitude.Some?
    ensures r.latitude.Some? <==> (JavaLocation.TryParseLocation(Some(body)).Some? &&
      JavaLocation.TryParseLocation(Some(body)).value.Coordinates?)
    ensures r.latitude.Some? ==> (JavaLocation.TryParseLocation(Some(body)) ==
      Some(JavaLocation.Located(r.latitude.value, r.longitude.value)))
    ensures HasCoordsOrUrl(Some(r)) <==> r.parsed == Some(true)
  {
    match JavaLocation.TryParseLocation(Some(body))
    case Some(Coordinates(lat, lon, url)) => LocationRecord(Some(lat), Some(lon), Some(url), body, now, Some(true))
    case Some(MapLink(url)) =>
      assert url != [] by {
        assert Patterns.IsMapHost(url);
        var h :| h in Patterns.MapHosts && Contains(Lower(url), h);
      }
      LocationRecord(None, None, Some(url), body, now, Some(true))
    case None =>
      match JavaLocation.FirstUrl(body)
      case Some(url) => LocationRecord(None, None, Some(url), body, now, Some(true))
      case None => LocationRecord(None, None, None, body, now, Some(false))
  }

  /** The keys the sender gives: the raw sender when not `null`, its digits when there are any. */
  function SenderKeys(sender: Option<string>): (r: seq<string>)
    ensures sender.Some? ==> sender.value in r
    ensures NormalizeNumber(sender) != [] ==> NormalizeNumber(sender) in r
    ensures forall k :: k in r ==> Some(k) == sender || (k == NormalizeNumber(sender) && k != [])
  {
    (if sender.Some? then [sender.value] else []) +
    (if NormalizeNumber(sender) != [] then [NormalizeNumber(sender)] else [])
  }

  /** A sister the receiver accepts for a sender: a phone with digits related to the sender's digits by
      suffix or containment. */
  predicate IsMatchingSister(senderNorm: string, c: Contact) {
    c.phone != [] && NormalizePhone(c.phone) != [] && SenderMatchesSister(senderNorm, NormalizePhone(c.phone))
  }

  /** The first matching sister in a decodable list, if any. */
  function MatchingSister(senderNorm: string, list: Option<Json<seq<Contact>>>): (r: Option<Contact>)
    ensures r.Some? ==> list.Some? && list.value.Decoded? && IsMatchingSister(senderNorm, r.value)
    ensures r.Some? ==> exists i :: (0 <= i < |list.value.value| && list.value.value[i] == r.value &&
      forall j :: 0 <= j < i ==> !IsMatchingSister(senderNorm, list.value.value[j]))
    ensures r.None? && list.Some? && list.value.Decoded? ==>
      forall j :: 0 <= j < |list.value.value| ==> !IsMatchingSister(senderNorm, list.value.value[j])
  {
    if list.Some? && list.value.Decoded? then
      var arr := list.value.value;
      match FirstIndex(arr, c => IsMatchingSister(senderNorm, c))
      case Some(i) => Some(arr[i])
      case None => None
    else None
  }

  /** The keys the sister list gives: the matching sister's phone as stored, then its digits. */
  function SisterKeys(senderNorm: string, list: Option<Json<seq<Contact>>>): (r: seq<string>)
    ensures |r| == 0 || |r| == 2
    ensures |r| == 2 <==> MatchingSister(senderNorm, list).Some?
    ensures |r| == 2 ==> r[0] == MatchingSister(senderNorm, list).value.phone && r[1] == NormalizePhone(r[0])
  {
    match MatchingSister(senderNorm, list)
    case Some(c) => [c.phone, NormalizePhone(c.phone)]
    case None => []
  }

  /** Every key the receiver writes the record under, in the order it writes them. */
  function ReceiveKeys(sender: Option<string>, list: Option<Json<seq<Contact>>>): seq<string> {
    SenderKeys(sender) + SisterKeys(NormalizeNumber(sender), list)
  }

  /** The store after `json` is written under each of `keys` in turn. */
  function SavedUnder(m: map<string, Json<LocationRecord>>, keys: seq<string>, json: Json<LocationRecord>)
    : (r: map<string, Json<LocationRecord>>)
    ensures forall k :: k in r <==> k in m || k in keys
    ensures forall k :: k in keys ==> r[k] == json
    ensures forall k :: k in m && k !in keys ==> r[k] == m[k]
  {
    if keys == [] then m
    else
      var init := keys[..|keys| - 1];
      assert forall k :: k in keys <==> k in init || k == keys[|keys| - 1];
      SavedUnder(m, init, json)[keys[|keys| - 1] := json]
  }

  /** The event payload: the sender (empty when `null`), the body and the parse flag, with the record's
      link and coordinates only when it was parsed. The receiver sets no `canonicalPhone` and no
      `timestamp`. */
  function EventOf(sender: Option<string>, rec: LocationRecord): (e: LocationEvent)
    ensures e.from == sender.GetOr([]) && e.rawMessage == rec.rawMessage && e.canonicalPhone == []
    ensures e.timestamp == 0 && (e.parsed <==> rec.parsed == Some(true))
    ensures e.parsed ==> e.latitude == rec.latitude && e.longitude == rec.longitude && e.mapUrl == rec.mapUrl
    ensures !e.parsed ==> e.latitude.None? && e.longitude.None? && e.mapUrl.None?
  {
    var parsed := rec.parsed == Some(true);
    LocationEvent(sender.GetOr([]), [], rec.rawMessage, parsed, 0,
      if parsed then rec.latitude else None,
      if parsed then rec.longitude else None,
      if parsed then rec.mapUrl else None)
  }

  /** Writing two key lists one after the other writes their concatenation. */
  lemma {:induction false} SavedUnderAppend(m: map<string, Json<LocationRecord>>, a: seq<string>, b: seq<string>,
                                            json: Json<LocationRecord>)
    ensures SavedUnder(SavedUnder(m, a, json), b, json) == SavedUnder(m, a + b, json)
    decreases |b|
  {
    if b == [] {
      assert a + b == a;
    } else {
      var b' := b[..|b| - 1];
      assert (a + b)[..|a + b| - 1] == a + b';
      SavedUnderAppend(m, a, b', json);
    }
  }

  /** The writes under the sender's keys. */
  method SaveUnderSender(prefs: NativePrefs.SisterPrefs, sender: Option<string>, json: Json<LocationRecord>)
    modifies prefs`locations
    ensures prefs.locations == SavedUnder(old(prefs.locations), SenderKeys(sender), json)
  {
    ghost var start := prefs.locations;
    var senderNorm := NormalizeNumber(sender);
    if sender.Some? {
      prefs.SetLastLocation(sender, json);
    }
    assert prefs.locations == SavedUnder(start, if sender.Some? then [sender.value] else [], json);
    if senderNorm != [] {
      prefs.SetLastLocation(Some(senderNorm), json);
    }
    SavedUnderAppend(start, if sender.Some? then [sender.value] else [],
      if senderNorm != [] then [senderNorm] else [], json);
  }

  /** The loop over the sister list: the first matching sister's phone and its digits are written, then
      the loop stops. */
  method SaveUnderSister(prefs: NativePrefs.SisterPrefs, arr: seq<Contact>, senderNorm: string,
                         json: Json<LocationRecord>)
    modifies prefs`locations
    ensures prefs.locations == SavedUnder(old(prefs.locations), SisterKeys(senderNorm, Some(Decoded(arr))), json)
  {
    var found := FindSister(arr, senderNorm);
    if found.Some? {
      FirstMatchingSister(arr, senderNorm, found.value);
      SaveUnderPhone(prefs, arr[found.value].phone, json);
    } else {
      assert SisterKeys(senderNorm, Some(Decoded(arr))) == [];
    }
  }

  /** The loop's search: the index of the first sister whose phone is non-empty, has digits, and
      matches the sender's digits. */
  method FindSister(arr: seq<Contact>, senderNorm: string) returns (found: Option<nat>)
    ensures found.Some? ==> found.value < |arr| && IsMatchingSister(senderNorm, arr[found.value])
    ensures found.Some? ==> forall j :: 0 <= j < found.value ==> !IsMatchingSister(senderNorm, arr[j])
    ensures found.None? ==> forall j :: 0 <= j < |arr| ==> !IsMatchingSister(senderNorm, arr[j])
  {
    var i := 0;
    while i < |arr|
      invariant 0 <= i <= |arr|
      invariant forall j :: 0 <= j < i ==> !IsMatchingSister(senderNorm, arr[j])
    {
      var matches := SisterMatches(senderNorm, arr[i]);
      if matches {
        return Some(i);
      }
      i := i + 1;
    }
    return None;
  }

  /** The loop body's test of one sister. */
  method SisterMatches(senderNorm: string, c: Contact) returns (matches: bool)
    ensures matches == IsMatchingSister(senderNorm, c)
  {
    matches := false;
    var phone := c.phone;
    if phone != [] {
      var phoneNorm := NormalizeNumber(Some(phone));
      matches := phoneNorm != [] && SenderMatchesSister(senderNorm, phoneNorm);
    }
  }

  /** The matching sister's phone as stored, then its digits, are written. */
  method SaveUnderPhone(prefs: NativePrefs.SisterPrefs, phone: string, json: Json<LocationRecord>)
    requires NormalizePhone(phone) != []
    modifies prefs`locations
    ensures prefs.locations == SavedUnder(old(prefs.locations), [phone, NormalizePhone(phone)], json)
  {
    ghost var start := prefs.locations;
    prefs.SetLastLocation(Some(phone), json);
    var canonicalNorm := NormalizeNumber(Some(phone));
    if canonicalNorm != [] {
      prefs.SetLastLocation(Some(canonicalNorm), json);
    }
    SavedUnderPair(start, phone, canonicalNorm, json);
  }

  lemma FirstMatchingSister(arr: seq<Contact>, senderNorm: string, i: nat)
    requires i < |arr| && IsMatchingSister(senderNorm, arr[i])
    requires forall j :: 0 <= j < i ==> !IsMatchingSister(senderNorm, arr[j])
    ensures SisterKeys(senderNorm, Some(Decoded(arr))) == [arr[i].phone, NormalizePhone(arr[i].phone)]
  {
    assert FirstIndex(arr, c => IsMatchingSister(senderNorm, c)) == Some(i);
  }

  lemma SavedUnderPair(m: map<string, Json<LocationRecord>>, a: string, b: string, json: Json<LocationRecord>)
    ensures SavedUnder(m, [a, b], json) == m[a := json][b := json]
  {
    assert [a, b][..1] == [a];
    assert [a][..0] == [];
  }

  /** `onReceive`. Another action, or an intent without messages, does nothing. Otherwise the record built
      from the joined body is written under the sender keys and the first matching sister's keys, nothing
      else in the store changes, and the event is emitted when JavaScript is attached. */
  method OnReceive(prefs: NativePrefs.SisterPrefs, action: string, parts: seq<SmsPart>, now: nat, jsAttached: bool)
    returns (emitted: Option<LocationEvent>)
    modifies prefs`locations
    ensures action != SmsReceivedAction || parts == [] ==> prefs.locations == old(prefs.locations) && emitted.None?
    ensures action == SmsReceivedAction && parts != [] ==>
      var rec := BuildRecord(JoinBodies(parts), now);
      prefs.locations == SavedUnder(old(prefs.locations), ReceiveKeys(FirstSender(parts), prefs.sisterList), Decoded(rec)) &&
      emitted == (if jsAttached then Some(EventOf(FirstSender(parts), rec)) else None)
  {
    if action != SmsReceivedAction || parts == [] {
      return None;
    }
    var sisterJson := prefs.sisterList;
    var sender, body := CombineParts(parts);
    var senderNorm := NormalizeNumber(sender);
    var rec := BuildRecord(body, now);
    var json := Decoded(rec);
    ghost var start := prefs.locations;
    SaveUnderSender(prefs, sender, json);
    ghost var middle := prefs.locations;
    if sisterJson.Some? && sisterJson.value.Decoded? {
      SaveUnderSister(prefs, sisterJson.value.value, senderNorm, json);
    }
    assert prefs.locations == SavedUnder(middle, SisterKeys(senderNorm, sisterJson), json);
    SavedUnderAppend(start, SenderKeys(sender), SisterKeys(senderNorm, sisterJson), json);
    emitted := if jsAttached then Some(EventOf(sender, rec)) else None;
  }

  /** With a sender that has no digits, the matched sister is simply the first whose phone has digits. */
  lemma EmptySenderTakesFirstWithDigits(list: seq<Contact>, i: nat)
    requires i < |list| && NormalizePhone(list[i].phone) != []
    requires forall j :: 0 <= j < i ==> NormalizePhone(list[j].phone) == []
    ensures MatchingSister([], Some(Decoded(list))) == Some(list[i])
  {
    EmptySenderMatchesAll(NormalizePhone(list[i].phone));
    assert IsMatchingSister([], list[i]);
    forall j | 0 <= j < i
      ensures !IsMatchingSister([], list[j])
    {
    }
    assert FirstIndex(list, c => IsMatchingSister([], c)) == Some(i);
  }

  /** The responder's location reply is saved with the coordinates it was built from, and flagged parsed. */
  lemma ReceiverRecordsReply(lat: Decimal, lon: Decimal, now: nat)
    requires Canonical(lat) && Canonical(lon)
    requires JavaPlainRange(lat) && JavaPlainRange(lon)
    ensures var r := BuildRecord(RoundTrip.ReplyText(lat, lon), now);
      r.latitude == Some(lat) && r.longitude == Some(lon) && r.parsed == Some(true) &&
      r.mapUrl == Some(GoogleMapsUrl(JavaDoubleText(lat), JavaDoubleText(lon)))
  {
    RoundTrip.JavaReadsReply(lat, lon);
  }
}
