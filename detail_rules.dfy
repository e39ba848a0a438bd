/** The reconciliation rules of the brother's sister-detail screen (src/screens/brother/SisterDetail.js),
    as functions from one session state to the next. A state holds both stores' location entries for
    every phone, the record on screen, the status line and the poll timer. The screen itself
    (`DetailScreen.SisterDetail`) performs the same steps in place and is proved to follow these rules. */
module DetailRules {
  import opened Wrappers
  import opened Text
  import opened Scan
  import opened Records
  import opened Phones
  import JsLocation

  /** The status line: the status messages the model tells apart. */
  datatype Status =
    | Idle
    | LocationFromEvent | ParsedFromEvent | RawRemoved
    | RefreshedFromNative | RefreshedNewer
    | LoadedSaved | LoadedVariant | LoadedNative | NoSavedLocation
    | CheckSent | SendFailed
    | TimedOut | ParsedByPoll | DiscardedByPoll | LocationReceived
    | ParsedByButton | ParseFailedDeleted

  /** The alerts the screen raises. */
  datatype Alert = NoSecretCode | PermissionNeeded | SendError | NoMessage

  /** `lastLocation_<p>` entries of AsyncStorage (`local`) and of the native `SisterPrefs` (`native`),
      the record on screen (`lastLocation`), the status line, and whether the poll interval runs and
      since when. */
  datatype Session = Session(
    local: map<string, Json<LocationRecord>>,
    native: map<string, Json<LocationRecord>>,
    shown: Option<LocationRecord>,
    status: Status,
    polling: bool,
    pollStarted: int)

  const PollTimeoutMs: int := 60000

  /** `replace(/^\+/, '')`: one leading `+` removed. */
  function StripPlus(p: string): (r: string)
    ensures p != [] && p[0] == '+' ==> r == p[1..]
    ensures !(p != [] && p[0] == '+') ==> r == p
  {
    if p != [] && p[0] == '+' then p[1..] else p
  }

  /** The native keys tried for a phone, in order: as stored, its digits, without a leading `+`. */
  function Candidates(phone: string): (r: seq<string>)
    ensures |r| == 3 && r[0] == phone && r[1] == NormalizePhone(phone) && r[2] == StripPlus(phone)
  {
    [phone, NormalizePhone(phone), StripPlus(phone)]
  }

  /** A candidate the native loops stop at: non-empty, present, and decodable (a value that fails to
      decode is skipped by the loop's `catch`). */
  predicate IsNativeHit(native: map<string, Json<LocationRecord>>, key: string) {
    key != [] && key in native && native[key].Decoded?
  }

  /** The record under the first candidate key that is a hit, if any. */
  function NativeRecord(native: map<string, Json<LocationRecord>>, phone: string): (r: Option<LocationRecord>)
    ensures r.Some? ==> exists i :: (0 <= i < 3 && IsNativeHit(native, Candidates(phone)[i]) &&
      native[Candidates(phone)[i]] == Decoded(r.value) &&
      forall j :: 0 <= j < i ==> !IsNativeHit(native, Candidates(phone)[j]))
    ensures r.None? ==> forall i :: 0 <= i < 3 ==> !IsNativeHit(native, Candidates(phone)[i])
  {
    var cs := Candidates(phone);
    match FirstIndex(cs, c => IsNativeHit(native, c))
    case Some(i) => Some(native[cs[i]].value)
    case None => None
  }

  /** `parsed.timestamp || Date.now()`. */
  function TimestampOr(ts: nat, now: nat): nat {
    if ts == 0 then now else ts
  }

  /** The adoption rule of `handleRefreshFromNative`: nothing on screen, no timestamp on screen, a
      strictly newer native record, or a different location. */
  predicate Adopts(r: LocationRecord, view: Option<LocationRecord>, now: nat) {
    view.None? || view.value.timestamp == 0 || TimestampOr(r.timestamp, now) > view.value.timestamp ||
    !IsSameCoord(Some(r), view)
  }

  /** `handleRefreshFromNative`, where `view` is the `lastLocation` its closure saw. */
  function Refresh(s: Session, phone: string, nativeAvailable: bool, view: Option<LocationRecord>, now: nat): (r: Session)
    ensures r.polling == s.polling && r.pollStarted == s.pollStarted && r.native == s.native
  {
    if !nativeAvailable then s
    else match NativeRecord(s.native, phone)
      case None => s
      case Some(r) =>
        if Adopts(r, view, now) then s.(local := s.local[phone := Decoded(r)], shown := Some(r), status := RefreshedFromNative)
        else s
  }

  /** `handleRefreshFromNativeIfNewer`: the first native record is adopted when it is at least as new
      as the incoming event. */
  function RefreshIfNewer(s: Session, phone: string, nativeAvailable: bool, incomingTs: nat): Session {
    if !nativeAvailable then s
    else match NativeRecord(s.native, phone)
      case None => s
      case Some(r) =>
        if r.timestamp >= incomingTs then s.(local := s.local[phone := Decoded(r)], shown := Some(r), status := RefreshedNewer)
        else s
  }

  /** `persistAndSet`: the record goes to AsyncStorage, to the screen and, when the native module is
      there, to `SisterPrefs`, all under the sister's phone as stored. */
  function PersistAndSet(s: Session, phone: string, nativeAvailable: bool, rec: LocationRecord): Session {
    s.(local := s.local[phone := Decoded(rec)],
       native := if nativeAvailable then s.native[phone := Decoded(rec)] else s.native,
       shown := Some(rec))
  }

  /** `removeRawMessageStored`: a stored record without coordinates or link is deleted and the screen
      cleared; a useful record, a value that fails to decode, or no value, leaves everything as it was. */
  function RemoveRaw(s: Session, phone: string): Session {
    if phone in s.local && s.local[phone].Decoded? && !HasCoordsOrUrl(Some(s.local[phone].value)) then
      s.(local := s.local - {phone}, shown := None)
    else s
  }

  /** Whether an event is for this sister: its `canonicalPhone` or its `from` matches the phone. */
  predicate IsForSister(e: LocationEvent, phone: string) {
    PhonesMatch(e.canonicalPhone, phone) || PhonesMatch(e.from, phone)
  }

  /** Whether an event is no newer than the record on screen (which has a timestamp). */
  predicate IsStale(shown: Option<LocationRecord>, incomingTs: nat) {
    shown.Some? && shown.value.timestamp != 0 && incomingTs <= shown.value.timestamp
  }

  /** The record an event carrying a location is saved as. */
  function PayloadRecord(e: LocationEvent, incomingTs: nat): LocationRecord {
    LocationRecord(e.latitude, e.longitude, e.mapUrl, e.rawMessage, incomingTs, None)
  }

  predicate CarriesLocation(e: LocationEvent) {
    (e.latitude.Some? && e.longitude.Some?) || Truthy(e.mapUrl)
  }

  /** What a fresh event for this sister writes before the native store is consulted: an event with a
      location is saved as sent; otherwise its raw text is parsed and saved, or, when it does not parse,
      a stored record without a location is removed. Each of these stops the poll; an event with
      neither location nor text writes nothing. */
  function ApplyEvent(s: Session, phone: string, nativeAvailable: bool, e: LocationEvent, incomingTs: nat): Session {
    if CarriesLocation(e) then
      PersistAndSet(s, phone, nativeAvailable, PayloadRecord(e, incomingTs)).(status := LocationFromEvent, polling := false)
    else if e.rawMessage != [] then
      match JsLocation.ParseLocationFromText(e.rawMessage)
      case Some(loc) =>
        PersistAndSet(s, phone, nativeAvailable, Enrich(loc, e.rawMessage, incomingTs)).(status := ParsedFromEvent, polling := false)
      case None =>
        RemoveRaw(s, phone).(status := RawRemoved, polling := false)
    else s
  }

  /** The `SisterLocationReceived` handler. An event for another sister is ignored. A stale event only
      lets a native record at least as new replace what is shown. A fresh event is applied, and then
      the native store is consulted against the record that was on screen when the event arrived. */
  function OnEvent(s: Session, phone: string, nativeAvailable: bool, e: LocationEvent, now: nat): Session {
    var incomingTs := TimestampOr(e.timestamp, now);
    if !IsForSister(e, phone) then s
    else if IsStale(s.shown, incomingTs) then RefreshIfNewer(s, phone, nativeAvailable, incomingTs)
    else Refresh(ApplyEvent(s, phone, nativeAvailable, e, incomingTs), phone, nativeAvailable, s.shown, now)
  }

  /** The first key of the storage scan, in `getAllKeys` order, that is present and matches the phone. */
  function VariantKey(local: map<string, Json<LocationRecord>>, keyOrder: seq<string>, phone: string): (r: Option<string>)
    ensures r.Some? ==> r.value in local && PhonesMatch(r.value, phone) && r.value in keyOrder
    ensures r.None? ==> forall k :: k in keyOrder && k in local ==> !PhonesMatch(k, phone)
  {
    match FirstIndex(keyOrder, k => k in local && PhonesMatch(k, phone))
    case Some(i) => Some(keyOrder[i])
    case None => None
  }

  /** `loadLastLocationWithFallbacks`. The direct key wins (a value that fails to decode aborts the whole
      load), and a native refresh follows; otherwise the first matching key of the scan is copied to the
      direct key (one that fails to decode ends the scan); otherwise the first native hit is copied;
      otherwise the status says nothing was found. */
  function Load(s: Session, phone: string, nativeAvailable: bool, keyOrder: seq<string>, now: nat): (r: Session)
    ensures r.polling == s.polling && r.pollStarted == s.pollStarted && r.native == s.native
  {
    if phone in s.local then
      match s.local[phone]
      case Malformed => s
      case Decoded(r) => Refresh(s.(shown := Some(r), status := LoadedSaved), phone, nativeAvailable, s.shown, now)
    else LoadVariant(s, phone, nativeAvailable, keyOrder)
  }

  /** The load without an entry under the sister's own key: the first matching key of the scan, when it
      decodes, is copied to the direct key; otherwise the native candidates are tried. */
  function LoadVariant(s: Session, phone: string, nativeAvailable: bool, keyOrder: seq<string>): (r: Session)
    ensures r.polling == s.polling && r.pollStarted == s.pollStarted && r.native == s.native
  {
    var variant := VariantKey(s.local, keyOrder, phone);
    if variant.Some? && s.local[variant.value].Decoded? then
      var r := s.local[variant.value].value;
      s.(local := s.local[phone := Decoded(r)], shown := Some(r), status := LoadedVariant)
    else LoadNative(s, phone, nativeAvailable)
  }

  /** The last step of the load: the first native hit is copied to the direct key; otherwise the status
      says nothing was found. */
  function LoadNative(s: Session, phone: string, nativeAvailable: bool): (r: Session)
    ensures r.polling == s.polling && r.pollStarted == s.pollStarted && r.native == s.native
  {
    if nativeAvailable && NativeRecord(s.native, phone).Some? then
      var r := NativeRecord(s.native, phone).value;
      s.(local := s.local[phone := Decoded(r)], shown := Some(r), status := LoadedNative)
    else s.(status := NoSavedLocation)
  }

  /** `pollForLocation`: (re)starts the interval. */
  function StartPoll(s: Session, now: nat): Session {
    s.(polling := true, pollStarted := now)
  }

  /** One tick of the poll interval. After the timeout it stops and writes nothing. Otherwise, with a
      decodable record under the direct key, it stops: a record without location but with text is
      parsed and saved, or deleted when it does not parse; any other record is shown. Without one it
      keeps waiting. */
  function PollTick(s: Session, phone: string, nativeAvailable: bool, now: nat): Session {
    if !s.polling then s
    else if now - s.pollStarted > PollTimeoutMs then s.(polling := false, status := TimedOut)
    else if phone !in s.local || s.local[phone].Malformed? then s
    else PollDecoded(s, phone, nativeAvailable, s.local[phone].value, now)
  }

  /** The tick that finds the decodable record `r` under the direct key: it stops polling, after parsing
      and saving or deleting a record that has text but no location, or showing any other record. */
  function PollDecoded(s: Session, phone: string, nativeAvailable: bool, r: LocationRecord, now: nat): Session {
    if !HasCoordsOrUrl(Some(r)) && r.rawMessage != [] then
      match JsLocation.ParseLocationFromText(r.rawMessage)
      case Some(loc) =>
        PersistAndSet(s, phone, nativeAvailable, Enrich(loc, r.rawMessage, now)).(status := ParsedByPoll, polling := false)
      case None =>
        s.(local := s.local - {phone}, shown := None, status := DiscardedByPoll, polling := false)
    else s.(shown := Some(r), status := LocationReceived, polling := false)
  }

  /** Whether the load calls `setLastLocation`: the sister's key holds a decodable record, or the scan's
      first matching key does, or a native candidate does. */
  predicate LoadSetsShown(s: Session, phone: string, nativeAvailable: bool, keyOrder: seq<string>) {
    if phone in s.local then s.local[phone].Decoded?
    else
      var variant := VariantKey(s.local, keyOrder, phone);
      (variant.Some? && s.local[variant.value].Decoded?) || (nativeAvailable && NativeRecord(s.native, phone).Some?)
  }

  /** The effect keyed on `lastLocation`, after a step that called `setLastLocation`: its cleanup clears
      the poll interval, and the effect runs again, which loads. */
  function Rerun(s: Session, phone: string, nativeAvailable: bool, keyOrder: seq<string>, now: nat): (r: Session)
    ensures !r.polling && r.pollStarted == s.pollStarted && r.native == s.native
  {
    Load(s.(polling := false), phone, nativeAvailable, keyOrder, now)
  }

  /** The effect as written: every run whose load calls `setLastLocation` (always with a fresh object)
      makes React run it again; `n` runs in a row. */
  function Reruns(s: Session, phone: string, nativeAvailable: bool, keyOrder: seq<string>, now: nat, n: nat): Session {
    if n == 0 then s else Rerun(Reruns(s, phone, nativeAvailable, keyOrder, now, n - 1), phone, nativeAvailable, keyOrder, now)
  }

  /** The effect with its dependency compared by value: it runs again only when the step before it
      changed the record on screen. */
  function EffectAfter(before: Session, after: Session, phone: string, nativeAvailable: bool, keyOrder: seq<string>,
                       now: nat): (r: Session)
    ensures after.shown == before.shown ==> r == after
    ensures after.shown != before.shown ==> !r.polling
  {
    if after.shown != before.shown then Rerun(after, phone, nativeAvailable, keyOrder, now) else after
  }

  /** `codes[k] || …`: the value under a key when present and non-empty. */
  function CodeAt(codes: map<string, string>, k: string): string {
    if k in codes then codes[k] else []
  }

  /** The secret code sent by "Check": the sister's own code, else the `secretCodes` entry for the phone
      as stored, else for its digits; empty when none is set or the table does not decode. */
  function SecretCode(sister: Contact, secretCodes: Option<Json<map<string, string>>>): (r: string)
    ensures sister.code != [] ==> r == sister.code
    ensures r != [] && sister.code == [] ==> (secretCodes.Some? && secretCodes.value.Decoded? &&
      (r == CodeAt(secretCodes.value.value, sister.phone) ||
       r == CodeAt(secretCodes.value.value, NormalizePhone(sister.phone))))
    ensures (sister.code == [] && secretCodes.Some? && secretCodes.value.Decoded? &&
             CodeAt(secretCodes.value.value, sister.phone) != []) ==>
      r == CodeAt(secretCodes.value.value, sister.phone)
    ensures r == [] <==> (sister.code == [] &&
      (secretCodes.None? || secretCodes.value.Malformed? ||
       (CodeAt(secretCodes.value.value, sister.phone) == [] &&
        CodeAt(secretCodes.value.value, NormalizePhone(sister.phone)) == [])))
  {
    if sister.code != [] then sister.code
    else if secretCodes.None? || secretCodes.value.Malformed? then []
    else
      var codes := secretCodes.value.value;
      if CodeAt(codes, sister.phone) != [] then CodeAt(codes, sister.phone)
      else CodeAt(codes, NormalizePhone(sister.phone))
  }

  /** What pressing "Check" does: the next state, the alert raised, and the SMS attempted
      (recipient and text). */
  datatype CheckOutcome = CheckOutcome(session: Session, alert: Option<Alert>, sms: Option<(string, string)>)

  /** `handleCheck`. Without a code or without the SMS permission it only alerts. Otherwise the code is
      sent to the sister's phone; on success the poll starts, on failure the status and an alert say so. */
  function Check(s: Session, sister: Contact, secretCodes: Option<Json<map<string, string>>>, permitted: bool,
                 sendOk: bool, now: nat): (r: CheckOutcome)
    ensures r.sms.Some? <==> SecretCode(sister, secretCodes) != [] && permitted
    ensures r.sms.Some? ==> r.sms.value == (sister.phone, SecretCode(sister, secretCodes))
    ensures r.session.local == s.local && r.session.native == s.native && r.session.shown == s.shown
    ensures r.session.polling == ((r.sms.Some? && sendOk) || s.polling)
    ensures r.alert.None? <==> r.sms.Some? && sendOk
  {
    var code := SecretCode(sister, secretCodes);
    if code == [] then CheckOutcome(s, Some(NoSecretCode), None)
    else if !permitted then CheckOutcome(s, Some(PermissionNeeded), None)
    else if sendOk then CheckOutcome(StartPoll(s.(status := CheckSent), now), None, Some((sister.phone, code)))
    else CheckOutcome(s.(status := SendFailed), Some(SendError), Some((sister.phone, code)))
  }

  /** The "Try Parse Message" button: with no message on screen it alerts; otherwise the message is
      parsed and saved, or, when it does not parse, a stored record without location is removed. */
  function TryParseShown(s: Session, phone: string, nativeAvailable: bool, now: nat): (Session, Option<Alert>) {
    if s.shown.None? || s.shown.value.rawMessage == [] then (s, Some(NoMessage))
    else
      var raw := s.shown.value.rawMessage;
      match JsLocation.ParseLocationFromText(raw)
      case Some(loc) => (PersistAndSet(s, phone, nativeAvailable, Enrich(loc, raw, now)).(status := ParsedByButton), None)
      case None => (RemoveRaw(s, phone).(status := ParseFailedDeleted), None)
  }
}
