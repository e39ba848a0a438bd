/** The brother's sister-detail screen (src/screens/brother/SisterDetail.js) as an object: its state
    variables and the two stores it writes. Each handler performs its reads and writes in the order the
    screen does and is proved to leave the state `DetailRules` prescribes. */
module DetailScreen {
  import opened Wrappers
  import opened Records
  import opened Phones
  import opened DetailRules
  import LocalStorage
  import NativePrefs
  import JsLocation

  /** The first native hit among the candidates is the record `NativeRecord` names. */
  lemma NativeRecordAt(native: map<string, Json<LocationRecord>>, phone: string, i: nat)
    requires i < 3 && IsNativeHit(native, Candidates(phone)[i])
    requires forall j :: 0 <= j < i ==> !IsNativeHit(native, Candidates(phone)[j])
    ensures NativeRecord(native, phone) == Some(native[Candidates(phone)[i]].value)
  {
    var r := NativeRecord(native, phone);
    if r.Some? {
      var i' :| 0 <= i' < 3 && IsNativeHit(native, Candidates(phone)[i']) &&
        native[Candidates(phone)[i']] == Decoded(r.value) &&
        forall j :: 0 <= j < i' ==> !IsNativeHit(native, Candidates(phone)[j]);
      assert i' == i;
    }
  }

  /** The branches of `ApplyEvent`, one equation each. */
  lemma ApplyEventCases(s: Session, phone: string, a: bool, e: LocationEvent, ts: nat)
    ensures CarriesLocation(e) ==>
      ApplyEvent(s, phone, a, e, ts) == DetailRules.PersistAndSet(s, phone, a, PayloadRecord(e, ts)).(status := LocationFromEvent, polling := false)
    ensures !CarriesLocation(e) && e.rawMessage != [] && JsLocation.ParseLocationFromText(e.rawMessage).Some? ==>
      ApplyEvent(s, phone, a, e, ts) ==
        DetailRules.PersistAndSet(s, phone, a, Enrich(JsLocation.ParseLocationFromText(e.rawMessage).value, e.rawMessage, ts))
          .(status := ParsedFromEvent, polling := false)
    ensures !CarriesLocation(e) && e.rawMessage != [] && JsLocation.ParseLocationFromText(e.rawMessage).None? ==>
      ApplyEvent(s, phone, a, e, ts) == RemoveRaw(s, phone).(status := RawRemoved, polling := false)
    ensures !CarriesLocation(e) && e.rawMessage == [] ==> ApplyEvent(s, phone, a, e, ts) == s
  {
  }

  /** The branches of `PollDecoded`, one equation each. */
  lemma PollDecodedCases(s: Session, phone: string, a: bool, r: LocationRecord, now: nat)
    ensures !HasCoordsOrUrl(Some(r)) && r.rawMessage != [] && JsLocation.ParseLocationFromText(r.rawMessage).Some? ==>
      DetailRules.PollDecoded(s, phone, a, r, now) ==
        DetailRules.PersistAndSet(s, phone, a, Enrich(JsLocation.ParseLocationFromText(r.rawMessage).value, r.rawMessage, now))
          .(status := ParsedByPoll, polling := false)
    ensures !HasCoordsOrUrl(Some(r)) && r.rawMessage != [] && JsLocation.ParseLocationFromText(r.rawMessage).None? ==>
      DetailRules.PollDecoded(s, phone, a, r, now) == s.(local := s.local - {phone}, shown := None, status := DiscardedByPoll, polling := false)
    ensures HasCoordsOrUrl(Some(r)) || r.rawMessage == [] ==>
      DetailRules.PollDecoded(s, phone, a, r, now) == s.(shown := Some(r), status := LocationReceived, polling := false)
  {
  }

  /** The branches of `TryParseShown`, one equation each. */
  lemma TryParseCases(s: Session, phone: string, a: bool, now: nat)
    ensures s.shown.None? || s.shown.value.rawMessage == [] ==> TryParseShown(s, phone, a, now) == (s, Some(NoMessage))
    ensures s.shown.Some? && s.shown.value.rawMessage != [] && JsLocation.ParseLocationFromText(s.shown.value.rawMessage).Some? ==>
      var raw := s.shown.value.rawMessage;
      TryParseShown(s, phone, a, now) ==
        (DetailRules.PersistAndSet(s, phone, a, Enrich(JsLocation.ParseLocationFromText(raw).value, raw, now)).(status := ParsedByButton), None)
    ensures s.shown.Some? && s.shown.value.rawMessage != [] && JsLocation.ParseLocationFromText(s.shown.value.rawMessage).None? ==>
      TryParseShown(s, phone, a, now) == (RemoveRaw(s, phone).(status := ParseFailedDeleted), None)
  {
  }

  class SisterDetail {
    /** `route.params.sister`. */
    const sister: Contact
    /** Whether `SisterSettingsModule` and its location methods are present. */
    const nativeAvailable: bool
    const local: LocalStorage.AsyncStore
    const native: NativePrefs.SisterPrefs
    /** `lastLocation`. */
    var shown: Option<LocationRecord>
    var status: Status
    /** Whether `pollRef.current` holds an interval, and the `started` time of that interval. */
    var polling: bool
    var pollStarted: int

    /** The screen's state as the rules see it. */
    function Snapshot(): Session
      reads this, local, native
    {
      Session(local.locations, native.locations, shown, status, polling, pollStarted)
    }

    constructor (sister: Contact, nativeAvailable: bool, local: LocalStorage.AsyncStore, native: NativePrefs.SisterPrefs)
      ensures this.sister == sister && this.nativeAvailable == nativeAvailable
      ensures this.local == local && this.native == native
      ensures shown.None? && status == Idle && !polling
    {
      this.sister := sister;
      this.nativeAvailable := nativeAvailable;
      this.local := local;
      this.native := native;
      shown := None;
      status := Idle;
      polling := false;
      pollStarted := 0;
    }

    /** `persistAndSet`. */
    method PersistAndSet(rec: LocationRecord)
      modifies this`shown, local`locations, native`locations
      ensures Snapshot() == DetailRules.PersistAndSet(old(Snapshot()), sister.phone, nativeAvailable, rec)
    {
      local.SetLocation(sister.phone, Decoded(rec));
      shown := Some(rec);
      if nativeAvailable {
        native.SetLastLocation(Some(sister.phone), Decoded(rec));
      }
    }

    /** `removeRawMessageStored`. */
    method RemoveRawMessageStored()
      modifies this`shown, local`locations
      ensures Snapshot() == RemoveRaw(old(Snapshot()), sister.phone)
    {
      var key := sister.phone;
      if key in local.locations {
        match local.locations[key]
        case Decoded(r) =>
          if !HasCoordsOrUrl(Some(r)) {
            local.RemoveLocation(key);
            shown := None;
          }
        case Malformed =>
      }
    }

    /** `handleRefreshFromNative`, with `view` the `lastLocation` its closure saw: the candidates in
        order, skipping empty ones and values that fail to decode, and deciding at the first hit. */
    method RefreshFromNative(view: Option<LocationRecord>, now: nat)
      modifies this`shown, this`status, local`locations
      ensures Snapshot() == Refresh(old(Snapshot()), sister.phone, nativeAvailable, view, now)
    {
      if !nativeAvailable {
        return;
      }
      var rec := FirstNativeRecord();
      if rec.Some? && Adopts(rec.value, view, now) {
        Adopt(rec.value, RefreshedFromNative);
      }
    }

    /** `handleRefreshFromNativeIfNewer`: the same scan, adopting the first hit only when it is at
        least as new as the incoming event. */
    method RefreshFromNativeIfNewer(incomingTs: nat)
      modifies this`shown, this`status, local`locations
      ensures Snapshot() == RefreshIfNewer(old(Snapshot()), sister.phone, nativeAvailable, incomingTs)
    {
      if !nativeAvailable {
        return;
      }
      var rec := FirstNativeRecord();
      if rec.Some? && rec.value.timestamp >= incomingTs {
        Adopt(rec.value, RefreshedNewer);
      }
    }

    /** The part of the event handler between the staleness test and the native refresh. */
    method ApplyFreshEvent(e: LocationEvent, incomingTs: nat)
      modifies this`shown, this`status, this`polling, local`locations, native`locations
      ensures Snapshot() == ApplyEvent(old(Snapshot()), sister.phone, nativeAvailable, e, incomingTs)
    {
      ApplyEventCases(Snapshot(), sister.phone, nativeAvailable, e, incomingTs);
      if CarriesLocation(e) {
        SaveAndStop(PayloadRecord(e, incomingTs), LocationFromEvent);
      } else if e.rawMessage != [] {
        var parsed := JsLocation.ParseLocationFromText(e.rawMessage);
        if parsed.Some? {
          SaveAndStop(Enrich(parsed.value, e.rawMessage, incomingTs), ParsedFromEvent);
        } else {
          RemoveRawMessageStored();
          Stop(RawRemoved);
        }
      }
    }

    /** A record saved by `persistAndSet`, a status, and the poll interval cleared. */
    method SaveAndStop(rec: LocationRecord, st: Status)
      modifies this`shown, this`status, this`polling, local`locations, native`locations
      ensures Snapshot() == DetailRules.PersistAndSet(old(Snapshot()), sister.phone, nativeAvailable, rec).(status := st, polling := false)
    {
      PersistAndSet(rec);
      Stop(st);
    }

    /** The entry under the sister's key and the record on screen go; the status is set and polling
        stops. */
    method Discard(st: Status)
      modifies this`shown, this`status, this`polling, local`locations
      ensures Snapshot() == old(Snapshot()).(local := old(local.locations) - {sister.phone}, shown := None, status := st, polling := false)
    {
      local.RemoveLocation(sister.phone);
      shown := None;
      Stop(st);
    }

    /** A status, and the poll interval cleared. */
    method Stop(st: Status)
      modifies this`status, this`polling
      ensures Snapshot() == old(Snapshot()).(status := st, polling := false)
    {
      status := st;
      polling := false;
    }

    /** The record is shown with the status. */
    method Show(r: Option<LocationRecord>, st: Status)
      modifies this`shown, this`status
      ensures Snapshot() == old(Snapshot()).(shown := r, status := st)
    {
      shown := r;
      status := st;
    }

    /** The record is copied under the sister's own key and shown with the status. */
    method Adopt(r: LocationRecord, st: Status)
      modifies this`shown, this`status, local`locations
      ensures Snapshot() == old(Snapshot()).(local := old(local.locations)[sister.phone := Decoded(r)], shown := Some(r), status := st)
    {
      local.SetLocation(sister.phone, Decoded(r));
      shown := Some(r);
      status := st;
    }

    method SetStatus(st: Status)
      modifies this`status
      ensures Snapshot() == old(Snapshot()).(status := st)
    {
      status := st;
    }

    /** The `SisterLocationReceived` listener. The closure's `lastLocation` is the record on screen
        when the event arrives; the native refresh that ends each fresh branch compares against it. */
    method OnEvent(e: LocationEvent, now: nat)
      modifies this`shown, this`status, this`polling, local`locations, native`locations
      ensures Snapshot() == DetailRules.OnEvent(old(Snapshot()), sister.phone, nativeAvailable, e, now)
    {
      var view := shown;
      var incomingTs := TimestampOr(e.timestamp, now);
      if !IsForSister(e, sister.phone) {
        return;
      }
      if view.Some? && view.value.timestamp != 0 && incomingTs <= view.value.timestamp {
        RefreshFromNativeIfNewer(incomingTs);
        return;
      }
      ApplyFreshEvent(e, incomingTs);
      RefreshFromNative(view, now);
    }

    /** `loadLastLocationWithFallbacks`, where `keyOrder` is the order in which `getAllKeys` lists the
        `lastLocation_` suffixes. */
    method Load(keyOrder: seq<string>, now: nat)
      modifies this`shown, this`status, local`locations
      ensures Snapshot() == DetailRules.Load(old(Snapshot()), sister.phone, nativeAvailable, keyOrder, now)
    {
      var view := shown;
      var phone := sister.phone;
      if phone in local.locations {
        match local.locations[phone]
        case Malformed =>
          return;
        case Decoded(r) =>
          Show(Some(r), LoadedSaved);
          RefreshFromNative(view, now);
          return;
      }
      LoadVariant(keyOrder);
    }

    /** The effect keyed on `lastLocation`, run again after a `setLastLocation`: the cleanup clears the
        poll interval (leaving `pollRef.current` set), and the new run loads. */
    method RerunEffect(keyOrder: seq<string>, now: nat)
      modifies this`shown, this`status, this`polling, local`locations
      ensures Snapshot() == Rerun(old(Snapshot()), sister.phone, nativeAvailable, keyOrder, now)
    {
      polling := false;
      Load(keyOrder, now);
    }

    /** The storage scan: its first matching key ends it, copied when it decodes; then the native
        candidates. */
    method LoadVariant(keyOrder: seq<string>)
      modifies this`shown, this`status, local`locations
      ensures Snapshot() == DetailRules.LoadVariant(old(Snapshot()), sister.phone, nativeAvailable, keyOrder)
    {
      var phone := sister.phone;
      var k := 0;
      while k < |keyOrder|
        invariant 0 <= k <= |keyOrder|
        invariant forall j :: 0 <= j < k ==> !(keyOrder[j] in local.locations && PhonesMatch(keyOrder[j], phone))
      {
        var key := keyOrder[k];
        if key in local.locations && PhonesMatch(key, phone) {
          assert VariantKey(local.locations, keyOrder, phone) == Some(key);
          match local.locations[key]
          case Decoded(r) =>
            Adopt(r, LoadedVariant);
            return;
          case Malformed =>
            break;
        }
        k := k + 1;
      }
      LoadNative();
    }

    /** The native candidates, in order: the first that holds a decodable record is copied and shown. */
    method LoadNative()
      modifies this`shown, this`status, local`locations
      ensures Snapshot() == DetailRules.LoadNative(old(Snapshot()), sister.phone, nativeAvailable)
    {
      if nativeAvailable {
        var rec := FirstNativeRecord();
        if rec.Some? {
          Adopt(rec.value, LoadedNative);
          return;
        }
      }
      SetStatus(NoSavedLocation);
    }

    /** The scan the native refreshes and the load share: the candidates in order, skipping empty ones
        and values that fail to decode; the first hit is the result. */
    method FirstNativeRecord() returns (rec: Option<LocationRecord>)
      ensures rec == NativeRecord(native.locations, sister.phone)
    {
      var candidates := Candidates(sister.phone);
      var i := 0;
      while i < 3
        invariant 0 <= i <= 3
        invariant forall j :: 0 <= j < i ==> !IsNativeHit(native.locations, candidates[j])
      {
        var candidate := candidates[i];
        if candidate != [] {
          var nativeVal := native.GetLastLocation(Some(candidate));
          if nativeVal.Some? && nativeVal.value.Decoded? {
            NativeRecordAt(native.locations, sister.phone, i);
            return Some(nativeVal.value.value);
          }
        }
        i := i + 1;
      }
      rec := None;
    }

    /** `pollForLocation`: any running interval is replaced by one started now. */
    method StartPoll(now: nat)
      modifies this`polling, this`pollStarted
      ensures Snapshot() == DetailRules.StartPoll(old(Snapshot()), now)
    {
      polling := true;
      pollStarted := now;
    }

    /** One run of the poll interval's callback. */
    method PollTick(now: nat)
      modifies this`shown, this`status, this`polling, local`locations, native`locations
      ensures Snapshot() == DetailRules.PollTick(old(Snapshot()), sister.phone, nativeAvailable, now)
    {
      if !polling {
        return;
      }
      if now - pollStarted > PollTimeoutMs {
        Stop(TimedOut);
        return;
      }
      var phone := sister.phone;
      if phone !in local.locations || local.locations[phone].Malformed? {
        return;
      }
      PollFound(local.locations[phone].value, now);
    }

    /** The tick's handling of the decodable record `r` found under the sister's key. */
    method PollFound(r: LocationRecord, now: nat)
      modifies this`shown, this`status, this`polling, local`locations, native`locations
      ensures Snapshot() == DetailRules.PollDecoded(old(Snapshot()), sister.phone, nativeAvailable, r, now)
    {
      PollDecodedCases(Snapshot(), sister.phone, nativeAvailable, r, now);
      if !HasCoordsOrUrl(Some(r)) && r.rawMessage != [] {
        var p := JsLocation.ParseLocationFromText(r.rawMessage);
        if p.Some? {
          SaveAndStop(Enrich(p.value, r.rawMessage, now), ParsedByPoll);
        } else {
          Discard(DiscardedByPoll);
        }
      } else {
        Show(Some(r), LocationReceived);
        Stop(LocationReceived);
      }
    }

    /** `handleCheck`, given whether the SMS permission is granted and whether the send succeeds;
        returns the alert raised and the SMS sent (recipient and text). */
    method HandleCheck(permitted: bool, sendOk: bool, now: nat) returns (alert: Option<Alert>, sms: Option<(string, string)>)
      modifies this`status, this`polling, this`pollStarted
      ensures var c := Check(old(Snapshot()), sister, local.secretCodes, permitted, sendOk, now);
        Snapshot() == c.session && alert == c.alert && sms == c.sms
    {
      var code := sister.code;
      if code == [] {
        var codes := local.secretCodes;
        if codes.Some? && codes.value.Decoded? {
          var table := codes.value.value;
          code := CodeAt(table, sister.phone);
          if code == [] {
            code := CodeAt(table, NormalizePhone(sister.phone));
          }
        }
      }
      if code == [] {
        return Some(NoSecretCode), None;
      }
      if !permitted {
        return Some(PermissionNeeded), None;
      }
      sms := Some((sister.phone, code));
      if sendOk {
        status := CheckSent;
        StartPoll(now);
        alert := None;
      } else {
        status := SendFailed;
        alert := Some(SendError);
      }
    }

    /** The "Try Parse Message" button. */
    method TryParseMessage(now: nat) returns (alert: Option<Alert>)
      modifies this`shown, this`status, local`locations, native`locations
      ensures (Snapshot(), alert) == TryParseShown(old(Snapshot()), sister.phone, nativeAvailable, now)
    {
      TryParseCases(Snapshot(), sister.phone, nativeAvailable, now);
      if shown.None? || shown.value.rawMessage == [] {
        return Some(NoMessage);
      }
      var raw := shown.value.rawMessage;
      var p := JsLocation.ParseLocationFromText(raw);
      if p.Some? {
        PersistAndSet(Enrich(p.value, raw, now));
        SetStatus(ParsedByButton);
      } else {
        RemoveRawMessageStored();
        SetStatus(ParseFailedDeleted);
      }
      alert := None;
    }
  }
}
