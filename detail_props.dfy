/** Properties of the sister-detail screen's reconciliation rules. */
module DetailProperties {
  import opened Wrappers
  import opened Records
  import opened Phones
  import opened DetailRules
  import JsLocation

  /** Two stores agree everywhere except possibly at `phone`. */
  ghost predicate SameElsewhere(a: map<string, Json<LocationRecord>>, b: map<string, Json<LocationRecord>>, phone: string) {
    forall k :: k != phone ==> (k in a <==> k in b) && (k in a ==> a[k] == b[k])
  }

  lemma RefreshOnlyTouchesPhone(s: Session, phone: string, a: bool, view: Option<LocationRecord>, now: nat)
    ensures var t := Refresh(s, phone, a, view, now);
      SameElsewhere(t.local, s.local, phone) && t.native == s.native && t.polling == s.polling
  {
  }

  lemma RefreshIfNewerOnlyTouchesPhone(s: Session, phone: string, a: bool, ts: nat)
    ensures var t := RefreshIfNewer(s, phone, a, ts);
      SameElsewhere(t.local, s.local, phone) && t.native == s.native && t.polling == s.polling
  {
  }

  lemma PersistAndSetOnlyTouchesPhone(s: Session, phone: string, a: bool, rec: LocationRecord)
    ensures var t := PersistAndSet(s, phone, a, rec);
      SameElsewhere(t.local, s.local, phone) && SameElsewhere(t.native, s.native, phone)
  {
  }

  lemma RemoveRawOnlyTouchesPhone(s: Session, phone: string)
    ensures var t := RemoveRaw(s, phone);
      SameElsewhere(t.local, s.local, phone) && t.native == s.native
  {
  }

  lemma ApplyOnlyTouchesPhone(s: Session, phone: string, a: bool, e: LocationEvent, ts: nat)
    ensures var t := ApplyEvent(s, phone, a, e, ts);
      SameElsewhere(t.local, s.local, phone) && SameElsewhere(t.native, s.native, phone)
  {
    if CarriesLocation(e) {
      PersistAndSetOnlyTouchesPhone(s, phone, a, PayloadRecord(e, ts));
    } else if e.rawMessage != [] {
      match JsLocation.ParseLocationFromText(e.rawMessage)
      case Some(loc) =>
        PersistAndSetOnlyTouchesPhone(s, phone, a, Enrich(loc, e.rawMessage, ts));
      case None =>
        RemoveRawOnlyTouchesPhone(s, phone);
    }
  }

  /** Every write of the event handler goes to the sister's own key, in either store. */
  lemma EventOnlyTouchesPhone(s: Session, phone: string, a: bool, e: LocationEvent, now: nat)
    ensures var t := OnEvent(s, phone, a, e, now);
      SameElsewhere(t.local, s.local, phone) && SameElsewhere(t.native, s.native, phone)
  {
    var incomingTs := TimestampOr(e.timestamp, now);
    if IsForSister(e, phone) {
      if IsStale(s.shown, incomingTs) {
        RefreshIfNewerOnlyTouchesPhone(s, phone, a, incomingTs);
      } else {
        var s1 := ApplyEvent(s, phone, a, e, incomingTs);
        ApplyOnlyTouchesPhone(s, phone, a, e, incomingTs);
        RefreshOnlyTouchesPhone(s1, phone, a, s.shown, now);
      }
    }
  }

  /** An event for another sister changes nothing. */
  lemma OtherSisterIgnored(s: Session, phone: string, a: bool, e: LocationEvent, now: nat)
    requires !PhonesMatch(e.canonicalPhone, phone) && !PhonesMatch(e.from, phone)
    ensures OnEvent(s, phone, a, e, now) == s
  {
  }

  /** The record a native key holds, when the key is one of the phone's candidates. */
  ghost predicate IsNativeCopy(native: map<string, Json<LocationRecord>>, phone: string, r: LocationRecord) {
    exists i :: 0 <= i < 3 && Candidates(phone)[i] in native && native[Candidates(phone)[i]] == Decoded(r)
  }

  /** A stale event never saves its own payload: the only possible change is a native record (at least
      as new as the event) taking the sister's key and the screen. The handler itself leaves the poll
      timer alone; when it replaces the record on screen, the effect that follows stops it
      (`ShownChangeStopsPoll`). */
  lemma StaleEventOnlyCopiesNative(s: Session, phone: string, a: bool, e: LocationEvent, now: nat)
    requires IsForSister(e, phone) && IsStale(s.shown, TimestampOr(e.timestamp, now))
    ensures var t := OnEvent(s, phone, a, e, now);
      t.native == s.native && t.polling == s.polling &&
      (t == s ||
       (t.shown.Some? && IsNativeCopy(s.native, phone, t.shown.value) &&
        t.shown.value.timestamp >= TimestampOr(e.timestamp, now) &&
        t.local == s.local[phone := Decoded(t.shown.value)]))
  {
    var r := NativeRecord(s.native, phone);
    if a && r.Some? {
      var i :| 0 <= i < 3 && IsNativeHit(s.native, Candidates(phone)[i]) &&
        s.native[Candidates(phone)[i]] == Decoded(r.value);
    }
  }

  /** `removeRawMessageStored` never deletes a record that has coordinates or a link. */
  lemma UsefulRecordKept(s: Session, phone: string)
    requires phone in s.local && s.local[phone].Decoded? && HasCoordsOrUrl(Some(s.local[phone].value))
    ensures RemoveRaw(s, phone) == s
  {
  }

  /** An event whose text does not parse creates no record: afterwards the sister's key holds what it
      held before, nothing, or a copy of a native record. */
  lemma UnparsedEventCreatesNothing(s: Session, phone: string, a: bool, e: LocationEvent, now: nat)
    requires IsForSister(e, phone) && !IsStale(s.shown, TimestampOr(e.timestamp, now)) && !CarriesLocation(e)
    requires JsLocation.ParseLocationFromText(e.rawMessage).None?
    ensures var t := OnEvent(s, phone, a, e, now);
      t.native == s.native &&
      (phone in t.local ==>
        (phone in s.local && t.local[phone] == s.local[phone]) ||
        (t.local[phone].Decoded? && IsNativeCopy(s.native, phone, t.local[phone].value)))
  {
    var s1 := ApplyEvent(s, phone, a, e, TimestampOr(e.timestamp, now));
    UnparsedApply(s, phone, a, e, TimestampOr(e.timestamp, now));
    RefreshCopies(s1, phone, a, s.shown, now);
  }

  lemma UnparsedApply(s: Session, phone: string, a: bool, e: LocationEvent, ts: nat)
    requires !CarriesLocation(e) && JsLocation.ParseLocationFromText(e.rawMessage).None?
    ensures var s1 := ApplyEvent(s, phone, a, e, ts);
      s1.native == s.native && (phone in s1.local ==> phone in s.local && s1.local[phone] == s.local[phone])
  {
  }

  /** A refresh either changes nothing or copies a native record of the phone to its key and the screen. */
  lemma RefreshCopies(s: Session, phone: string, a: bool, view: Option<LocationRecord>, now: nat)
    ensures var t := Refresh(s, phone, a, view, now);
      t.native == s.native &&
      (t == s || (t.shown.Some? && IsNativeCopy(s.native, phone, t.shown.value) &&
                  t.local == s.local[phone := Decoded(t.shown.value)]))
  {
    var r := NativeRecord(s.native, phone);
    if a && r.Some? {
      var i :| 0 <= i < 3 && IsNativeHit(s.native, Candidates(phone)[i]) &&
        s.native[Candidates(phone)[i]] == Decoded(r.value);
    }
  }

  /** Without the native module, or without a native hit among the candidate keys, neither refresh
      changes anything. */
  lemma NoNativeHitNoRefresh(s: Session, phone: string, a: bool, view: Option<LocationRecord>, now: nat, ts: nat)
    requires !a || NativeRecord(s.native, phone).None?
    ensures Refresh(s, phone, a, view, now) == s && RefreshIfNewer(s, phone, a, ts) == s
  {
  }

  /** `handleRefreshFromNative` adopts the first native hit exactly when nothing is on screen, the record
      on screen has no timestamp, the native record is strictly newer, or it is a different location;
      adopting copies it to the sister's AsyncStorage key and shows it. */
  lemma RefreshAdoption(s: Session, phone: string, view: Option<LocationRecord>, now: nat)
    requires NativeRecord(s.native, phone).Some?
    ensures var r := NativeRecord(s.native, phone).value;
      var t := Refresh(s, phone, true, view, now);
      (view.None? || view.value.timestamp == 0 || TimestampOr(r.timestamp, now) > view.value.timestamp ||
       !IsSameCoord(Some(r), view)) ==>
        t == s.(local := s.local[phone := Decoded(r)], shown := Some(r), status := RefreshedFromNative)
    ensures var r := NativeRecord(s.native, phone).value;
      var t := Refresh(s, phone, true, view, now);
      (view.Some? && view.value.timestamp != 0 && TimestampOr(r.timestamp, now) <= view.value.timestamp &&
       IsSameCoord(Some(r), view)) ==> t == s
  {
  }

  /** `handleRefreshFromNativeIfNewer` adopts the first native hit exactly when its own timestamp is at
      least the incoming one. */
  lemma RefreshIfNewerAdoption(s: Session, phone: string, incomingTs: nat)
    requires NativeRecord(s.native, phone).Some?
    ensures var r := NativeRecord(s.native, phone).value;
      var t := RefreshIfNewer(s, phone, true, incomingTs);
      (r.timestamp >= incomingTs ==>
        t == s.(local := s.local[phone := Decoded(r)], shown := Some(r), status := RefreshedNewer)) &&
      (r.timestamp < incomingTs ==> t == s)
  {
  }

  /** A refresh against what it has itself put on screen changes nothing more. */
  lemma RefreshSettles(s: Session, phone: string, a: bool, now: nat)
    ensures var t := Refresh(s, phone, a, s.shown, now);
      Refresh(t, phone, a, t.shown, now) == t
  {
    var t := Refresh(s, phone, a, s.shown, now);
    if a && NativeRecord(s.native, phone).Some? {
      var r := NativeRecord(s.native, phone).value;
      if Adopts(r, s.shown, now) {
        assert t.native == s.native;
        IsSameCoordSelf(Some(r));
        assert t.local[phone := Decoded(r)] == t.local;
      }
    }
  }

  /** After the timeout a tick only stops the poll: no store and no screen change. */
  lemma PollTimeoutWritesNothing(s: Session, phone: string, a: bool, now: nat)
    requires s.polling && now - s.pollStarted > PollTimeoutMs
    ensures var t := PollTick(s, phone, a, now);
      t.local == s.local && t.native == s.native && t.shown == s.shown && !t.polling && t.status == TimedOut
  {
  }

  /** A tick either keeps waiting, changing nothing, or stops with one of the four outcomes. */
  lemma PollOutcomes(s: Session, phone: string, a: bool, now: nat)
    requires s.polling
    ensures var t := PollTick(s, phone, a, now);
      (t.polling && t == s) ||
      (!t.polling && t.status in {TimedOut, ParsedByPoll, DiscardedByPoll, LocationReceived})
  {
  }

  /** Within the timeout, a decodable record under the sister's key always ends the poll, and a record
      without location whose text does not parse is deleted. */
  lemma PollStopsOnRecord(s: Session, phone: string, a: bool, now: nat)
    requires s.polling && now - s.pollStarted <= PollTimeoutMs
    requires phone in s.local && s.local[phone].Decoded?
    ensures var t := PollTick(s, phone, a, now);
      !t.polling &&
      (var r := s.local[phone].value;
       !HasCoordsOrUrl(Some(r)) && r.rawMessage != [] && JsLocation.ParseLocationFromText(r.rawMessage).None? ==>
         phone !in t.local && t.shown.None? && t.status == DiscardedByPoll)
  {
  }

  /** Loading never writes to the native store, and whenever it copies a record it copies it to the
      sister's own key and shows it. */
  lemma LoadCopiesToDirectKey(s: Session, phone: string, a: bool, keyOrder: seq<string>, now: nat)
    ensures var t := Load(s, phone, a, keyOrder, now);
      t.native == s.native && SameElsewhere(t.local, s.local, phone) &&
      (t.local != s.local ==> t.shown.Some? && phone in t.local && t.local[phone] == Decoded(t.shown.value))
  {
    if phone in s.local && s.local[phone].Decoded? {
      RefreshOnlyTouchesPhone(s.(shown := Some(s.local[phone].value), status := LoadedSaved), phone, a, s.shown, now);
    }
  }

  /** A stored value under the sister's key that does not decode stops the load before anything
      changes. */
  lemma LoadAbortsOnMalformedDirect(s: Session, phone: string, a: bool, keyOrder: seq<string>, now: nat)
    requires phone in s.local && s.local[phone].Malformed?
    ensures Load(s, phone, a, keyOrder, now) == s
  {
  }

  /** After any step that calls `setLastLocation`, the effect's cleanup has cleared the poll interval:
      the poll stays stopped, and no later tick changes anything until "Check" starts a new one (a
      consequence of the stopped poll, since a tick only acts while polling). The load that follows
      writes nothing to the native store. */
  lemma ShownChangeStopsPoll(s: Session, phone: string, a: bool, keyOrder: seq<string>, now: nat, later: nat)
    ensures var t := Rerun(s, phone, a, keyOrder, now);
      !t.polling && t.native == s.native && PollTick(t, phone, a, later) == t
  {
  }

  /** One run of the effect when the sister's key holds a decodable record: the load shows that record,
      unless the native refresh adopts the first native record against what was on screen before. */
  lemma DirectRerun(s: Session, phone: string, a: bool, keyOrder: seq<string>, now: nat)
    requires phone in s.local && s.local[phone].Decoded?
    ensures var t := Rerun(s, phone, a, keyOrder, now); var n := NativeRecord(s.native, phone);
      t.shown == (if a && n.Some? && Adopts(n.value, s.shown, now) then n else Some(s.local[phone].value)) &&
      t.local == s.local[phone := Decoded(t.shown.value)]
  {
    var r := s.local[phone].value;
    assert s.local[phone := Decoded(r)] == s.local;
  }

  /** As written, the effect never comes to rest once the sister's key holds a decodable record: after
      any number of runs the key still holds one, so the next load again calls `setLastLocation` (with a
      freshly parsed object, which React always treats as a change), and the poll stays stopped. */
  lemma {:induction false} ReloadNeverSettles(s: Session, phone: string, a: bool, keyOrder: seq<string>, now: nat, n: nat)
    requires phone in s.local && s.local[phone].Decoded?
    ensures var t := Reruns(s, phone, a, keyOrder, now, n);
      phone in t.local && t.local[phone].Decoded? && LoadSetsShown(t, phone, a, keyOrder) && (n > 0 ==> !t.polling)
  {
    if n > 0 {
      var p := Reruns(s, phone, a, keyOrder, now, n - 1);
      ReloadNeverSettles(s, phone, a, keyOrder, now, n - 1);
      DirectRerun(p, phone, a, keyOrder, now);
    }
  }

  /** With the dependency compared by value, the effect comes to rest: from the third load on, the record
      on screen and the stored entries no longer change, so `EffectAfter` runs nothing more. */
  lemma RerunSettles(s: Session, phone: string, a: bool, keyOrder: seq<string>, now: nat)
    requires phone in s.local && s.local[phone].Decoded?
    ensures var t := Rerun(Rerun(s, phone, a, keyOrder, now), phone, a, keyOrder, now);
      var u := Rerun(t, phone, a, keyOrder, now);
      u.shown == t.shown && u.local == t.local && EffectAfter(t, u, phone, a, keyOrder, now) == u
  {
    var t1 := Rerun(s, phone, a, keyOrder, now);
    DirectRerun(s, phone, a, keyOrder, now);
    var t2 := Rerun(t1, phone, a, keyOrder, now);
    DirectRerun(t1, phone, a, keyOrder, now);
    DirectRerun(t2, phone, a, keyOrder, now);
  }

  /** The "Try Parse Message" button writes only the sister's key, in either store, and never the poll;
      it alerts exactly when no message is on screen, and then changes nothing; a message that parses
      is saved under the sister's key and shown. */
  lemma TryParseOnlyTouchesPhone(s: Session, phone: string, a: bool, now: nat)
    ensures var r := TryParseShown(s, phone, a, now); var t := r.0;
      SameElsewhere(t.local, s.local, phone) && SameElsewhere(t.native, s.native, phone) &&
      t.polling == s.polling &&
      (r.1.Some? <==> s.shown.None? || s.shown.value.rawMessage == []) &&
      (r.1.Some? ==> t == s) &&
      (r.1.None? && t.status == ParsedByButton ==> t.shown.Some? && phone in t.local && t.local[phone] == Decoded(t.shown.value))
  {
    if s.shown.Some? && s.shown.value.rawMessage != [] {
      var raw := s.shown.value.rawMessage;
      var loc := JsLocation.ParseLocationFromText(raw);
      if loc.Some? {
        PersistAndSetOnlyTouchesPhone(s, phone, a, Enrich(loc.value, raw, now));
      } else {
        RemoveRawOnlyTouchesPhone(s, phone);
      }
    }
  }

}
