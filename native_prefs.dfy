/** The two native key-value stores the JavaScript side writes through bridge modules: the
    `SisterPrefs` namespace (android/app/src/main/java/com/sis/SisterSettingsModule.java), which the
    native receiver also writes, and the `ResponderSettings` namespace
    (android/app/src/main/java/com/sis/SettingsModule.java), which the responder reads. */
module NativePrefs {
  import opened Wrappers
  import opened Records

  /** `SisterPrefs`. The key `sister_list` is the field `sisterList`; a key `lastLocation_<p>` is the
      entry `p` of `locations`. No `lastLocation_` key equals `sister_list`, so the two never collide. */
  class SisterPrefs {
    var sisterList: Option<Json<seq<Contact>>>
    var locations: map<string, Json<LocationRecord>>

    constructor ()
      ensures sisterList == None && locations == map[]
    {
      sisterList := None;
      locations := map[];
    }

    /** The value stored under `lastLocation_<phone>`, if any. */
    function LastLocation(phone: string): (r: Option<Json<LocationRecord>>)
      reads this
      ensures r.Some? <==> phone in locations
      ensures r.Some? ==> r.value == locations[phone]
    {
      if phone in locations then Some(locations[phone]) else None
    }

    /** `setSisterList`: replaces the whole list; the location entries are untouched. */
    method SetSisterList(list: Json<seq<Contact>>)
      modifies this`sisterList
      ensures sisterList == Some(list)
    {
      sisterList := Some(list);
    }

    /** `getSisterList`: the stored list, or nothing when it was never set. */
    method GetSisterList() returns (r: Option<Json<seq<Contact>>>)
      ensures r == sisterList
    {
      r := sisterList;
    }

    /** `setLastLocation`: a `null` phone does nothing; otherwise the entry for that phone is replaced
        and every other entry, and the sister list, stay as they were. */
    method SetLastLocation(phone: Option<string>, json: Json<LocationRecord>)
      modifies this`locations
      ensures phone.None? ==> locations == old(locations)
      ensures phone.Some? ==> locations == old(locations)[phone.value := json]
      ensures phone.Some? ==> LastLocation(phone.value) == Some(json)
      ensures forall p :: Some(p) != phone ==> LastLocation(p) == old(LastLocation(p))
    {
      if phone.Some? {
        locations := locations[phone.value := json];
      }
    }

    /** `getLastLocation`: a `null` phone resolves to nothing; otherwise the entry for that phone. */
    method GetLastLocation(phone: Option<string>) returns (r: Option<Json<LocationRecord>>)
      ensures phone.None? ==> r.None?
      ensures phone.Some? ==> r == LastLocation(phone.value)
    {
      if phone.None? {
        return None;
      }
      r := if phone.value in locations then Some(locations[phone.value]) else None;
    }
  }

  /** `ResponderSettings`: only the key `trusted_list` is modelled. */
  class ResponderPrefs {
    var trustedList: Option<Json<seq<TrustedEntry>>>

    constructor ()
      ensures trustedList == None
    {
      trustedList := None;
    }

    /** `setTrustedList`: replaces the whole list. */
    method SetTrustedList(list: Json<seq<TrustedEntry>>)
      modifies this
      ensures trustedList == Some(list)
    {
      trustedList := Some(list);
    }
  }
}
