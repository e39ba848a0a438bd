/** The app's `AsyncStorage`, restricted to the keys the check-in engine uses. */
module LocalStorage {
  import opened Wrappers
  import opened Records

  /** A key `lastLocation_<p>` is the entry `p` of `locations`; `secretCodes`, `sisters`,
      `trustedList` and `trustedNumbers` are the keys of the same names (`None` when unset). */
  class AsyncStore {
    var locations: map<string, Json<LocationRecord>>
    var secretCodes: Option<Json<map<string, string>>>
    var sisters: Option<Json<seq<Contact>>>
    var trustedList: Option<Json<seq<TrustedEntry>>>
    var trustedNumbers: Option<Json<seq<TrustedNumber>>>

    constructor ()
      ensures locations == map[] && secretCodes == None && sisters == None
      ensures trustedList == None && trustedNumbers == None
    {
      locations := map[];
      secretCodes := None;
      sisters := None;
      trustedList := None;
      trustedNumbers := None;
    }

    /** `setItem('lastLocation_' + key, …)`: only that entry changes. */
    method SetLocation(key: string, json: Json<LocationRecord>)
      modifies this`locations
      ensures locations == old(locations)[key := json]
    {
      locations := locations[key := json];
    }

    /** `removeItem('lastLocation_' + key)`: only that entry goes. */
    method RemoveLocation(key: string)
      modifies this`locations
      ensures locations == old(locations) - {key}
    {
      locations := locations - {key};
    }

    method SetSisters(list: seq<Contact>)
      modifies this`sisters
      ensures sisters == Some(Decoded(list))
    {
      sisters := Some(Decoded(list));
    }

    method SetTrustedList(list: seq<TrustedEntry>)
      modifies this`trustedList
      ensures trustedList == Some(Decoded(list))
    {
      trustedList := Some(Decoded(list));
    }

    method SetTrustedNumbers(list: seq<TrustedNumber>)
      modifies this`trustedNumbers
      ensures trustedNumbers == Some(Decoded(list))
    {
      trustedNumbers := Some(Decoded(list));
    }
  }
}
