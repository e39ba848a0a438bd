/** The brother's sister list (src/screens/brother/BrotherHome.js): contacts of a name, a phone and an
    optional secret code, stored in AsyncStorage under `sisters` and mirrored to the native
    `SisterPrefs` list the brother's receiver matches senders against. */
module SisterContacts {
  import opened Wrappers
  import opened Text
  import opened Records
  import opened Lists
  import LocalStorage
  import NativePrefs

  datatype ContactAlert = NameAndPhoneRequired | DuplicatePhone

  /** The contact the form describes, every field trimmed; nothing when the name or the phone is
      blank. The code may be empty. */
  function ContactFrom(nameInput: string, phoneInput: string, codeInput: string): (r: Option<Contact>)
    ensures r.Some? <==> TrimJs(nameInput) != [] && TrimJs(phoneInput) != []
    ensures r.Some? ==> r.value == Contact(TrimJs(nameInput), TrimJs(phoneInput), TrimJs(codeInput))
  {
    var nm := TrimJs(nameInput);
    var ph := TrimJs(phoneInput);
    if nm == [] || ph == [] then None else Some(Contact(nm, ph, TrimJs(codeInput)))
  }

  /** `sisters.some(s => s.phone === ph)`. */
  predicate PhoneTaken(list: seq<Contact>, phone: string) {
    exists j :: 0 <= j < |list| && list[j].phone == phone
  }

  /** Adding: rejected when a sister already has the same phone, otherwise appended at the end. */
  function AddContact(list: seq<Contact>, c: Contact): (r: Option<seq<Contact>>)
    ensures r.None? <==> PhoneTaken(list, c.phone)
    ensures r.Some? ==> |r.value| == |list| + 1 && r.value[..|list|] == list && r.value[|list|] == c
  {
    if PhoneTaken(list, c.phone) then None else Some(list + [c])
  }

  predicate UniquePhones(list: seq<Contact>) {
    forall i, j :: 0 <= i < j < |list| ==> list[i].phone != list[j].phone
  }

  /** Every contact has a name and a phone. */
  predicate Complete(list: seq<Contact>) {
    forall i :: 0 <= i < |list| ==> list[i].name != [] && list[i].phone != []
  }

  /** Adding through the form keeps the list complete and its phones unique. */
  lemma AddKeepsInvariant(list: seq<Contact>, nameInput: string, phoneInput: string, codeInput: string)
    requires UniquePhones(list) && Complete(list)
    requires ContactFrom(nameInput, phoneInput, codeInput).Some?
    requires AddContact(list, ContactFrom(nameInput, phoneInput, codeInput).value).Some?
    ensures var r := AddContact(list, ContactFrom(nameInput, phoneInput, codeInput).value).value;
      UniquePhones(r) && Complete(r)
  {
    var c := ContactFrom(nameInput, phoneInput, codeInput).value;
    assert c.name != [] && c.phone != [];
    AppendKeepsInvariant(list, c);
  }

  lemma AppendKeepsInvariant(list: seq<Contact>, c: Contact)
    requires UniquePhones(list) && Complete(list)
    requires c.name != [] && c.phone != [] && !PhoneTaken(list, c.phone)
    ensures UniquePhones(list + [c]) && Complete(list + [c])
  {
    var r := list + [c];
    forall i, j | 0 <= i < j < |r|
      ensures r[i].phone != r[j].phone
    {
      assert r[i] == list[i];
      if j < |list| {
        assert r[j] == list[j];
      }
    }
  }

  /** Removing keeps the list complete and its phones unique. */
  lemma RemoveKeepsInvariant(list: seq<Contact>, index: nat)
    requires UniquePhones(list) && Complete(list)
    ensures UniquePhones(RemoveAt(list, index)) && Complete(RemoveAt(list, index))
  {
    var r := RemoveAt(list, index);
    forall i, j | 0 <= i < j < |r|
      ensures r[i].phone != r[j].phone
    {
      var i' := if i < index then i else i + 1;
      var j' := if j < index then j else j + 1;
      assert r[i] == list[i'] && r[j] == list[j'] && i' < j';
    }
  }

  /** The screen: the list on display and the two stores `saveList` writes. `nativeAvailable` says
      whether `SisterSettingsModule.setSisterList` is present. */
  class BrotherHome {
    var sisters: seq<Contact>
    const local: LocalStorage.AsyncStore
    const native: NativePrefs.SisterPrefs
    const nativeAvailable: bool

    constructor (local: LocalStorage.AsyncStore, native: NativePrefs.SisterPrefs, nativeAvailable: bool)
      ensures sisters == [] && this.local == local && this.native == native
      ensures this.nativeAvailable == nativeAvailable
    {
      sisters := [];
      this.local := local;
      this.native := native;
      this.nativeAvailable := nativeAvailable;
    }

    /** `load`: the stored list, or the empty list when the key is missing or does not decode. */
    method Load()
      modifies this`sisters
      ensures local.sisters.Some? && local.sisters.value.Decoded? ==> sisters == local.sisters.value.value
      ensures !(local.sisters.Some? && local.sisters.value.Decoded?) ==> sisters == []
    {
      sisters := [];
      var raw := local.sisters;
      if raw.Some? && raw.value.Decoded? {
        sisters := raw.value.value;
      }
    }

    /** `saveList`: saved locally, shown, then mirrored to the native list when the module is there. */
    method SaveList(next: seq<Contact>)
      modifies this`sisters, local`sisters, native`sisterList
      ensures sisters == next && local.sisters == Some(Decoded(next))
      ensures nativeAvailable ==> native.sisterList == Some(Decoded(next))
      ensures !nativeAvailable ==> native.sisterList == old(native.sisterList)
    {
      local.SetSisters(next);
      sisters := next;
      if nativeAvailable {
        native.SetSisterList(Decoded(next));
      }
    }

    /** `handleAdd`. */
    method Add(nameInput: string, phoneInput: string, codeInput: string) returns (alert: Option<ContactAlert>)
      modifies this`sisters, local`sisters, native`sisterList
      ensures ContactFrom(nameInput, phoneInput, codeInput).None? ==>
        (alert == Some(NameAndPhoneRequired) && sisters == old(sisters) && local.sisters == old(local.sisters) &&
         native.sisterList == old(native.sisterList))
      ensures var c := ContactFrom(nameInput, phoneInput, codeInput);
        c.Some? && AddContact(old(sisters), c.value).None? ==>
          (alert == Some(DuplicatePhone) && sisters == old(sisters) && local.sisters == old(local.sisters) &&
           native.sisterList == old(native.sisterList))
      ensures var c := ContactFrom(nameInput, phoneInput, codeInput);
        c.Some? && AddContact(old(sisters), c.value).Some? ==>
          (alert.None? && sisters == AddContact(old(sisters), c.value).value &&
           local.sisters == Some(Decoded(sisters)))
      ensures alert.None? && nativeAvailable ==> native.sisterList == Some(Decoded(sisters))
      ensures alert.None? && !nativeAvailable ==> native.sisterList == old(native.sisterList)
    {
      var c := ContactFrom(nameInput, phoneInput, codeInput);
      if c.None? {
        return Some(NameAndPhoneRequired);
      }
      var next := AddContact(sisters, c.value);
      if next.None? {
        return Some(DuplicatePhone);
      }
      SaveList(next.value);
      alert := None;
    }

    /** The confirmed remove: the sister at the index goes and the rest is saved. */
    method Remove(index: nat)
      modifies this`sisters, local`sisters, native`sisterList
      ensures sisters == RemoveAt(old(sisters), index) && local.sisters == Some(Decoded(sisters))
      ensures nativeAvailable ==> native.sisterList == Some(Decoded(sisters))
      ensures !nativeAvailable ==> native.sisterList == old(native.sisterList)
    {
      SaveList(RemoveAt(sisters, index));
    }
  }
}
