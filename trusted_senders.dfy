/** The sister's trusted-sender list (src/screens/sister/SisterHome.js): entries of a phone and a
    keyword, added, edited and removed on screen, stored in AsyncStorage under `trustedList` and pushed
    to the native `ResponderSettings` store that the responder reads. */
module TrustedSenders {
  import opened Wrappers
  import opened Text
  import opened Records
  import opened Lists
  import LocalStorage
  import NativePrefs
  import Responder

  /** The alerts the save and remove handlers raise. */
  datatype ListAlert = BothRequired | AlreadyTrusted

  /** The entry the modal's two fields describe, both trimmed; nothing when either is blank. */
  function EntryFrom(phoneInput: string, keywordInput: string): (r: Option<TrustedEntry>)
    ensures r.Some? <==> TrimJs(phoneInput) != [] && TrimJs(keywordInput) != []
    ensures r.Some? ==> r.value.phone == TrimJs(phoneInput) && r.value.keyword == TrimJs(keywordInput)
  {
    var phone := TrimJs(phoneInput);
    var keyword := TrimJs(keywordInput);
    if phone == [] || keyword == [] then None else Some(TrustedEntry(phone, keyword))
  }

  /** `trustedList.some(e => e.phone === phone)`. */
  predicate PhoneTaken(list: seq<TrustedEntry>, phone: string) {
    exists j :: 0 <= j < |list| && list[j].phone == phone
  }

  /** Adding: rejected when an entry already has the same phone, otherwise appended at the end. */
  function AddEntry(list: seq<TrustedEntry>, e: TrustedEntry): (r: Option<seq<TrustedEntry>>)
    ensures r.None? <==> PhoneTaken(list, e.phone)
    ensures r.Some? ==> |r.value| == |list| + 1 && r.value[..|list|] == list && r.value[|list|] == e
  {
    if PhoneTaken(list, e.phone) then None else Some(list + [e])
  }

  /** Editing: the entry at the index is replaced, with no uniqueness check. */
  function EditEntry(list: seq<TrustedEntry>, index: nat, e: TrustedEntry): (r: seq<TrustedEntry>)
    requires index < |list|
    ensures |r| == |list| && r[index] == e
    ensures forall j :: 0 <= j < |list| && j != index ==> r[j] == list[j]
  {
    list[index := e]
  }

  /** No two entries share a phone. */
  predicate UniquePhones(list: seq<TrustedEntry>) {
    forall i, j :: 0 <= i < j < |list| ==> list[i].phone != list[j].phone
  }

  /** Adding keeps the phones unique. */
  lemma AddKeepsUnique(list: seq<TrustedEntry>, e: TrustedEntry)
    requires UniquePhones(list) && AddEntry(list, e).Some?
    ensures UniquePhones(AddEntry(list, e).value)
  {
    var r := AddEntry(list, e).value;
    forall i, j | 0 <= i < j < |r|
      ensures r[i].phone != r[j].phone
    {
      if j == |list| {
        assert r[i] == list[i];
      } else {
        assert r[i] == list[i] && r[j] == list[j];
      }
    }
  }

  /** Removing keeps the phones unique. */
  lemma RemoveKeepsUnique(list: seq<TrustedEntry>, index: nat)
    requires UniquePhones(list)
    ensures UniquePhones(RemoveAt(list, index))
  {
    var r := RemoveAt(list, index);
    forall i, j | 0 <= i < j < |r|
      ensures r[i].phone != r[j].phone
    {
      var i' := if i < index then i else i + 1;
      var j' := if j < index then j else j + 1;
      assert r[i] == list[i'] && r[j] == list[j'] && i' < j';
    }
  }

  /** Editing can give an entry the phone of another: the uniqueness kept by adding is not kept by
      editing. */
  lemma EditCanDuplicate()
    ensures var list := [TrustedEntry("111", "A"), TrustedEntry("222", "B")];
      UniquePhones(list) && !UniquePhones(EditEntry(list, 1, TrustedEntry("111", "C")))
  {
    var r := EditEntry([TrustedEntry("111", "A"), TrustedEntry("222", "B")], 1, TrustedEntry("111", "C"));
    assert r[0].phone == r[1].phone;
  }

  /** Once a saved list reaches the responder, a message whose sender contains an added entry's phone
      and whose body contains its keyword gets a reply. */
  lemma AddedEntryTriggersReply(list: seq<TrustedEntry>, e: TrustedEntry, p: Responder.Pdu)
    requires AddEntry(list, e).Some? && e.phone != [] && e.keyword != []
    requires p.sender.Some? && Contains(p.sender.value, e.phone)
    requires p.body.Some? && Contains(Upper(p.body.value), Upper(e.keyword))
    ensures Responder.ReplyTo(Some(Decoded(AddEntry(list, e).value)), p) == p.sender
  {
    var r := AddEntry(list, e).value;
    assert Responder.Triggers(r[|list|], p);
  }

  /** The screen: the list on display and the stores `persistList` writes. `nativeAvailable` says
      whether `SettingsModule.setTrustedList` is present. */
  class SisterHome {
    var trustedList: seq<TrustedEntry>
    const local: LocalStorage.AsyncStore
    const responder: NativePrefs.ResponderPrefs
    const nativeAvailable: bool

    constructor (local: LocalStorage.AsyncStore, responder: NativePrefs.ResponderPrefs, nativeAvailable: bool)
      ensures trustedList == [] && this.local == local && this.responder == responder
      ensures this.nativeAvailable == nativeAvailable
    {
      trustedList := [];
      this.local := local;
      this.responder := responder;
      this.nativeAvailable := nativeAvailable;
    }

    /** The initial load: a stored value that decodes to a list is adopted; a missing or undecodable
        one leaves the list as it is. */
    method Load()
      modifies this`trustedList
      ensures local.trustedList.Some? && local.trustedList.value.Decoded? ==>
        trustedList == local.trustedList.value.value
      ensures !(local.trustedList.Some? && local.trustedList.value.Decoded?) ==> trustedList == old(trustedList)
    {
      var raw := local.trustedList;
      if raw.Some? {
        match raw.value
        case Decoded(list) => trustedList := list;
        case Malformed =>
      }
    }

    /** `persistList`: the list is saved locally and shown, then sent to the native store when the
        module is there; the native write does not depend on, or undo, the local one. */
    method PersistList(next: seq<TrustedEntry>)
      modifies this`trustedList, local`trustedList, responder
      ensures trustedList == next && local.trustedList == Some(Decoded(next))
      ensures nativeAvailable ==> responder.trustedList == Some(Decoded(next))
      ensures !nativeAvailable ==> responder.trustedList == old(responder.trustedList)
    {
      local.SetTrustedList(next);
      trustedList := next;
      if nativeAvailable {
        responder.SetTrustedList(Decoded(next));
      }
    }

    /** `handleSaveEntry`, where `editing` is the index being edited (`editingIndex`), or nothing when
        adding. */
    method SaveEntry(phoneInput: string, keywordInput: string, editing: Option<nat>) returns (alert: Option<ListAlert>)
      requires editing.Some? ==> editing.value < |trustedList|
      modifies this`trustedList, local`trustedList, responder
      ensures EntryFrom(phoneInput, keywordInput).None? ==>
        (alert == Some(BothRequired) && trustedList == old(trustedList) && local.trustedList == old(local.trustedList) &&
         responder.trustedList == old(responder.trustedList))
      ensures var e := EntryFrom(phoneInput, keywordInput);
        e.Some? && editing.None? && AddEntry(old(trustedList), e.value).None? ==>
          (alert == Some(AlreadyTrusted) && trustedList == old(trustedList) &&
           local.trustedList == old(local.trustedList) && responder.trustedList == old(responder.trustedList))
      ensures var e := EntryFrom(phoneInput, keywordInput);
        e.Some? && editing.None? && AddEntry(old(trustedList), e.value).Some? ==>
          (alert.None? && trustedList == AddEntry(old(trustedList), e.value).value &&
           local.trustedList == Some(Decoded(trustedList)))
      ensures var e := EntryFrom(phoneInput, keywordInput);
        e.Some? && editing.Some? ==>
          (alert.None? && trustedList == EditEntry(old(trustedList), editing.value, e.value) &&
           local.trustedList == Some(Decoded(trustedList)))
      ensures alert.None? && nativeAvailable ==> responder.trustedList == Some(Decoded(trustedList))
      ensures alert.None? && !nativeAvailable ==> responder.trustedList == old(responder.trustedList)
    {
      var e := EntryFrom(phoneInput, keywordInput);
      if e.None? {
        return Some(BothRequired);
      }
      if editing.None? {
        var next := AddEntry(trustedList, e.value);
        if next.None? {
          return Some(AlreadyTrusted);
        }
        PersistList(next.value);
      } else {
        PersistList(EditEntry(trustedList, editing.value, e.value));
      }
      alert := None;
    }

    /** The confirmed remove: the entry at the index goes and the rest is saved. */
    method Remove(index: nat)
      modifies this`trustedList, local`trustedList, responder
      ensures trustedList == RemoveAt(old(trustedList), index) && local.trustedList == Some(Decoded(trustedList))
      ensures nativeAvailable ==> responder.trustedList == Some(Decoded(trustedList))
      ensures !nativeAvailable ==> responder.trustedList == old(responder.trustedList)
    {
      PersistList(RemoveAt(trustedList, index));
    }
  }
}
