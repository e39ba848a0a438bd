/** The unrouted brother screen (src/screens/BrotherHomeScreen.jsx): an in-memory list of sisters with
    an id, a name and a phone, starting from two sample entries; adding derives the id from the list's
    length and removing drops every entry with an id. */
module SisterRoster {
  import opened Wrappers
  import opened Text
  import opened Lists

  datatype Sister = Sister(id: string, name: string, phone: string)

  /** `initialSisters`. */
  const InitialSisters: seq<Sister> :=
    [Sister("1", "Sister A", "+919876543210"), Sister("2", "Sister B", "+919988776655")]

  function DigitChar(d: nat): char
    requires d < 10
  {
    ('0' as int + d) as char
  }

  /** `n.toString()` for a natural number. */
  function NatText(n: nat): (r: string)
    ensures r != [] && AllDigits(r)
  {
    if n < 10 then [DigitChar(n)] else NatText(n / 10) + [DigitChar(n % 10)]
  }

  /** The value of a string of decimal digits. */
  function DigitsValue(s: string): nat
    requires AllDigits(s)
  {
    if s == [] then 0 else DigitsValue(s[..|s| - 1]) * 10 + (s[|s| - 1] as int - '0' as int)
  }

  /** Reading back what `NatText` wrote gives the number. */
  lemma {:induction false} NatTextValue(n: nat)
    ensures DigitsValue(NatText(n)) == n
  {
    if n >= 10 {
      NatTextValue(n / 10);
      var s := NatText(n);
      assert s[..|s| - 1] == NatText(n / 10);
    }
  }

  /** Different numbers are written differently. */
  lemma NatTextInjective(m: nat, n: nat)
    requires NatText(m) == NatText(n)
    ensures m == n
  {
    NatTextValue(m);
    NatTextValue(n);
  }

  /** An id read as a number, when it is a non-empty string of digits. */
  function IdNumber(id: string): Option<nat> {
    if id != [] && AllDigits(id) then Some(DigitsValue(id)) else None
  }

  /** The largest number among the ids that are numbers, or 0. */
  function MaxIdNumber(list: seq<Sister>): (m: nat)
    ensures forall j :: 0 <= j < |list| && IdNumber(list[j].id).Some? ==> IdNumber(list[j].id).value <= m
  {
    if list == [] then 0
    else
      var rest := MaxIdNumber(list[..|list| - 1]);
      var last := IdNumber(list[|list| - 1].id);
      if last.Some? && last.value > rest then last.value else rest
  }

  /** No two sisters share an id. */
  predicate UniqueIds(list: seq<Sister>) {
    forall i, j :: 0 <= i < j < |list| ==> list[i].id != list[j].id
  }

  /** Whether the two fields, trimmed, are both filled. */
  predicate Filled(nameInput: string, phoneInput: string) {
    TrimJs(nameInput) != [] && TrimJs(phoneInput) != []
  }

  /** `addSister` as written: the new id is the list's length plus one, and the name and phone are kept
      as typed. */
  function AddSisterAsWritten(list: seq<Sister>, nameInput: string, phoneInput: string): (r: Option<seq<Sister>>)
    ensures r.Some? <==> Filled(nameInput, phoneInput)
    ensures r.Some? ==> r.value == list + [Sister(NatText(|list| + 1), nameInput, phoneInput)]
  {
    if Filled(nameInput, phoneInput) then Some(list + [Sister(NatText(|list| + 1), nameInput, phoneInput)]) else None
  }

  /** `removeSister`: every sister with the id goes; the others stay, in order. */
  function RemoveSister(list: seq<Sister>, id: string): (r: seq<Sister>)
    ensures forall x :: x in r <==> x in list && x.id != id
  {
    var keep := (x: Sister) => x.id != id;
    FilterMembers(list, keep);
    Filter(list, keep)
  }

  lemma RemoveFirstSample()
    ensures RemoveSister(InitialSisters, "1") == [InitialSisters[1]]
  {
    assert InitialSisters[..1] == [InitialSisters[0]];
    assert [InitialSisters[0]][..0] == [];
  }

  lemma OneCharFilled(c: char, d: char)
    requires !IsJsSpace(c) && !IsJsSpace(d)
    ensures Filled([c], [d])
  {
    assert DropLast([c], IsJsSpace) == [c];
    assert DropLast([d], IsJsSpace) == [d];
  }

  lemma AddAfterRemove(b: Sister)
    ensures AddSisterAsWritten([b], "C", "5") == Some([b, Sister("2", "C", "5")])
  {
    OneCharFilled('C', '5');
    assert NatText(|[b]| + 1) == "2";
    assert [b] + [Sister("2", "C", "5")] == [b, Sister("2", "C", "5")];
  }

  /** After removing the first sample sister, adding a sister gives it the id of the remaining one,
      and removing that id then removes both. */
  lemma LengthIdCollides()
    ensures var afterAdd := AddSisterAsWritten(RemoveSister(InitialSisters, "1"), "C", "5");
      afterAdd.Some? && UniqueIds(InitialSisters) && !UniqueIds(afterAdd.value) &&
      RemoveSister(afterAdd.value, "2") == []
  {
    var b := InitialSisters[1];
    RemoveFirstSample();
    AddAfterRemove(b);
    var afterAdd := [b, Sister("2", "C", "5")];
    assert afterAdd[0].id == afterAdd[1].id;
    RemoveSharedId(afterAdd, "2");
  }

  /** Removing an id that every sister has empties the list. */
  lemma RemoveSharedId(list: seq<Sister>, id: string)
    requires forall j :: 0 <= j < |list| ==> list[j].id == id
    ensures RemoveSister(list, id) == []
  {
    FilterDropsAll(list, (x: Sister) => x.id != id);
  }

  /** `addSister` with an id that no sister has: one more than the largest numeric id. */
  function AddSister(list: seq<Sister>, nameInput: string, phoneInput: string): (r: Option<seq<Sister>>)
    ensures r.Some? <==> Filled(nameInput, phoneInput)
    ensures r.Some? ==> (|r.value| == |list| + 1 && r.value[..|list|] == list &&
      r.value[|list|].name == nameInput && r.value[|list|].phone == phoneInput)
  {
    if Filled(nameInput, phoneInput) then
      Some(list + [Sister(NatText(MaxIdNumber(list) + 1), nameInput, phoneInput)])
    else None
  }

  /** The new id is different from every id in the list. */
  lemma NewIdIsFresh(list: seq<Sister>)
    ensures forall j :: 0 <= j < |list| ==> list[j].id != NatText(MaxIdNumber(list) + 1)
  {
    var m := MaxIdNumber(list);
    var newId := NatText(m + 1);
    NatTextValue(m + 1);
    assert IdNumber(newId) == Some(m + 1);
    forall j | 0 <= j < |list|
      ensures list[j].id != newId
    {
      assert IdNumber(list[j].id).Some? ==> IdNumber(list[j].id).value <= m;
    }
  }

  /** Adding keeps the ids unique. */
  lemma AddKeepsUniqueIds(list: seq<Sister>, nameInput: string, phoneInput: string)
    requires UniqueIds(list) && Filled(nameInput, phoneInput)
    ensures UniqueIds(AddSister(list, nameInput, phoneInput).value)
  {
    NewIdIsFresh(list);
    AppendFreshId(list, Sister(NatText(MaxIdNumber(list) + 1), nameInput, phoneInput));
  }

  /** A sister whose id no other sister has can be appended without breaking uniqueness. */
  lemma AppendFreshId(list: seq<Sister>, x: Sister)
    requires UniqueIds(list)
    requires forall j :: 0 <= j < |list| ==> list[j].id != x.id
    ensures UniqueIds(list + [x])
  {
    var r := list + [x];
    forall i, j | 0 <= i < j < |r|
      ensures r[i].id != r[j].id
    {
      assert r[i] == list[i];
      if j < |list| {
        assert r[j] == list[j];
      }
    }
  }

  /** Removing keeps the ids unique, and with unique ids it removes at most one sister. */
  lemma RemoveKeepsUniqueIds(list: seq<Sister>, id: string)
    requires UniqueIds(list)
    ensures UniqueIds(RemoveSister(list, id))
    ensures |RemoveSister(list, id)| >= |list| - 1
  {
    RemoveUnique(list, id);
  }

  lemma {:induction false} RemoveUnique(list: seq<Sister>, id: string)
    requires UniqueIds(list)
    ensures UniqueIds(RemoveSister(list, id))
    ensures |RemoveSister(list, id)| >= |list| - 1
    ensures (forall j :: 0 <= j < |list| ==> list[j].id != id) ==> |RemoveSister(list, id)| == |list|
    decreases |list|
  {
    if list != [] {
      var init := list[..|list| - 1];
      var last := list[|list| - 1];
      RemoveUnique(init, id);
      var r := RemoveSister(list, id);
      var ri := RemoveSister(init, id);
      assert r == ri + (if last.id != id then [last] else []);
      if last.id == id {
        assert forall j :: 0 <= j < |init| ==> init[j].id != id;
      } else {
        forall i, j | 0 <= i < j < |r|
          ensures r[i].id != r[j].id
        {
          if j == |ri| {
            assert r[i] in ri;
            assert r[i] in init;
            var k :| 0 <= k < |init| && init[k] == r[i];
            assert list[k] == r[i] && list[|list| - 1] == last;
          } else {
            assert r[i] == ri[i] && r[j] == ri[j];
          }
        }
      }
    }
  }

  /** The sample list has unique ids. */
  lemma InitialUnique()
    ensures UniqueIds(InitialSisters)
  {
  }
}
