/** The unrouted sister screen (src/screens/SisterScreen.jsx): trusted numbers with an id, a number and
    an upper-cased keyword, stored in AsyncStorage under `trustedNumbers` and handed to the native
    settings module as two comma-joined strings. */
module TrustedNumbers {
  import opened Wrappers
  import opened Text
  import opened Records
  import opened Lists
  import LocalStorage

  datatype NumbersAlert = BothRequired | SettingsSaved | SettingsFailed

  /** The entry the two fields describe: kept as typed for the number and upper-cased for the keyword,
      with `id` standing for `Date.now().toString()`; nothing when either field is blank. */
  function NewEntry(id: string, numberInput: string, keywordInput: string): (r: Option<TrustedNumber>)
    ensures r.Some? <==> TrimJs(numberInput) != [] && TrimJs(keywordInput) != []
    ensures r.Some? ==> r.value.id == id && r.value.number == numberInput && r.value.keyword == Upper(keywordInput)
  {
    if TrimJs(numberInput) != [] && TrimJs(keywordInput) != [] then
      Some(TrustedNumber(id, numberInput, Upper(keywordInput)))
    else None
  }

  /** `deleteTrustedNumber`: every entry with the id goes; the others stay, in order. */
  function DeleteById(list: seq<TrustedNumber>, id: string): (r: seq<TrustedNumber>)
    ensures forall x :: x in r <==> x in list && x.id != id
  {
    var keep := (x: TrustedNumber) => x.id != id;
    FilterMembers(list, keep);
    Filter(list, keep)
  }

  /** Deleting an id that no entry has changes nothing. */
  lemma DeleteAbsentId(list: seq<TrustedNumber>, id: string)
    requires forall j :: 0 <= j < |list| ==> list[j].id != id
    ensures DeleteById(list, id) == list
  {
    FilterKeepsAll(list, (x: TrustedNumber) => x.id != id);
  }

  /** Deleting is decided entry by entry, so the remaining entries keep their order. */
  lemma DeleteSplits(a: seq<TrustedNumber>, b: seq<TrustedNumber>, id: string)
    ensures DeleteById(a + b, id) == DeleteById(a, id) + DeleteById(b, id)
  {
    FilterAppend(a, b, (x: TrustedNumber) => x.id != id);
  }

  function NumberList(list: seq<TrustedNumber>): (r: seq<string>)
    ensures |r| == |list| && forall j :: 0 <= j < |list| ==> r[j] == list[j].number
  {
    seq(|list|, j requires 0 <= j < |list| => list[j].number)
  }

  function KeywordList(list: seq<TrustedNumber>): (r: seq<string>)
    ensures |r| == |list| && forall j :: 0 <= j < |list| ==> r[j] == list[j].keyword
  {
    seq(|list|, j requires 0 <= j < |list| => list[j].keyword)
  }

  /** `numbers.map(item => item.number).join(',')`. */
  function NumbersString(list: seq<TrustedNumber>): string {
    Join(NumberList(list), ',')
  }

  /** `numbers.map(item => item.keyword).join(',')`. */
  function KeywordsString(list: seq<TrustedNumber>): string {
    Join(KeywordList(list), ',')
  }

  /** A reader that splits the two strings at commas gets every number and every keyword back, in
      list order, as long as the list is not empty and no number or keyword holds a comma. */
  lemma JoinedStringsSplitBack(list: seq<TrustedNumber>)
    requires |list| >= 1
    requires forall j :: 0 <= j < |list| ==> ',' !in list[j].number && ',' !in list[j].keyword
    ensures Split(NumbersString(list), ',') == NumberList(list)
    ensures Split(KeywordsString(list), ',') == KeywordList(list)
  {
    SplitJoin(NumberList(list), ',');
    SplitJoin(KeywordList(list), ',');
  }

  /** An empty list is sent as two empty strings. */
  lemma EmptyListSendsEmpty()
    ensures NumbersString([]) == [] && KeywordsString([]) == []
  {
    assert NumberList([]) == [] && KeywordList([]) == [];
  }

  /** The screen and the store it writes. `serviceAvailable` says whether the native settings module
      has `setTrustedNumbers` and `setSecretKeywords`; the `SettingsModule` of this repository has
      neither, so there it is false and every save ends with the error alert. */
  class SisterScreen {
    var trustedNumbers: seq<TrustedNumber>
    const local: LocalStorage.AsyncStore
    const serviceAvailable: bool

    constructor (local: LocalStorage.AsyncStore, serviceAvailable: bool)
      ensures trustedNumbers == [] && this.local == local && this.serviceAvailable == serviceAvailable
    {
      trustedNumbers := [];
      this.local := local;
      this.serviceAvailable := serviceAvailable;
    }

    /** `loadTrustedNumbers`: a stored list that decodes is adopted; otherwise nothing changes. */
    method Load()
      modifies this`trustedNumbers
      ensures local.trustedNumbers.Some? && local.trustedNumbers.value.Decoded? ==>
        trustedNumbers == local.trustedNumbers.value.value
      ensures !(local.trustedNumbers.Some? && local.trustedNumbers.value.Decoded?) ==>
        trustedNumbers == old(trustedNumbers)
    {
      var saved := local.trustedNumbers;
      if saved.Some? && saved.value.Decoded? {
        trustedNumbers := saved.value.value;
      }
    }

    /** `saveTrustedNumbers`: the list is saved and shown; then the two joined strings are handed to
        the native module, and the alert says whether that worked. Returns the alert and the two
        strings. */
    method Save(numbers: seq<TrustedNumber>) returns (alert: NumbersAlert, numbersString: string, keywordsString: string)
      modifies this`trustedNumbers, local`trustedNumbers
      ensures trustedNumbers == numbers && local.trustedNumbers == Some(Decoded(numbers))
      ensures numbersString == NumbersString(numbers) && keywordsString == KeywordsString(numbers)
      ensures alert == if serviceAvailable then SettingsSaved else SettingsFailed
    {
      local.SetTrustedNumbers(numbers);
      trustedNumbers := numbers;
      numbersString := Join(NumberList(numbers), ',');
      keywordsString := Join(KeywordList(numbers), ',');
      alert := if serviceAvailable then SettingsSaved else SettingsFailed;
    }

    /** `addTrustedNumber`, with `id` the clock's reading as text. */
    method Add(numberInput: string, keywordInput: string, id: string) returns (alert: NumbersAlert)
      modifies this`trustedNumbers, local`trustedNumbers
      ensures NewEntry(id, numberInput, keywordInput).None? ==>
        (alert == BothRequired && trustedNumbers == old(trustedNumbers) && local.trustedNumbers == old(local.trustedNumbers))
      ensures NewEntry(id, numberInput, keywordInput).Some? ==>
        (trustedNumbers == old(trustedNumbers) + [NewEntry(id, numberInput, keywordInput).value] &&
         local.trustedNumbers == Some(Decoded(trustedNumbers)) && alert != BothRequired)
    {
      var e := NewEntry(id, numberInput, keywordInput);
      if e.None? {
        return BothRequired;
      }
      var numbersString, keywordsString;
      alert, numbersString, keywordsString := Save(trustedNumbers + [e.value]);
    }

    /** `deleteTrustedNumber`. */
    method Delete(id: string) returns (alert: NumbersAlert)
      modifies this`trustedNumbers, local`trustedNumbers
      ensures trustedNumbers == DeleteById(old(trustedNumbers), id) && local.trustedNumbers == Some(Decoded(trustedNumbers))
      ensures alert != BothRequired
    {
      var numbersString, keywordsString;
      alert, numbersString, keywordsString := Save(DeleteById(trustedNumbers, id));
    }
  }
}
