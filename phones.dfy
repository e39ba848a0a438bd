/** Deciding whether two phone numbers name the same sister: the controller's `phonesMatch`, the native
    receiver's inline matcher and the responder's raw substring test. */
module Phones {
  import opened Wrappers
  import opened Text

  /** `normalizePhone`: the digits of a phone number, in order (`replace(/[^0-9]/g, '')`). */
  function NormalizePhone(s: string): (r: string)
    ensures AllDigits(r) && |r| <= |s|
    ensures AllDigits(s) ==> r == s
  {
    if AllDigits(s) then KeepAll(s, IsDigit); Keep(s, IsDigit) else Keep(s, IsDigit)
  }

  /** Normalising is idempotent. */
  lemma NormalizeIdempotent(s: string)
    ensures NormalizePhone(NormalizePhone(s)) == NormalizePhone(s)
  {
  }

  /** Normalising text made of two pieces normalises each piece. */
  lemma NormalizeAppend(a: string, b: string)
    ensures NormalizePhone(a + b) == NormalizePhone(a) + NormalizePhone(b)
  {
    KeepAppend(a, b, IsDigit);
  }

  /** Text without digits normalises to nothing. */
  lemma NormalizeNoDigits(s: string)
    requires forall i :: 0 <= i < |s| ==> !IsDigit(s[i])
    ensures NormalizePhone(s) == []
  {
    KeepNone(s, IsDigit);
  }

  /** The native `normalizeNumber`: `null` becomes the empty text, anything else its digits. */
  function NormalizeNumber(s: Option<string>): (r: string)
    ensures s.None? ==> r == []
    ensures s.Some? ==> r == NormalizePhone(s.value)
  {
    match s
    case None => []
    case Some(t) => NormalizePhone(t)
  }

  /** `phonesMatch`: false when either side has no digit; otherwise equality, a suffix either way or
      containment either way, on the digit strings. */
  predicate PhonesMatch(a: string, b: string) {
    var na := NormalizePhone(a);
    var nb := NormalizePhone(b);
    if na == [] || nb == [] then false
    else na == nb || EndsWith(na, nb) || EndsWith(nb, na) || Contains(na, nb) || Contains(nb, na)
  }

  /** The equality and suffix tests are subsumed: two numbers match exactly when both have digits and
      one digit string contains the other. */
  lemma PhonesMatchIsContainment(a: string, b: string)
    ensures PhonesMatch(a, b) <==>
      NormalizePhone(a) != [] && NormalizePhone(b) != [] &&
      (Contains(NormalizePhone(a), NormalizePhone(b)) || Contains(NormalizePhone(b), NormalizePhone(a)))
  {
    var na := NormalizePhone(a);
    var nb := NormalizePhone(b);
    if na == nb {
      ContainsSelf(na);
    }
    if EndsWith(na, nb) {
      EndsWithContains(na, nb);
    }
    if EndsWith(nb, na) {
      EndsWithContains(nb, na);
    }
  }

  lemma PhonesMatchSymmetric(a: string, b: string)
    ensures PhonesMatch(a, b) == PhonesMatch(b, a)
  {
  }

  /** A number matches itself exactly when it holds a digit. */
  lemma PhonesMatchReflexive(a: string)
    ensures PhonesMatch(a, a) <==> NormalizePhone(a) != []
  {
  }

  /** A number without digits matches nothing. */
  lemma PhonesMatchNeedsDigits(a: string, b: string)
    requires NormalizePhone(a) == []
    ensures !PhonesMatch(a, b) && !PhonesMatch(b, a)
  {
  }

  /** The native receiver's matcher on already normalised numbers (suffix or containment either way),
      without the empty-sender guard of `phonesMatch`. */
  predicate SenderMatchesSister(senderNorm: string, phoneNorm: string) {
    EndsWith(senderNorm, phoneNorm) || EndsWith(phoneNorm, senderNorm) ||
    Contains(senderNorm, phoneNorm) || Contains(phoneNorm, senderNorm)
  }

  /** A sender without digits matches every sister: the empty text is contained in every number. */
  lemma EmptySenderMatchesAll(phoneNorm: string)
    ensures SenderMatchesSister([], phoneNorm)
  {
    ContainsEmpty(phoneNorm);
  }

  /** When both numbers have digits the native matcher and `phonesMatch` agree. */
  lemma SenderMatchAgrees(sender: string, phone: string)
    requires NormalizePhone(sender) != [] && NormalizePhone(phone) != []
    ensures SenderMatchesSister(NormalizePhone(sender), NormalizePhone(phone)) == PhonesMatch(sender, phone)
  {
    PhonesMatchIsContainment(sender, phone);
    var ns := NormalizePhone(sender);
    var np := NormalizePhone(phone);
    if EndsWith(ns, np) {
      EndsWithContains(ns, np);
    }
    if EndsWith(np, ns) {
      EndsWithContains(np, ns);
    }
  }

  /** The responder's test: the raw sender text contains the raw trusted phone. */
  predicate RawSenderMatches(sender: string, phone: string) {
    Contains(sender, phone)
  }

  /** The raw test is stricter than `phonesMatch`: whenever it holds (for a phone with digits),
      `phonesMatch` holds too. */
  lemma RawMatchImpliesPhonesMatch(sender: string, phone: string)
    requires RawSenderMatches(sender, phone) && NormalizePhone(phone) != []
    ensures PhonesMatch(sender, phone)
  {
    KeepContains(sender, phone, IsDigit);
    assert NormalizePhone(sender) != [];
    PhonesMatchIsContainment(sender, phone);
  }

  /** ... but not conversely: punctuation in the stored phone defeats the raw test. */
  lemma RawMatchStricter()
    ensures PhonesMatch("12", "1-2") && !RawSenderMatches("12", "1-2")
  {
    assert NormalizePhone("1-2") == "12" by {
      NormalizeAppend("1", "-2");
      NormalizeAppend("-", "2");
      NormalizeNoDigits("-");
    }
    ContainsSelf("12");
    PhonesMatchIsContainment("12", "1-2");
  }
}
