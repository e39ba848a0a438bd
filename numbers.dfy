/** Coordinates as decimal numbers: the text forms `parseFloat`, `Double.parseDouble`, a JavaScript template
    literal and Java string concatenation read and write. */
module Numbers {
  import opened Wrappers
  import opened Text
  import opened Scan

  /** A decimal number: sign, the digits before the point and the digits after it. */
  datatype Decimal = Decimal(negative: bool, whole: string, fraction: string)

  predicate IsZeroDigit(c: char) { c == '0' }

  /** One representative per value (and sign): no leading zero before the point, no trailing zero after it. */
  predicate Canonical(d: Decimal) {
    AllDigits(d.whole) && AllDigits(d.fraction) &&
    (d.whole == [] || d.whole[0] != '0') &&
    (d.fraction == [] || d.fraction[|d.fraction| - 1] != '0')
  }

  predicate IsZero(d: Decimal) { d.whole == [] && d.fraction == [] }

  /** The value a digit text denotes, in canonical form: leading zeros of the whole part and trailing
      zeros of the fraction dropped. */
  function Normalize(d: Decimal): (r: Decimal)
    requires AllDigits(d.whole) && AllDigits(d.fraction)
    ensures Canonical(r) && r.negative == d.negative
  {
    ZerosDropped(d);
    Decimal(d.negative, DropFirst(d.whole, IsZeroDigit), DropLast(d.fraction, IsZeroDigit))
  }

  /** Normalizing drops only leading zeros of the whole part and trailing zeros of the fraction. */
  lemma NormalizeDropsOnlyZeros(d: Decimal)
    requires AllDigits(d.whole) && AllDigits(d.fraction)
    ensures var r := Normalize(d);
      |r.whole| <= |d.whole| && r.whole == d.whole[|d.whole| - |r.whole|..] &&
      (forall i :: 0 <= i < |d.whole| - |r.whole| ==> d.whole[i] == '0') &&
      |r.fraction| <= |d.fraction| && r.fraction == d.fraction[..|r.fraction|] &&
      (forall i :: |r.fraction| <= i < |d.fraction| ==> d.fraction[i] == '0')
  {
    ZerosDropped(d);
  }

  lemma ZerosDropped(d: Decimal)
    requires AllDigits(d.whole) && AllDigits(d.fraction)
    ensures var r := Decimal(d.negative, DropFirst(d.whole, IsZeroDigit), DropLast(d.fraction, IsZeroDigit));
      Canonical(r) && r.negative == d.negative &&
      |r.whole| <= |d.whole| && r.whole == d.whole[|d.whole| - |r.whole|..] &&
      (forall i :: 0 <= i < |d.whole| - |r.whole| ==> d.whole[i] == '0') &&
      |r.fraction| <= |d.fraction| && r.fraction == d.fraction[..|r.fraction|] &&
      (forall i :: |r.fraction| <= i < |d.fraction| ==> d.fraction[i] == '0')
  {
    LeadingZerosDropped(d.whole);
    TrailingZerosDropped(d.fraction);
  }

  lemma LeadingZerosDropped(s: string)
    requires AllDigits(s)
    ensures var w := DropFirst(s, IsZeroDigit);
      AllDigits(w) && (w == [] || w[0] != '0') && |w| <= |s| && w == s[|s| - |w|..] &&
      forall i :: 0 <= i < |s| - |w| ==> s[i] == '0'
  {
    var w := DropFirst(s, IsZeroDigit);
    forall i | 0 <= i < |w| ensures IsDigit(w[i]) {
      assert w[i] == s[|s| - |w| + i];
    }
  }

  lemma TrailingZerosDropped(s: string)
    requires AllDigits(s)
    ensures var f := DropLast(s, IsZeroDigit);
      AllDigits(f) && (f == [] || f[|f| - 1] != '0') && |f| <= |s| && f == s[..|f|] &&
      forall i :: |f| <= i < |s| ==> s[i] == '0'
  {
    var f := DropLast(s, IsZeroDigit);
    forall i | 0 <= i < |f| ensures IsDigit(f[i]) {
      assert f[i] == s[i];
    }
  }

  lemma NormalizeCanonical(d: Decimal)
    requires Canonical(d)
    ensures Normalize(d) == d
  {
  }

  /** JavaScript's `===` on two numbers: the same value, where 0 and -0 are equal. */
  predicate SameNumber(a: Decimal, b: Decimal) {
    a.whole == b.whole && a.fraction == b.fraction && (a.negative == b.negative || IsZero(a))
  }

  /** The longest prefix of `s` that reads as a number (optional sign, digits, optional point and digits,
      at least one digit), and where it ends. */
  function NumberPrefix(s: string): (r: (Option<Decimal>, nat))
    ensures r.1 <= |s|
    ensures r.0.Some? ==> Canonical(r.0.value)
  {
    var k := if |s| > 0 && (s[0] == '-' || s[0] == '+') then 1 else 0;
    var w := RunEnd(s, k, IsDigit);
    DigitSlice(s, k, w);
    NumberFrom(s, k == 1 && s[0] == '-', k, w)
  }

  /** The number whose whole digits run from `k` to `w`, with what follows them: a point and more
      digits, or nothing more. At least one digit is needed on either side of the point. */
  function NumberFrom(s: string, negative: bool, k: nat, w: nat): (r: (Option<Decimal>, nat))
    requires k <= w <= |s| && AllDigits(s[k..w])
    ensures r.1 <= |s|
    ensures r.0.Some? ==> Canonical(r.0.value)
  {
    if w < |s| && s[w] == '.' then
      var f := RunEnd(s, w + 1, IsDigit);
      DigitSlice(s, w + 1, f);
      if w == k && f == w + 1 then (None, 0)
      else (Some(Normalize(Decimal(negative, s[k..w], s[w + 1..f]))), f)
    else if w == k then (None, 0)
    else (Some(Normalize(Decimal(negative, s[k..w], []))), w)
  }

  /** A stretch of digits, cut out, is a digit string. */
  lemma DigitSlice(s: string, i: nat, j: nat)
    requires i <= j <= |s| && forall k :: i <= k < j ==> IsDigit(s[k])
    ensures AllDigits(s[i..j])
  {
    forall k | 0 <= k < j - i ensures IsDigit(s[i..j][k]) {
      assert s[i..j][k] == s[i + k];
    }
  }

  /** `parseFloat` on text made of digits, `-` and `.`: the number its longest numeric prefix reads as,
      or NaN (`None`). */
  function ParseFloat(s: string): (r: Option<Decimal>)
    ensures r.Some? ==> Canonical(r.value)
  {
    NumberPrefix(s).0
  }

  /** `Double.parseDouble` on text made of digits, `-` and `.`: the whole text must read as a number,
      otherwise a `NumberFormatException` (`None`). Whatever it accepts, `parseFloat` reads the same. */
  function ParseDouble(s: string): (r: Option<Decimal>)
    ensures r.Some? ==> Canonical(r.value)
    ensures r.Some? ==> ParseFloat(s) == r
  {
    var (v, end) := NumberPrefix(s);
    if end == |s| then v else None
  }

  /** `${x}` for a number in JavaScript (the plain decimal form; -0 prints as "0"). */
  function JsNumberText(d: Decimal): string {
    if IsZero(d) then "0"
    else (if d.negative then "-" else "") + (if d.whole == [] then "0" else d.whole) +
         (if d.fraction == [] then "" else "." + d.fraction)
  }

  /** `"" + x` for a `double` in Java (the plain decimal form, always with a digit after the point). */
  function JavaDoubleText(d: Decimal): string {
    (if d.negative then "-" else "") + (if d.whole == [] then "0" else d.whole) + "." +
    (if d.fraction == [] then "0" else d.fraction)
  }

  /** Java's `Double.toString` prints the plain form only for zero and for 1e-3 <= |x| < 1e7 (one to
      seven whole digits, or no whole digit and a non-zero digit among the first three after the
      point); elsewhere it uses computerized scientific notation (`5.0E-4`), which this model does
      not render. */
  predicate JavaPlainRange(d: Decimal) {
    IsZero(d) || 1 <= |d.whole| <= 7 ||
    (d.whole == [] && exists k :: 0 <= k < 3 && k < |d.fraction| && d.fraction[k] != '0')
  }

  /** JavaScript prints the plain form only for zero and for 1e-6 <= |x| < 1e21; elsewhere it uses
      exponent notation (`1e-7`), which this model does not render. */
  predicate JsPlainRange(d: Decimal) {
    IsZero(d) || 1 <= |d.whole| <= 21 ||
    (d.whole == [] && exists k :: 0 <= k < 6 && k < |d.fraction| && d.fraction[k] != '0')
  }

  predicate IsNumberChar(c: char) { IsDigit(c) || c == '-' || c == '.' }

  /** Java's text of a number starts with a sign or a digit, ends with a digit and holds no other
      characters than digits, `-` and `.`. */
  lemma JavaDoubleTextShape(d: Decimal)
    requires Canonical(d)
    ensures var t := JavaDoubleText(d);
      |t| >= 3 && IsDigit(t[|t| - 1]) && (IsDigit(t[0]) || t[0] == '-') &&
      forall i :: 0 <= i < |t| ==> IsNumberChar(t[i])
  {
  }

  /** A canonical number written with its whole part or its fraction padded to a single "0" normalizes
      back to itself. */
  lemma NormalizePadded(d: Decimal, W: string, F: string)
    requires Canonical(d)
    requires W == d.whole || (d.whole == [] && W == "0")
    requires F == d.fraction || (d.fraction == [] && F == "0")
    ensures Normalize(Decimal(d.negative, W, F)) == d
  {
    LeadingPadDropped(d.whole, W);
    TrailingPadDropped(d.fraction, F);
  }

  lemma LeadingPadDropped(w: string, W: string)
    requires w == [] || w[0] != '0'
    requires W == w || (w == [] && W == "0")
    ensures DropFirst(W, IsZeroDigit) == w
  {
    if W != w {
      assert DropFirst(W, IsZeroDigit) == DropFirst([], IsZeroDigit);
    }
  }

  lemma TrailingPadDropped(f: string, F: string)
    requires f == [] || f[|f| - 1] != '0'
    requires F == f || (f == [] && F == "0")
    ensures DropLast(F, IsZeroDigit) == f
  {
    if F != f {
      assert DropLast(F, IsZeroDigit) == DropLast([], IsZeroDigit);
    }
  }

  /** How `NumberPrefix` reads a text whose digits run from `k` to `w`, followed by a point and digits
      up to `f`. */
  lemma NumberPrefixAt(s: string, neg: bool, W: string, F: string, k: nat, w: nat, f: nat)
    requires k == if |s| > 0 && (s[0] == '-' || s[0] == '+') then 1 else 0
    requires neg == (k == 1 && s[0] == '-')
    requires k < w < |s| && RunEnd(s, k, IsDigit) == w && s[w] == '.'
    requires RunEnd(s, w + 1, IsDigit) == f
    requires s[k..w] == W && s[w + 1..f] == F && AllDigits(W) && AllDigits(F)
    ensures NumberPrefix(s).0 == Some(Normalize(Decimal(neg, W, F))) && NumberPrefix(s).1 == f
  {
    NumberFromPoint(s, neg, k, w, f);
  }

  lemma NumberFromPoint(s: string, negative: bool, k: nat, w: nat, f: nat)
    requires k < w < |s| && s[w] == '.' && RunEnd(s, w + 1, IsDigit) == f
    requires AllDigits(s[k..w]) && AllDigits(s[w + 1..f])
    ensures NumberFrom(s, negative, k, w) == (Some(Normalize(Decimal(negative, s[k..w], s[w + 1..f]))), f)
  {
  }

  /** The text "sign digits . digits" reads, as its longest numeric prefix, as the whole text. */
  lemma PrefixWithPoint(s: string, neg: bool, W: string, F: string)
    requires AllDigits(W) && AllDigits(F) && |W| >= 1 && |F| >= 1
    requires s == (if neg then "-" else "") + W + "." + F
    ensures NumberPrefix(s).0 == Some(Normalize(Decimal(neg, W, F))) && NumberPrefix(s).1 == |s|
  {
    assert s == (if neg then "-" else "") + W + "." + F + "";
    PrefixWithPointThen(s, neg, W, F, "");
  }

  /** The text "sign digits . digits", followed by something that does not start with a digit, reads
      as its longest numeric prefix up to the end of the digits. */
  lemma PrefixWithPointThen(s: string, neg: bool, W: string, F: string, rest: string)
    requires AllDigits(W) && AllDigits(F) && |W| >= 1 && |F| >= 1
    requires rest == [] || !IsDigit(rest[0])
    requires s == (if neg then "-" else "") + W + "." + F + rest
    ensures NumberPrefix(s).0 == Some(Normalize(Decimal(neg, W, F))) && NumberPrefix(s).1 == |s| - |rest|
  {
    var k := if neg then 1 else 0;
    var w := k + |W|;
    var f := w + 1 + |F|;
    PointLayout(s, neg, W, F, rest);
    PointRuns(s, k, w, f);
    NumberPrefixAt(s, neg, W, F, k, w, f);
  }

  /** Where the parts of "sign digits . digits rest" sit. */
  lemma PointLayout(s: string, neg: bool, W: string, F: string, rest: string)
    requires AllDigits(W) && |W| >= 1
    requires rest == [] || !IsDigit(rest[0])
    requires s == (if neg then "-" else "") + W + "." + F + rest
    ensures var k := if neg then 1 else 0;
      var w := k + |W|;
      var f := w + 1 + |F|;
      k == (if |s| > 0 && (s[0] == '-' || s[0] == '+') then 1 else 0) && (neg <==> k == 1 && s[0] == '-') &&
      w < |s| && s[w] == '.' && f == |s| - |rest| && s[k..w] == W && s[w + 1..f] == F &&
      (f == |s| || !IsDigit(s[f]))
  {
    var k := if neg then 1 else 0;
    SignedLayout(s, neg, W, "." + F + rest);
    TailLayout(s, k + |W|, F, rest);
  }

  /** The two digit runs of "digits . digits" end where the digits do. */
  lemma PointRuns(s: string, k: nat, w: nat, f: nat)
    requires k <= w < f <= |s| && s[w] == '.' && AllDigits(s[k..w]) && AllDigits(s[w + 1..f])
    requires f == |s| || !IsDigit(s[f])
    ensures RunEnd(s, k, IsDigit) == w && RunEnd(s, w + 1, IsDigit) == f
  {
    SliceDigits(s, k, w);
    SliceDigits(s, w + 1, f);
    RunEndAt(s, k, w, IsDigit);
    RunEndAt(s, w + 1, f, IsDigit);
  }

  /** Where the point, the fraction digits and the rest sit in a text that ends with ". digits rest". */
  lemma TailLayout(s: string, w: nat, F: string, rest: string)
    requires w <= |s| && s[w..] == "." + F + rest
    requires rest == [] || !IsDigit(rest[0])
    ensures var f := w + 1 + |F|;
      w < |s| && s[w] == '.' && f == |s| - |rest| && s[w + 1..f] == F && (f == |s| || !IsDigit(s[f]))
  {
    var f := w + 1 + |F|;
    assert s[w] == s[w..][0];
    assert s[w + 1..f] == s[w..][1..1 + |F|];
    if f < |s| {
      assert s[f] == s[w..][1 + |F|];
    }
  }

  /** The characters of a digit slice are digits. */
  lemma SliceDigits(s: string, i: nat, j: nat)
    requires i <= j <= |s| && AllDigits(s[i..j])
    ensures forall k :: i <= k < j ==> IsDigit(s[k])
  {
    forall k | i <= k < j ensures IsDigit(s[k]) {
      assert s[k] == s[i..j][k - i];
    }
  }

  /** Where the sign and the whole digits sit in "sign digits rest". */
  lemma SignedLayout(s: string, neg: bool, W: string, rest: string)
    requires AllDigits(W) && |W| >= 1
    requires s == (if neg then "-" else "") + W + rest
    ensures var k := if neg then 1 else 0;
      k == (if |s| > 0 && (s[0] == '-' || s[0] == '+') then 1 else 0) && (neg <==> k == 1 && s[0] == '-') &&
      s[k..k + |W|] == W && s[k + |W|..] == rest &&
      forall i :: k <= i < k + |W| ==> IsDigit(s[i])
  {
    var k := if neg then 1 else 0;
    assert s[k] == W[0];
    assert s[k..k + |W|] == W;
    forall i | k <= i < k + |W| ensures IsDigit(s[i]) {
      assert s[i] == W[i - k];
    }
  }

  /** The text "sign digits" reads, as its longest numeric prefix, as the whole text. */
  lemma {:induction false} PrefixWithoutPoint(s: string, neg: bool, W: string)
    requires AllDigits(W) && |W| >= 1
    requires s == (if neg then "-" else "") + W
    ensures NumberPrefix(s).0 == Some(Normalize(Decimal(neg, W, []))) && NumberPrefix(s).1 == |s|
  {
    var k := if neg then 1 else 0;
    assert s[k] == W[0];
    assert k == if |s| > 0 && (s[0] == '-' || s[0] == '+') then 1 else 0;
    assert forall i :: k <= i < |s| ==> s[i] == W[i - k];
    RunEndAt(s, k, |s|, IsDigit);
    assert s[k..|s|] == W;
  }

  /** Java's text of a number reads back as that number, by `Double.parseDouble` and so by `parseFloat`. */
  lemma JavaDoubleTextParses(d: Decimal)
    requires Canonical(d)
    ensures ParseDouble(JavaDoubleText(d)) == Some(d)
    ensures ParseFloat(JavaDoubleText(d)) == Some(d)
  {
    var W := if d.whole == [] then "0" else d.whole;
    var F := if d.fraction == [] then "0" else d.fraction;
    PrefixWithPoint(JavaDoubleText(d), d.negative, W, F);
    NormalizePadded(d, W, F);
  }

  /** JavaScript's text of a number reads back as that number (a negative zero reads back as zero). */
  lemma JsNumberTextParses(d: Decimal)
    requires Canonical(d) && !(IsZero(d) && d.negative)
    ensures ParseDouble(JsNumberText(d)) == Some(d)
    ensures ParseFloat(JsNumberText(d)) == Some(d)
  {
    var W := if d.whole == [] then "0" else d.whole;
    if d.fraction == [] {
      PrefixWithoutPoint(JsNumberText(d), d.negative, W);
      NormalizePadded(d, W, []);
    } else {
      PrefixWithPoint(JsNumberText(d), d.negative, W, d.fraction);
      NormalizePadded(d, W, d.fraction);
    }
  }

  /** `parseFloat` is more lenient than `Double.parseDouble`: a number followed by anything that does not
      continue it (a second point, as in "1.5.2") is read up to the end of its digits by `parseFloat`
      and refused by Java. */
  lemma ParseFloatLenient(neg: bool, W: string, F: string, rest: string)
    requires AllDigits(W) && AllDigits(F) && |W| >= 1 && |F| >= 1
    requires rest != [] && !IsDigit(rest[0])
    ensures var s := (if neg then "-" else "") + W + "." + F + rest;
      ParseFloat(s) == Some(Normalize(Decimal(neg, W, F))) && ParseDouble(s).None?
  {
    PrefixWithPointThen((if neg then "-" else "") + W + "." + F + rest, neg, W, F, rest);
  }

  /** A lone minus sign is not a number for either reader. */
  lemma LoneMinusIsNaN()
    ensures ParseFloat("-").None? && ParseDouble("-").None?
  {
    RunEndAt("-", 1, 1, IsDigit);
  }

  /** Text without a digit is not a number for either reader. */
  lemma NoDigitIsNaN(s: string)
    requires forall k :: 0 <= k < |s| ==> !IsDigit(s[k])
    ensures ParseFloat(s).None? && ParseDouble(s).None?
  {
    var k := if |s| > 0 && (s[0] == '-' || s[0] == '+') then 1 else 0;
    RunEndAt(s, k, k, IsDigit);
    if k < |s| && s[k] == '.' {
      RunEndAt(s, k + 1, k + 1, IsDigit);
    }
  }
}
