/** The regular-expression pieces both location parsers share, each written as the deterministic scan
    its backtracking matcher performs at one start position. Greedy runs never need to give characters
    back in these patterns: the character that follows each run cannot belong to it. */
module Patterns {
  import opened Wrappers
  import opened Text
  import opened Scan
  import opened Numbers
  import Lists

  /** The end of a decimal token starting at `i`: `-?\d{1,3}\.\d+` when `short`, `-?\d+\.\d+` otherwise. */
  function TokenEnd(s: string, i: nat, short: bool): (r: Option<nat>)
    ensures r.Some? ==> i < r.value <= |s|
    ensures r.Some? ==> r.value == |s| || !IsDigit(s[r.value])
    ensures r.Some? ==> forall k :: i <= k < r.value ==> IsNumberChar(s[k])
  {
    if i >= |s| then None
    else
      var k := if s[i] == '-' then i + 1 else i;
      var w := RunEnd(s, k, IsDigit);
      if w == k || (short && w - k > 3) || w >= |s| || s[w] != '.' then None
      else
        var f := RunEnd(s, w + 1, IsDigit);
        if f == w + 1 then None
        else
          TokenChars(s, i, k, w, f);
          Some(f)
  }

  /** A token always reads as a number. */
  lemma TokenEndReads(s: string, i: nat, short: bool, f: nat)
    requires TokenEnd(s, i, short) == Some(f)
    ensures ParseDouble(s[i..f]).Some?
  {
    var k := if s[i] == '-' then i + 1 else i;
    var w := RunEnd(s, k, IsDigit);
    TokenReads(s, i, k, w, f);
  }

  lemma TokenReads(s: string, i: nat, k: nat, w: nat, f: nat)
    requires i <= k <= i + 1 && k < w && w + 1 < f <= |s| && s[w] == '.'
    requires k == i + 1 <==> s[i] == '-'
    requires forall j :: k <= j < w ==> IsDigit(s[j])
    requires forall j :: w + 1 <= j < f ==> IsDigit(s[j])
    ensures ParseDouble(s[i..f]) == Some(Normalize(Decimal(k == i + 1, s[k..w], s[w + 1..f])))
  {
    var t := s[i..f];
    var W, F := s[k..w], s[w + 1..f];
    assert AllDigits(W) && AllDigits(F);
    assert t == s[i..k] + W + s[w..w + 1] + F;
    assert s[w..w + 1] == ".";
    assert s[i..k] == (if k == i + 1 then "-" else "");
    PrefixWithPoint(t, k == i + 1, W, F);
  }

  lemma TokenChars(s: string, i: nat, k: nat, w: nat, f: nat)
    requires i <= k <= i + 1 && k < w && w + 1 < f <= |s| && s[w] == '.'
    requires k == i + 1 <==> s[i] == '-'
    requires forall j :: k <= j < w ==> IsDigit(s[j])
    requires forall j :: w + 1 <= j < f ==> IsDigit(s[j])
    ensures forall j :: i <= j < f ==> IsNumberChar(s[j])
  {
  }

  /** `(tok)\s*[,;]\s*(tok)` with short tokens, `\s` being `space`: the two tokens. */
  function DecimalPairAt(s: string, i: nat, space: char -> bool): (r: Option<(string, string)>)
    ensures r.Some? ==> exists j :: i <= j < |s| && (s[j] == ',' || s[j] == ';')
  {
    match TokenEnd(s, i, true)
    case None => None
    case Some(e1) =>
      match SecondToken(s, e1, space)
      case None => None
      case Some((m, e2)) => Some((s[i..e1], s[m..e2]))
  }

  /**
   * After the first token of a decimal pair, ending at `e1`: optional spaces, a `,` or `;`, optional
   * spaces and a short token; the bounds of that second token.
   */
  function SecondToken(s: string, e1: nat, space: char -> bool): (r: Option<(nat, nat)>)
    requires e1 <= |s|
    ensures r.Some? ==> TokenEnd(s, r.value.0, true) == Some(r.value.1)
    ensures r.Some? ==> exists j :: e1 <= j < r.value.0 && (s[j] == ',' || s[j] == ';')
  {
    var j := RunEnd(s, e1, space);
    if j < |s| && (s[j] == ',' || s[j] == ';') then
      var m := RunEnd(s, j + 1, space);
      match TokenEnd(s, m, true)
      case None => None
      case Some(e2) => Some((m, e2))
    else None
  }

  /** `!2d(tok)!3d(tok)` with long tokens: the two tokens, in text order (longitude, then latitude). */
  function EmbedAt(s: string, i: nat): (r: Option<(string, string)>)
    ensures r.Some? ==> i + 3 <= |s| && s[i..i + 3] == "!2d"
  {
    if i + 3 <= |s| && s[i..i + 3] == "!2d" then
      match TokenEnd(s, i + 3, false)
      case None => None
      case Some(e1) =>
        if e1 + 3 <= |s| && s[e1..e1 + 3] == "!3d" then
          match TokenEnd(s, e1 + 3, false)
          case None => None
          case Some(e2) => Some((s[i + 3..e1], s[e1 + 3..e2]))
        else None
    else None
  }

  /** Without a `,` or `;` from `i` on, no decimal pair starts at `i`. */
  lemma NoSeparatorNoPair(s: string, i: nat, space: char -> bool)
    requires forall k :: 0 <= k < |s| ==> IsEmbedChar(s[k])
    ensures DecimalPairAt(s, i, space).None?
  {
    forall j | i <= j < |s| ensures s[j] != ',' && s[j] != ';' {
      assert IsEmbedChar(s[j]);
    }
  }

  /** Where the two tokens of a decimal-pair match end. */
  lemma DecimalPairCaptures(s: string, i: nat, space: char -> bool, p: (string, string)) returns (e1: nat, m: nat, e2: nat)
    requires DecimalPairAt(s, i, space) == Some(p)
    ensures TokenEnd(s, i, true) == Some(e1) && TokenEnd(s, m, true) == Some(e2)
    ensures p == (s[i..e1], s[m..e2])
  {
    e1 := TokenEnd(s, i, true).value;
    var p2 := SecondToken(s, e1, space).value;
    m, e2 := p2.0, p2.1;
  }

  /** Both tokens a decimal-pair match captures read as numbers. */
  lemma DecimalPairReads(s: string, i: nat, space: char -> bool, p: (string, string))
    requires DecimalPairAt(s, i, space) == Some(p)
    ensures ParseDouble(p.0).Some? && ParseDouble(p.1).Some?
  {
    var e1, m, e2 := DecimalPairCaptures(s, i, space, p);
    assert ParseDouble(p.0).Some? by { TokenEndReads(s, i, true, e1); }
    assert ParseDouble(p.1).Some? by { TokenEndReads(s, m, true, e2); }
  }

  /** Where the two tokens of an embed match end. */
  lemma EmbedCaptures(s: string, i: nat, p: (string, string)) returns (e1: nat, e2: nat)
    requires EmbedAt(s, i) == Some(p)
    ensures TokenEnd(s, i + 3, false) == Some(e1) && TokenEnd(s, e1 + 3, false) == Some(e2)
    ensures p.0 == s[i + 3..e1] && p.1 == s[e1 + 3..e2]
  {
    e1 := TokenEnd(s, i + 3, false).value;
    e2 := TokenEnd(s, e1 + 3, false).value;
  }

  /** Both tokens an embed match captures read as numbers. */
  lemma EmbedReads(s: string, i: nat, p: (string, string))
    requires EmbedAt(s, i) == Some(p)
    ensures ParseDouble(p.0).Some? && ParseDouble(p.1).Some?
  {
    var e1, e2 := EmbedCaptures(s, i, p);
    assert ParseDouble(p.0).Some? by { TokenEndReads(s, i + 3, false, e1); }
    assert ParseDouble(p.1).Some? by { TokenEndReads(s, e1 + 3, false, e2); }
  }

  /** A number written as a token: at least one digit on either side of the point. */
  predicate IsToken(d: Decimal) {
    AllDigits(d.whole) && AllDigits(d.fraction) && d.whole != [] && d.fraction != []
  }

  /** The token text of a number, `-?\d+\.\d+`. */
  function TokenText(d: Decimal): string {
    SignText(d) + d.whole + "." + d.fraction
  }

  function SignText(d: Decimal): string { if d.negative then "-" else "" }

  /** A bare embed fragment `!2d<longitude>!3d<latitude>`, as a Google Maps embed link carries it. */
  function EmbedText(lon: Decimal, lat: Decimal): string {
    "!2d" + TokenText(lon) + "!3d" + TokenText(lat)
  }

  /** A token text reads as the number it writes. */
  lemma TokenTextReads(d: Decimal)
    requires IsToken(d)
    ensures ParseDouble(TokenText(d)) == Some(Normalize(d))
  {
    PrefixWithPoint(TokenText(d), d.negative, d.whole, d.fraction);
  }

  /** A token text found between `i` and `j` and followed by a non-digit: where its sign, digit runs
      and point sit. */
  lemma TokenAt(s: string, i: nat, j: nat, d: Decimal)
    requires IsToken(d)
    requires i <= j <= |s| && s[i..j] == TokenText(d)
    requires j == |s| || !IsDigit(s[j])
    ensures var k := i + |SignText(d)|;
      var w := k + |d.whole|;
      i < |s| && (s[i] == '-' <==> d.negative) && k < w < |s| && s[w] == '.' && w + 1 < j &&
      RunEnd(s, k, IsDigit) == w && RunEnd(s, w + 1, IsDigit) == j
  {
    var P := SignText(d);
    assert P == [] || P == ['-'];
    assert P != [] <==> d.negative;
    PartsLayout(s, i, j, P, d.whole, d.fraction);
  }

  /** Where the runs of a token text with sign text `P`, found between `i` and `j`, end. */
  lemma PartsLayout(s: string, i: nat, j: nat, P: string, W: string, F: string)
    requires AllDigits(W) && AllDigits(F) && W != [] && F != []
    requires P == [] || P == ['-']
    requires i <= j <= |s| && s[i..j] == P + W + "." + F
    requires j == |s| || !IsDigit(s[j])
    ensures var w := i + |P| + |W|;
      w < |s| && s[w] == '.' && (s[i] == '-' <==> P != []) && w + 1 < j &&
      RunEnd(s, i + |P|, IsDigit) == w && RunEnd(s, w + 1, IsDigit) == j
  {
    var k := i + |P|;
    var w := k + |W|;
    Lists.Pieces(s, i, P, W, ".", F);
    assert s[i] == (P + W + "." + F)[0] == if P == [] then W[0] else '-';
    TokenRuns(s, k, w, j, W, F);
  }

  lemma TokenRuns(s: string, k: nat, w: nat, f: nat, W: string, F: string)
    requires k <= w < f <= |s| && s[k..w] == W && s[w..w + 1] == "." && s[w + 1..f] == F
    requires AllDigits(W) && AllDigits(F)
    requires f == |s| || !IsDigit(s[f])
    ensures s[w] == '.' && RunEnd(s, k, IsDigit) == w && RunEnd(s, w + 1, IsDigit) == f
  {
    assert s[w] == s[w..w + 1][0];
    DigitsAt(s, k, w, W);
    DigitsAt(s, w + 1, f, F);
    RunEndAt(s, k, w, IsDigit);
    RunEndAt(s, w + 1, f, IsDigit);
  }

  lemma DigitsAt(s: string, a: nat, b: nat, x: string)
    requires a <= b <= |s| && s[a..b] == x && AllDigits(x)
    ensures forall j :: a <= j < b ==> IsDigit(s[j])
  {
    forall j | a <= j < b ensures IsDigit(s[j]) {
      assert s[j] == x[j - a];
    }
  }

  lemma TokenEndIs(s: string, i: nat, k: nat, w: nat, f: nat, short: bool)
    requires i < |s| && k == (if s[i] == '-' then i + 1 else i)
    requires k < w < |s| && RunEnd(s, k, IsDigit) == w && !(short && w - k > 3) && s[w] == '.'
    requires RunEnd(s, w + 1, IsDigit) == f && f > w + 1
    ensures TokenEnd(s, i, short) == Some(f)
  {
  }

  /** What may occur in an embed fragment: token characters, `!` and `d`. */
  predicate IsEmbedChar(c: char) { IsNumberChar(c) || c == '!' || c == 'd' }

  lemma EmbedChars(lon: Decimal, lat: Decimal)
    requires IsToken(lon) && IsToken(lat)
    ensures var s := EmbedText(lon, lat);
      s[0] == '!' && IsDigit(s[|s| - 1]) && forall k :: 0 <= k < |s| ==> IsEmbedChar(s[k])
  {
    var X, Y := TokenText(lon), TokenText(lat);
    var s := EmbedText(lon, lat);
    assert forall k :: 0 <= k < |X| ==> IsNumberChar(X[k]);
    assert forall k :: 0 <= k < |Y| ==> IsNumberChar(Y[k]);
    forall k | 0 <= k < |s| ensures IsEmbedChar(s[k]) {
      if k < 3 {
        assert s[k] == "!2d"[k];
      } else if k < 3 + |X| {
        assert s[k] == X[k - 3];
      } else if k < 6 + |X| {
        assert s[k] == "!3d"[k - 3 - |X|];
      } else {
        assert s[k] == Y[k - 6 - |X|];
      }
    }
    assert s[|s| - 1] == Y[|Y| - 1];
  }

  /** The embed pattern matches a bare embed fragment at its start, capturing both token texts. */
  lemma EmbedAtStart(lon: Decimal, lat: Decimal)
    requires IsToken(lon) && IsToken(lat)
    ensures EmbedAt(EmbedText(lon, lat), 0) == Some((TokenText(lon), TokenText(lat)))
  {
    var e1 := EmbedLayout(lon, lat);
    EmbedAtMarked(EmbedText(lon, lat), e1, lon, lat);
  }

  /** Where the markers and the token texts of a bare embed fragment sit. */
  lemma EmbedLayout(lon: Decimal, lat: Decimal) returns (e1: nat)
    ensures var s := EmbedText(lon, lat);
      3 <= e1 && e1 + 3 <= |s| && s[0..3] == "!2d" && s[3..e1] == TokenText(lon) &&
      s[e1..e1 + 3] == "!3d" && s[e1 + 3..] == TokenText(lat)
  {
    var X, Y := TokenText(lon), TokenText(lat);
    var s := EmbedText(lon, lat);
    e1 := 3 + |X|;
    Lists.Pieces(s, 0, "!2d", X, "!3d", Y);
    assert s[e1 + 3..|s|] == s[e1 + 3..];
  }

  /** A text laid out as an embed fragment is matched by the embed pattern at its start. */
  lemma EmbedAtMarked(s: string, e1: nat, lon: Decimal, lat: Decimal)
    requires IsToken(lon) && IsToken(lat)
    requires 3 <= e1 && e1 + 3 <= |s| && s[0..3] == "!2d" && s[3..e1] == TokenText(lon)
    requires s[e1..e1 + 3] == "!3d" && s[e1 + 3..] == TokenText(lat)
    ensures EmbedAt(s, 0) == Some((TokenText(lon), TokenText(lat)))
  {
    FirstMarkedToken(s, e1, "!3d", lon);
    LastToken(s, e1 + 3, lat);
    assert s[e1 + 3..|s|] == s[e1 + 3..];
    EmbedAtIs(s, 0, e1, |s|, TokenText(lon), TokenText(lat));
  }

  lemma LastToken(s: string, i: nat, d: Decimal)
    requires IsToken(d) && i <= |s| && s[i..] == TokenText(d)
    ensures TokenEnd(s, i, false) == Some(|s|)
  {
    TokenEndAt(s, i, |s|, d, false);
  }

  lemma FirstMarkedToken(s: string, e1: nat, B: string, d: Decimal)
    requires IsToken(d) && |B| == 3 && !IsDigit(B[0])
    requires 3 <= e1 && e1 + 3 <= |s| && s[3..e1] == TokenText(d) && s[e1..e1 + 3] == B
    ensures TokenEnd(s, 3, false) == Some(e1)
  {
    assert s[e1] == s[e1..e1 + 3][0];
    TokenEndAt(s, 3, e1, d, false);
  }

  /** A token text found between `i` and `j` and followed by a non-digit is scanned up to `j`. */
  lemma TokenEndAt(s: string, i: nat, j: nat, d: Decimal, short: bool)
    requires IsToken(d) && (short ==> |d.whole| <= 3)
    requires i <= j <= |s| && s[i..j] == TokenText(d)
    requires j == |s| || !IsDigit(s[j])
    ensures TokenEnd(s, i, short) == Some(j)
  {
    var k := i + |SignText(d)|;
    TokenAt(s, i, j, d);
    TokenEndIs(s, i, k, k + |d.whole|, j, short);
  }

  lemma EmbedAtIs(s: string, i: nat, e1: nat, e2: nat, X: string, Y: string)
    requires i + 3 <= |s| && s[i..i + 3] == "!2d" && TokenEnd(s, i + 3, false) == Some(e1)
    requires e1 + 3 <= |s| && s[e1..e1 + 3] == "!3d" && TokenEnd(s, e1 + 3, false) == Some(e2)
    requires s[i + 3..e1] == X && s[e1 + 3..e2] == Y
    ensures EmbedAt(s, i) == Some((X, Y))
  {
  }

  /** A token `\d{1,3}` accepts: at most three whole digits. */
  predicate IsShortToken(d: Decimal) { IsToken(d) && |d.whole| <= 3 }

  /** A bare coordinate pair `<latitude>,<longitude>`. */
  function PairText(lat: Decimal, lon: Decimal): string {
    TokenText(lat) + "," + TokenText(lon)
  }

  /** A coordinate pair after an `@`, as a Google Maps place link carries it. */
  function AtText(lat: Decimal, lon: Decimal): string {
    "@" + PairText(lat, lon)
  }

  /** What may occur in a bare or `@`-marked pair: token characters, `,` and `@`. */
  predicate IsPairChar(c: char) { IsNumberChar(c) || c == ',' || c == '@' }

  /** A bare pair starts with a token character, ends with a digit and holds no `@`. */
  lemma PairChars(lat: Decimal, lon: Decimal)
    requires IsToken(lat) && IsToken(lon)
    ensures var s := PairText(lat, lon);
      IsNumberChar(s[0]) && IsDigit(s[|s| - 1]) &&
      forall k :: 0 <= k < |s| ==> IsPairChar(s[k]) && s[k] != '@'
  {
    var X, Y := TokenText(lat), TokenText(lon);
    var s := PairText(lat, lon);
    assert forall k :: 0 <= k < |X| ==> IsNumberChar(X[k]);
    assert forall k :: 0 <= k < |Y| ==> IsNumberChar(Y[k]);
    forall k | 0 <= k < |s| ensures IsPairChar(s[k]) && s[k] != '@' {
      if k < |X| {
        assert s[k] == X[k];
      } else if k > |X| {
        assert s[k] == Y[k - |X| - 1];
      }
    }
    assert s[|s| - 1] == Y[|Y| - 1];
  }

  /** An `@` pair starts with `@`, ends with a digit and is made of pair characters. */
  lemma AtChars(lat: Decimal, lon: Decimal)
    requires IsToken(lat) && IsToken(lon)
    ensures var s := AtText(lat, lon);
      s[0] == '@' && IsDigit(s[|s| - 1]) && forall k :: 0 <= k < |s| ==> IsPairChar(s[k])
  {
    var p := PairText(lat, lon);
    var s := AtText(lat, lon);
    PairChars(lat, lon);
    forall k | 0 < k < |s| ensures IsPairChar(s[k]) {
      assert s[k] == p[k - 1];
    }
    assert s[|s| - 1] == p[|p| - 1];
  }

  /** A pair laid out from `i` to the end of the text: the scans of its two short tokens end at the
      separator and at the end. */
  lemma PairTokens(s: string, i: nat, e1: nat, lat: Decimal, lon: Decimal)
    requires IsShortToken(lat) && IsShortToken(lon)
    requires i <= e1 < |s| && s[e1] == ',' && s[i..e1] == TokenText(lat) && s[e1 + 1..] == TokenText(lon)
    ensures TokenEnd(s, i, true) == Some(e1) && TokenEnd(s, e1 + 1, true) == Some(|s|)
  {
    TokenEndAt(s, i, e1, lat, true);
    assert s[e1 + 1..|s|] == s[e1 + 1..];
    TokenEndAt(s, e1 + 1, |s|, lon, true);
  }

  /** Where the separator of a pair found at `i` and running to the end of the text sits. */
  lemma PairPieces(s: string, i: nat, lat: Decimal, lon: Decimal) returns (e1: nat)
    requires i <= |s| && s[i..] == PairText(lat, lon)
    ensures e1 == i + |TokenText(lat)| && e1 < |s| && s[e1] == ','
    ensures s[i..e1] == TokenText(lat) && s[e1 + 1..] == TokenText(lon)
  {
    var X, Y := TokenText(lat), TokenText(lon);
    e1 := i + |X|;
    assert [] + X + "," + Y == PairText(lat, lon);
    Lists.Pieces(s, i, [], X, ",", Y);
    assert s[e1] == s[e1..e1 + 1][0];
    assert s[e1 + 1..|s|] == s[e1 + 1..];
  }

  /** The decimal-pair pattern matches a bare pair at its start, capturing both token texts. */
  lemma DecimalPairAtStart(lat: Decimal, lon: Decimal, space: char -> bool)
    requires IsShortToken(lat) && IsShortToken(lon)
    requires forall c :: IsPairChar(c) ==> !space(c)
    ensures DecimalPairAt(PairText(lat, lon), 0, space) == Some((TokenText(lat), TokenText(lon)))
  {
    var s := PairText(lat, lon);
    assert s[0..] == s;
    var e1 := PairPieces(s, 0, lat, lon);
    assert s[0..e1] == s[..e1];
    DecimalPairMarked(s, e1, lat, lon, space);
  }

  /** A text laid out as a bare pair is matched by the decimal-pair pattern at its start. */
  lemma DecimalPairMarked(s: string, e1: nat, lat: Decimal, lon: Decimal, space: char -> bool)
    requires IsShortToken(lat) && IsShortToken(lon)
    requires forall c :: IsPairChar(c) ==> !space(c)
    requires e1 < |s| && s[e1] == ',' && s[..e1] == TokenText(lat) && s[e1 + 1..] == TokenText(lon)
    ensures DecimalPairAt(s, 0, space) == Some((TokenText(lat), TokenText(lon)))
  {
    assert s[0..e1] == s[..e1];
    PairTokens(s, 0, e1, lat, lon);
    assert IsPairChar(s[e1 + 1]);
    SecondTokenNext(s, e1, space);
    DecimalPairIs(s, e1, space);
  }

  lemma SecondTokenNext(s: string, e1: nat, space: char -> bool)
    requires e1 + 1 < |s| && s[e1] == ',' && !space(s[e1]) && !space(s[e1 + 1])
    requires TokenEnd(s, e1 + 1, true) == Some(|s|)
    ensures SecondToken(s, e1, space) == Some((e1 + 1, |s|))
  {
    RunEndAt(s, e1, e1, space);
    RunEndAt(s, e1 + 1, e1 + 1, space);
  }

  lemma DecimalPairIs(s: string, e1: nat, space: char -> bool)
    requires TokenEnd(s, 0, true) == Some(e1) && SecondToken(s, e1, space) == Some((e1 + 1, |s|))
    ensures DecimalPairAt(s, 0, space) == Some((s[..e1], s[e1 + 1..]))
  {
    assert s[0..e1] == s[..e1];
    assert s[e1 + 1..|s|] == s[e1 + 1..];
  }

  /** Without a digit, no token starts anywhere. */
  lemma NoDigitNoToken(s: string, i: nat, short: bool)
    requires forall k :: 0 <= k < |s| ==> !IsDigit(s[k])
    ensures TokenEnd(s, i, short).None?
  {
    if i < |s| {
      var k := if s[i] == '-' then i + 1 else i;
      RunEndAt(s, k, k, IsDigit);
    }
  }

  /** Without a digit, no decimal pair starts anywhere. */
  lemma NoDigitNoDecimalPair(s: string, i: nat, space: char -> bool)
    requires forall k :: 0 <= k < |s| ==> !IsDigit(s[k])
    ensures DecimalPairAt(s, i, space).None?
  {
    NoDigitNoToken(s, i, true);
  }

  /** Without a digit, no embed fragment starts anywhere. */
  lemma NoDigitNoEmbed(s: string, i: nat)
    requires forall k :: 0 <= k < |s| ==> !IsDigit(s[k])
    ensures EmbedAt(s, i).None?
  {
    NoDigitNoToken(s, i + 3, false);
  }

  /** Without `http` in any case, no URL starts anywhere. */
  lemma NoHttpNoUrl(s: string, i: nat, space: char -> bool)
    requires forall j: nat :: !HttpAt(s, j)
    ensures UrlAt(s, i, space).None?
  {
  }

  predicate IsUrlChar(space: char -> bool, c: char) { !space(c) }

  /** `http`, in any case, at `i`. */
  predicate HttpAt(s: string, i: nat) { i + 4 <= |s| && Lower(s[i..i + 4]) == "http" }

  /** `https?://[^\s]+`, case-insensitive: the matched URL. */
  function UrlAt(s: string, i: nat, space: char -> bool): (r: Option<string>)
    ensures r.Some? ==> exists e :: i + 7 < e <= |s| && r.value == s[i..e] && (e == |s| || space(s[e]))
  {
    if HttpAt(s, i) then
      var j := if i + 4 < |s| && LowerChar(s[i + 4]) == 's' then i + 5 else i + 4;
      if j + 3 <= |s| && s[j..j + 3] == "://" then
        var e := RunEnd(s, j + 3, c => IsUrlChar(space, c));
        if e == j + 3 then None else assert i + 7 < e; Some(s[i..e])
      else None
    else None
  }

  const MapHosts: seq<string> := ["maps.google.com", "google.com/maps", "maps.app.goo.gl", "goo.gl/maps"]

  /** The link names one of the map hosts, compared case-insensitively. */
  predicate IsMapHost(url: string) {
    exists h :: h in MapHosts && Contains(Lower(url), h)
  }
}
