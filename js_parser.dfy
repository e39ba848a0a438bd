/** The controller's tolerant location extractor, `parseLocationFromText` (src/screens/brother/SisterDetail.js),
    as leftmost-match scans over the cleaned text. */
module JsLocation {
  import opened Wrappers
  import opened Text
  import opened Scan
  import opened Numbers
  import opened Records
  import opened Patterns

  predicate IsSmartQuote(c: char) {
    c == '\U{2018}' || c == '\U{2019}' || c == '\U{201C}' || c == '\U{201D}'
  }

  predicate NotSmartQuote(c: char) { !IsSmartQuote(c) }

  /** `[.,)\]]`, the punctuation stripped from the end of the text and of a URL. */
  predicate IsTrailingPunct(c: char) { c == '.' || c == ',' || c == ')' || c == ']' }

  /** Smart quotes removed everywhere, then trailing `.,)]` removed, then `trim()`. */
  function Clean(text: string): (r: string)
    ensures |r| <= |text|
  {
    TrimJs(DropLast(Keep(text, NotSmartQuote), IsTrailingPunct))
  }

  /** Text with no smart quote, no surrounding space and no trailing punctuation is already clean. */
  lemma CleanKeeps(t: string)
    requires t != [] && forall k :: 0 <= k < |t| ==> !IsSmartQuote(t[k])
    requires !IsJsSpace(t[0]) && !IsJsSpace(t[|t| - 1]) && !IsTrailingPunct(t[|t| - 1])
    ensures Clean(t) == t
  {
    KeepAll(t, NotSmartQuote);
  }

  predicate IsQueryChar(c: char) { IsNumberChar(c) || c == ',' }

  /** `[?&]q=([-0-9.,]+)`, case-insensitive: the captured run. */
  function QueryAt(s: string, i: nat): (r: Option<string>)
    ensures r.Some? ==> i + 3 < |s| && (s[i] == '?' || s[i] == '&')
  {
    if i + 3 <= |s| && (s[i] == '?' || s[i] == '&') && LowerChar(s[i + 1]) == 'q' && s[i + 2] == '=' then
      var e := RunEnd(s, i + 3, IsQueryChar);
      if e == i + 3 then None else Some(s[i + 3..e])
    else None
  }

  /** The `q=` strategy: the first two comma-separated parts of the first query match, when both read
      as numbers; otherwise nothing, and the later strategies run. */
  function QueryCoordinates(s: string): (r: Option<(Decimal, Decimal)>)
    ensures r.Some? ==> exists i :: 0 <= i < |s| && (s[i] == '?' || s[i] == '&')
  {
    match FirstMatch(s, 0, QueryAt)
    case None => None
    case Some((_, g)) =>
      var parts := Split(g, ',');
      if |parts| >= 2 then
        match (ParseFloat(parts[0]), ParseFloat(parts[1]))
        case (Some(lat), Some(lon)) => Some((lat, lon))
        case _ => None
      else None
  }

  /** `@(-?\d{1,3}\.\d+),\s*(-?\d{1,3}\.\d+)`: the two tokens. */
  function AtPairAt(s: string, i: nat): (r: Option<(string, string)>)
    ensures r.Some? ==> i < |s| && s[i] == '@'
  {
    if i < |s| && s[i] == '@' then
      match TokenEnd(s, i + 1, true)
      case None => None
      case Some(e1) =>
        match CommaToken(s, e1)
        case None => None
        case Some((m, e2)) => Some((s[i + 1..e1], s[m..e2]))
    else None
  }

  /** After the first token of an `@` pair, ending at `e1`: a `,`, optional spaces and a short token;
      the bounds of that second token. */
  function CommaToken(s: string, e1: nat): (r: Option<(nat, nat)>)
    requires e1 <= |s|
    ensures r.Some? ==> e1 < |s| && s[e1] == ',' && TokenEnd(s, r.value.0, true) == Some(r.value.1)
  {
    if e1 < |s| && s[e1] == ',' then
      var m := RunEnd(s, e1 + 1, IsJsSpace);
      match TokenEnd(s, m, true)
      case None => None
      case Some(e2) => Some((m, e2))
    else None
  }

  function DecimalPairJs(s: string, i: nat): Option<(string, string)> {
    DecimalPairAt(s, i, IsJsSpace)
  }

  function UrlJs(s: string, i: nat): Option<string> {
    UrlAt(s, i, IsJsSpace)
  }

  /** Both groups of the first match read by `parseFloat` (as latitude, longitude, or swapped when the
      text gives the longitude first). */
  function ReadPair(m: Option<(nat, (string, string))>, lonFirst: bool): Option<(Decimal, Decimal)> {
    match m
    case None => None
    case Some((_, (a, b))) =>
      match (ParseFloat(a), ParseFloat(b))
      case (Some(x), Some(y)) => if lonFirst then Some((y, x)) else Some((x, y))
      case _ => None
  }

  /** A coordinate result: the numbers and the Google Maps link rebuilt from their JavaScript text. */
  function Located(lat: Decimal, lon: Decimal): Location {
    Coordinates(lat, lon, GoogleMapsUrl(JsNumberText(lat), JsNumberText(lon)))
  }

  /** `parseLocationFromText`: empty text gives nothing; otherwise the first strategy that succeeds on
      the cleaned text, in the order `q=`, `@`, decimal pair, `!2d…!3d…`, map link. */
  function ParseLocationFromText(text: string): (r: Option<Location>)
    ensures text == [] ==> r.None?
    ensures r.Some? && r.value.Coordinates? ==>
      r.value.mapUrl == GoogleMapsUrl(JsNumberText(r.value.latitude), JsNumberText(r.value.longitude))
    ensures r.Some? && r.value.MapLink? ==> IsMapHost(r.value.mapUrl)
  {
    if text == [] then None
    else
      var c := Clean(text);
      match QueryCoordinates(c)
      case Some((lat, lon)) => Some(Located(lat, lon))
      case None =>
      match ReadPair(FirstMatch(c, 0, AtPairAt), false)
      case Some((lat, lon)) => Some(Located(lat, lon))
      case None =>
      match ReadPair(FirstMatch(c, 0, DecimalPairJs), false)
      case Some((lat, lon)) => Some(Located(lat, lon))
      case None =>
      match ReadPair(FirstMatch(c, 0, EmbedAt), true)
      case Some((lat, lon)) => Some(Located(lat, lon))
      case None =>
      match FirstMatch(c, 0, UrlJs)
      case None => None
      case Some((_, u)) =>
        var url := DropLast(u, IsTrailingPunct);
        if IsMapHost(url) then Some(MapLink(url)) else None
  }

  /** A bare `!2d<longitude>!3d<latitude>` fragment, as an embed link carries it, gives the latitude
      from the `!3d` token and the longitude from the `!2d` token, and the map link rebuilt from them. */
  lemma EmbedGivesLatThenLon(lon: Decimal, lat: Decimal)
    requires IsToken(lon) && IsToken(lat)
    ensures ParseLocationFromText(EmbedText(lon, lat)) == Some(Located(Normalize(lat), Normalize(lon)))
  {
    var s := EmbedText(lon, lat);
    EmbedChars(lon, lat);
    EmbedIsClean(s);
    NoEarlierMatch(s);
    EmbedFragmentReads(lon, lat);
    EmbedDecides(s, Normalize(lat), Normalize(lon));
  }

  /** An embed fragment has nothing for `Clean` to remove. */
  lemma EmbedIsClean(s: string)
    requires s != [] && s[0] == '!' && IsDigit(s[|s| - 1])
    requires forall k :: 0 <= k < |s| ==> IsEmbedChar(s[k])
    ensures Clean(s) == s
  {
    forall k | 0 <= k < |s| ensures !IsSmartQuote(s[k]) {
      assert IsEmbedChar(s[k]);
    }
    CleanKeeps(s);
  }

  /** In a text made only of token characters, `!` and `d`, none of the `q=`, `@` and decimal-pair
      strategies finds anything. */
  lemma NoEarlierMatch(s: string)
    requires forall k :: 0 <= k < |s| ==> IsEmbedChar(s[k])
    ensures QueryCoordinates(s).None?
    ensures FirstMatch(s, 0, AtPairAt).None?
    ensures FirstMatch(s, 0, DecimalPairJs).None?
  {
    forall k | 0 <= k < |s| ensures s[k] != '?' && s[k] != '&' && s[k] != '@' {
      assert IsEmbedChar(s[k]);
    }
    NoQuery(s);
    NoAtPair(s);
    NoDecimalPair(s);
  }

  /** Without a `?` or `&`, the `q=` pattern matches nowhere. */
  lemma NoQuery(s: string)
    requires forall k :: 0 <= k < |s| ==> s[k] != '?' && s[k] != '&'
    ensures QueryCoordinates(s).None?
  {
    forall j | 0 <= j <= |s| ensures QueryAt(s, j).None? {
      if j < |s| {
        assert s[j] != '?' && s[j] != '&';
      }
    }
    FirstMatchNone(s, 0, QueryAt);
  }

  /** Without an `@`, the `@` pattern matches nowhere. */
  lemma NoAtPair(s: string)
    requires forall k :: 0 <= k < |s| ==> s[k] != '@'
    ensures FirstMatch(s, 0, AtPairAt).None?
  {
    forall j | 0 <= j <= |s| ensures AtPairAt(s, j).None? {
      if j < |s| {
        assert s[j] != '@';
      }
    }
    FirstMatchNone(s, 0, AtPairAt);
  }

  lemma NoDecimalPair(s: string)
    requires forall k :: 0 <= k < |s| ==> IsEmbedChar(s[k])
    ensures FirstMatch(s, 0, DecimalPairJs).None?
  {
    forall j | 0 <= j <= |s| ensures DecimalPairJs(s, j).None? {
      NoSeparatorNoPair(s, j, IsJsSpace);
    }
    FirstMatchNone(s, 0, DecimalPairJs);
  }

  /** The embed strategy reads a bare embed fragment with its tokens swapped into latitude, longitude. */
  lemma EmbedFragmentReads(lon: Decimal, lat: Decimal)
    requires IsToken(lon) && IsToken(lat)
    ensures ReadPair(FirstMatch(EmbedText(lon, lat), 0, EmbedAt), true) == Some((Normalize(lat), Normalize(lon)))
  {
    var s := EmbedText(lon, lat);
    EmbedAtStart(lon, lat);
    FirstMatchIs(s, 0, EmbedAt, 0, (TokenText(lon), TokenText(lat)));
    TokenTextReads(lon);
    TokenTextReads(lat);
  }

  /** When none of the first three strategies finds anything, the embed strategy decides. */
  lemma EmbedDecides(t: string, lat: Decimal, lon: Decimal)
    requires t != [] && Clean(t) == t
    requires QueryCoordinates(t).None?
    requires FirstMatch(t, 0, AtPairAt).None?
    requires FirstMatch(t, 0, DecimalPairJs).None?
    requires ReadPair(FirstMatch(t, 0, EmbedAt), true) == Some((lat, lon))
    ensures ParseLocationFromText(t) == Some(Located(lat, lon))
  {
  }

  /** An `@<latitude>,<longitude>` pair, as a place link carries it, gives the latitude from the first
      token and the longitude from the second, and the map link rebuilt from them. */
  lemma AtGivesLatThenLon(lat: Decimal, lon: Decimal)
    requires IsShortToken(lat) && IsShortToken(lon)
    ensures ParseLocationFromText(AtText(lat, lon)) == Some(Located(Normalize(lat), Normalize(lon)))
  {
    var s := AtText(lat, lon);
    AtChars(lat, lon);
    PairIsClean(s);
    NoQuery(s);
    AtPairReads(lat, lon);
  }

  /** A pair, bare or after an `@`, has nothing for `Clean` to remove and no `?` or `&`. */
  lemma PairIsClean(s: string)
    requires s != [] && (s[0] == '@' || IsNumberChar(s[0])) && IsDigit(s[|s| - 1])
    requires forall k :: 0 <= k < |s| ==> IsPairChar(s[k])
    ensures Clean(s) == s
    ensures forall k :: 0 <= k < |s| ==> s[k] != '?' && s[k] != '&'
  {
    forall k | 0 <= k < |s| ensures !IsSmartQuote(s[k]) && s[k] != '?' && s[k] != '&' {
      assert IsPairChar(s[k]);
    }
    CleanKeeps(s);
  }

  /** The `@` strategy reads an `@` pair as latitude, longitude. */
  lemma AtPairReads(lat: Decimal, lon: Decimal)
    requires IsShortToken(lat) && IsShortToken(lon)
    ensures ReadPair(FirstMatch(AtText(lat, lon), 0, AtPairAt), false) == Some((Normalize(lat), Normalize(lon)))
  {
    var s := AtText(lat, lon);
    AtPairAtStart(lat, lon);
    FirstMatchIs(s, 0, AtPairAt, 0, (TokenText(lat), TokenText(lon)));
    TokenTextReads(lat);
    TokenTextReads(lon);
  }

  /** The `@` pattern matches an `@` pair at its start, capturing both token texts. */
  lemma AtPairAtStart(lat: Decimal, lon: Decimal)
    requires IsShortToken(lat) && IsShortToken(lon)
    ensures AtPairAt(AtText(lat, lon), 0) == Some((TokenText(lat), TokenText(lon)))
  {
    var s := AtText(lat, lon);
    assert s[1..] == PairText(lat, lon);
    var e1 := PairPieces(s, 1, lat, lon);
    AtPairMarked(s, e1, lat, lon);
  }

  lemma AtPairMarked(s: string, e1: nat, lat: Decimal, lon: Decimal)
    requires IsShortToken(lat) && IsShortToken(lon)
    requires 1 <= e1 < |s| && s[0] == '@' && s[e1] == ','
    requires s[1..e1] == TokenText(lat) && s[e1 + 1..] == TokenText(lon)
    ensures AtPairAt(s, 0) == Some((TokenText(lat), TokenText(lon)))
  {
    PairTokens(s, 1, e1, lat, lon);
    CommaTokenNext(s, e1);
    AtPairIs(s, e1);
  }

  lemma CommaTokenNext(s: string, e1: nat)
    requires e1 + 1 < |s| && s[e1] == ',' && TokenEnd(s, e1 + 1, true) == Some(|s|)
    ensures CommaToken(s, e1) == Some((e1 + 1, |s|))
  {
    RunEndAt(s, e1 + 1, e1 + 1, IsJsSpace);
  }

  lemma AtPairIs(s: string, e1: nat)
    requires 1 <= e1 < |s| && s[0] == '@'
    requires TokenEnd(s, 1, true) == Some(e1) && CommaToken(s, e1) == Some((e1 + 1, |s|))
    ensures AtPairAt(s, 0) == Some((s[1..e1], s[e1 + 1..]))
  {
    assert s[e1 + 1..|s|] == s[e1 + 1..];
  }

  /** A bare `<latitude>,<longitude>` pair gives the latitude from the first token and the longitude
      from the second, and the map link rebuilt from them. */
  lemma PairGivesLatThenLon(lat: Decimal, lon: Decimal)
    requires IsShortToken(lat) && IsShortToken(lon)
    ensures ParseLocationFromText(PairText(lat, lon)) == Some(Located(Normalize(lat), Normalize(lon)))
  {
    var s := PairText(lat, lon);
    PairChars(lat, lon);
    PairIsClean(s);
    NoQuery(s);
    NoAtPair(s);
    DecimalPairJsPair(lat, lon);
  }

  /** The decimal-pair strategy reads a bare pair as latitude, longitude. */
  lemma DecimalPairJsPair(lat: Decimal, lon: Decimal)
    requires IsShortToken(lat) && IsShortToken(lon)
    ensures ReadPair(FirstMatch(PairText(lat, lon), 0, DecimalPairJs), false) == Some((Normalize(lat), Normalize(lon)))
  {
    var s := PairText(lat, lon);
    DecimalPairAtStart(lat, lon, IsJsSpace);
    FirstMatchIs(s, 0, DecimalPairJs, 0, (TokenText(lat), TokenText(lon)));
    TokenTextReads(lat);
    TokenTextReads(lon);
  }

  /** Text with no digit gives nothing unless its cleaned form holds `http` in some case: the
      coordinate patterns need a digit, and a map link needs a URL. The `http` is looked for after
      cleaning, because removing smart quotes can join one (`ht\u2019tp`). */
  lemma NoDigitNoLocation(text: string)
    requires forall k :: 0 <= k < |text| ==> !IsDigit(text[k])
    requires forall j: nat :: !HttpAt(Clean(text), j)
    ensures ParseLocationFromText(text).None?
  {
    var c := Clean(text);
    CleanNoDigit(text);
    NoDigitNoQuery(c);
    NoDigitNoPairs(c);
    forall j | 0 <= j <= |c| ensures UrlJs(c, j).None? {
      NoHttpNoUrl(c, j, IsJsSpace);
    }
    FirstMatchNone(c, 0, UrlJs);
  }

  /** Cleaning only removes characters: text without a digit stays without one. */
  lemma CleanNoDigit(text: string)
    requires forall k :: 0 <= k < |text| ==> !IsDigit(text[k])
    ensures forall k :: 0 <= k < |Clean(text)| ==> !IsDigit(Clean(text)[k])
  {
    var a := Keep(text, NotSmartQuote);
    KeepAvoids(text, NotSmartQuote, IsDigit);
    var b := DropLast(a, IsTrailingPunct);
    DropLastAvoids(a, IsTrailingPunct, IsDigit);
    DropLastAvoids(b, IsJsSpace, IsDigit);
    DropFirstAvoids(DropLast(b, IsJsSpace), IsJsSpace, IsDigit);
  }

  /** Without a digit, the first part of a `q=` run does not read as a number. */
  lemma NoDigitNoQuery(s: string)
    requires forall k :: 0 <= k < |s| ==> !IsDigit(s[k])
    ensures QueryCoordinates(s).None?
  {
    var m := FirstMatch(s, 0, QueryAt);
    if m.Some? {
      var g := m.value.1;
      var e := QueryCapture(s, m.value.0, g);
      var first := Split(g, ',')[0];
      SplitFirst(g, ',');
      forall k | 0 <= k < |first| ensures !IsDigit(first[k]) {
        assert first[k] == s[m.value.0 + 3 + k];
      }
      NoDigitIsNaN(first);
    }
  }

  /** Where the run a `q=` match captures sits. */
  lemma QueryCapture(s: string, i: nat, g: string) returns (e: nat)
    requires QueryAt(s, i) == Some(g)
    ensures i + 3 <= e <= |s| && g == s[i + 3..e]
  {
    e := RunEnd(s, i + 3, IsQueryChar);
  }

  /** Without a digit, the `@`, decimal-pair and embed patterns match nowhere. */
  lemma NoDigitNoPairs(t: string)
    requires forall k :: 0 <= k < |t| ==> !IsDigit(t[k])
    ensures FirstMatch(t, 0, AtPairAt).None?
    ensures FirstMatch(t, 0, DecimalPairJs).None?
    ensures FirstMatch(t, 0, EmbedAt).None?
  {
    forall j | 0 <= j <= |t|
      ensures AtPairAt(t, j).None? && DecimalPairJs(t, j).None? && EmbedAt(t, j).None?
    {
      NoDigitNoToken(t, j + 1, true);
      NoDigitNoDecimalPair(t, j, IsJsSpace);
      NoDigitNoEmbed(t, j);
    }
    FirstMatchNone(t, 0, AtPairAt);
    FirstMatchNone(t, 0, DecimalPairJs);
    FirstMatchNone(t, 0, EmbedAt);
  }
}
