/** The native receiver's location extractor, `tryParseLocation`
    (android/app/src/main/java/com/sis/SisterSmsReceiver.java), as leftmost-match scans over the raw text. */
module JavaLocation {
  import opened Wrappers
  import opened Text
  import opened Scan
  import opened Numbers
  import opened Records
  import opened Patterns

  /** `[?&]q=\s*([-0-9.]+)\s*,\s*([-0-9.]+)`, case-insensitive: the two captured runs. */
  function QueryPairAt(s: string, i: nat): (r: Option<(string, string)>)
    ensures r.Some? ==> i < |s| && (s[i] == '?' || s[i] == '&')
    ensures r.Some? ==> r.value.0 != [] && r.value.1 != []
  {
    if i + 3 <= |s| && (s[i] == '?' || s[i] == '&') && LowerChar(s[i + 1]) == 'q' && s[i + 2] == '=' then
      var j := RunEnd(s, i + 3, IsJavaSpace);
      var g1 := RunEnd(s, j, IsNumberChar);
      var k := RunEnd(s, g1, IsJavaSpace);
      if g1 > j && k < |s| && s[k] == ',' then
        var m := RunEnd(s, k + 1, IsJavaSpace);
        var g2 := RunEnd(s, m, IsNumberChar);
        if g2 > m then Some((s[j..g1], s[m..g2])) else None
      else None
    else None
  }

  /** `@\s*(-?\d{1,3}\.\d+)\s*,\s*(-?\d{1,3}\.\d+)`: the two tokens. */
  function AtPairAt(s: string, i: nat): (r: Option<(string, string)>)
    ensures r.Some? ==> i < |s| && s[i] == '@'
  {
    if i < |s| && s[i] == '@' then
      var j := RunEnd(s, i + 1, IsJavaSpace);
      match TokenEnd(s, j, true)
      case None => None
      case Some(e1) =>
        match CommaToken(s, e1)
        case None => None
        case Some((m, e2)) => Some((s[j..e1], s[m..e2]))
    else None
  }

  /** After the first token of an `@` pair, ending at `e1`: optional spaces, a `,`, optional spaces and
      a short token; the bounds of that second token. */
  function CommaToken(s: string, e1: nat): (r: Option<(nat, nat)>)
    requires e1 <= |s|
    ensures r.Some? ==> TokenEnd(s, r.value.0, true) == Some(r.value.1)
    ensures r.Some? ==> exists k :: e1 <= k < r.value.0 && s[k] == ','
  {
    var k := RunEnd(s, e1, IsJavaSpace);
    if k < |s| && s[k] == ',' then
      var m := RunEnd(s, k + 1, IsJavaSpace);
      match TokenEnd(s, m, true)
      case None => None
      case Some(e2) => Some((m, e2))
    else None
  }

  /** Where the two tokens of an `@` match end. */
  lemma AtPairCaptures(s: string, i: nat, p: (string, string)) returns (j: nat, e1: nat, m: nat, e2: nat)
    requires AtPairAt(s, i) == Some(p)
    ensures TokenEnd(s, j, true) == Some(e1) && TokenEnd(s, m, true) == Some(e2)
    ensures p == (s[j..e1], s[m..e2])
  {
    j := RunEnd(s, i + 1, IsJavaSpace);
    e1 := TokenEnd(s, j, true).value;
    var p2 := CommaToken(s, e1).value;
    m, e2 := p2.0, p2.1;
  }

  /** Both tokens an `@` match captures read as numbers. */
  lemma AtJavaReads(t: string)
    ensures !ReadPair(FirstMatch(t, 0, AtPairAt), false).Failed?
  {
    var m := FirstMatch(t, 0, AtPairAt);
    if m.Some? {
      var j, e1, k, e2 := AtPairCaptures(t, m.value.0, m.value.1);
      assert ParseDouble(m.value.1.0).Some? by { TokenEndReads(t, j, true, e1); }
      assert ParseDouble(m.value.1.1).Some? by { TokenEndReads(t, k, true, e2); }
    }
  }

  function DecimalPairJava(s: string, i: nat): Option<(string, string)> {
    DecimalPairAt(s, i, IsJavaSpace)
  }

  function UrlJava(s: string, i: nat): Option<string> {
    UrlAt(s, i, IsJavaSpace)
  }

  /** The outcome of one strategy: coordinates, no match (try the next strategy), or a
      `NumberFormatException` (abandon the whole parse). */
  datatype Attempt = Found(latitude: Decimal, longitude: Decimal) | NoMatch | Failed

  /** Both groups of the first match read by `Double.parseDouble` (swapped when the text gives the
      longitude first). */
  function ReadPair(m: Option<(nat, (string, string))>, lonFirst: bool): (r: Attempt)
    ensures r.NoMatch? <==> m.None?
    ensures r.Failed? <==> m.Some? && (ParseDouble(m.value.1.0).None? || ParseDouble(m.value.1.1).None?)
  {
    match m
    case None => NoMatch
    case Some((_, (a, b))) =>
      match (ParseDouble(a), ParseDouble(b))
      case (Some(x), Some(y)) => if lonFirst then Found(y, x) else Found(x, y)
      case _ => Failed
  }

  /** `[.,)]`, the punctuation stripped from the end of a URL. */
  predicate IsTrailingPunct(c: char) { c == '.' || c == ',' || c == ')' }

  /** A coordinate result: the numbers and the Google Maps link rebuilt from their Java text. */
  function Located(lat: Decimal, lon: Decimal): Location {
    Coordinates(lat, lon, GoogleMapsUrl(JavaDoubleText(lat), JavaDoubleText(lon)))
  }

  /** The first URL in the text with trailing `.,)` removed, whatever its host. */
  function FirstUrl(text: string): (r: Option<string>)
    ensures r.Some? ==> r.value != []
  {
    match FirstMatch(text, 0, UrlJava)
    case None => None
    case Some((i, u)) =>
      assert u[..4] == text[i..i + 4];
      Some(DropLast(u, IsTrailingPunct))
  }

  /** The map-link strategy: the first URL, kept only when it names a map host. */
  function MapLinkOf(text: string): (r: Option<Location>)
    ensures r.Some? ==> r.value.MapLink? && IsMapHost(r.value.mapUrl)
  {
    match FirstUrl(text)
    case Some(url) => if IsMapHost(url) then Some(MapLink(url)) else None
    case None => None
  }

  /** `tryParseLocation`: `null` gives nothing; otherwise the strategies `q=`, `@`, decimal pair,
      `!2d…!3d…` and map link in order. The first strategy that matches decides: a number it cannot read
      abandons the whole parse. */
  function TryParseLocation(text: Option<string>): (r: Option<Location>)
    ensures text.None? ==> r.None?
    ensures r.Some? && r.value.Coordinates? ==>
      r.value.mapUrl == GoogleMapsUrl(JavaDoubleText(r.value.latitude), JavaDoubleText(r.value.longitude))
    ensures r.Some? && r.value.MapLink? ==> IsMapHost(r.value.mapUrl)
    ensures text.Some? && ReadPair(FirstMatch(text.value, 0, QueryPairAt), false).Failed? ==> r.None?
  {
    if text.None? then None
    else
      var t := text.value;
      match ReadPair(FirstMatch(t, 0, QueryPairAt), false)
      case Found(lat, lon) => Some(Located(lat, lon))
      case Failed => None
      case NoMatch =>
      match ReadPair(FirstMatch(t, 0, AtPairAt), false)
      case Found(lat, lon) => Some(Located(lat, lon))
      case Failed => None
      case NoMatch =>
      match ReadPair(FirstMatch(t, 0, DecimalPairJava), false)
      case Found(lat, lon) => Some(Located(lat, lon))
      case Failed => None
      case NoMatch =>
      match ReadPair(FirstMatch(t, 0, EmbedAt), true)
      case Found(lat, lon) => Some(Located(lat, lon))
      case Failed => None
      case NoMatch => MapLinkOf(t)
  }

  /** Only the `q=` strategy can abandon the parse: the `@`, decimal-pair and embed patterns capture
      tokens that always read as numbers. */
  lemma OnlyQueryCanFail(t: string)
    ensures !ReadPair(FirstMatch(t, 0, AtPairAt), false).Failed?
    ensures !ReadPair(FirstMatch(t, 0, DecimalPairJava), false).Failed?
    ensures !ReadPair(FirstMatch(t, 0, EmbedAt), true).Failed?
  {
    AtJavaReads(t);
    DecimalPairJavaReads(t);
    EmbedJavaReads(t);
  }

  lemma DecimalPairJavaReads(t: string)
    ensures !ReadPair(FirstMatch(t, 0, DecimalPairJava), false).Failed?
  {
    var m := FirstMatch(t, 0, DecimalPairJava);
    if m.Some? {
      DecimalPairReads(t, m.value.0, IsJavaSpace, m.value.1);
    }
  }

  lemma EmbedJavaReads(t: string)
    ensures !ReadPair(FirstMatch(t, 0, EmbedAt), true).Failed?
  {
    var m := FirstMatch(t, 0, EmbedAt);
    if m.Some? {
      EmbedReads(t, m.value.0, m.value.1);
    }
  }

  /** A bare `!2d<longitude>!3d<latitude>` fragment, as an embed link carries it, gives the latitude
      from the `!3d` token and the longitude from the `!2d` token, and the map link rebuilt from them. */
  lemma EmbedGivesLatThenLon(lon: Decimal, lat: Decimal)
    requires IsToken(lon) && IsToken(lat)
    ensures TryParseLocation(Some(EmbedText(lon, lat))) == Some(Located(Normalize(lat), Normalize(lon)))
  {
    var s := EmbedText(lon, lat);
    EmbedChars(lon, lat);
    NoEarlierMatch(s);
    EmbedFragmentReads(lon, lat);
    EmbedDecides(s, Normalize(lat), Normalize(lon));
  }

  /** The embed strategy reads a bare embed fragment with its tokens swapped into latitude, longitude. */
  lemma EmbedFragmentReads(lon: Decimal, lat: Decimal)
    requires IsToken(lon) && IsToken(lat)
    ensures ReadPair(FirstMatch(EmbedText(lon, lat), 0, EmbedAt), true) == Found(Normalize(lat), Normalize(lon))
  {
    var s := EmbedText(lon, lat);
    EmbedAtStart(lon, lat);
    FirstMatchIs(s, 0, EmbedAt, 0, (TokenText(lon), TokenText(lat)));
    TokenTextReads(lon);
    TokenTextReads(lat);
  }

  /** When none of the first three strategies matches, the embed strategy decides. */
  lemma EmbedDecides(t: string, lat: Decimal, lon: Decimal)
    requires FirstMatch(t, 0, QueryPairAt).None?
    requires FirstMatch(t, 0, AtPairAt).None?
    requires FirstMatch(t, 0, DecimalPairJava).None?
    requires ReadPair(FirstMatch(t, 0, EmbedAt), true) == Found(lat, lon)
    ensures TryParseLocation(Some(t)) == Some(Located(lat, lon))
  {
  }

  /** In a text made only of token characters, `!` and `d`, none of the `q=`, `@` and decimal-pair
      patterns matches anywhere. */
  lemma NoEarlierMatch(s: string)
    requires forall k :: 0 <= k < |s| ==> IsEmbedChar(s[k])
    ensures FirstMatch(s, 0, QueryPairAt).None?
    ensures FirstMatch(s, 0, AtPairAt).None?
    ensures FirstMatch(s, 0, DecimalPairJava).None?
  {
    forall k | 0 <= k < |s| ensures s[k] != '?' && s[k] != '&' && s[k] != '@' {
      assert IsEmbedChar(s[k]);
    }
    NoQueryPair(s);
    NoAtPair(s);
    NoDecimalPair(s);
  }

  /** Without a `?` or `&`, the `q=` pattern matches nowhere. */
  lemma NoQueryPair(s: string)
    requires forall k :: 0 <= k < |s| ==> s[k] != '?' && s[k] != '&'
    ensures FirstMatch(s, 0, QueryPairAt).None?
  {
    forall j | 0 <= j <= |s| ensures QueryPairAt(s, j).None? {
      if j < |s| {
        assert s[j] != '?' && s[j] != '&';
      }
    }
    FirstMatchNone(s, 0, QueryPairAt);
  }

  /** Without an `@`, the `@` pattern matches nowhere. */
  lemma NoAtPair(s: string)
    requires forall k :: 0 <= k < |s| ==> s[k] != '@'
    ensures FirstMatch(s, 0, AtPairAt).None?
  {
    forall j | 0 <= j <= |s| ensures AtPairAt(s, j).None? {
      if j < |s| {
        assert s[j] != '@';
      }
    }
    FirstMatchNone(s, 0, AtPairAt);
  }

  lemma NoDecimalPair(s: string)
    requires forall k :: 0 <= k < |s| ==> IsEmbedChar(s[k])
    ensures FirstMatch(s, 0, DecimalPairJava).None?
  {
    forall j | 0 <= j <= |s| ensures DecimalPairJava(s, j).None? {
      NoSeparatorNoPair(s, j, IsJavaSpace);
    }
    FirstMatchNone(s, 0, DecimalPairJava);
  }

  /** A text that starts with a `q=` pair whose first number is a lone minus sign gives nothing,
      whatever follows, even an `@` pair that reads: the `q=` strategy abandons the parse instead of
      passing on to the next one. */
  lemma MalformedQueryAbandons(rest: string)
    ensures TryParseLocation(Some("?q=-,1" + rest)).None?
  {
    var s := "?q=-,1" + rest;
    MinusQueryPair(s, rest);
    FirstMatchIs(s, 0, QueryPairAt, 0, QueryPairAt(s, 0).value);
    LoneMinusIsNaN();
  }

  lemma MinusQueryPair(s: string, rest: string)
    requires s == "?q=-,1" + rest
    ensures QueryPairAt(s, 0).Some? && QueryPairAt(s, 0).value.0 == "-"
  {
    assert s[0] == '?' && s[1] == 'q' && s[2] == '=' && s[3] == '-' && s[4] == ',' && s[5] == '1';
    RunEndAt(s, 3, 3, IsJavaSpace);
    RunEndAt(s, 3, 4, IsNumberChar);
    RunEndAt(s, 4, 4, IsJavaSpace);
    RunEndAt(s, 5, 5, IsJavaSpace);
    assert s[3..4] == "-";
  }

  /** An `@<latitude>,<longitude>` pair, as a place link carries it, gives the latitude from the first
      token and the longitude from the second, and the map link rebuilt from them. */
  lemma AtGivesLatThenLon(lat: Decimal, lon: Decimal)
    requires IsShortToken(lat) && IsShortToken(lon)
    ensures TryParseLocation(Some(AtText(lat, lon))) == Some(Located(Normalize(lat), Normalize(lon)))
  {
    var s := AtText(lat, lon);
    AtChars(lat, lon);
    forall k | 0 <= k < |s| ensures s[k] != '?' && s[k] != '&' {
      assert IsPairChar(s[k]);
    }
    NoQueryPair(s);
    AtPairReads(lat, lon);
  }

  /** The `@` strategy reads an `@` pair as latitude, longitude. */
  lemma AtPairReads(lat: Decimal, lon: Decimal)
    requires IsShortToken(lat) && IsShortToken(lon)
    ensures ReadPair(FirstMatch(AtText(lat, lon), 0, AtPairAt), false) == Found(Normalize(lat), Normalize(lon))
  {
    var s := AtText(lat, lon);
    AtPairAtStart(lat, lon);
    FirstMatchIs(s, 0, AtPairAt, 0, (TokenText(lat), TokenText(lon)));
    TokenTextReads(lat);
    TokenTextReads(lon);
  }

  /** The `@` pattern matches an `@` pair at its start, capturing both token texts. */
  lemma AtPairAtStart(lat: Decimal, lon: Decimal)
    requires IsShortToken(lat) && IsShortToken(lon)
    ensures AtPairAt(AtText(lat, lon), 0) == Some((TokenText(lat), TokenText(lon)))
  {
    var s := AtText(lat, lon);
    assert s[1..] == PairText(lat, lon);
    var e1 := PairPieces(s, 1, lat, lon);
    AtPairMarked(s, e1, lat, lon);
  }

  lemma AtPairMarked(s: string, e1: nat, lat: Decimal, lon: Decimal)
    requires IsShortToken(lat) && IsShortToken(lon)
    requires 1 <= e1 < |s| && s[0] == '@' && s[e1] == ','
    requires s[1..e1] == TokenText(lat) && s[e1 + 1..] == TokenText(lon)
    ensures AtPairAt(s, 0) == Some((TokenText(lat), TokenText(lon)))
  {
    PairTokens(s, 1, e1, lat, lon);
    assert IsNumberChar(s[1]);
    AtPairSpaces(s, e1);
    AtPairIs(s, e1);
  }

  /** No space run in an `@` pair: after the `@` and around the `,`, each one ends where it starts. */
  lemma AtPairSpaces(s: string, e1: nat)
    requires 1 <= e1 < |s| && s[e1] == ','
    requires IsNumberChar(s[1]) && TokenEnd(s, e1 + 1, true) == Some(|s|)
    ensures RunEnd(s, 1, IsJavaSpace) == 1 && CommaToken(s, e1) == Some((e1 + 1, |s|))
  {
    RunEndAt(s, 1, 1, IsJavaSpace);
    CommaTokenNext(s, e1);
  }

  lemma CommaTokenNext(s: string, e1: nat)
    requires e1 + 1 < |s| && s[e1] == ',' && TokenEnd(s, e1 + 1, true) == Some(|s|)
    ensures CommaToken(s, e1) == Some((e1 + 1, |s|))
  {
    RunEndAt(s, e1, e1, IsJavaSpace);
    RunEndAt(s, e1 + 1, e1 + 1, IsJavaSpace);
  }

  lemma AtPairIs(s: string, e1: nat)
    requires 1 <= e1 < |s| && s[0] == '@'
    requires RunEnd(s, 1, IsJavaSpace) == 1 && TokenEnd(s, 1, true) == Some(e1)
    requires CommaToken(s, e1) == Some((e1 + 1, |s|))
    ensures AtPairAt(s, 0) == Some((s[1..e1], s[e1 + 1..]))
  {
    assert s[e1 + 1..|s|] == s[e1 + 1..];
  }

  /** A bare `<latitude>,<longitude>` pair gives the latitude from the first token and the longitude
      from the second, and the map link rebuilt from them. */
  lemma PairGivesLatThenLon(lat: Decimal, lon: Decimal)
    requires IsShortToken(lat) && IsShortToken(lon)
    ensures TryParseLocation(Some(PairText(lat, lon))) == Some(Located(Normalize(lat), Normalize(lon)))
  {
    var s := PairText(lat, lon);
    PairChars(lat, lon);
    forall k | 0 <= k < |s| ensures s[k] != '?' && s[k] != '&' {
      assert IsPairChar(s[k]);
    }
    NoQueryPair(s);
    NoAtPair(s);
    DecimalPairJavaPair(lat, lon);
  }

  /** The decimal-pair strategy reads a bare pair as latitude, longitude. */
  lemma DecimalPairJavaPair(lat: Decimal, lon: Decimal)
    requires IsShortToken(lat) && IsShortToken(lon)
    ensures ReadPair(FirstMatch(PairText(lat, lon), 0, DecimalPairJava), false) == Found(Normalize(lat), Normalize(lon))
  {
    var s := PairText(lat, lon);
    DecimalPairAtStart(lat, lon, IsJavaSpace);
    FirstMatchIs(s, 0, DecimalPairJava, 0, (TokenText(lat), TokenText(lon)));
    TokenTextReads(lat);
    TokenTextReads(lon);
  }

  /** Text with no digit and no `http` in any case gives nothing: the `@`, decimal-pair and embed
      patterns need a digit, a `q=` run without one does not read as a number, and a map link needs a
      URL. */
  lemma NoDigitNoLocation(t: string)
    requires forall k :: 0 <= k < |t| ==> !IsDigit(t[k])
    requires forall j: nat :: !HttpAt(t, j)
    ensures TryParseLocation(Some(t)).None?
  {
    NoDigitQueryFails(t);
    NoDigitNoPairs(t);
    forall j | 0 <= j <= |t| ensures UrlJava(t, j).None? {
      NoHttpNoUrl(t, j, IsJavaSpace);
    }
    FirstMatchNone(t, 0, UrlJava);
  }

  /** Without a digit, the `q=` strategy finds nothing or abandons the parse. */
  lemma NoDigitQueryFails(t: string)
    requires forall k :: 0 <= k < |t| ==> !IsDigit(t[k])
    ensures !ReadPair(FirstMatch(t, 0, QueryPairAt), false).Found?
  {
    var m := FirstMatch(t, 0, QueryPairAt);
    if m.Some? {
      var j, g := QueryPairFirst(t, m.value.0, m.value.1);
      var a := m.value.1.0;
      forall k | 0 <= k < |a| ensures !IsDigit(a[k]) {
        assert a[k] == t[j + k];
      }
      NoDigitIsNaN(a);
    }
  }

  /** Where the first run a `q=` match captures sits. */
  lemma QueryPairFirst(s: string, i: nat, p: (string, string)) returns (j: nat, g: nat)
    requires QueryPairAt(s, i) == Some(p)
    ensures j <= g <= |s| && p.0 == s[j..g]
  {
    j := RunEnd(s, i + 3, IsJavaSpace);
    g := RunEnd(s, j, IsNumberChar);
  }

  /** Without a digit, the `@`, decimal-pair and embed patterns match nowhere. */
  lemma NoDigitNoPairs(t: string)
    requires forall k :: 0 <= k < |t| ==> !IsDigit(t[k])
    ensures FirstMatch(t, 0, AtPairAt).None?
    ensures FirstMatch(t, 0, DecimalPairJava).None?
    ensures FirstMatch(t, 0, EmbedAt).None?
  {
    forall j | 0 <= j <= |t|
      ensures AtPairAt(t, j).None? && DecimalPairJava(t, j).None? && EmbedAt(t, j).None?
    {
      if j < |t| {
        NoDigitNoToken(t, RunEnd(t, j + 1, IsJavaSpace), true);
      }
      NoDigitNoDecimalPair(t, j, IsJavaSpace);
      NoDigitNoEmbed(t, j);
    }
    FirstMatchNone(t, 0, AtPairAt);
    FirstMatchNone(t, 0, DecimalPairJava);
    FirstMatchNone(t, 0, EmbedAt);
  }
}
