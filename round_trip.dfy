/** The location reply the responder sends (`LocationHelper.sendCurrentLocation`) is read back by both
    location parsers, and each parser's own map link reads back as the same coordinates. */
module RoundTrip {
  import opened Wrappers
  import opened Text
  import opened Scan
  import opened Numbers
  import opened Records
  import opened Patterns
  import JsLocation
  import JavaLocation

  const ReplyPrefix: string := "Here is my current location: "

  /** The reply text: the fixed sentence, then the Google Maps link built with Java's number text. */
  function ReplyText(lat: Decimal, lon: Decimal): string {
    ReplyPrefix + GoogleMapsUrl(JavaDoubleText(lat), JavaDoubleText(lon))
  }

  /** JavaScript's text of a number is a sign or digit, then number characters, ending in a digit. */
  lemma JsNumberTextShape(d: Decimal)
    requires Canonical(d)
    ensures var t := JsNumberText(d);
      |t| >= 1 && IsDigit(t[|t| - 1]) && forall i :: 0 <= i < |t| ==> IsNumberChar(t[i])
  {
  }

  predicate NumberText(a: string) {
    |a| >= 1 && forall i :: 0 <= i < |a| ==> IsNumberChar(a[i])
  }

  const MapsHost: string := "https://maps.google.com/"

  /** The text holds `?q=A,B` from `q` to its end. */
  predicate QueryShape(s: string, q: nat, A: string, B: string) {
    |s| == q + 4 + |A| + |B| &&
    s[q] == '?' && s[q + 1] == 'q' && s[q + 2] == '=' && s[q + 3 + |A|] == ',' &&
    (forall j :: 0 <= j < |A| ==> s[q + 3 + j] == A[j]) &&
    (forall j :: 0 <= j < |B| ==> s[q + 4 + |A| + j] == B[j])
  }

  /** The text `P` + link prefix + `A,B`, split at the `?` of the link. */
  lemma QueryLayout(s: string, P: string, A: string, B: string)
    requires '?' !in P && '&' !in P
    requires s == P + GoogleMapsPrefix + A + "," + B
    ensures var q := |P| + |MapsHost|;
      q <= |s| && QueryShape(s, q, A, B) && (forall j :: 0 <= j < q ==> s[j] != '?' && s[j] != '&')
  {
    var X := P + MapsHost;
    assert '?' !in MapsHost && '&' !in MapsHost;
    assert s == X + "?q=" + A + "," + B;
    forall j | 0 <= j < |X|
      ensures s[j] != '?' && s[j] != '&'
    {
      assert s[j] == X[j];
      assert X[j] in X;
    }
  }

  /** Where the text holds `?q=A,B` up to its end, the Java query pattern there captures `A` and `B`. */
  lemma JavaQueryAt(s: string, q: nat, A: string, B: string)
    requires NumberText(A) && NumberText(B) && QueryShape(s, q, A, B)
    ensures JavaLocation.QueryPairAt(s, q) == Some((A, B))
  {
    var g1 := q + 3 + |A|;
    var m := g1 + 1;
    assert s[q + 3] == A[0];
    RunEndAt(s, q + 3, q + 3, IsJavaSpace);
    forall k | q + 3 <= k < g1
      ensures IsNumberChar(s[k])
    {
      assert s[k] == A[k - q - 3];
    }
    RunEndAt(s, q + 3, g1, IsNumberChar);
    RunEndAt(s, g1, g1, IsJavaSpace);
    assert s[m] == B[0];
    RunEndAt(s, m, m, IsJavaSpace);
    forall k | m <= k < |s|
      ensures IsNumberChar(s[k])
    {
      assert s[k] == B[k - m];
    }
    RunEndAt(s, m, |s|, IsNumberChar);
    assert s[q + 3..g1] == A;
    assert s[m..|s|] == B;
  }

  /** The first `q=` match of the Java pattern in `P` + link prefix + `A,B` captures `A` and `B`. */
  lemma JavaQueryMatch(s: string, P: string, A: string, B: string)
    requires '?' !in P && '&' !in P
    requires NumberText(A) && NumberText(B)
    requires s == P + GoogleMapsPrefix + A + "," + B
    ensures FirstMatch(s, 0, JavaLocation.QueryPairAt) == Some((|P| + |MapsHost|, (A, B)))
  {
    var q := |P| + |MapsHost|;
    QueryLayout(s, P, A, B);
    JavaQueryAt(s, q, A, B);
    JavaFirstQuery(s, q, A, B);
  }

  /** A query match at `q` with no `?` or `&` before it is the first one. */
  lemma JavaFirstQuery(s: string, q: nat, A: string, B: string)
    requires JavaLocation.QueryPairAt(s, q) == Some((A, B))
    requires forall j :: 0 <= j < q ==> s[j] != '?' && s[j] != '&'
    requires q <= |s|
    ensures FirstMatch(s, 0, JavaLocation.QueryPairAt) == Some((q, (A, B)))
  {
    forall j | 0 <= j < q
      ensures JavaLocation.QueryPairAt(s, j).None?
    {
    }
    FirstMatchIs(s, 0, JavaLocation.QueryPairAt, q, (A, B));
  }

  /** `tryParseLocation` reads a Google Maps query `?q=A,B` after any text free of `?` and `&`. */
  lemma JavaReadsQuery(s: string, P: string, A: string, B: string, lat: Decimal, lon: Decimal)
    requires '?' !in P && '&' !in P
    requires NumberText(A) && NumberText(B)
    requires ParseDouble(A) == Some(lat) && ParseDouble(B) == Some(lon)
    requires s == P + GoogleMapsPrefix + A + "," + B
    ensures JavaLocation.TryParseLocation(Some(s)) == Some(JavaLocation.Located(lat, lon))
  {
    JavaQueryMatch(s, P, A, B);
    assert JavaLocation.ReadPair(Some((|P| + |MapsHost|, (A, B))), false) == JavaLocation.Found(lat, lon);
  }

  /** `parseLocationFromText` reads a Google Maps query `?q=A,B` after any text free of `?`, `&` and smart
      quotes that does not start with a space. */
  lemma JsReadsQuery(s: string, P: string, A: string, B: string, lat: Decimal, lon: Decimal)
    requires '?' !in P && '&' !in P && forall i :: 0 <= i < |P| ==> !JsLocation.IsSmartQuote(P[i])
    requires P != [] ==> !IsJsSpace(P[0])
    requires NumberText(A) && NumberText(B) && IsDigit(B[|B| - 1])
    requires ParseFloat(A) == Some(lat) && ParseFloat(B) == Some(lon)
    requires s == P + GoogleMapsPrefix + A + "," + B
    ensures JsLocation.ParseLocationFromText(s) == Some(JsLocation.Located(lat, lon))
  {
    JsCleanQuery(s, P, A, B);
    JsQueryCoordinates(s, P, A, B, lat, lon);
  }

  /** Such a text is left unchanged by the cleaning step. */
  lemma JsCleanQuery(s: string, P: string, A: string, B: string)
    requires '?' !in P && '&' !in P && forall i :: 0 <= i < |P| ==> !JsLocation.IsSmartQuote(P[i])
    requires P != [] ==> !IsJsSpace(P[0])
    requires NumberText(A) && NumberText(B) && IsDigit(B[|B| - 1])
    requires s == P + GoogleMapsPrefix + A + "," + B
    ensures JsLocation.Clean(s) == s
  {
    var X := P + GoogleMapsPrefix;
    var Y := A + "," + B;
    assert s == X + Y;
    PrefixNoQuotes(P);
    QuotesFree(A, B);
    forall i | 0 <= i < |s|
      ensures !JsLocation.IsSmartQuote(s[i])
    {
      if i < |X| {
        assert s[i] == X[i];
      } else {
        assert s[i] == Y[i - |X|];
      }
    }
    assert s[0] == X[0];
    assert s[|s| - 1] == B[|B| - 1];
    JsLocation.CleanKeeps(s);
  }

  /** Text before the link, then the link prefix: no smart quote, and no space at the start. */
  lemma PrefixNoQuotes(P: string)
    requires forall i :: 0 <= i < |P| ==> !JsLocation.IsSmartQuote(P[i])
    requires P != [] ==> !IsJsSpace(P[0])
    ensures var X := P + GoogleMapsPrefix;
      (forall i :: 0 <= i < |X| ==> !JsLocation.IsSmartQuote(X[i])) && !IsJsSpace(X[0])
  {
    var X := P + GoogleMapsPrefix;
    assert forall i :: 0 <= i < |GoogleMapsPrefix| ==> !JsLocation.IsSmartQuote(GoogleMapsPrefix[i]);
    forall i | 0 <= i < |X|
      ensures !JsLocation.IsSmartQuote(X[i])
    {
      if i >= |P| {
        assert X[i] == GoogleMapsPrefix[i - |P|];
      }
    }
    assert X[0] == if P == [] then 'h' else P[0];
  }

  /** Two number texts around a comma: no smart quote. */
  lemma QuotesFree(A: string, B: string)
    requires NumberText(A) && NumberText(B)
    ensures var Y := A + "," + B; forall i :: 0 <= i < |Y| ==> !JsLocation.IsSmartQuote(Y[i])
  {
    var Y := A + "," + B;
    forall i | 0 <= i < |Y|
      ensures !JsLocation.IsSmartQuote(Y[i])
    {
      if i < |A| {
        assert Y[i] == A[i];
      } else if i > |A| {
        assert Y[i] == B[i - |A| - 1];
      }
    }
  }

  /** The `q=` strategy of the JavaScript parser reads `A` and `B` from such a text. */
  lemma JsQueryCoordinates(s: string, P: string, A: string, B: string, lat: Decimal, lon: Decimal)
    requires '?' !in P && '&' !in P
    requires NumberText(A) && NumberText(B)
    requires ParseFloat(A) == Some(lat) && ParseFloat(B) == Some(lon)
    requires s == P + GoogleMapsPrefix + A + "," + B
    ensures JsLocation.QueryCoordinates(s) == Some((lat, lon))
  {
    var q := |P| + |MapsHost|;
    QueryLayout(s, P, A, B);
    JsQueryAt(s, q, A, B);
    JsFirstQuery(s, q, A + "," + B);
    SplitPair(A, B);
  }

  /** Where the text holds `?q=A,B` up to its end, the JavaScript query pattern there captures `A,B`. */
  lemma JsQueryAt(s: string, q: nat, A: string, B: string)
    requires NumberText(A) && NumberText(B) && QueryShape(s, q, A, B)
    ensures JsLocation.QueryAt(s, q) == Some(A + "," + B)
  {
    forall i | q + 3 <= i < |s|
      ensures JsLocation.IsQueryChar(s[i])
    {
      if i < q + 3 + |A| {
        assert s[i] == A[i - q - 3];
      } else if i > q + 3 + |A| {
        assert s[i] == B[i - q - 4 - |A|];
      }
    }
    RunEndAt(s, q + 3, |s|, JsLocation.IsQueryChar);
    var g := A + "," + B;
    forall i | 0 <= i < |g|
      ensures s[q + 3..][i] == g[i]
    {
      if i < |A| {
        assert s[q + 3 + i] == A[i];
      } else if i > |A| {
        assert s[q + 3 + i] == B[i - |A| - 1];
      }
    }
    assert s[q + 3..] == g;
    assert s[q + 3..|s|] == g;
    assert LowerChar(s[q + 1]) == 'q';
    assert RunEnd(s, q + 3, JsLocation.IsQueryChar) == |s|;
  }

  /** A query match at `q` with no `?` or `&` before it is the first one. */
  lemma JsFirstQuery(s: string, q: nat, g: string)
    requires JsLocation.QueryAt(s, q) == Some(g)
    requires forall j :: 0 <= j < q ==> s[j] != '?' && s[j] != '&'
    requires q <= |s|
    ensures FirstMatch(s, 0, JsLocation.QueryAt) == Some((q, g))
  {
    forall j | 0 <= j < q
      ensures JsLocation.QueryAt(s, j).None?
    {
    }
    FirstMatchIs(s, 0, JsLocation.QueryAt, q, g);
  }

  /** Two comma-free number texts joined by a comma split back into the two. */
  lemma SplitPair(A: string, B: string)
    requires NumberText(A) && NumberText(B)
    ensures Split(A + "," + B, ',') == [A, B]
  {
    assert ',' !in A && ',' !in B;
    assert Join([A, B], ',') == A + "," + B;
    SplitJoin([A, B], ',');
  }

  /** The Java parser reads the responder's reply as the coordinates it was built from, for values
      Java prints without an exponent. */
  lemma JavaReadsReply(lat: Decimal, lon: Decimal)
    requires Canonical(lat) && Canonical(lon)
    requires JavaPlainRange(lat) && JavaPlainRange(lon)
    ensures JavaLocation.TryParseLocation(Some(ReplyText(lat, lon))) ==
      Some(Coordinates(lat, lon, GoogleMapsUrl(JavaDoubleText(lat), JavaDoubleText(lon))))
  {
    var A, B := JavaDoubleText(lat), JavaDoubleText(lon);
    NumberTexts(lat, lon);
    ReplyLayout(lat, lon);
    JavaReadsQuery(ReplyText(lat, lon), ReplyPrefix, A, B, lat, lon);
  }

  lemma ReplyLayout(lat: Decimal, lon: Decimal)
    ensures '?' !in ReplyPrefix && '&' !in ReplyPrefix
    ensures forall i :: 0 <= i < |ReplyPrefix| ==> !JsLocation.IsSmartQuote(ReplyPrefix[i])
    ensures !IsJsSpace(ReplyPrefix[0])
    ensures ReplyText(lat, lon) == ReplyPrefix + GoogleMapsPrefix + JavaDoubleText(lat) + "," + JavaDoubleText(lon)
  {
    ReplyPrefixPlain();
    var A, B := JavaDoubleText(lat), JavaDoubleText(lon);
    assert ReplyText(lat, lon) == ReplyPrefix + (GoogleMapsPrefix + A + "," + B);
  }

  /** The reply's fixed sentence holds no query separator, no smart quote and no leading space. */
  lemma ReplyPrefixPlain()
    ensures '?' !in ReplyPrefix && '&' !in ReplyPrefix
    ensures forall i :: 0 <= i < |ReplyPrefix| ==> !JsLocation.IsSmartQuote(ReplyPrefix[i])
    ensures !IsJsSpace(ReplyPrefix[0])
  {
    ReplyPrefixWords();
    WordsArePlain(ReplyPrefix);
    assert ReplyPrefix[0] == 'H';
  }

  /** The reply's fixed sentence is made of letters, spaces and a colon. */
  lemma ReplyPrefixWords()
    ensures forall i :: 0 <= i < |ReplyPrefix| ==> IsWordChar(ReplyPrefix[i])
  {
  }

  predicate IsWordChar(c: char) {
    c == ' ' || c == ':' || 'A' <= c <= 'z'
  }

  /** Text of letters, spaces and colons holds no query separator and no smart quote. */
  lemma WordsArePlain(s: string)
    requires forall i :: 0 <= i < |s| ==> IsWordChar(s[i])
    ensures '?' !in s && '&' !in s
    ensures forall i :: 0 <= i < |s| ==> !JsLocation.IsSmartQuote(s[i])
  {
    forall i | 0 <= i < |s|
      ensures s[i] != '?' && s[i] != '&' && !JsLocation.IsSmartQuote(s[i])
    {
      assert IsWordChar(s[i]);
    }
  }

  /** Java's text of two canonical numbers: number texts that both parsers read back. */
  lemma NumberTexts(lat: Decimal, lon: Decimal)
    requires Canonical(lat) && Canonical(lon)
    ensures NumberText(JavaDoubleText(lat)) && NumberText(JavaDoubleText(lon))
    ensures IsDigit(JavaDoubleText(lon)[|JavaDoubleText(lon)| - 1])
    ensures ParseDouble(JavaDoubleText(lat)) == Some(lat) && ParseDouble(JavaDoubleText(lon)) == Some(lon)
    ensures ParseFloat(JavaDoubleText(lat)) == Some(lat) && ParseFloat(JavaDoubleText(lon)) == Some(lon)
  {
    JavaDoubleTextShape(lat);
    JavaDoubleTextShape(lon);
    JavaDoubleTextParses(lat);
    JavaDoubleTextParses(lon);
  }

  /** The JavaScript parser reads the responder's reply as the same coordinates. */
  lemma JsReadsReply(lat: Decimal, lon: Decimal)
    requires Canonical(lat) && Canonical(lon)
    requires JavaPlainRange(lat) && JavaPlainRange(lon)
    ensures JsLocation.ParseLocationFromText(ReplyText(lat, lon)) ==
      Some(Coordinates(lat, lon, GoogleMapsUrl(JsNumberText(lat), JsNumberText(lon))))
  {
    var A, B := JavaDoubleText(lat), JavaDoubleText(lon);
    NumberTexts(lat, lon);
    ReplyLayout(lat, lon);
    JsReadsQuery(ReplyText(lat, lon), ReplyPrefix, A, B, lat, lon);
  }

  /** The map link of a Java coordinate result reads back as that same result. */
  lemma JavaLinkFixedPoint(lat: Decimal, lon: Decimal)
    requires Canonical(lat) && Canonical(lon)
    requires JavaPlainRange(lat) && JavaPlainRange(lon)
    ensures var loc := JavaLocation.Located(lat, lon);
      JavaLocation.TryParseLocation(Some(loc.mapUrl)) == Some(loc)
  {
    var A, B := JavaDoubleText(lat), JavaDoubleText(lon);
    NumberTexts(lat, lon);
    LinkLayout(A, B);
    JavaReadsQuery(GoogleMapsUrl(A, B), [], A, B, lat, lon);
  }

  lemma LinkLayout(A: string, B: string)
    ensures GoogleMapsUrl(A, B) == [] + GoogleMapsPrefix + A + "," + B
    ensures '?' !in [] && '&' !in []
  {
  }

  /** The map link of a JavaScript coordinate result reads back as that same result (a negative zero
      prints as "0", so it is excluded). */
  lemma JsLinkFixedPoint(lat: Decimal, lon: Decimal)
    requires Canonical(lat) && Canonical(lon)
    requires !(IsZero(lat) && lat.negative) && !(IsZero(lon) && lon.negative)
    requires JsPlainRange(lat) && JsPlainRange(lon)
    ensures var loc := JsLocation.Located(lat, lon);
      JsLocation.ParseLocationFromText(loc.mapUrl) == Some(loc)
  {
    var A, B := JsNumberText(lat), JsNumberText(lon);
    JsNumberTextShape(lat);
    JsNumberTextShape(lon);
    JsNumberTextParses(lat);
    JsNumberTextParses(lon);
    JsReadsLink(A, B, lat, lon);
  }

  /** A Google Maps link built from two number texts, the second ending in a digit, reads back as the
      two numbers. */
  lemma JsReadsLink(A: string, B: string, lat: Decimal, lon: Decimal)
    requires NumberText(A) && NumberText(B) && IsDigit(B[|B| - 1])
    requires ParseFloat(A) == Some(lat) && ParseFloat(B) == Some(lon)
    ensures JsLocation.ParseLocationFromText(GoogleMapsUrl(A, B)) == Some(JsLocation.Located(lat, lon))
  {
    LinkLayout(A, B);
    JsReadsQuery(GoogleMapsUrl(A, B), [], A, B, lat, lon);
  }
}
