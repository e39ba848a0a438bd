/** Character classes and string operations shared by the JavaScript and the Java code. */
module Text {

  predicate IsDigit(c: char) { '0' <= c <= '9' }

  predicate AllDigits(s: string) { forall i :: 0 <= i < |s| ==> IsDigit(s[i]) }

  /** `\s` of a JavaScript regular expression, and the characters `String.prototype.trim` removes. */
  predicate IsJsSpace(c: char) {
    c == '\t' || c == '\n' || c == '\U{000B}' || c == '\U{000C}' || c == '\r' || c == ' ' ||
    c == '\U{00A0}' || c == '\U{1680}' || ('\U{2000}' <= c <= '\U{200A}') ||
    c == '\U{2028}' || c == '\U{2029}' || c == '\U{202F}' || c == '\U{205F}' ||
    c == '\U{3000}' || c == '\U{FEFF}'
  }

  /** `\s` of a `java.util.regex.Pattern` without UNICODE_CHARACTER_CLASS. */
  predicate IsJavaSpace(c: char) {
    c == ' ' || c == '\t' || c == '\n' || c == '\U{000B}' || c == '\U{000C}' || c == '\r'
  }

  predicate StartsWith(s: string, p: string) { |p| <= |s| && s[..|p|] == p }

  predicate EndsWith(s: string, p: string) { |p| <= |s| && s[|s| - |p|..] == p }

  /** `s.includes(p)` in JavaScript, `s.contains(p)` in Java. */
  predicate Contains(s: string, p: string) {
    exists k :: 0 <= k <= |s| - |p| && StartsWith(s[k..], p)
  }

  lemma ContainsSelf(s: string)
    ensures Contains(s, s)
  {
    assert StartsWith(s[0..], s);
  }

  lemma EndsWithContains(s: string, p: string)
    requires EndsWith(s, p)
    ensures Contains(s, p)
  {
    var k := |s| - |p|;
    assert s[k..][..|p|] == p;
    assert StartsWith(s[k..], p);
  }

  lemma ContainsEmpty(s: string)
    ensures Contains(s, [])
  {
    assert StartsWith(s[0..], []);
  }

  /** A text occurs in every text that embeds it. */
  lemma ContainsInfix(a: string, p: string, b: string)
    ensures Contains(a + p + b, p)
  {
    var s := a + p + b;
    assert s[|a|..][..|p|] == p;
    assert StartsWith(s[|a|..], p);
  }

  /** The characters of `s` that satisfy `p`, in order (a `replace(/[^…]/g, '')`). */
  function Keep(s: string, p: char -> bool): (r: string)
    ensures |r| <= |s|
    ensures forall i :: 0 <= i < |r| ==> p(r[i])
  {
    if s == [] then [] else (if p(s[0]) then [s[0]] else []) + Keep(s[1..], p)
  }

  lemma {:induction false} KeepAppend(a: string, b: string, p: char -> bool)
    ensures Keep(a + b, p) == Keep(a, p) + Keep(b, p)
  {
    if a == [] {
      assert a + b == b;
    } else {
      assert (a + b)[1..] == a[1..] + b;
      KeepAppend(a[1..], b, p);
    }
  }

  /** Keeping is idempotent: text whose characters all satisfy `p` is left as it is. */
  lemma {:induction false} KeepAll(s: string, p: char -> bool)
    requires forall i :: 0 <= i < |s| ==> p(s[i])
    ensures Keep(s, p) == s
  {
    if s != [] {
      KeepAll(s[1..], p);
    }
  }

  /** The characters of `s` that are not removed by `Keep` all fail `p`. */
  lemma {:induction false} KeepNone(s: string, p: char -> bool)
    requires forall i :: 0 <= i < |s| ==> !p(s[i])
    ensures Keep(s, p) == []
  {
    if s != [] {
      KeepNone(s[1..], p);
    }
  }

  /** Keeping brings in no character the text did not have: a class the text avoids, what is kept
      avoids too. */
  lemma {:induction false} KeepAvoids(s: string, p: char -> bool, q: char -> bool)
    requires forall i :: 0 <= i < |s| ==> !q(s[i])
    ensures forall i :: 0 <= i < |Keep(s, p)| ==> !q(Keep(s, p)[i])
  {
    if s != [] {
      KeepAvoids(s[1..], p, q);
    }
  }

  /** Whatever is kept from a text that contains `q` contains what is kept from `q`. */
  lemma KeepContains(s: string, q: string, p: char -> bool)
    requires Contains(s, q)
    ensures Contains(Keep(s, p), Keep(q, p))
  {
    var k :| 0 <= k <= |s| - |q| && StartsWith(s[k..], q);
    assert s == s[..k] + q + s[k + |q|..];
    KeepAppend(s[..k] + q, s[k + |q|..], p);
    KeepAppend(s[..k], q, p);
    ContainsInfix(Keep(s[..k], p), Keep(q, p), Keep(s[k + |q|..], p));
  }

  /** `s` with the longest suffix of characters satisfying `p` removed (`replace(/[…]+$/, '')`). */
  function DropLast(s: string, p: char -> bool): (r: string)
    ensures |r| <= |s| && r == s[..|r|]
    ensures r == [] || !p(r[|r| - 1])
    ensures forall i :: |r| <= i < |s| ==> p(s[i])
  {
    if s == [] || !p(s[|s| - 1]) then s else DropLast(s[..|s| - 1], p)
  }

  /** `s` with the longest prefix of characters satisfying `p` removed. */
  function DropFirst(s: string, p: char -> bool): (r: string)
    ensures |r| <= |s| && r == s[|s| - |r|..]
    ensures r == [] || !p(r[0])
    ensures forall i :: 0 <= i < |s| - |r| ==> p(s[i])
  {
    if s == [] || !p(s[0]) then s else DropFirst(s[1..], p)
  }

  /** Dropping a suffix brings in no character: a class the text avoids, what is left avoids too. */
  lemma DropLastAvoids(s: string, p: char -> bool, q: char -> bool)
    requires forall i :: 0 <= i < |s| ==> !q(s[i])
    ensures forall i :: 0 <= i < |DropLast(s, p)| ==> !q(DropLast(s, p)[i])
  {
    var r := DropLast(s, p);
    assert forall i :: 0 <= i < |r| ==> r[i] == s[i];
  }

  /** Dropping a prefix brings in no character: a class the text avoids, what is left avoids too. */
  lemma DropFirstAvoids(s: string, p: char -> bool, q: char -> bool)
    requires forall i :: 0 <= i < |s| ==> !q(s[i])
    ensures forall i :: 0 <= i < |DropFirst(s, p)| ==> !q(DropFirst(s, p)[i])
  {
    var r := DropFirst(s, p);
    assert forall i :: 0 <= i < |r| ==> r[i] == s[|s| - |r| + i];
  }

  /** `String.prototype.trim`. */
  function TrimJs(s: string): string {
    DropFirst(DropLast(s, IsJsSpace), IsJsSpace)
  }

  predicate IsAsciiUpper(c: char) { 'A' <= c <= 'Z' }
  predicate IsAsciiLower(c: char) { 'a' <= c <= 'z' }

  function UpperChar(c: char): char {
    if IsAsciiLower(c) then (c as int - 32) as char else c
  }

  function LowerChar(c: char): char {
    if IsAsciiUpper(c) then (c as int + 32) as char else c
  }

  /** `toUpperCase()` restricted to ASCII letters. */
  function Upper(s: string): (r: string)
    ensures |r| == |s| && forall i :: 0 <= i < |s| ==> r[i] == UpperChar(s[i])
  {
    if s == [] then [] else [UpperChar(s[0])] + Upper(s[1..])
  }

  /** `toLowerCase()` restricted to ASCII letters. */
  function Lower(s: string): (r: string)
    ensures |r| == |s| && forall i :: 0 <= i < |s| ==> r[i] == LowerChar(s[i])
  {
    if s == [] then [] else [LowerChar(s[0])] + Lower(s[1..])
  }

  /** Upper-casing twice is upper-casing once. */
  lemma UpperIdempotent(s: string)
    ensures Upper(Upper(s)) == Upper(s)
  {
    assert forall i :: 0 <= i < |s| ==> Upper(Upper(s))[i] == Upper(s)[i];
  }

  /** `Array.prototype.join` with a one-character separator. */
  function Join(xs: seq<string>, sep: char): (r: string)
    ensures |xs| == 1 ==> r == xs[0]
  {
    if xs == [] then [] else if |xs| == 1 then xs[0] else xs[0] + [sep] + Join(xs[1..], sep)
  }

  /** The index of the first occurrence of `c` in `s`, or `|s|`. */
  function IndexOf(s: string, c: char): (i: nat)
    ensures i <= |s| && (i < |s| ==> s[i] == c)
    ensures forall j :: 0 <= j < i ==> s[j] != c
  {
    if s == [] || s[0] == c then 0 else 1 + IndexOf(s[1..], c)
  }

  /** `String.prototype.split` with a one-character separator. */
  function Split(s: string, sep: char): (r: seq<string>)
    ensures |r| >= 1
    ensures forall k :: 0 <= k < |r| ==> sep !in r[k]
    decreases |s|
  {
    var i := IndexOf(s, sep);
    if i == |s| then [s] else [s[..i]] + Split(s[i + 1..], sep)
  }

  /** The first piece of a split is the text up to the first separator. */
  lemma SplitFirst(s: string, sep: char)
    ensures Split(s, sep)[0] == s[..IndexOf(s, sep)]
  {
  }

  /** Splitting what was joined gives the pieces back, when no piece holds the separator. */
  lemma {:induction false} SplitJoin(xs: seq<string>, sep: char)
    requires |xs| >= 1
    requires forall k :: 0 <= k < |xs| ==> sep !in xs[k]
    ensures Split(Join(xs, sep), sep) == xs
  {
    if |xs| == 1 {
      assert IndexOf(xs[0], sep) == |xs[0]|;
    } else {
      var s := Join(xs, sep);
      assert s == xs[0] + [sep] + Join(xs[1..], sep);
      var i := IndexOf(s, sep);
      assert s[|xs[0]|] == sep;
      assert i == |xs[0]|;
      assert s[..i] == xs[0];
      assert s[i + 1..] == Join(xs[1..], sep);
      SplitJoin(xs[1..], sep);
      assert Split(s, sep) == [xs[0]] + xs[1..];
      assert [xs[0]] + xs[1..] == xs;
    }
  }
}
