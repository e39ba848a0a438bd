/** Leftmost search, the way `Matcher.find()` and `String.prototype.match` (without /g) look for a match,
    and the first-element search of a `for` loop that ends in `break`. */
module Scan {
  import opened Wrappers

  /** The end of the longest run of characters satisfying `p` that starts at `i`
      (a greedy `[…]*` that nothing after it forces to give characters back). */
  function RunEnd(s: string, i: nat, p: char -> bool): (j: nat)
    requires i <= |s|
    ensures i <= j <= |s|
    ensures forall k :: i <= k < j ==> p(s[k])
    ensures j == |s| || !p(s[j])
    decreases |s| - i
  {
    if i == |s| || !p(s[i]) then i else RunEnd(s, i + 1, p)
  }

  /** A run that starts at `i` and is followed by a character failing `p` ends there. */
  lemma {:induction false} RunEndAt(s: string, i: nat, j: nat, p: char -> bool)
    requires i <= j <= |s|
    requires forall k :: i <= k < j ==> p(s[k])
    requires j == |s| || !p(s[j])
    ensures RunEnd(s, i, p) == j
    decreases j - i
  {
    if i < j {
      RunEndAt(s, i + 1, j, p);
    }
  }

  /** The leftmost position at or after `from` where `at` matches, with what it matched. */
  function FirstMatch<M(==)>(s: string, from: nat, at: (string, nat) -> Option<M>): (r: Option<(nat, M)>)
    ensures r.Some? ==> from <= r.value.0 <= |s| && at(s, r.value.0) == Some(r.value.1)
    ensures r.Some? ==> forall j :: from <= j < r.value.0 ==> at(s, j).None?
    ensures r.None? ==> forall j :: from <= j <= |s| ==> at(s, j).None?
    decreases |s| + 1 - from
  {
    if from > |s| then None
    else match at(s, from)
      case Some(m) => Some((from, m))
      case None => FirstMatch(s, from + 1, at)
  }

  /** What the leftmost search finds is fixed by where `at` matches and where it does not. */
  lemma FirstMatchIs<M>(s: string, from: nat, at: (string, nat) -> Option<M>, i: nat, m: M)
    requires from <= i <= |s| && at(s, i) == Some(m)
    requires forall j :: from <= j < i ==> at(s, j).None?
    ensures FirstMatch(s, from, at) == Some((i, m))
  {
    var r := FirstMatch(s, from, at);
    assert r.Some? && r.value.0 == i;
  }

  /** Where `at` matches nowhere, the leftmost search finds nothing. */
  lemma FirstMatchNone<M>(s: string, from: nat, at: (string, nat) -> Option<M>)
    requires forall j :: from <= j <= |s| ==> at(s, j).None?
    ensures FirstMatch(s, from, at).None?
  {
  }

  /** The index of the first element satisfying `p`. */
  function FirstIndex<T>(xs: seq<T>, p: T -> bool): (r: Option<nat>)
    ensures r.Some? ==> r.value < |xs| && p(xs[r.value])
    ensures r.Some? ==> forall j :: 0 <= j < r.value ==> !p(xs[j])
    ensures r.None? ==> forall j :: 0 <= j < |xs| ==> !p(xs[j])
  {
    if xs == [] then None
    else if p(xs[0]) then Some(0)
    else match FirstIndex(xs[1..], p)
      case Some(i) => Some(i + 1)
      case None => None
  }
}
