/** The two array operations the list screens build new lists with: `filter((_, i) => i !== index)` and
    `filter(item => keep(item))`. */
module Lists {

  /** `xs.filter((_, i) => i !== index)`: the element at `index` goes, the rest keep their order; an
      index past the end removes nothing. */
  function RemoveAt<T>(xs: seq<T>, index: nat): (r: seq<T>)
    ensures index < |xs| ==> |r| == |xs| - 1
    ensures index >= |xs| ==> r == xs
    ensures forall j :: 0 <= j < |r| ==> r[j] == if j < index then xs[j] else xs[j + 1]
  {
    if index < |xs| then xs[..index] + xs[index + 1..] else xs
  }

  /** Removing one element takes exactly that element out of the multiset of the list. */
  lemma RemoveAtMultiset<T>(xs: seq<T>, index: nat)
    requires index < |xs|
    ensures multiset(RemoveAt(xs, index)) + multiset{xs[index]} == multiset(xs)
  {
    assert xs == xs[..index] + [xs[index]] + xs[index + 1..];
  }

  /** Joining lists is associative. */
  lemma AppendAssoc<T>(a: seq<T>, b: seq<T>, c: seq<T>)
    ensures a + b + c == a + (b + c)
  {
  }

  /** `xs.filter(keep)`. */
  function Filter<T>(xs: seq<T>, keep: T -> bool): (r: seq<T>)
    ensures |r| <= |xs|
  {
    if xs == [] then []
    else Filter(xs[..|xs| - 1], keep) + (if keep(xs[|xs| - 1]) then [xs[|xs| - 1]] else [])
  }

  /** A filter keeps exactly the elements of the list that satisfy `keep`. */
  lemma {:induction false} FilterMembers<T>(xs: seq<T>, keep: T -> bool)
    ensures forall x :: x in Filter(xs, keep) <==> x in xs && keep(x)
    decreases |xs|
  {
    if xs != [] {
      var init, x := xs[..|xs| - 1], xs[|xs| - 1];
      FilterMembers(init, keep);
      assert xs == init + [x];
    }
  }

  /** Filtering is decided element by element, so it keeps the order of what it keeps: the filter of
      two lists joined is the two filters joined. */
  lemma {:induction false} FilterAppend<T(!new)>(a: seq<T>, b: seq<T>, keep: T -> bool)
    ensures Filter(a + b, keep) == Filter(a, keep) + Filter(b, keep)
    decreases |b|
  {
    if b == [] {
      assert a + b == a;
    } else {
      var b' := b[..|b| - 1];
      var x := b[|b| - 1];
      assert (a + b)[..|a + b| - 1] == a + b';
      assert (a + b)[|a + b| - 1] == x;
      FilterAppend(a, b', keep);
      AppendAssoc(Filter(a, keep), Filter(b', keep), if keep(x) then [x] else []);
    }
  }

  /** A filter that keeps everything returns the list itself. */
  lemma {:induction false} FilterKeepsAll<T(!new)>(xs: seq<T>, keep: T -> bool)
    requires forall j :: 0 <= j < |xs| ==> keep(xs[j])
    ensures Filter(xs, keep) == xs
    decreases |xs|
  {
    if xs != [] {
      FilterKeepsAll(xs[..|xs| - 1], keep);
      assert xs[..|xs| - 1] + [xs[|xs| - 1]] == xs;
    }
  }

  /** A filter that keeps nothing returns the empty list. */
  lemma {:induction false} FilterDropsAll<T(!new)>(xs: seq<T>, keep: T -> bool)
    requires forall j :: 0 <= j < |xs| ==> !keep(xs[j])
    ensures Filter(xs, keep) == []
    decreases |xs|
  {
    if xs != [] {
      FilterDropsAll(xs[..|xs| - 1], keep);
    }
  }

  /** How many elements of a list satisfy a predicate. */
  function Count<T>(xs: seq<T>, p: T -> bool): (n: nat)
    ensures n <= |xs|
  {
    if xs == [] then 0 else Count(xs[..|xs| - 1], p) + (if p(xs[|xs| - 1]) then 1 else 0)
  }

  /** A filter drops exactly the elements it does not keep. */
  lemma {:induction false} FilterLength<T(!new)>(xs: seq<T>, keep: T -> bool)
    ensures |Filter(xs, keep)| == |xs| - Count(xs, x => !keep(x))
    decreases |xs|
  {
    if xs != [] {
      FilterLength(xs[..|xs| - 1], keep);
    }
  }

  /** Where the four pieces of a concatenation found at `i` sit. */
  lemma Pieces<T>(s: seq<T>, i: nat, a: seq<T>, b: seq<T>, c: seq<T>, e: seq<T>)
    requires i + |a + b + c + e| <= |s| && s[i..i + |a + b + c + e|] == a + b + c + e
    ensures s[i..i + |a|] == a && s[i + |a|..i + |a| + |b|] == b
    ensures s[i + |a| + |b|..i + |a| + |b| + |c|] == c && s[i + |a| + |b| + |c|..i + |a + b + c + e|] == e
  {
    var t := a + b + c + e;
    var j1, j2, j3, j4 := |a|, |a| + |b|, |a| + |b| + |c|, |t|;
    SliceOf(s, i, t, 0, j1);
    SliceOf(s, i, t, j1, j2);
    SliceOf(s, i, t, j2, j3);
    SliceOf(s, i, t, j3, j4);
    assert t == (a + b) + c + e;
    assert t[..j3] == (a + b) + c;
    assert t[j2..j3] == t[..j3][j2..] == c;
    assert t[j1..j2] == t[..j2][j1..] == b;
  }

  /** A slice of a stretch that equals `t` is the same slice of `t`. */
  lemma SliceOf<T>(s: seq<T>, i: nat, t: seq<T>, x: nat, y: nat)
    requires i + |t| <= |s| && s[i..i + |t|] == t && x <= y <= |t|
    ensures s[i + x..i + y] == t[x..y]
  {
    forall k | 0 <= k < y - x ensures s[i + x..i + y][k] == t[x..y][k] {
      assert t[x + k] == s[i..i + |t|][x + k];
    }
  }
}
