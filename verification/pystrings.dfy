/** The handful of Python `str` behaviours the capability files rely on:
    `isspace`/`strip` (title validation), `startswith` (attribute filters)
    and code-point ordering (`dir()` returns its names sorted). */
module PyStrings {

  /** `c.isspace()`: the characters Python treats as whitespace. */
  predicate IsSpace(c: char) {
    var k := c as int;
    (9 <= k <= 13) || (28 <= k <= 32) || k == 0x85 || k == 0xA0 || k == 0x1680
    || (0x2000 <= k <= 0x200A) || k == 0x2028 || k == 0x2029 || k == 0x202F
    || k == 0x205F || k == 0x3000
  }

  predicate AllSpace(s: string) {
    forall i :: 0 <= i < |s| ==> IsSpace(s[i])
  }

  /** `s.lstrip()` */
  function StripLeading(s: string): (r: string)
    ensures |r| <= |s| && r == s[|s| - |r|..]
    ensures AllSpace(s[..|s| - |r|])
    ensures r != [] ==> !IsSpace(r[0])
  {
    if s == [] || !IsSpace(s[0]) then s
    else
      var t := s[1..];
      var r := StripLeading(t);
      assert AllSpace(t[..|t| - |r|]);
      forall k | 0 <= k < |s| - |r| ensures IsSpace(s[k]) {
        if k > 0 {
          assert s[k] == t[..|t| - |r|][k - 1];
        }
      }
      assert forall k :: 0 <= k < |s| - |r| ==> s[..|s| - |r|][k] == s[k];
      assert s[|s| - |r|..] == t[|t| - |r|..];
      r
  }

  /** `s.rstrip()` */
  function StripTrailing(s: string): (r: string)
    ensures |r| <= |s| && r == s[..|r|]
    ensures AllSpace(s[|r|..])
    ensures r != [] ==> !IsSpace(r[|r| - 1])
  {
    if s == [] || !IsSpace(s[|s| - 1]) then s
    else
      var r := StripTrailing(s[..|s| - 1]);
      assert s[|r|..] == s[..|s| - 1][|r|..] + [s[|s| - 1]];
      r
  }

  /** Neither end of `s` is whitespace: what `strip()` leaves. */
  predicate NoOuterSpace(s: string) {
    s != [] ==> !IsSpace(s[0]) && !IsSpace(s[|s| - 1])
  }

  /** `s.strip()`: cuts the whitespace off both ends of `s`. */
  function Strip(s: string): (r: string)
    ensures |r| <= |s|
    ensures r == [] <==> AllSpace(s)
    ensures r != [] ==> !IsSpace(r[0]) && !IsSpace(r[|r| - 1])
  {
    var a := StripLeading(s);
    var r := StripTrailing(a);
    assert r == [] <==> AllSpace(s) by {
      var i := |s| - |a|;
      assert AllSpace(s[..i]) && a == s[i..];
      if r == [] {
        assert AllSpace(a[0..]);
        forall k | 0 <= k < |s| ensures IsSpace(s[k]) {
          assert s[k] == s[..i][k];
        }
      } else if a != [] {
        assert r[0] == a[0] == s[i];
      }
    }
    r
  }

  /** What `Strip` removes is whitespace and nothing else: the result is the
      infix of `s` between a run of leading and a run of trailing
      whitespace. */
  lemma StripIsInfix(s: string)
    ensures SpaceFramed(s, |s| - |StripLeading(s)|, Strip(s))
  {
    var a := StripLeading(s);
    var r := StripTrailing(a);
    assert Strip(s) == r;
    InfixOf(s, a, r);
  }

  /** `r` sits in `s` at `i`, with only whitespace before and after it. */
  predicate SpaceFramed(s: string, i: int, r: string) {
    0 <= i <= |s| - |r| && s[i..i + |r|] == r && AllSpace(s[..i]) && AllSpace(s[i + |r|..])
  }

  /** A prefix `r` of a suffix `a` of `s`, with only whitespace around it,
      is the infix of `s` at `|s| - |a|`. */
  lemma InfixOf(s: string, a: string, r: string)
    requires |r| <= |a| <= |s| && a == s[|s| - |a|..] && r == a[..|r|]
    requires AllSpace(s[..|s| - |a|]) && AllSpace(a[|r|..])
    ensures SpaceFramed(s, |s| - |a|, r)
  {
    var i := |s| - |a|;
    assert s[i + |r|..] == a[|r|..];
  }

  /** Stripping twice is stripping once. */
  lemma StripIdempotent(s: string)
    ensures Strip(Strip(s)) == Strip(s)
  {
    var r := Strip(s);
    if r != [] {
      assert StripLeading(r) == r;
      assert StripTrailing(r) == r;
    }
  }

  /** `s.startswith(p)` */
  predicate StartsWith(s: string, p: string) {
    |p| <= |s| && s[..|p|] == p
  }

  // ---------------------------------------------------------------------
  // Code-point ordering of strings, and sorting (`sorted`, `dir()`)
  // ---------------------------------------------------------------------

  /** `a < b` on Python strings: lexicographic by code point. */
  predicate LexLess(a: string, b: string) {
    if a == [] then b != []
    else if b == [] then false
    else a[0] < b[0] || (a[0] == b[0] && LexLess(a[1..], b[1..]))
  }

  lemma {:induction false} LexLessIrreflexive(a: string)
    ensures !LexLess(a, a)
  {
    if a != [] {
      LexLessIrreflexive(a[1..]);
    }
  }

  lemma {:induction false} LexLessTransitive(a: string, b: string, c: string)
    requires LexLess(a, b) && LexLess(b, c)
    ensures LexLess(a, c)
  {
    if a != [] && b != [] && c != [] && a[0] == b[0] && b[0] == c[0] {
      LexLessTransitive(a[1..], b[1..], c[1..]);
    }
  }

  lemma {:induction false} LexLessTotal(a: string, b: string)
    ensures a == b || LexLess(a, b) || LexLess(b, a)
  {
    if a != [] && b != [] && a[0] == b[0] {
      LexLessTotal(a[1..], b[1..]);
      if a[1..] == b[1..] {
        assert a == [a[0]] + a[1..] && b == [b[0]] + b[1..];
      }
    }
  }

  /** Strictly increasing: sorted and without repetition. */
  predicate StrictlySorted(xs: seq<string>) {
    forall i, j :: 0 <= i < j < |xs| ==> LexLess(xs[i], xs[j])
  }

  /** Strict order between neighbours is enough. */
  lemma {:induction false} ChainSorted(xs: seq<string>)
    requires forall i :: 0 <= i < |xs| - 1 ==> LexLess(xs[i], xs[i + 1])
    ensures StrictlySorted(xs)
  {
    if |xs| > 1 {
      ChainSorted(xs[1..]);
      forall j | 1 < j < |xs| ensures LexLess(xs[0], xs[j]) {
        assert LexLess(xs[1], xs[j]) by { assert xs[1..][0] == xs[1] && xs[1..][j - 1] == xs[j]; }
        LexLessTransitive(xs[0], xs[1], xs[j]);
      }
      forall i, j | 0 <= i < j < |xs| ensures LexLess(xs[i], xs[j]) {
        if i > 0 {
          assert xs[1..][i - 1] == xs[i] && xs[1..][j - 1] == xs[j];
        }
      }
    }
  }

  function Elems(xs: seq<string>): set<string> {
    set x | x in xs
  }

  lemma ElemsCons(x: string, xs: seq<string>)
    ensures Elems([x] + xs) == {x} + Elems(xs)
  {
    assert forall y :: y in [x] + xs <==> y == x || y in xs;
  }

  /** A sorted sequence stays sorted under a head below all its elements. */
  lemma ConsSorted(x: string, xs: seq<string>)
    requires StrictlySorted(xs)
    requires forall j :: 0 <= j < |xs| ==> LexLess(x, xs[j])
    ensures StrictlySorted([x] + xs)
  {
    var r := [x] + xs;
    forall i, j | 0 <= i < j < |r| ensures LexLess(r[i], r[j]) {
      assert r[j] == xs[j - 1];
      if i > 0 {
        assert r[i] == xs[i - 1];
      }
    }
  }

  /** Inserts `x` at its place in a strictly sorted sequence, unless it is
      already there. */
  function InsertSorted(x: string, xs: seq<string>): (r: seq<string>)
    requires StrictlySorted(xs)
    ensures StrictlySorted(r)
    ensures Elems(r) == Elems(xs) + {x}
    ensures |r| <= |xs| + 1
  {
    if xs == [] then [x]
    else
      ElemsCons(xs[0], xs[1..]);
      assert xs == [xs[0]] + xs[1..];
      if x == xs[0] then xs
      else if LexLess(x, xs[0]) then
        forall j | 0 <= j < |xs| ensures LexLess(x, xs[j]) {
          if j > 0 {
            LexLessTransitive(x, xs[0], xs[j]);
          }
        }
        ConsSorted(x, xs);
        ElemsCons(x, xs);
        [x] + xs
      else
        assert LexLess(xs[0], x) by { LexLessTotal(x, xs[0]); }
        var rest := InsertSorted(x, xs[1..]);
        forall j | 0 <= j < |rest| ensures LexLess(xs[0], rest[j]) {
          assert rest[j] in Elems(rest);
        }
        ConsSorted(xs[0], rest);
        ElemsCons(xs[0], rest);
        [xs[0]] + rest
  }

  /** `sorted(set(xs))`: every name once, in code-point order. */
  function SortedSet(xs: seq<string>): (r: seq<string>)
    ensures StrictlySorted(r)
    ensures Elems(r) == Elems(xs)
  {
    if xs == [] then []
    else
      var r := InsertSorted(xs[|xs| - 1], SortedSet(xs[..|xs| - 1]));
      assert xs == xs[..|xs| - 1] + [xs[|xs| - 1]];
      assert Elems(xs) == Elems(xs[..|xs| - 1]) + {xs[|xs| - 1]};
      r
  }

  lemma ElemsEmpty(xs: seq<string>)
    ensures Elems(xs) == {} <==> xs == []
  {
    if xs != [] {
      assert xs[0] in Elems(xs);
    }
  }

  /** The head of a strictly sorted sequence is below every other element. */
  lemma SortedHeadIsLeast(xs: seq<string>, x: string)
    requires StrictlySorted(xs) && x in Elems(xs) && x != xs[0]
    ensures LexLess(xs[0], x)
  {
    var k :| 0 <= k < |xs| && xs[k] == x;
  }

  /** Two strictly sorted sequences with the same elements are equal, so
      `SortedSet` is the one sorted arrangement of its input's names. */
  lemma {:induction false} StrictlySortedUnique(a: seq<string>, b: seq<string>)
    requires StrictlySorted(a) && StrictlySorted(b) && Elems(a) == Elems(b)
    ensures a == b
  {
    ElemsEmpty(a);
    ElemsEmpty(b);
    if a != [] && b != [] {
      var x, y := a[0], b[0];
      if x != y {
        LexLessTotal(x, y);
        if LexLess(x, y) {
          SortedHeadIsLeast(b, x);
          LexLessTransitive(x, y, x);
          LexLessIrreflexive(x);
        } else {
          SortedHeadIsLeast(a, y);
          LexLessTransitive(y, x, y);
          LexLessIrreflexive(y);
        }
      }
      assert Elems(a[1..]) == Elems(a) - {x} by {
        assert a == [x] + a[1..];
        forall j | 0 < j < |a| ensures a[j] != x { LexLessIrreflexive(x); }
      }
      assert Elems(b[1..]) == Elems(b) - {y} by {
        assert b == [y] + b[1..];
        forall j | 0 < j < |b| ensures b[j] != y { LexLessIrreflexive(y); }
      }
      StrictlySortedUnique(a[1..], b[1..]);
      assert a == [x] + a[1..] && b == [y] + b[1..];
    }
  }
}
