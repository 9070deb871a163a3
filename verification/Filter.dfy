/**
 Wildcard filters: `*` stands for any text, every other character for itself, and text behind
 the end of the filter is ignored.  The program never backtracks: it takes the leftmost
 place of each run of characters behind a `*`.
 */
module Filter {
  const MAX_TOKEN_CHARS := 1024

  /** A filter of literals and `*`; each run of literals fits the buffer it is copied to. */
  predicate Simple(f: string) {
    |f| < MAX_TOKEN_CHARS && '?' !in f && '[' !in f
  }

  function Upper(c: char): char {
    if 'a' <= c <= 'z' then (c as int - 32) as char else c
  }

  predicate Same(a: char, b: char, exact: bool) {
    if exact then a == b else Upper(a) == Upper(b)
  }

  // ------------------------------------------------------------ what a filter means

  /** Some text for every `*` makes the filter a prefix of the name. */
  ghost predicate Matches(f: string, n: string, exact: bool) {
    if f == "" then true
    else if f[0] == '*' then exists k: nat | k <= |n| :: Matches(f[1..], n[k..], exact)
    else n != "" && Same(f[0], n[0], exact) && Matches(f[1..], n[1..], exact)
  }

  /** `s` stands at the beginning of `n`. */
  predicate At(s: string, n: string, exact: bool) {
    |s| <= |n| && forall i | 0 <= i < |s| :: Same(s[i], n[i], exact)
  }

  predicate Literal(s: string) { '*' !in s }

  /** Nothing, or a `*`: what stands behind a run of literals. */
  predicate Starred(f: string) { f == "" || f[0] == '*' }

  /** Characters match if they are equal, or, unless case matters, the same letter. */
  lemma SameIs(a: char, b: char, exact: bool)
    ensures Same(a, b, exact) <==>
             a == b
             || (!exact && (('A' <= a <= 'Z' && b as int == a as int + 32)
                            || ('A' <= b <= 'Z' && a as int == b as int + 32)))
  {}

  /** A filter without wildcards matches just the names that start with it, and one star in front those that have it. */
  lemma WithoutWildcards(f: string, n: string)
    requires |f| < 1023 && '*' !in f && '?' !in f && '[' !in f
    ensures Simple(f) && Simple("*" + f)
    ensures Matches(f, n, true) <==> f <= n
    ensures Matches("*" + f, n, true) <==> exists k: nat | k <= |n| :: f <= n[k..]
  {
    LiteralsMatch(f, "", n, true);
    assert f + "" == f && ("*" + f)[1..] == f;
    forall k: nat | k <= |n|
      ensures Matches(f, n[k..], true) <==> f <= n[k..]
    {
      LiteralsMatch(f, "", n[k..], true);
    }
  }

  // ------------------------------------------------------------ why the leftmost place is enough

  /** Literals match just where they stand. */
  lemma {:induction false} LiteralsMatch(s: string, f: string, n: string, exact: bool)
    requires Literal(s)
    ensures Matches(s + f, n, exact) <==> At(s, n, exact) && Matches(f, n[|s|..], exact)
    decreases |s|
  {
    if s == "" {
      assert s + f == f && n[0..] == n;
    } else {
      assert s[0] in s;
      assert (s + f)[1..] == s[1..] + f;
      if n != "" {
        LiteralsMatch(s[1..], f, n[1..], exact);
        if |n| >= |s| { assert n[1..][|s| - 1..] == n[|s|..]; }
        AtStep(s, n, exact);
      }
    }
  }

  lemma AtStep(s: string, n: string, exact: bool)
    requires s != "" && n != ""
    ensures At(s, n, exact) <==> Same(s[0], n[0], exact) && At(s[1..], n[1..], exact)
  {
    if Same(s[0], n[0], exact) && At(s[1..], n[1..], exact) {
      forall i | 0 <= i < |s|
        ensures Same(s[i], n[i], exact)
      {
        if i > 0 { assert s[i] == s[1..][i - 1] && n[i] == n[1..][i - 1]; }
      }
    }
  }

  /** Behind a run, an earlier rest of the name matches whatever a later rest matches. */
  lemma EarlierIsEnough(f: string, n: string, k: nat, exact: bool)
    requires Starred(f) && k <= |n| && Matches(f, n[k..], exact)
    ensures Matches(f, n, exact)
  {
    if f != "" {
      var j: nat :| j <= |n[k..]| && Matches(f[1..], n[k..][j..], exact);
      assert n[k..][j..] == n[k + j..];
    }
  }

  lemma StarMatches(f: string, n: string, k: nat, exact: bool)
    requires k <= |n| && Matches(f, n[k..], exact)
    ensures Matches("*" + f, n, exact)
  {
    assert ("*" + f)[1..] == f;
  }

  lemma StarMatched(f: string, n: string, exact: bool) returns (k: nat)
    requires Matches("*" + f, n, exact)
    ensures k <= |n| && Matches(f, n[k..], exact)
  {
    assert ("*" + f)[1..] == f;
    k :| k <= |n| && Matches(("*" + f)[1..], n[k..], exact);
  }

  /** The leftmost place of `s` decides: the filter matches behind it or nowhere. */
  lemma LeftmostDecides(s: string, f: string, n: string, p: nat, exact: bool)
    requires Literal(s) && Starred(f) && p + |s| <= |n| && At(s, n[p..], exact)
    requires forall k | 0 <= k < p :: !At(s, n[k..], exact)
    ensures Matches("*" + (s + f), n, exact) <==> Matches(f, n[p + |s|..], exact)
  {
    hide Matches, At, Starred, Literal;
    LiteralsMatch(s, f, n[p..], exact);
    assert n[p..][|s|..] == n[p + |s|..];
    if Matches(f, n[p + |s|..], exact) {
      StarMatches(s + f, n, p, exact);
    }
    if Matches("*" + (s + f), n, exact) {
      var k := StarMatched(s + f, n, exact);
      LiteralsMatch(s, f, n[k..], exact);
      AtFits(s, n[k..], exact);
      assert p <= k;
      assert n[k..][|s|..] == n[p + |s|..][k - p..];
      EarlierIsEnough(f, n[p + |s|..], k - p, exact);
    }
  }

  lemma AtFits(s: string, n: string, exact: bool)
    requires At(s, n, exact)
    ensures |s| <= |n|
  {}

  /** Without a place for `s` the filter matches nowhere. */
  lemma NoPlaceNoMatch(s: string, f: string, n: string, exact: bool)
    requires Literal(s) && forall k | 0 <= k <= |n| :: !At(s, n[k..], exact)
    ensures !Matches("*" + (s + f), n, exact)
  {
    hide Matches, At;
    if Matches("*" + (s + f), n, exact) {
      var k := StarMatched(s + f, n, exact);
      LiteralsMatch(s, f, n[k..], exact);
    }
  }

  /** A `*` before nothing or another `*` adds nothing. */
  lemma StarBeforeStar(f: string, n: string, exact: bool)
    requires Starred(f)
    ensures Matches("*" + f, n, exact) <==> Matches(f, n, exact)
  {
    assert ("*" + f)[1..] == f && n[0..] == n;
    if Matches("*" + f, n, exact) {
      var k: nat :| k <= |n| && Matches(f, n[k..], exact);
      EarlierIsEnough(f, n, k, exact);
    }
  }

  lemma LiteralStep(f: string, n: string, exact: bool)
    requires f != "" && f[0] != '*'
    ensures Matches(f, n, exact) <==> n != "" && Same(f[0], n[0], exact) && Matches(f[1..], n[1..], exact)
  {}

  // ------------------------------------------------------------ the loops

  /** The leftmost place of `str2` in `str1`, or -1. */
  method StringContains(str1: string, str2: string, exact: bool) returns (p: int)
    ensures p >= 0 ==> p + |str2| <= |str1| && At(str2, str1[p..], exact)
                       && forall k | 0 <= k < p :: !At(str2, str1[k..], exact)
    ensures p < 0 ==> forall k | 0 <= k <= |str1| :: !At(str2, str1[k..], exact)
  {
    var len := |str1| - |str2|;
    var i := 0;
    while i <= len
      invariant 0 <= i && (i <= len + 1 || i == 0)
      invariant forall k | 0 <= k < i && k <= |str1| :: !At(str2, str1[k..], exact)
    {
      var j := 0;
      while j < |str2| && Same(str1[i + j], str2[j], exact)
        invariant 0 <= j <= |str2|
        invariant forall k | 0 <= k < j :: Same(str2[k], str1[i..][k], exact)
      {
        j := j + 1;
      }
      if j == |str2| {
        return i;
      }
      assert !Same(str2[j], str1[i..][j], exact);
      i := i + 1;
    }
    return -1;
  }

  /** The literals up to the next `*` or the end. */
  method Run(filter: string, p: nat) returns (buf: string)
    requires p <= |filter| && Simple(filter)
    ensures p + |buf| <= |filter| && buf == filter[p..p + |buf|]
    ensures Literal(buf) && Starred(filter[p + |buf|..]) && |buf| < MAX_TOKEN_CHARS
  {
    var i := p;
    buf := "";
    while i < |filter| && filter[i] != '*' && filter[i] != '?'
      invariant p <= i <= |filter| && buf == filter[p..i] && Literal(buf)
    {
      buf := buf + [filter[i]];
      i := i + 1;
    }
    assert i < |filter| ==> filter[i] in filter;
  }

  /** A `*` at place `f`, with the literals behind it: where filter and name go on, if they do. */
  method Star(filter: string, f: nat, name: string, n: nat, exact: bool) returns (ok: bool, f': nat, n': nat)
    requires Simple(filter) && f < |filter| && filter[f] == '*' && n <= |name|
    ensures f < f' <= |filter| && n' <= |name|
    ensures Matches(filter[f..], name[n..], exact) <==> ok && Matches(filter[f'..], name[n'..], exact)
  {
    hide Matches, At, Literal, Starred, Simple;
    var buf := Run(filter, f + 1);
    ghost var rest := filter[f + 1 + |buf|..];
    assert filter[f..] == "*" + (buf + rest);
    ok, f', n' := true, f + 1 + |buf|, n;
    if buf == "" {
      assert buf + rest == rest;
      StarBeforeStar(rest, name[n..], exact);
      return;
    }
    var p := StringContains(name[n..], buf, exact);
    if p < 0 {
      NoPlaceNoMatch(buf, rest, name[n..], exact);
      return false, f', n';
    }
    LeftmostDecides(buf, rest, name[n..], p, exact);
    n' := n + p + |buf|;
    assert name[n..][p + |buf|..] == name[n'..];
  }

  /** Whether a name passes a filter: exactly when the filter matches it. */
  method Passes(filter: string, name: string, exact: bool) returns (ok: bool)
    requires Simple(filter)
    ensures ok <==> Matches(filter, name, exact)
  {
    hide Matches, Simple;
    var f: nat, n: nat := 0, 0;
    assert filter[0..] == filter && name[0..] == name;
    while f < |filter|
      invariant f <= |filter| && n <= |name|
      invariant Matches(filter[f..], name[n..], exact) <==> Matches(filter, name, exact)
      decreases |filter| - f
    {
      if filter[f] == '*' {
        var more;
        more, f, n := Star(filter, f, name, n, exact);
        if !more {
          return false;
        }
      } else {
        LiteralStep(filter[f..], name[n..], exact);
        if n == |name| || !Same(filter[f], name[n], exact) {
          return false;
        }
        assert filter[f..][1..] == filter[f + 1..] && name[n..][1..] == name[n + 1..];
        f := f + 1;
        n := n + 1;
      }
    }
    assert filter[f..] == "";
    EmptyMatches(name[n..], exact);
    ok := true;
  }

  lemma EmptyMatches(n: string, exact: bool)
    ensures Matches("", n, exact)
  {}
}
