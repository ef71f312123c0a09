/**
 * Glob matching of a domain pattern against a fully-qualified domain name:
 * `*` matches any run of characters (dots included), every other character
 * matches itself, and the pattern is anchored at both ends. The lemmas
 * characterise the four pattern shapes the rule language uses: a literal
 * name, `*suffix`, `prefix*` and `*infix*`.
 */
module Glob {

  /** Anchored glob match of pattern `p` against name `s`. */
  function Match(p: string, s: string): bool
    decreases |p| + |s|
  {
    if p == [] then s == []
    else if p[0] == '*' then Match(p[1..], s) || (s != [] && Match(p, s[1..]))
    else s != [] && s[0] == p[0] && Match(p[1..], s[1..])
  }

  predicate IsPrefix(x: string, s: string) { |x| <= |s| && s[..|x|] == x }
  predicate IsSuffix(x: string, s: string) { |x| <= |s| && s[|s| - |x|..] == x }
  ghost predicate IsInfix(x: string, s: string) { exists k :: 0 <= k <= |s| && IsPrefix(x, s[k..]) }

  /** A pattern without `*` matches exactly the name it spells. */
  lemma {:induction false} LiteralMatch(p: string, s: string)
    requires '*' !in p
    ensures Match(p, s) <==> s == p
  {
    if p != [] && s != [] {
      LiteralMatch(p[1..], s[1..]);
      if s[0] == p[0] && s[1..] == p[1..] {
        assert s == [s[0]] + s[1..];
        assert p == [p[0]] + p[1..];
      }
    }
  }

  /** A lone `*` matches every name. */
  lemma {:induction false} StarMatchesAll(s: string)
    ensures Match("*", s)
  {
    if s != [] { StarMatchesAll(s[1..]); }
  }

  /** `*x` matches exactly the names that end with `x`. */
  lemma {:induction false} SuffixMatch(x: string, s: string)
    requires '*' !in x
    ensures Match(['*'] + x, s) <==> IsSuffix(x, s)
  {
    var p := ['*'] + x;
    assert p[1..] == x;
    LiteralMatch(x, s);
    if s != [] {
      SuffixMatch(x, s[1..]);
      if |x| <= |s| - 1 { assert s[1..][|s[1..]| - |x|..] == s[|s| - |x|..]; }
    }
  }

  /** `x*` matches exactly the names that start with `x`. */
  lemma {:induction false} PrefixMatch(x: string, s: string)
    requires '*' !in x
    ensures Match(x + "*", s) <==> IsPrefix(x, s)
  {
    if x == [] {
      assert x + "*" == "*";
      StarMatchesAll(s);
    } else {
      var p := x + "*";
      assert p[0] == x[0] && p[1..] == x[1..] + "*";
      if s != [] {
        PrefixMatch(x[1..], s[1..]);
        if IsPrefix(x, s) { assert s[1..][..|x[1..]|] == s[..|x|][1..]; }
        if s[0] == x[0] && IsPrefix(x[1..], s[1..]) { assert s[..|x|] == [s[0]] + s[1..][..|x[1..]|]; }
      }
    }
  }

  /** `*x*` matches exactly the names that contain `x`. */
  lemma {:induction false} InfixMatch(x: string, s: string)
    requires '*' !in x
    ensures Match(['*'] + x + "*", s) <==> IsInfix(x, s)
  {
    var p := ['*'] + x + "*";
    assert p[1..] == x + "*";
    PrefixMatch(x, s);
    if IsPrefix(x, s) { assert s[0..] == s; }
    if s != [] {
      InfixMatch(x, s[1..]);
      if IsInfix(x, s[1..]) {
        var k :| 0 <= k <= |s[1..]| && IsPrefix(x, s[1..][k..]);
        assert s[1..][k..] == s[k + 1..];
      }
      if IsInfix(x, s) && !IsPrefix(x, s) {
        var k :| 0 <= k <= |s| && IsPrefix(x, s[k..]);
        assert k != 0 by { assert s[0..] == s; }
        assert s[1..][k - 1..] == s[k..];
      }
    } else if IsInfix(x, s) {
      var k :| 0 <= k <= |s| && IsPrefix(x, s[k..]);
      assert s[k..] == s;
    }
  }
}
