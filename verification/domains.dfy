/**
 * Domain patterns of endpoint rules: validation of the pattern text, its
 * normalisation to a trailing-dot form, and matching against an entity's
 * fully-qualified domain name.
 *
 * A pattern that starts with `.` names a zone: it matches the name itself
 * and every name below it at a label boundary. Any other pattern is an
 * anchored glob whose `*` spans any characters, dots included. A pattern
 * that does not end in `.` or `*` is given the trailing dot that every
 * fully-qualified name carries, so that dot is optional in a rule.
 */
module Domains {
  import opened Wrappers
  import Text
  import Glob

  predicate PatternChar(c: char)
  {
    Text.IsLower(c) || Text.IsDigit(c) || c == '-' || c == '_' || c == '.' || c == '*'
  }

  /** No two consecutive dots, i.e. no empty label. */
  predicate NoEmptyLabel(p: string)
  {
    forall i :: 0 <= i < |p| - 1 ==> !(p[i] == '.' && p[i + 1] == '.')
  }

  /** A leading zone dot and a trailing wildcard are mutually exclusive. */
  predicate ZoneWithWildcardSuffix(p: string)
  {
    |p| > 0 && p[0] == '.' && p[|p| - 1] == '*'
  }

  /** The acceptance rule for a (lower-cased) domain pattern. */
  predicate ValidPattern(p: string)
  {
    && p != [] && p != "."
    && NoEmptyLabel(p)
    && !ZoneWithWildcardSuffix(p)
    && forall i :: 0 <= i < |p| ==> PatternChar(p[i])
  }

  /** Appends the implied trailing dot unless the pattern ends in `.` or `*`. */
  function Normalise(p: string): (n: string)
    requires p != []
    ensures n != [] && n[0] == p[0]
    ensures n[|n| - 1] == '.' || n[|n| - 1] == '*'
    ensures |p| <= |n| <= |p| + 1 && n[..|p|] == p
    ensures n == p || n == p + "."
    ensures n == p <==> p[|p| - 1] == '.' || p[|p| - 1] == '*'
  {
    if p[|p| - 1] == '.' || p[|p| - 1] == '*' then p else p + "."
  }

  /** Compiles the pattern text of a rule: lower-case, validate, normalise. */
  function Compile(raw: string): (r: Result<string>)
    ensures r.Ok? <==> ValidPattern(Text.Lower(raw))
    ensures r.Ok? ==> r.value == Normalise(Text.Lower(raw))
  {
    var p := Text.Lower(raw);
    if p == [] || p == "." then Err("empty domain pattern")
    else if !NoEmptyLabel(p) then Err("domain pattern has an empty label")
    else if ZoneWithWildcardSuffix(p) then Err("zone pattern cannot end with a wildcard")
    else if !(forall i :: 0 <= i < |p| ==> PatternChar(p[i])) then Err("invalid character in domain pattern")
    else Ok(Normalise(p))
  }

  /** Matches a compiled pattern against a fully-qualified domain name. */
  predicate DomainMatch(pattern: string, domain: string)
  {
    if pattern != [] && pattern[0] == '.' then Glob.Match(pattern[1..], domain) || Glob.Match(['*'] + pattern, domain)
    else Glob.Match(pattern, domain)
  }

  /** `.x` matches `x` itself and every name ending in `.x`, and nothing else. */
  lemma ZoneMatch(x: string, domain: string)
    requires '*' !in x
    ensures DomainMatch(['.'] + x, domain) <==> domain == x || Glob.IsSuffix(['.'] + x, domain)
  {
    var p := ['.'] + x;
    assert p[1..] == x;
    assert '*' !in p;
    Glob.LiteralMatch(x, domain);
    Glob.SuffixMatch(p, domain);
  }

  /** `*.x` needs a dot before `x`: it matches exactly the names ending in `.x`, never `x` itself. */
  lemma StarDotMatch(x: string, domain: string)
    requires '*' !in x
    ensures DomainMatch(['*', '.'] + x, domain) <==> Glob.IsSuffix(['.'] + x, domain)
    ensures !DomainMatch(['*', '.'] + x, x)
  {
    assert ['*', '.'] + x == ['*'] + (['.'] + x);
    assert '*' !in ['.'] + x;
    Glob.SuffixMatch(['.'] + x, domain);
    Glob.SuffixMatch(['.'] + x, x);
  }

  /** `*x` matches exactly the names ending in `x`, whether or not a dot precedes it. */
  lemma SuffixPatternMatch(x: string, domain: string)
    requires '*' !in x
    ensures DomainMatch(['*'] + x, domain) <==> Glob.IsSuffix(x, domain)
  {
    Glob.SuffixMatch(x, domain);
  }

  /** A pattern without wildcards or zone dot matches only the very name it spells. */
  lemma ExactMatch(p: string, domain: string)
    requires p != [] && p[0] != '.' && '*' !in p
    ensures DomainMatch(p, domain) <==> domain == p
  {
    Glob.LiteralMatch(p, domain);
  }

  /** `x*` (with `x` not a zone) matches exactly the names that start with `x`. */
  lemma PrefixPatternMatch(x: string, domain: string)
    requires x != [] && x[0] != '.' && '*' !in x
    ensures DomainMatch(x + "*", domain) <==> Glob.IsPrefix(x, domain)
  {
    Glob.PrefixMatch(x, domain);
  }

  /** `*x*` matches exactly the names that contain `x`. */
  lemma InfixPatternMatch(x: string, domain: string)
    requires '*' !in x
    ensures DomainMatch(['*'] + x + "*", domain) <==> Glob.IsInfix(x, domain)
  {
    Glob.InfixMatch(x, domain);
  }

  /** The trailing dot of a pattern is optional: `x` and `x.` compile to the same pattern. */
  lemma TrailingDotOptional(raw: string)
    requires raw != [] && raw[|raw| - 1] != '.' && raw[|raw| - 1] != '*'
    ensures Compile(raw) == Compile(raw + ".")
  {
    var p := Text.Lower(raw);
    LowerAppendDot(raw);
    assert p[|p| - 1] == Text.LowerChar(raw[|raw| - 1]);
    AppendDotValid(p);
  }

  lemma LowerAppendDot(raw: string)
    ensures Text.Lower(raw + ".") == Text.Lower(raw) + "."
  {
    var p := Text.Lower(raw);
    var q := Text.Lower(raw + ".");
    forall i | 0 <= i < |q| ensures q[i] == (p + ".")[i] {
      if i < |p| { assert (raw + ".")[i] == raw[i]; } else { assert (raw + ".")[i] == '.'; }
    }
  }

  /** Appending the implied dot to a pattern keeps it valid or invalid, and normalises to the same text. */
  lemma AppendDotValid(p: string)
    requires p != [] && p[|p| - 1] != '.' && p[|p| - 1] != '*'
    ensures p + "." != [] && p + "." != "." && p != "."
    ensures NoEmptyLabel(p + ".") == NoEmptyLabel(p)
    ensures !ZoneWithWildcardSuffix(p + ".") && !ZoneWithWildcardSuffix(p)
    ensures (forall i :: 0 <= i < |p + "."| ==> PatternChar((p + ".")[i])) == (forall i :: 0 <= i < |p| ==> PatternChar(p[i]))
    ensures Normalise(p + ".") == Normalise(p)
  {
    var q := p + ".";
    assert NoEmptyLabel(q) == NoEmptyLabel(p) by {
      if NoEmptyLabel(p) {
        forall i | 0 <= i < |q| - 1 ensures !(q[i] == '.' && q[i + 1] == '.') {
          if i < |p| - 1 { assert q[i] == p[i] && q[i + 1] == p[i + 1]; } else { assert q[i] == p[i]; }
        }
      }
      if NoEmptyLabel(q) {
        forall i | 0 <= i < |p| - 1 ensures !(p[i] == '.' && p[i + 1] == '.') {
          assert q[i] == p[i] && q[i + 1] == p[i + 1];
        }
      }
    }
    assert (forall i :: 0 <= i < |q| ==> PatternChar(q[i])) == (forall i :: 0 <= i < |p| ==> PatternChar(p[i])) by {
      assert forall i :: 0 <= i < |p| ==> q[i] == p[i];
      assert q[|p|] == '.';
    }
    assert q != "." by { assert |q| >= 2; }
  }
}
