/**
 * Character classes and the string helpers the rule compiler is built on:
 * splitting at a separator (Go's strings.Split), splitting into
 * whitespace-separated fields (strings.Fields), lower-casing ASCII, and
 * unsigned decimal numbers (strconv.ParseUint with base 10).
 */
module Text {
  import opened Wrappers

  predicate IsSpace(c: char) { c == ' ' || c == '\t' }
  predicate IsDigit(c: char) { '0' <= c <= '9' }
  predicate IsUpper(c: char) { 'A' <= c <= 'Z' }
  predicate IsLower(c: char) { 'a' <= c <= 'z' }

  function LowerChar(c: char): (r: char)
    ensures IsUpper(c) ==> IsLower(r) && r as int == c as int + 32
    ensures !IsUpper(c) ==> r == c
  {
    if IsUpper(c) then (c as int + 32) as char else c
  }

  /** ASCII lower-casing, the case folding applied to rule tokens. */
  function Lower(s: string): (r: string)
    ensures |r| == |s|
    ensures forall i :: 0 <= i < |s| ==> r[i] == LowerChar(s[i])
  {
    if s == [] then [] else [LowerChar(s[0])] + Lower(s[1..])
  }

  /** Text without upper-case letters is its own lower-cased form. */
  lemma LowerIdentity(s: string)
    requires forall i :: 0 <= i < |s| ==> !IsUpper(s[i])
    ensures Lower(s) == s
  {
  }

  /** Position of the first `c` in `s`, or `|s|` when there is none. */
  function IndexOf(s: string, c: char): (i: nat)
    ensures i <= |s|
    ensures i < |s| ==> s[i] == c
    ensures forall j :: 0 <= j < i ==> s[j] != c
  {
    if s == [] then 0
    else if s[0] == c then 0
    else 1 + IndexOf(s[1..], c)
  }

  /** Splits at every `sep`; always yields at least one (possibly empty) part. */
  function Split(s: string, sep: char): (parts: seq<string>)
    ensures |parts| >= 1
    decreases |s|
  {
    var i := IndexOf(s, sep);
    if i == |s| then [s] else [s[..i]] + Split(s[i + 1..], sep)
  }

  /** Concatenates the parts with `sep` between neighbours. */
  function Join(parts: seq<string>, sep: char): string
  {
    if parts == [] then []
    else if |parts| == 1 then parts[0]
    else parts[0] + [sep] + Join(parts[1..], sep)
  }

  /** Splitting loses nothing: joining the parts again gives the input back. */
  lemma {:induction false} JoinSplit(s: string, sep: char)
    ensures Join(Split(s, sep), sep) == s
    ensures forall k :: 0 <= k < |Split(s, sep)| ==> sep !in Split(s, sep)[k]
    decreases |s|
  {
    var i := IndexOf(s, sep);
    if i < |s| {
      JoinSplit(s[i + 1..], sep);
      var rest := Split(s[i + 1..], sep);
      assert Split(s, sep) == [s[..i]] + rest;
      assert s == s[..i] + [sep] + s[i + 1..];
      assert sep !in s[..i];
    }
  }

  /** Joining parts that do not contain `sep` and splitting again gives the parts back. */
  lemma {:induction false} SplitJoin(parts: seq<string>, sep: char)
    requires |parts| >= 1
    requires forall k :: 0 <= k < |parts| ==> sep !in parts[k]
    ensures Split(Join(parts, sep), sep) == parts
  {
    var p := parts[0];
    if |parts| == 1 {
      var i := IndexOf(p, sep);
      assert forall j :: 0 <= j < |p| ==> p[j] != sep;
      assert p[..|p|] == p;
    } else {
      var s := Join(parts, sep);
      assert s == p + [sep] + Join(parts[1..], sep);
      var i := IndexOf(s, sep);
      assert s[|p|] == sep;
      assert forall j :: 0 <= j < |p| ==> s[j] == p[j] && p[j] != sep;
      assert i == |p|;
      assert s[..i] == p;
      assert s[i + 1..] == Join(parts[1..], sep);
      SplitJoin(parts[1..], sep);
    }
  }

  /** Length of the leading run of non-space characters. */
  function WordEnd(s: string): (i: nat)
    ensures i <= |s|
    ensures i < |s| ==> IsSpace(s[i])
    ensures forall j :: 0 <= j < i ==> !IsSpace(s[j])
  {
    if s == [] || IsSpace(s[0]) then 0 else 1 + WordEnd(s[1..])
  }

  /** The non-empty runs of non-space characters, in order. */
  function Fields(s: string): (ws: seq<string>)
    ensures forall k :: 0 <= k < |ws| ==> ws[k] != [] && forall j :: 0 <= j < |ws[k]| ==> !IsSpace(ws[k][j])
    decreases |s|
  {
    if s == [] then []
    else if IsSpace(s[0]) then Fields(s[1..])
    else
      var i := WordEnd(s);
      [s[..i]] + Fields(s[i..])
  }

  predicate IsWord(w: string) { w != [] && forall j :: 0 <= j < |w| ==> !IsSpace(w[j]) }

  /** Words separated by single spaces come back out of `Fields` unchanged. */
  lemma {:induction false} FieldsJoin(ws: seq<string>)
    requires forall k :: 0 <= k < |ws| ==> IsWord(ws[k])
    ensures Fields(Join(ws, ' ')) == ws
  {
    if ws == [] {
    } else {
      var w := ws[0];
      var s := Join(ws, ' ');
      assert WordEnd(w) == |w| by { WordEndOfWord(w, []); }
      if |ws| == 1 {
        assert s == w && w + [] == w;
        assert s[..|w|] == w && s[|w|..] == [];
      } else {
        var rest := Join(ws[1..], ' ');
        assert s == w + [' '] + rest;
        assert s[..|w|] == w;
        WordEndOfWord(w, [' '] + rest);
        assert s[|w|..] == [' '] + rest;
        assert (s[|w|..])[1..] == rest;
        FieldsJoin(ws[1..]);
      }
    }
  }

  lemma {:induction false} WordEndOfWord(w: string, tail: string)
    requires IsWord(w)
    requires tail == [] || IsSpace(tail[0])
    ensures WordEnd(w + tail) == |w|
  {
    if |w| > 1 {
      assert (w + tail)[1..] == w[1..] + tail;
      WordEndOfWord(w[1..], tail);
    } else {
      assert (w + tail)[1..] == tail;
    }
  }

  predicate AllDigits(s: string) { forall i :: 0 <= i < |s| ==> IsDigit(s[i]) }

  /** The value of `acc` followed by the decimal digits `s`, most significant first. */
  function DecimalFrom(acc: nat, s: string): nat
    requires AllDigits(s)
    decreases |s|
  {
    if s == [] then acc else DecimalFrom(10 * acc + (s[0] as int - '0' as int), s[1..])
  }

  lemma {:induction false} DecimalFromAppend(acc: nat, a: string, b: string)
    requires AllDigits(a) && AllDigits(b)
    ensures AllDigits(a + b)
    ensures DecimalFrom(acc, a + b) == DecimalFrom(DecimalFrom(acc, a), b)
    decreases |a|
  {
    assert AllDigits(a + b) by {
      forall i | 0 <= i < |a + b| ensures IsDigit((a + b)[i]) {
        if i < |a| { assert (a + b)[i] == a[i]; } else { assert (a + b)[i] == b[i - |a|]; }
      }
    }
    if a != [] {
      assert (a + b)[1..] == a[1..] + b;
      DecimalFromAppend(10 * acc + (a[0] as int - '0' as int), a[1..], b);
    } else {
      assert a + b == b;
    }
  }

  /** A non-empty run of decimal digits, as strconv.ParseUint accepts it (leading zeros allowed). */
  function ParseDecimal(s: string): (r: Option<nat>)
    ensures r.Some? <==> s != [] && AllDigits(s)
  {
    if s != [] && AllDigits(s) then Some(DecimalFrom(0, s)) else None
  }

  /** The canonical decimal spelling of `n`, without leading zeros. */
  function DecimalString(n: nat): (s: string)
    ensures s != [] && AllDigits(s)
    ensures |s| > 1 ==> s[0] != '0'
  {
    if n < 10 then [('0' as int + n) as char]
    else DecimalString(n / 10) + [('0' as int + n % 10) as char]
  }

  /** Printing a number and parsing it back gives the number. */
  lemma {:induction false} DecimalRoundTrip(n: nat)
    ensures ParseDecimal(DecimalString(n)) == Some(n)
  {
    var s := DecimalString(n);
    if n >= 10 {
      DecimalRoundTrip(n / 10);
      var d := [('0' as int + n % 10) as char];
      DecimalFromAppend(0, DecimalString(n / 10), d);
      assert DecimalFrom(n / 10, d) == n;
    } else {
      assert DecimalFrom(0, s) == DecimalFrom(n, []);
    }
  }

  /** Every character of a join is the separator or a character of some part. */
  lemma {:induction false} JoinAlphabet(parts: seq<string>, sep: char, ok: char -> bool)
    requires ok(sep)
    requires forall k :: 0 <= k < |parts| ==> forall j :: 0 <= j < |parts[k]| ==> ok(parts[k][j])
    ensures forall j :: 0 <= j < |Join(parts, sep)| ==> ok(Join(parts, sep)[j])
  {
    if |parts| > 1 {
      JoinAlphabet(parts[1..], sep, ok);
      var s := Join(parts, sep);
      var rest := Join(parts[1..], sep);
      assert s == parts[0] + [sep] + rest;
      forall j | 0 <= j < |s| ensures ok(s[j]) {
        if j < |parts[0]| { assert s[j] == parts[0][j]; }
        else if j > |parts[0]| { assert s[j] == rest[j - |parts[0]| - 1]; }
      }
    }
  }

  /** Every character of `s` satisfies `ok` when every part of its split does and the separator does. */
  lemma SplitAlphabet(s: string, sep: char, ok: char -> bool)
    requires ok(sep)
    requires forall k :: 0 <= k < |Split(s, sep)| ==> forall j :: 0 <= j < |Split(s, sep)[k]| ==> ok(Split(s, sep)[k][j])
    ensures forall j :: 0 <= j < |s| ==> ok(s[j])
  {
    JoinSplit(s, sep);
    JoinAlphabet(Split(s, sep), sep, ok);
  }
}
