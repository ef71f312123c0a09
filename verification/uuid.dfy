/**
 * The shape test for random profile IDs: five groups of 8, 4, 4, 4 and 12
 * hexadecimal digits, in either case, joined by `-`, with nothing before or
 * after them.
 */
module Uuid {
  import Text

  predicate IsHex(c: char) { Text.IsDigit(c) || 'a' <= c <= 'f' || 'A' <= c <= 'F' }

  predicate AllHex(s: string) { forall i :: 0 <= i < |s| ==> IsHex(s[i]) }

  /** The lengths of the hex groups, in order. */
  const GroupLengths: seq<nat> := [8, 4, 4, 4, 12]

  /** `s` is hex groups of the given lengths joined by `-`, anchored at both ends. */
  predicate HexGroups(s: string, lengths: seq<nat>)
    requires lengths != []
    decreases |lengths|
  {
    var n := lengths[0];
    if |lengths| == 1 then |s| == n && AllHex(s)
    else |s| > n && AllHex(s[..n]) && s[n] == '-' && HexGroups(s[n + 1..], lengths[1..])
  }

  /** The random-UUID pattern the derived-ID migration looks for. */
  predicate IsRandomUUID(s: string)
  {
    HexGroups(s, GroupLengths)
  }

  /** The positions of the four dashes. */
  predicate DashAt(i: int) { i == 8 || i == 13 || i == 18 || i == 23 }

  /** The pattern read position by position. */
  predicate UUIDByPosition(s: string)
  {
    |s| == 36 && forall i :: 0 <= i < |s| ==> if DashAt(i) then s[i] == '-' else IsHex(s[i])
  }

  /** A group of `n` hex digits followed by the rest, read position by position. */
  lemma GroupStep(s: string, n: nat, rest: seq<nat>)
    requires rest != []
    ensures HexGroups(s, [n] + rest) <==>
      |s| > n && (forall i :: 0 <= i < n ==> IsHex(s[i])) && s[n] == '-' && HexGroups(s[n + 1..], rest)
  {
    assert ([n] + rest)[0] == n && ([n] + rest)[1..] == rest;
    if |s| > n {
      assert forall i :: 0 <= i < n ==> s[..n][i] == s[i];
    }
  }

  /** The group grammar and the positional reading accept the same strings. */
  lemma UUIDPositions(s: string)
    ensures IsRandomUUID(s) <==> UUIDByPosition(s)
  {
    assert GroupLengths == [8] + [4, 4, 4, 12];
    assert [4, 4, 4, 12] == [4] + [4, 4, 12];
    assert [4, 4, 12] == [4] + [4, 12];
    assert [4, 12] == [4] + [12];
    GroupStep(s, 8, [4, 4, 4, 12]);
    if |s| > 8 {
      GroupStep(s[9..], 4, [4, 4, 12]);
      if |s| > 13 {
        GroupStep(s[14..], 4, [4, 12]);
        assert s[9..][5..] == s[14..];
        if |s| > 18 {
          GroupStep(s[19..], 4, [12]);
          assert s[14..][5..] == s[19..];
          if |s| > 23 {
            assert s[19..][5..] == s[24..];
          }
        }
      }
    }
    if IsRandomUUID(s) {
      ShiftedPositions(s);
    }
    if UUIDByPosition(s) {
      assert forall i :: 0 <= i < 12 ==> s[24..][i] == s[24 + i];
      assert forall i :: 0 <= i < 4 ==> s[19..][i] == s[19 + i] && s[14..][i] == s[14 + i] && s[9..][i] == s[9 + i];
    }
  }

  /** The group grammar read back onto the positions of `s`. */
  lemma ShiftedPositions(s: string)
    requires IsRandomUUID(s)
    ensures UUIDByPosition(s)
  {
    assert GroupLengths == [8] + [4, 4, 4, 12];
    GroupStep(s, 8, [4, 4, 4, 12]);
    var a := s[9..];
    GroupStep(a, 4, [4, 4, 12]);
    var b := a[5..];
    GroupStep(b, 4, [4, 12]);
    var c := b[5..];
    GroupStep(c, 4, [12]);
    var d := c[5..];
    assert HexGroups(d, [12]);
    assert |s| == 36;
    forall i | 0 <= i < 36 ensures if DashAt(i) then s[i] == '-' else IsHex(s[i]) {
      if i >= 24 { assert s[i] == d[i - 24]; }
      else if i >= 19 { assert s[i] == c[i - 19]; }
      else if i >= 14 { assert s[i] == b[i - 14]; }
      else if i >= 9 { assert s[i] == a[i - 9]; }
    }
  }

  /** The pattern does not depend on the case of the hex letters. */
  lemma CaseInsensitive(s: string)
    ensures IsRandomUUID(Text.Lower(s)) <==> IsRandomUUID(s)
  {
    var t := Text.Lower(s);
    UUIDPositions(s);
    UUIDPositions(t);
    forall i | 0 <= i < |s|
      ensures (t[i] == '-' <==> s[i] == '-') && (IsHex(t[i]) <==> IsHex(s[i]))
    {
      assert t[i] == Text.LowerChar(s[i]);
    }
  }
}
