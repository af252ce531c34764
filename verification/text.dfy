/**
 * String helpers the dashboard takes from JavaScript: `toLowerCase`, `includes`,
 * `trim() === ''`, `localeCompare` and the decimal rendering of template literals.
 * Strings are sequences of Unicode scalar values.
 */
module Text {

  // ---------------------------------------------------------------- case

  /** Lower-cases one character; only the ASCII letters A-Z are mapped. */
  function LowerChar(c: char): (r: char)
    ensures 'A' <= c <= 'Z' ==> r as int == c as int + 32
    ensures !('A' <= c <= 'Z') ==> r == c
  {
    if 'A' <= c <= 'Z' then (c as int + 32) as char else c
  }

  /** `s.toLowerCase()`, restricted to ASCII letters. */
  function Lower(s: string): (r: string)
    ensures |r| == |s|
    ensures forall i :: 0 <= i < |s| ==> r[i] == LowerChar(s[i])
  {
    seq(|s|, i requires 0 <= i < |s| => LowerChar(s[i]))
  }

  /** Lower-casing twice changes nothing more than lower-casing once. */
  lemma LowerIdempotent(s: string)
    ensures Lower(Lower(s)) == Lower(s)
  {
  }

  // ---------------------------------------------------------------- search

  /** `s.startsWith(p)`. */
  predicate IsPrefix(p: string, s: string) {
    |p| <= |s| && s[..|p|] == p
  }

  /** `sub` occurs in `s` starting at index `i`. */
  predicate OccursAt(s: string, sub: string, i: int) {
    0 <= i <= |s| - |sub| && s[i..i + |sub|] == sub
  }

  /** `s.includes(sub)`: `sub` occurs somewhere in `s` as a contiguous run. */
  predicate Contains(s: string, sub: string)
    ensures Contains(s, sub) <==> exists i :: OccursAt(s, sub, i)
    decreases |s|
  {
    if IsPrefix(sub, s) then
      assert OccursAt(s, sub, 0);
      true
    else if |s| == 0 then
      false
    else
      var rest := Contains(s[1..], sub);
      if rest then
        var j :| OccursAt(s[1..], sub, j);
        assert s[j + 1..j + 1 + |sub|] == s[1..][j..j + |sub|];
        assert OccursAt(s, sub, j + 1);
        true
      else
        assert OccursAt(s, sub, 0) ==> IsPrefix(sub, s);
        var tail := s[1..];
        assert forall i :: OccursAt(s, sub, i) ==> OccursAt(tail, sub, i - 1) by {
          forall i | OccursAt(s, sub, i)
            ensures OccursAt(tail, sub, i - 1)
          {
            assert tail[i - 1..i - 1 + |sub|] == s[i..i + |sub|];
          }
        }
        false
  }

  /** The empty string occurs in every string. */
  lemma ContainsEmpty(s: string)
    ensures Contains(s, "")
  {
    assert OccursAt(s, "", 0);
  }

  // ---------------------------------------------------------------- trim

  /**
   * The characters `String.prototype.trim` strips: ECMAScript's WhiteSpace
   * (tab, vertical tab, form feed, space, no-break space, byte order mark and the
   * other space separators) and LineTerminator (LF, CR, LS, PS).
   */
  const Whitespace: set<char> := {
    '\t', '\U{000B}', '\U{000C}', ' ', '\U{00A0}', '\U{FEFF}',
    '\U{1680}', '\U{2000}', '\U{2001}', '\U{2002}', '\U{2003}', '\U{2004}', '\U{2005}',
    '\U{2006}', '\U{2007}', '\U{2008}', '\U{2009}', '\U{200A}', '\U{202F}', '\U{205F}', '\U{3000}',
    '\n', '\r', '\U{2028}', '\U{2029}'
  }

  /** `s.trim() === ''`: every character of `s` is whitespace. */
  predicate IsBlank(s: string) {
    forall i :: 0 <= i < |s| ==> s[i] in Whitespace
  }

  // ---------------------------------------------------------------- collation

  /**
   * Three-way comparison of two strings in code-unit order, shorter prefix first:
   * the collation this model uses for `localeCompare`.
   */
  function Collate(a: string, b: string): (r: int)
    ensures -1 <= r <= 1
    decreases |a|
  {
    if |a| == 0 && |b| == 0 then 0
    else if |a| == 0 then -1
    else if |b| == 0 then 1
    else if a[0] < b[0] then -1
    else if a[0] > b[0] then 1
    else Collate(a[1..], b[1..])
  }

  /** Collation orders only equal strings as ties. */
  lemma {:induction false} CollateZeroIffEqual(a: string, b: string)
    ensures Collate(a, b) == 0 <==> a == b
    decreases |a|
  {
    if |a| > 0 && |b| > 0 && a[0] == b[0] {
      CollateZeroIffEqual(a[1..], b[1..]);
      if a[1..] == b[1..] {
        assert a == [a[0]] + a[1..] && b == [b[0]] + b[1..];
      }
    }
  }

  /** Swapping the arguments negates the collation. */
  lemma {:induction false} CollateAntisymmetric(a: string, b: string)
    ensures Collate(a, b) == -Collate(b, a)
    decreases |a|
  {
    if |a| > 0 && |b| > 0 && a[0] == b[0] {
      CollateAntisymmetric(a[1..], b[1..]);
    }
  }

  /** Collation is transitive. */
  lemma {:induction false} CollateTransitive(a: string, b: string, c: string)
    requires Collate(a, b) <= 0 && Collate(b, c) <= 0
    ensures Collate(a, c) <= 0
    decreases |a|
  {
    if |a| > 0 && |b| > 0 && |c| > 0 && a[0] == b[0] && b[0] == c[0] {
      CollateTransitive(a[1..], b[1..], c[1..]);
    }
  }

  // ---------------------------------------------------------------- decimals

  function DigitChar(d: nat): (c: char)
    requires d < 10
    ensures c as int - '0' as int == d
  {
    ('0' as int + d) as char
  }

  /** The decimal digits of `n`, most significant first, without leading zeros. */
  function NatToString(n: nat): (r: string)
    ensures |r| >= 1
    ensures forall i :: 0 <= i < |r| ==> '0' <= r[i] <= '9'
    ensures n > 0 ==> r[0] != '0'
  {
    if n < 10 then [DigitChar(n)] else NatToString(n / 10) + [DigitChar(n % 10)]
  }

  /** How JavaScript renders an integer inside a template literal. */
  function IntToString(n: int): (r: string)
    ensures |r| >= 1
    ensures n < 0 <==> r[0] == '-'
  {
    if n < 0 then "-" + NatToString(-n) else NatToString(n)
  }

  /** Reads back a string of decimal digits. */
  function ParseNat(s: string): nat
    requires forall i :: 0 <= i < |s| ==> '0' <= s[i] <= '9'
  {
    if |s| == 0 then 0 else ParseNat(s[..|s| - 1]) * 10 + (s[|s| - 1] as int - '0' as int)
  }

  /** Reads back the rendering of an integer. */
  function ParseInt(s: string): int
    requires |s| >= 1
    requires forall i :: (if s[0] == '-' then 1 else 0) <= i < |s| ==> '0' <= s[i] <= '9'
  {
    if s[0] == '-' then 0 - ParseNat(s[1..]) else ParseNat(s)
  }

  /** Rendering a natural number loses nothing. */
  lemma {:induction false} NatToStringRoundTrip(n: nat)
    ensures ParseNat(NatToString(n)) == n
  {
    var r := NatToString(n);
    if n >= 10 {
      NatToStringRoundTrip(n / 10);
      assert r[..|r| - 1] == NatToString(n / 10);
      assert r[|r| - 1] as int - '0' as int == n % 10;
      assert n == (n / 10) * 10 + n % 10;
    }
  }

  /** Rendering an integer loses nothing, so two different counts never print alike. */
  lemma IntToStringRoundTrip(n: int)
    ensures ParseInt(IntToString(n)) == n
  {
    if n < 0 {
      NatToStringRoundTrip(-n);
      assert IntToString(n)[1..] == NatToString(-n);
    } else {
      NatToStringRoundTrip(n);
    }
  }
}
