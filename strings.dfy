/**
 * String helpers shared by the model: JavaScript's `||` on strings, the order
 * used in place of `localeCompare`, decimal formatting of integers as done by
 * template literals, and `Array.prototype.join`.
 */
module Strings {

  /** `a || b` on strings: the empty string (and a missing value) is falsy. */
  function Or(a: string, b: string): string
  {
    if a != "" then a else b
  }

  /** `tags[key]`, with a missing key read as the falsy empty string. */
  function Tag(tags: map<string, string>, key: string): string
  {
    if key in tags then tags[key] else ""
  }

  // ---------------------------------------------------------------------------
  // Lexicographic order by code point (the model of `localeCompare`)
  // ---------------------------------------------------------------------------

  predicate LexLe(a: string, b: string)
  {
    if a == [] then true
    else if b == [] then false
    else if a[0] != b[0] then a[0] < b[0]
    else LexLe(a[1..], b[1..])
  }

  /** Strict version: `a.localeCompare(b) < 0`. */
  predicate LexLt(a: string, b: string)
  {
    LexLe(a, b) && a != b
  }

  lemma {:induction false} LexLeTotal(a: string, b: string)
    ensures LexLe(a, b) || LexLe(b, a)
  {
    if a != [] && b != [] && a[0] == b[0] {
      LexLeTotal(a[1..], b[1..]);
    }
  }

  lemma {:induction false} LexLeAntisymmetric(a: string, b: string)
    requires LexLe(a, b) && LexLe(b, a)
    ensures a == b
  {
    if a != [] && b != [] {
      LexLeAntisymmetric(a[1..], b[1..]);
      assert a == [a[0]] + a[1..] && b == [b[0]] + b[1..];
    }
  }

  lemma {:induction false} LexLeTransitive(a: string, b: string, c: string)
    requires LexLe(a, b) && LexLe(b, c)
    ensures LexLe(a, c)
  {
    if a != [] && b != [] && c != [] && a[0] == b[0] && b[0] == c[0] {
      LexLeTransitive(a[1..], b[1..], c[1..]);
    }
  }

  // ---------------------------------------------------------------------------
  // Decimal formatting of integers (`${n}` for an integral number)
  // ---------------------------------------------------------------------------

  predicate IsDigit(c: char)
  {
    '0' <= c <= '9'
  }

  function DigitChar(d: nat): (c: char)
    requires d < 10
    ensures IsDigit(c)
  {
    (48 + d) as char
  }

  function NatToString(n: nat): (s: string)
    ensures |s| >= 1
    ensures forall i :: 0 <= i < |s| ==> IsDigit(s[i])
    decreases n
  {
    if n < 10 then [DigitChar(n)] else NatToString(n / 10) + [DigitChar(n % 10)]
  }

  function IntToString(i: int): (s: string)
    ensures '/' !in s
  {
    if i < 0 then "-" + NatToString(-i) else NatToString(i)
  }

  /** Reads back a string of digits; the inverse of NatToString. */
  ghost function ParseNat(s: string): nat
  {
    if s == [] then 0
    else 10 * ParseNat(s[..|s| - 1]) + (if IsDigit(s[|s| - 1]) then s[|s| - 1] as int - 48 else 0)
  }

  lemma {:induction false} ParseNatToString(n: nat)
    ensures ParseNat(NatToString(n)) == n
    decreases n
  {
    var s := NatToString(n);
    if n >= 10 {
      assert s[..|s| - 1] == NatToString(n / 10);
      ParseNatToString(n / 10);
    } else {
      assert s[..|s| - 1] == [];
    }
  }

  /** Distinct integers print differently. */
  lemma IntToStringInjective(a: int, b: int)
    requires IntToString(a) == IntToString(b)
    ensures a == b
  {
    var s := IntToString(a);
    assert (a < 0) == (s[0] == '-') && (b < 0) == (s[0] == '-');
    if a < 0 {
      assert NatToString(-a) == s[1..] == NatToString(-b);
      ParseNatToString(-a);
      ParseNatToString(-b);
    } else {
      ParseNatToString(a);
      ParseNatToString(b);
    }
  }

  /** `x + "/" + rest` splits uniquely at the first slash when `x` has none. */
  lemma SplitAtSlash(a: string, r: string, a': string, r': string)
    requires '/' !in a && '/' !in a'
    requires a + "/" + r == a' + "/" + r'
    ensures a == a' && r == r'
  {
    var s := a + "/" + r;
    assert s[|a|] == '/' && s[|a'|] == '/';
    assert forall i :: 0 <= i < |a| ==> s[i] == a[i] != '/';
    assert forall i :: 0 <= i < |a'| ==> s[i] == a'[i] != '/';
    assert |a| == |a'|;
    assert a == s[..|a|] == a';
    assert r == s[|a| + 1..] == r';
  }

  // ---------------------------------------------------------------------------
  // Array.prototype.join
  // ---------------------------------------------------------------------------

  function Join(parts: seq<string>, sep: string): string
  {
    if |parts| == 0 then ""
    else if |parts| == 1 then parts[0]
    else parts[0] + sep + Join(parts[1..], sep)
  }
}
