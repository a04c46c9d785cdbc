/**
 * Decimal rendering of natural numbers, as `printf`'s `%d` conversion writes
 * a non-negative value, together with the parser that undoes it.
 */
module Decimal {
  import opened Wrappers

  predicate IsDigit(c: char) {
    '0' <= c <= '9'
  }

  predicate AllDigits(s: string) {
    forall i :: 0 <= i < |s| ==> IsDigit(s[i])
  }

  /** The canonical form `%d` produces: non-empty, digits only, no leading zero. */
  predicate Canonical(s: string) {
    && |s| >= 1
    && AllDigits(s)
    && (|s| > 1 ==> s[0] != '0')
  }

  function DigitChar(d: nat): (c: char)
    requires d < 10
    ensures IsDigit(c) && (c as int) - ('0' as int) == d
  {
    (('0' as int) + d) as char
  }

  function DigitValue(c: char): (d: nat)
    requires IsDigit(c)
    ensures d < 10 && DigitChar(d) == c
  {
    (c as int) - ('0' as int)
  }

  /** The number a string of decimal digits denotes, most significant digit first. */
  function Value(s: string): (n: nat)
    requires AllDigits(s)
  {
    if s == [] then 0 else Value(s[..|s| - 1]) * 10 + DigitValue(s[|s| - 1])
  }

  /** `%d` of a non-negative number: a canonical digit string denoting `n`. */
  function Show(n: nat): (s: string)
    ensures Canonical(s)
    ensures Value(s) == n
    ensures n < 10 ==> |s| == 1
    ensures 10 <= n < 100 ==> |s| == 2
    ensures 100 <= n < 1000 ==> |s| == 3
    decreases n
  {
    if n < 10 then [DigitChar(n)]
    else
      var prefix := Show(n / 10);
      var s := prefix + [DigitChar(n % 10)];
      assert s[..|s| - 1] == prefix;
      s
  }

  /** Reads back a canonical digit string; anything else is rejected. */
  function Parse(s: string): (r: Option<nat>)
    ensures r.Some? <==> Canonical(s)
  {
    if Canonical(s) then Some(Value(s)) else None
  }

  lemma {:induction false} ValueDropsLeadingDigitBound(s: string)
    requires AllDigits(s) && |s| >= 1 && s[0] != '0'
    ensures Value(s) >= Pow10(|s| - 1)
    decreases |s|
  {
    if |s| > 1 {
      var p := s[..|s| - 1];
      assert p[0] == s[0];
      ValueDropsLeadingDigitBound(p);
    } else {
      assert DigitValue(s[0]) >= 1;
    }
  }

  function Pow10(k: nat): (p: nat)
    ensures p >= 1
  {
    if k == 0 then 1 else 10 * Pow10(k - 1)
  }

  /** Two canonical strings with the same value are the same string. */
  lemma {:induction false} CanonicalValueInjective(s: string, t: string)
    requires Canonical(s) && Canonical(t)
    requires Value(s) == Value(t)
    ensures s == t
    decreases |s|
  {
    var n := Value(s);
    if n < 10 {
      LengthOneBelowTen(s);
      LengthOneBelowTen(t);
      assert DigitChar(DigitValue(s[0])) == DigitChar(DigitValue(t[0]));
    } else {
      LengthOneBelowTen(s);
      LengthOneBelowTen(t);
      var ps, pt := s[..|s| - 1], t[..|t| - 1];
      assert ps[0] == s[0] && pt[0] == t[0];
      assert Value(ps) == n / 10 && Value(pt) == n / 10;
      assert DigitValue(s[|s| - 1]) == DigitValue(t[|t| - 1]) == n % 10;
      CanonicalValueInjective(ps, pt);
      assert s == ps + [s[|s| - 1]];
      assert t == pt + [t[|t| - 1]];
    }
  }

  /** A canonical string denotes a one-digit number exactly when it has one character. */
  lemma LengthOneBelowTen(s: string)
    requires Canonical(s)
    ensures |s| == 1 <==> Value(s) < 10
  {
    if |s| > 1 {
      ValueDropsLeadingDigitBound(s);
    }
  }

  /** `Parse` undoes `Show`. */
  lemma ParseShow(n: nat)
    ensures Parse(Show(n)) == Some(n)
  {
  }

  /** `Show` undoes `Parse`: only canonical strings parse, and they print back unchanged. */
  lemma ShowParse(s: string)
    ensures Parse(s).Some? ==> Show(Parse(s).value) == s
  {
    if Parse(s).Some? {
      CanonicalValueInjective(Show(Value(s)), s);
    }
  }
}
