/** Positional numerals in bases up to 16: Python's `f"{n}"`, `f"{n:x}"`, `int(s)` and `int(s, 16)`. */
module Numerals {
  import opened ByteStrings

  function Digit(d: nat): (c: byte)
    requires d < 16
  {
    if d < 10 then '0' as int + d else 'a' as int + d - 10
  }

  /** The value a digit character stands for, or -1 for any other byte. */
  function DigitOf(c: byte): (d: int)
    ensures -1 <= d < 16
    ensures d >= 0 ==> Digit(d) == c
  {
    if '0' as int <= c <= '9' as int then c - '0' as int
    else if 'a' as int <= c <= 'f' as int then c - 'a' as int + 10
    else -1
  }

  predicate IsDigit(c: byte, base: nat)
  {
    0 <= DigitOf(c) < base
  }

  predicate IsNumeral(s: Bytes, base: nat)
  {
    s != [] && forall i :: 0 <= i < |s| ==> IsDigit(s[i], base)
  }

  function NumValue(s: Bytes, base: nat): nat
    requires forall i :: 0 <= i < |s| ==> IsDigit(s[i], base)
  {
    if s == [] then 0
    else
      var high := NumValue(s[..|s| - 1], base);
      MulMonotone(0, high, base);
      assert IsDigit(s[|s| - 1], base);
      high * base + DigitOf(s[|s| - 1])
  }

  lemma DivMod(n: nat, d: nat)
    requires d >= 2
    ensures n == (n / d) * d + n % d && n % d < d
    ensures n >= d ==> 0 < n / d < n
  {
    var q, r := n / d, n % d;
    assert n == q * d + r;
    if n >= d {
      MulMonotone(2, d, q);
      assert d * q == q * d;
    }
  }

  function NumText(n: nat, base: nat): (s: Bytes)
    requires 2 <= base <= 16
    ensures s != [] && (n == 0 || s[0] != Digit(0)) && (n < base ==> |s| == 1)
    ensures forall i :: 0 <= i < |s| ==> IsDigit(s[i], base)
    decreases n
  {
    if n < base then [Digit(n)]
    else
      DivMod(n, base);
      NumText(n / base, base) + [Digit(n % base)]
  }

  function Pow(b: nat, e: nat): (p: nat)
    ensures b > 0 ==> p > 0
  {
    if e == 0 then 1 else b * Pow(b, e - 1)
  }

  lemma {:induction false} NumRoundTrip(n: nat, base: nat)
    requires 2 <= base <= 16
    ensures NumValue(NumText(n, base), base) == n
    decreases n
  {
    var s := NumText(n, base);
    if n < base {
      assert s[..0] == [];
    } else {
      DivMod(n, base);
      NumRoundTrip(n / base, base);
      assert s[..|s| - 1] == NumText(n / base, base);
    }
  }

  /** A number below base^k takes at most k digits. */
  lemma {:induction false} NumLength(n: nat, base: nat, k: nat)
    requires 2 <= base <= 16 && k >= 1 && n < Pow(base, k)
    ensures |NumText(n, base)| <= k
    decreases k
  {
    if k == 1 {
      assert Pow(base, 1) == base * Pow(base, 0) == base;
    } else if n >= base {
      QuotientBelow(n, base, Pow(base, k - 1));
      NumLength(n / base, base, k - 1);
    }
  }

  lemma QuotientBelow(n: nat, d: nat, m: nat)
    requires d > 0 && n < d * m
    ensures n / d < m
  {
    var q := n / d;
    if q >= m {
      MulMonotone(m, q, d);
    }
  }

  lemma MulMonotone(a: nat, b: nat, d: nat)
    requires a <= b
    ensures a * d <= b * d
  {
  }

  /** No leading zero unless the numeral is "0": RFC 5952 section 4.1, and what the IPv4 parser insists on. */
  predicate HasLeadingZero(s: Bytes)
  {
    |s| > 1 && s[0] == '0' as int
  }

  lemma NoLeadingZero(n: nat, base: nat)
    requires 2 <= base <= 16
    ensures !HasLeadingZero(NumText(n, base))
  {
  }

  /** Separators are never digits. */
  lemma NumeralAvoids(n: nat, base: nat, sep: byte)
    requires 2 <= base <= 16
    requires sep < '0' as int || '9' as int < sep < 'a' as int
    ensures sep !in NumText(n, base)
  {
  }
}
