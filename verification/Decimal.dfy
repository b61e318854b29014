/** Decimal text of natural numbers: printing, reading, and their laws. */
module Decimal {

  predicate IsDigit(c: char) {
    '0' <= c <= '9'
  }

  predicate AllDigits(s: string) {
    forall i :: 0 <= i < |s| ==> IsDigit(s[i])
  }

  function DigitValue(c: char): nat
    requires IsDigit(c)
  {
    c as int - '0' as int
  }

  function DigitChar(d: nat): (c: char)
    requires d < 10
    ensures IsDigit(c) && DigitValue(c) == d
  {
    (d + '0' as int) as char
  }

  /** The shortest decimal text of a number. */
  function Print(n: nat): (s: string)
    ensures AllDigits(s) && s != ""
  {
    if n < 10 then [DigitChar(n)] else Print(n / 10) + [DigitChar(n % 10)]
  }

  /** The number a digit string denotes; the empty string denotes zero. */
  function Parse(s: string): nat
    requires AllDigits(s)
  {
    if s == "" then 0 else Parse(s[..|s| - 1]) * 10 + DigitValue(s[|s| - 1])
  }

  function Pow10(k: nat): (p: nat)
    ensures p > 0
  {
    if k == 0 then 1 else 10 * Pow10(k - 1)
  }

  function Zeros(k: nat): (s: string)
    ensures |s| == k && AllDigits(s)
    ensures forall i :: 0 <= i < |s| ==> s[i] == '0'
  {
    if k == 0 then "" else Zeros(k - 1) + "0"
  }

  /** Digits without needless leading zeros. */
  predicate Canonical(s: string) {
    AllDigits(s) && s != "" && (|s| > 1 ==> s[0] != '0')
  }

  lemma {:induction false} ParsePrint(n: nat)
    ensures Parse(Print(n)) == n
  {
    if n >= 10 {
      ParsePrint(n / 10);
      assert Print(n)[..|Print(n)| - 1] == Print(n / 10);
    }
  }

  lemma {:induction false} PrintCanonical(n: nat)
    ensures Canonical(Print(n))
    ensures n > 0 ==> Print(n)[0] != '0'
  {
    if n >= 10 {
      PrintCanonical(n / 10);
    }
  }

  lemma {:induction false} PrintParse(s: string)
    requires Canonical(s)
    ensures Print(Parse(s)) == s
    decreases |s|
  {
    if |s| == 1 {
      assert s[..0] == "";
      assert Parse(s) == DigitValue(s[0]);
    } else {
      var t := s[..|s| - 1];
      PrintParse(t);
      LeadingDigitPositive(t);
      assert s == t + [s[|s| - 1]];
    }
  }

  lemma {:induction false} LeadingDigitPositive(s: string)
    requires AllDigits(s) && s != "" && s[0] != '0'
    ensures Parse(s) > 0
    decreases |s|
  {
    if |s| > 1 {
      LeadingDigitPositive(s[..|s| - 1]);
    }
  }

  lemma PrintInjective(m: nat, n: nat)
    requires Print(m) == Print(n)
    ensures m == n
  {
    ParsePrint(m);
    ParsePrint(n);
  }

  lemma {:induction false} ParseConcat(a: string, b: string)
    requires AllDigits(a) && AllDigits(b)
    ensures AllDigits(a + b)
    ensures Parse(a + b) == Parse(a) * Pow10(|b|) + Parse(b)
    decreases |b|
  {
    if b == "" {
      assert a + b == a;
    } else {
      var c := b[..|b| - 1];
      ParseConcat(a, c);
      assert (a + b)[..|a + b| - 1] == a + c;
      assert Parse(a + b) == (Parse(a) * Pow10(|c|) + Parse(c)) * 10 + DigitValue(b[|b| - 1]);
      assert Parse(a) * Pow10(|c|) * 10 == Parse(a) * Pow10(|b|);
    }
  }

  lemma {:induction false} ParseZeros(k: nat)
    ensures Parse(Zeros(k)) == 0
  {
    if k > 0 {
      ParseZeros(k - 1);
      assert Zeros(k)[..k - 1] == Zeros(k - 1);
    }
  }

  lemma {:induction false} ParseBound(s: string)
    requires AllDigits(s)
    ensures Parse(s) < Pow10(|s|)
    decreases |s|
  {
    if s != "" {
      ParseBound(s[..|s| - 1]);
    }
  }

  /** A digit string of given length is determined by its value. */
  lemma {:induction false} ParseInjective(a: string, b: string)
    requires AllDigits(a) && AllDigits(b) && |a| == |b| && Parse(a) == Parse(b)
    ensures a == b
    decreases |a|
  {
    if a != "" {
      ParseInjective(a[..|a| - 1], b[..|b| - 1]);
      assert a == a[..|a| - 1] + [a[|a| - 1]];
      assert b == b[..|b| - 1] + [b[|b| - 1]];
    }
  }

  lemma MulGrows(d: int, p: nat)
    requires d != 0
    ensures d * p >= p || d * p <= -(p as int)
  {}

  /** The largest multiple of `p` not above `v`. */
  function RoundDown(v: nat, p: nat): nat
    requires p > 0
  {
    assert v % p <= v;
    v - v % p
  }

  /** Quotient and remainder are determined by the division equation. */
  lemma DivModUnique(v: nat, q: nat, r: nat, p: nat)
    requires p > 0 && v == q * p + r && r < p
    ensures v / p == q && v % p == r
    ensures RoundDown(v, p) == q * p
  {
    var d := v / p - q;
    assert v == (v / p) * p + v % p;
    assert d * p == (v / p) * p - q * p == r - v % p;
    if d != 0 {
      MulGrows(d, p);
    }
  }
}
