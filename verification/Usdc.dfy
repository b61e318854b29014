/** Amounts for prose: whole units grouped by thousands, truncated to cents. */
module Usdc {
  import opened Decimal
  import opened Units

  const USDC_DECIMALS: nat := 6
  const SCALE: nat := 1_000_000
  const CENT: nat := 10_000

  /** A comma goes before each digit that starts a later group of three. */
  function GroupedFrom(digits: string, i: nat): string
    requires i <= |digits|
    decreases |digits| - i
  {
    if i == |digits| then ""
    else
      (if 0 < i && (|digits| - i) % 3 == 0 then "," else "") + [digits[i]] + GroupedFrom(digits, i + 1)
  }

  function Grouped(digits: string): string {
    GroupedFrom(digits, 0)
  }

  function FormatUsdc(amount: int): string {
    var value: nat := if amount < 0 then -amount else amount;
    var whole := value / SCALE;
    var fraction := value % SCALE;
    (if amount < 0 then "-" else "") + Grouped(Print(whole)) + "." + CentsOf(fraction)
  }

  function StripCommas(s: string): string {
    if s == "" then "" else (if s[0] == ',' then "" else [s[0]]) + StripCommas(s[1..])
  }

  lemma {:induction false} StripConcat(a: string, b: string)
    ensures StripCommas(a + b) == StripCommas(a) + StripCommas(b)
    decreases |a|
  {
    if a == "" {
      assert a + b == b;
    } else {
      assert (a + b)[1..] == a[1..] + b;
      StripConcat(a[1..], b);
    }
  }

  lemma {:induction false} StripKeepsCommaFree(s: string)
    requires ',' !in s
    ensures StripCommas(s) == s
    decreases |s|
  {
    if s != "" {
      StripKeepsCommaFree(s[1..]);
    }
  }

  lemma {:induction false} StripGroupedFrom(digits: string, i: nat)
    requires i <= |digits| && ',' !in digits
    ensures StripCommas(GroupedFrom(digits, i)) == digits[i..]
    decreases |digits| - i
  {
    if i < |digits| {
      var comma := if 0 < i && (|digits| - i) % 3 == 0 then "," else "";
      StripGroupedFrom(digits, i + 1);
      StripConcat(comma + [digits[i]], GroupedFrom(digits, i + 1));
      StripConcat(comma, [digits[i]]);
      StripKeepsCommaFree([digits[i]]);
      assert digits[i..] == [digits[i]] + digits[i + 1..];
    }
  }

  /** How long the grouped text of the last `n` of more than `n` digits is, with its leading comma if it has one. */
  function GroupedLength(n: nat): nat {
    n + n / 3
  }

  /** Counting from the right, every fourth character is a comma, and only those are. */
  predicate CommaEveryFourth(s: string) {
    forall j :: 0 <= j < |s| ==> (s[|s| - 1 - j] == ',' <==> j % 4 == 3)
  }

  lemma PrependKeepsCommas(c: char, tail: string)
    requires CommaEveryFourth(tail) && (c == ',' <==> |tail| % 4 == 3)
    ensures CommaEveryFourth([c] + tail)
  {
    var s := [c] + tail;
    forall j | 0 <= j < |s| ensures s[|s| - 1 - j] == ',' <==> j % 4 == 3 {
      assert s[|s| - 1 - j] == if j < |tail| then tail[|tail| - 1 - j] else c;
    }
  }

  /** Where the next digit falls: never on a comma's place, and the place after it is a comma's exactly when a group is full. */
  lemma GroupCount(n: nat)
    ensures GroupedLength(n) % 4 == n % 3
    ensures GroupedLength(n + 1) == GroupedLength(n) + if (n + 1) % 3 == 0 then 2 else 1
  {
    var q, r := n / 3, n % 3;
    assert n == 3 * q + r;
    assert GroupedLength(n) == 4 * q + r;
    assert (n + 1) / 3 == if r == 2 then q + 1 else q;
    assert (n + 1) % 3 == if r == 2 then 0 else r + 1;
  }

  /** One more digit, with the comma that a completed group puts before it. */
  lemma GroupStep(digit: char, tail: string, n: nat)
    requires digit != ',' && |tail| == GroupedLength(n) && CommaEveryFourth(tail)
    ensures var s := (if (n + 1) % 3 == 0 then "," else "") + [digit] + tail;
            |s| == GroupedLength(n + 1) && CommaEveryFourth(s)
  {
    hide CommaEveryFourth;
    hide GroupedLength;
    GroupCount(n);
    PrependKeepsCommas(digit, tail);
    var longer := [digit] + tail;
    if (n + 1) % 3 == 0 {
      PrependKeepsCommas(',', longer);
      assert "," + [digit] + tail == [','] + longer;
    } else {
      assert "" + [digit] + tail == longer;
    }
  }

  lemma {:induction false} CommasEveryThree(digits: string, i: nat)
    requires i <= |digits| && ',' !in digits && 0 < i
    ensures |GroupedFrom(digits, i)| == GroupedLength(|digits| - i)
    ensures CommaEveryFourth(GroupedFrom(digits, i))
    decreases |digits| - i
  {
    if i < |digits| {
      hide GroupedLength, CommaEveryFourth;
      CommasEveryThree(digits, i + 1);
      GroupStep(digits[i], GroupedFrom(digits, i + 1), |digits| - i - 1);
    }
  }

  lemma StripGrouped(digits: string)
    requires ',' !in digits
    ensures StripCommas(Grouped(digits)) == digits
  {
    StripGroupedFrom(digits, 0);
    assert digits[0..] == digits;
  }

  lemma GroupedShape(digits: string)
    requires digits != "" && ',' !in digits
    ensures StripCommas(Grouped(digits)) == digits
    ensures CommaEveryFourth(Grouped(digits))
  {
    hide CommaEveryFourth, StripCommas;
    StripGrouped(digits);
    CommasEveryThree(digits, 1);
    GroupCount(|digits| - 1);
    PrependKeepsCommas(digits[0], GroupedFrom(digits, 1));
    assert Grouped(digits) == [digits[0]] + GroupedFrom(digits, 1);
  }

  lemma CentsText(fraction: nat)
    requires fraction < SCALE
    ensures var cents := Take(PadStart(Print(fraction), USDC_DECIMALS), 2);
            |cents| == 2 && AllDigits(cents) && Parse(cents + Zeros(4)) == RoundDown(fraction, CENT)
  {
    var padded := PadStart(Print(fraction), USDC_DECIMALS);
    PadStartKeepsValue(Print(fraction), USDC_DECIMALS);
    ParsePrint(fraction);
    Pow10Six();
    PrintLength(fraction, USDC_DECIMALS);
    assert |padded| == 6;
    var cents, dropped := padded[..2], padded[2..];
    assert padded == cents + dropped;
    ParseConcat(cents, dropped);
    ParseBound(dropped);
    ParseConcat(cents, Zeros(4));
    ParseZeros(4);
    DivModUnique(fraction, Parse(cents), Parse(dropped), CENT);
  }

  lemma Pow10Six()
    ensures Pow10(4) == CENT && Pow10(6) == SCALE
  {
    assert Pow10(1) == 10;
    assert Pow10(2) == 100;
    assert Pow10(3) == 1_000;
    assert Pow10(4) == 10_000;
    assert Pow10(5) == 100_000;
  }

  function CentsOf(fraction: nat): string {
    Take(PadStart(Print(fraction), USDC_DECIMALS), 2)
  }

  lemma StripThree(a: string, b: string, c: string)
    ensures StripCommas(a + b + c) == StripCommas(a) + StripCommas(b) + StripCommas(c)
  {
    StripConcat(a + b, c);
    StripConcat(a, b);
  }

  lemma StrippedText(digits: string, cents: string)
    requires AllDigits(digits) && digits != "" && AllDigits(cents) && cents != ""
    ensures StripCommas(Grouped(digits) + "." + cents) == Join(digits, cents)
  {
    StripGrouped(digits);
    StripThree(Grouped(digits), ".", cents);
    StripKeepsCommaFree(".");
    StripKeepsCommaFree(cents);
    JoinIsThree(digits, cents);
  }

  lemma JoinIsThree(digits: string, cents: string)
    requires cents != ""
    ensures digits + "." + cents == Join(digits, cents)
  {}

  lemma CentsValue(whole: nat, fraction: nat)
    requires fraction < SCALE
    ensures AllDigits(CentsOf(fraction)) && |CentsOf(fraction)| == 2
    ensures AllDigits(Print(whole) + PadEnd(CentsOf(fraction), USDC_DECIMALS))
    ensures Parse(Print(whole) + PadEnd(CentsOf(fraction), USDC_DECIMALS)) == whole * SCALE + RoundDown(fraction, CENT)
  {
    CentsText(fraction);
    ParseConcat(Print(whole), CentsOf(fraction) + Zeros(4));
    ParsePrint(whole);
    Pow10Six();
  }

  function Magnitude(amount: int): nat {
    if amount < 0 then -amount else amount
  }

  lemma SignedDisplay(amount: int)
    ensures FormatUsdc(amount) == (if amount < 0 then "-" else "") + FormatUsdc(Magnitude(amount))
  {
    hide Print, CentsOf, Grouped;
    PositiveDisplay(Magnitude(amount));
    NoSign(Grouped(Print(Magnitude(amount) / SCALE)));
  }

  /**
   * The displayed amount is exact to the cent: after a minus sign when it is negative, and with its commas
   * removed, it reads back as the magnitude truncated, never rounded, to whole cents.
   */
  lemma DisplayedToTheCent(amount: int)
    ensures FormatUsdc(amount) == (if amount < 0 then "-" else "") + FormatUsdc(Magnitude(amount))
    ensures ParseUnits(StripCommas(FormatUsdc(Magnitude(amount))), USDC_DECIMALS)
         == Units.Ok(RoundDown(Magnitude(amount), CENT))
  {
    hide ParseUnits, StripCommas, Print, Parse, PadEnd, CentsOf, Grouped, RoundDown, FormatUsdc, Join;
    SignedDisplay(amount);
    var whole, fraction := Magnitude(amount) / SCALE, Magnitude(amount) % SCALE;
    CentsValue(whole, fraction);
    PositiveDisplay(Magnitude(amount));
    StrippedText(Print(whole), CentsOf(fraction));
    ParseText(Print(whole), CentsOf(fraction), USDC_DECIMALS);
    RoundDownTail(whole, fraction);
    assert Magnitude(amount) == whole * SCALE + fraction;
  }

  lemma PositiveDisplay(amount: nat)
    ensures FormatUsdc(amount) == Grouped(Print(amount / SCALE)) + "." + CentsOf(amount % SCALE)
  {
    hide Print, CentsOf, Grouped;
    NoSign(Grouped(Print(amount / SCALE)));
  }

  lemma RoundDownTail(whole: nat, fraction: nat)
    requires fraction < SCALE
    ensures whole * SCALE + RoundDown(fraction, CENT) == RoundDown(whole * SCALE + fraction, CENT)
  {
    assert (whole * SCALE + fraction) % CENT == fraction % CENT;
  }
}
