/** Amounts as decimal strings: the balance monitor's parser and printer, and their round trips. */
module Units {
  import opened Decimal

  datatype ParseError = NotADecimal | TooManyDecimals

  datatype Parsed = Ok(value: nat) | Failed(error: ParseError)

  /** The ASCII white space that trimming removes: space, tab, line feed, vertical tab, form feed, carriage return. */
  predicate IsSpace(c: char) {
    c == ' ' || 9 <= c as int <= 13
  }

  function TrimStart(s: string): string {
    if s != "" && IsSpace(s[0]) then TrimStart(s[1..]) else s
  }

  function TrimEnd(s: string): string {
    if s != "" && IsSpace(s[|s| - 1]) then TrimEnd(s[..|s| - 1]) else s
  }

  function Trim(s: string): string {
    TrimEnd(TrimStart(s))
  }

  /** Where the first point is, or the length when there is none. */
  function PointAt(s: string): (i: nat)
    ensures i <= |s|
    ensures i < |s| ==> s[i] == '.'
    ensures forall j :: 0 <= j < i ==> s[j] != '.'
  {
    if s == "" || s[0] == '.' then 0 else 1 + PointAt(s[1..])
  }

  function PadStart(s: string, width: nat): string {
    if |s| < width then Zeros(width - |s|) + s else s
  }

  function PadEnd(s: string, width: nat): string {
    if |s| < width then s + Zeros(width - |s|) else s
  }

  function TrimZeros(s: string): string {
    if s != "" && s[|s| - 1] == '0' then TrimZeros(s[..|s| - 1]) else s
  }

  function Take(s: string, n: nat): string {
    if |s| <= n then s else s[..n]
  }

  /** One or more digits, then optionally a point and one or more digits. */
  predicate IsPlainDecimal(s: string) {
    var p := PointAt(s);
    && 0 < p && AllDigits(s[..p])
    && (p < |s| ==> p + 1 < |s| && AllDigits(s[p + 1..]))
  }

  function FractionOf(s: string): string {
    if PointAt(s) < |s| then s[PointAt(s) + 1..] else ""
  }

  /** Decimal string to base units. */
  function ParseUnits(value: string, decimals: nat): Parsed {
    var trimmed := Trim(value);
    if !IsPlainDecimal(trimmed) then Failed(NotADecimal)
    else
      var whole := trimmed[..PointAt(trimmed)];
      var fraction := FractionOf(trimmed);
      if |fraction| > decimals then Failed(TooManyDecimals)
      else Ok(Parse(whole + PadEnd(fraction, decimals)))
  }

  /** The amount's digits, with at least one before the point. */
  function DigitsOf(value: nat, decimals: nat): (digits: string)
    ensures |digits| > decimals
  {
    PadStart(Print(value), decimals + 1)
  }

  function WholeOf(value: nat, decimals: nat): string {
    DigitsOf(value, decimals)[..|DigitsOf(value, decimals)| - decimals]
  }

  /** The fraction digits a display of so many places has room for. */
  function ShownOf(value: nat, decimals: nat, places: nat): string {
    Take(DigitsOf(value, decimals)[|DigitsOf(value, decimals)| - decimals..], places)
  }

  function Join(whole: string, fraction: string): string {
    whole + if fraction != "" then "." + fraction else ""
  }

  /** Base units to a short decimal string, trailing zeroes trimmed. */
  function FormatUnits(value: int, decimals: nat, places: nat): string {
    var size: nat := if value < 0 then -value else value;
    (if value < 0 then "-" else "") + Join(WholeOf(size, decimals), TrimZeros(ShownOf(size, decimals, places)))
  }

  /** The base units a display with this many places cannot show. */
  function Resolution(decimals: nat, places: nat): (r: nat)
    ensures r > 0
  {
    if places < decimals then Pow10(decimals - places) else 1
  }

  // ----- lemmas about the pieces --------------------------------------------

  lemma PadStartKeepsValue(s: string, width: nat)
    requires AllDigits(s)
    ensures AllDigits(PadStart(s, width)) && Parse(PadStart(s, width)) == Parse(s)
    ensures |PadStart(s, width)| >= width
  {
    if |s| < width {
      ParseConcat(Zeros(width - |s|), s);
      ParseZeros(width - |s|);
    }
  }

  lemma {:induction false} TrimZerosUndone(s: string)
    ensures |TrimZeros(s)| <= |s|
    ensures s == TrimZeros(s) + Zeros(|s| - |TrimZeros(s)|)
    ensures TrimZeros(s) != "" ==> TrimZeros(s)[|TrimZeros(s)| - 1] != '0'
    decreases |s|
  {
    if s != "" && s[|s| - 1] == '0' {
      var t := s[..|s| - 1];
      TrimZerosUndone(t);
      assert s == t + "0";
      assert Zeros(|s| - |TrimZeros(t)|) == Zeros(|t| - |TrimZeros(t)|) + "0";
    }
  }

  lemma ZerosJoin(a: nat, b: nat)
    ensures Zeros(a) + Zeros(b) == Zeros(a + b)
  {}

  lemma PointAfterDigits(whole: string, rest: string)
    requires AllDigits(whole)
    requires rest == "" || rest[0] == '.'
    ensures PointAt(whole + rest) == |whole|
  {
    assert forall j :: 0 <= j < |whole| ==> (whole + rest)[j] == whole[j] != '.';
    assert rest != "" ==> (whole + rest)[|whole|] == '.';
  }

  /** Text that neither begins nor ends with white space is left alone. */
  lemma TrimKeeps(s: string)
    requires s != "" && !IsSpace(s[0]) && !IsSpace(s[|s| - 1])
    ensures Trim(s) == s
  {}

  /** What the parser makes of `whole` and `fraction` written with a point between. */
  lemma ParseText(whole: string, fraction: string, decimals: nat)
    requires AllDigits(whole) && whole != "" && AllDigits(fraction) && |fraction| <= decimals
    ensures AllDigits(whole + PadEnd(fraction, decimals))
    ensures ParseUnits(Join(whole, fraction), decimals) == Ok(Parse(whole + PadEnd(fraction, decimals)))
  {
    var rest := if fraction != "" then "." + fraction else "";
    var s := Join(whole, fraction);
    assert s == whole + rest;
    PointAfterDigits(whole, rest);
    assert s[0] == whole[0];
    assert s[|s| - 1] == if fraction != "" then fraction[|fraction| - 1] else whole[|whole| - 1];
    TrimKeeps(s);
    assert s[..|whole|] == whole;
    assert FractionOf(s) == fraction;
  }

  // ----- what is accepted ------------------------------------------------------

  predicate Blank(s: string) {
    forall i :: 0 <= i < |s| ==> s[i] in {' ', 9 as char, 10 as char, 11 as char, 12 as char, 13 as char}
  }

  /** `t` is `s` without the white space around it. */
  ghost predicate IsTrimmed(s: string, t: string) {
    && (t == "" || (!Blank([t[0]]) && !Blank([t[|t| - 1]])))
    && exists before, after :: s == before + t + after && Blank(before) && Blank(after)
  }

  lemma {:induction false} TrimStartDrops(s: string) returns (before: string)
    ensures s == before + TrimStart(s) && Blank(before)
    ensures TrimStart(s) != "" ==> !IsSpace(TrimStart(s)[0])
    decreases |s|
  {
    before := "";
    if s != "" && IsSpace(s[0]) {
      before := TrimStartDrops(s[1..]);
      before := [s[0]] + before;
    }
  }

  lemma {:induction false} TrimEndDrops(s: string) returns (after: string)
    ensures s == TrimEnd(s) + after && Blank(after)
    ensures TrimEnd(s) != "" ==> !IsSpace(TrimEnd(s)[|TrimEnd(s)| - 1])
    decreases |s|
  {
    after := "";
    if s != "" && IsSpace(s[|s| - 1]) {
      after := TrimEndDrops(s[..|s| - 1]);
      after := after + [s[|s| - 1]];
    }
  }

  lemma NotBlank(c: char)
    ensures Blank([c]) <==> IsSpace(c)
  {
    assert [c][0] == c;
  }

  /** Trimming drops the white space at both ends, all of it and nothing else. */
  lemma TrimIsTrimmed(s: string)
    ensures IsTrimmed(s, Trim(s))
  {
    hide TrimStart, TrimEnd;
    var before := TrimStartDrops(s);
    var after := TrimEndDrops(TrimStart(s));
    assert s == before + Trim(s) + after;
    var t := Trim(s);
    if t != "" {
      assert TrimStart(s) == t + after && TrimStart(s)[0] == t[0];
      NotBlank(t[0]);
      NotBlank(t[|t| - 1]);
    }
  }

  /** An amount written out: digits, and after a point, if there is one, more digits. */
  predicate IsAmount(s: string, whole: string, fraction: string) {
    && AllDigits(whole) && whole != "" && AllDigits(fraction)
    && s == if fraction == "" then whole else whole + "." + fraction
  }

  lemma AmountParts(s: string, whole: string, fraction: string)
    requires IsAmount(s, whole, fraction)
    ensures IsPlainDecimal(s) && s[..PointAt(s)] == whole && FractionOf(s) == fraction
  {
    var rest := if fraction != "" then "." + fraction else "";
    assert s == whole + rest;
    PointAfterDigits(whole, rest);
  }

  lemma PlainIsAmount(s: string)
    requires IsPlainDecimal(s)
    ensures IsAmount(s, s[..PointAt(s)], FractionOf(s))
  {
    if PointAt(s) < |s| {
      assert s == s[..PointAt(s)] + "." + s[PointAt(s) + 1..];
    }
  }

  lemma UnitsOf(whole: string, fraction: string, decimals: nat)
    requires AllDigits(whole) && AllDigits(fraction) && |fraction| <= decimals
    ensures AllDigits(whole + PadEnd(fraction, decimals))
    ensures Parse(whole + PadEnd(fraction, decimals)) == Parse(whole) * Pow10(decimals) + Parse(fraction) * Pow10(decimals - |fraction|)
  {
    hide Parse, Pow10, PadEnd, Zeros;
    PadEndIsZeros(fraction, decimals);
    ParseConcat(fraction, Zeros(decimals - |fraction|));
    ParseZeros(decimals - |fraction|);
    ParseConcat(whole, PadEnd(fraction, decimals));
  }

  /**
   * What the parser accepts and what it makes of it: an amount, white space around it aside, with no more decimals
   * than there are, in units of the last of them. Too many are refused as such, and anything else as no amount.
   */
  lemma ParsesIff(value: string, decimals: nat, whole: string, fraction: string)
    ensures IsAmount(Trim(value), whole, fraction) && |fraction| <= decimals ==>
              ParseUnits(value, decimals) == Ok(Parse(whole) * Pow10(decimals) + Parse(fraction) * Pow10(decimals - |fraction|))
    ensures IsAmount(Trim(value), whole, fraction) && |fraction| > decimals ==>
              ParseUnits(value, decimals) == Failed(TooManyDecimals)
    ensures ParseUnits(value, decimals) != Failed(NotADecimal) <==> exists w, f :: IsAmount(Trim(value), w, f)
  {
    hide Trim, Parse, PadEnd, Pow10, PointAt;
    var s := Trim(value);
    if IsAmount(s, whole, fraction) {
      AmountParts(s, whole, fraction);
      if |fraction| <= decimals {
        UnitsOf(whole, fraction, decimals);
      }
    }
    if IsPlainDecimal(s) {
      PlainIsAmount(s);
    }
    if w, f :| IsAmount(s, w, f) {
      AmountParts(s, w, f);
    }
  }

  // ----- the round trips -----------------------------------------------------

  lemma ShownLength(value: nat, decimals: nat, places: nat)
    ensures |ShownOf(value, decimals, places)| == if places < decimals then places else decimals
    ensures Pow10(decimals - |ShownOf(value, decimals, places)|) == Resolution(decimals, places)
  {}

  /** The digits of an amount are the shown part followed by the part a display drops. */
  lemma DigitsSplit(value: nat, decimals: nat, places: nat)
    ensures var shown := ShownOf(value, decimals, places);
            var kept := WholeOf(value, decimals) + shown;
            && |kept| <= |DigitsOf(value, decimals)|
            && DigitsOf(value, decimals)[..|kept|] == kept
            && |DigitsOf(value, decimals)| - |kept| == decimals - |shown|
  {
    var digits := DigitsOf(value, decimals);
    var cut := |digits| - decimals;
    var shown := ShownOf(value, decimals, places);
    assert shown == digits[cut..cut + |shown|];
  }

  /** Zeroing the last digits of a number rounds it down to a power of ten. */
  lemma ZeroTheTail(digits: string, kept: nat)
    requires AllDigits(digits) && kept <= |digits|
    ensures Parse(digits[..kept] + Zeros(|digits| - kept)) == RoundDown(Parse(digits), Pow10(|digits| - kept))
  {
    var head, tail := digits[..kept], digits[kept..];
    assert digits == head + tail;
    ParseConcat(head, tail);
    ParseBound(tail);
    DivModUnique(Parse(digits), Parse(head), Parse(tail), Pow10(|tail|));
    ParseConcat(head, Zeros(|tail|));
    ParseZeros(|tail|);
  }

  lemma DigitsOfValue(value: nat, decimals: nat)
    ensures AllDigits(DigitsOf(value, decimals)) && Parse(DigitsOf(value, decimals)) == value
  {
    PadStartKeepsValue(Print(value), decimals + 1);
    ParsePrint(value);
  }

  lemma PartsAreDigits(value: nat, decimals: nat, places: nat)
    ensures AllDigits(WholeOf(value, decimals)) && WholeOf(value, decimals) != ""
    ensures AllDigits(ShownOf(value, decimals, places)) && |ShownOf(value, decimals, places)| <= decimals
  {
    hide DigitsOf, Parse;
    DigitsOfValue(value, decimals);
    var digits := DigitsOf(value, decimals);
    var cut := |digits| - decimals;
    assert AllDigits(digits[..cut]) && AllDigits(digits[cut..]);
  }

  /** Zeroing the dropped digits rounds down to the display's resolution. */
  lemma DroppedDigits(value: nat, decimals: nat, places: nat)
    ensures AllDigits(WholeOf(value, decimals)) && AllDigits(ShownOf(value, decimals, places))
    ensures |ShownOf(value, decimals, places)| <= decimals
    ensures Parse(WholeOf(value, decimals) + ShownOf(value, decimals, places)
                  + Zeros(decimals - |ShownOf(value, decimals, places)|))
         == RoundDown(value, Resolution(decimals, places))
  {
    PartsAreDigits(value, decimals, places);
    DigitsOfValue(value, decimals);
    ShownLength(value, decimals, places);
    DigitsSplit(value, decimals, places);
    ZeroTheTail(DigitsOf(value, decimals), |WholeOf(value, decimals) + ShownOf(value, decimals, places)|);
  }

  /** Trimming trailing zeroes and padding back is the same as padding directly. */
  lemma TrimThenPad(shown: string, width: nat)
    requires AllDigits(shown) && |shown| <= width
    ensures AllDigits(TrimZeros(shown)) && |TrimZeros(shown)| <= width
    ensures PadEnd(TrimZeros(shown), width) == shown + Zeros(width - |shown|)
  {
    var fraction := TrimZeros(shown);
    TrimZerosUndone(shown);
    ZerosJoin(|shown| - |fraction|, width - |shown|);
    assert fraction == shown[..|fraction|];
  }

  lemma ParseTrimmed(whole: string, shown: string, decimals: nat)
    requires AllDigits(whole) && whole != "" && AllDigits(shown) && |shown| <= decimals
    ensures ParseUnits(Join(whole, TrimZeros(shown)), decimals) == Ok(Parse(whole + shown + Zeros(decimals - |shown|)))
  {
    TrimThenPad(shown, decimals);
    ParseText(whole, TrimZeros(shown), decimals);
    assert whole + (shown + Zeros(decimals - |shown|)) == whole + shown + Zeros(decimals - |shown|);
  }

  /**
   * Printing then parsing a non-negative amount loses exactly what the display cannot show:
   * the result is the amount rounded down to the display's resolution, never up.
   */
  lemma FormatThenParse(value: nat, decimals: nat, places: nat)
    ensures ParseUnits(FormatUnits(value, decimals, places), decimals)
         == Ok(RoundDown(value, Resolution(decimals, places)))
  {
    PartsAreDigits(value, decimals, places);
    DroppedDigits(value, decimals, places);
    ParseTrimmed(WholeOf(value, decimals), ShownOf(value, decimals, places), decimals);
    FormatNatural(value, decimals, places);
  }

  lemma FormatNatural(value: nat, decimals: nat, places: nat)
    ensures FormatUnits(value, decimals, places) == Join(WholeOf(value, decimals), TrimZeros(ShownOf(value, decimals, places)))
  {
    NoSign(Join(WholeOf(value, decimals), TrimZeros(ShownOf(value, decimals, places))));
  }

  lemma NoSign(s: string)
    ensures "" + s == s
  {}

  /** A display with all its places loses nothing. */
  lemma FullDisplayIsExact(value: nat, decimals: nat, places: nat)
    requires places >= decimals
    ensures ParseUnits(FormatUnits(value, decimals, places), decimals) == Ok(value)
  {
    FormatThenParse(value, decimals, places);
  }

  /** The parser takes back a printed amount exactly when the amount is not negative. */
  lemma ParsesBackIffNonNegative(value: int, decimals: nat, places: nat)
    ensures ParseUnits(FormatUnits(value, decimals, places), decimals).Ok? <==> 0 <= value
  {
    if 0 <= value {
      FormatThenParse(value, decimals, places);
    } else {
      MinusRefused(value, decimals, places);
    }
  }

  lemma MinusRefused(value: int, decimals: nat, places: nat)
    requires value < 0
    ensures ParseUnits(FormatUnits(value, decimals, places), decimals) == Failed(NotADecimal)
  {
    hide WholeOf, ShownOf, TrimZeros, PadEnd;
    var whole := WholeOf(-value, decimals);
    var fraction := TrimZeros(ShownOf(-value, decimals, places));
    PartsAreDigits(-value, decimals, places);
    TrimThenPad(ShownOf(-value, decimals, places), decimals);
    assert FormatUnits(value, decimals, places) == "-" + Join(whole, fraction);
    LeadingMinusRefused(whole, fraction, decimals);
  }

  lemma LeadingMinusRefused(whole: string, fraction: string, decimals: nat)
    requires AllDigits(whole) && whole != "" && AllDigits(fraction)
    ensures ParseUnits("-" + Join(whole, fraction), decimals) == Failed(NotADecimal)
  {
    var s := "-" + Join(whole, fraction);
    assert s[0] == '-';
    assert s[|s| - 1] == if fraction != "" then fraction[|fraction| - 1] else whole[|whole| - 1];
    TrimKeeps(s);
    assert PointAt(s) > 0 ==> s[..PointAt(s)][0] == '-';
  }

  /** Text in the printer's own style: no needless zeros at either end. */
  predicate IsTidy(whole: string, fraction: string, decimals: nat) {
    && Canonical(whole)
    && AllDigits(fraction) && |fraction| <= decimals
    && (fraction != "" ==> fraction[|fraction| - 1] != '0')
  }

  lemma {:induction false} TrimZerosOf(s: string, k: nat)
    requires s == "" || s[|s| - 1] != '0'
    ensures TrimZeros(s + Zeros(k)) == s
    decreases k
  {
    if k == 0 {
      assert s + Zeros(0) == s;
    } else {
      assert (s + Zeros(k))[..|s| + k - 1] == s + Zeros(k - 1);
      TrimZerosOf(s, k - 1);
    }
  }

  lemma PartsOf(v: nat, whole: string, padded: string)
    requires DigitsOf(v, |padded|) == whole + padded
    ensures WholeOf(v, |padded|) == whole && ShownOf(v, |padded|, |padded|) == padded
  {
    hide DigitsOf;
  }

  lemma FormatOfDigits(v: nat, whole: string, fraction: string, decimals: nat)
    requires |fraction| <= decimals && (fraction != "" ==> fraction[|fraction| - 1] != '0')
    requires DigitsOf(v, decimals) == whole + (fraction + Zeros(decimals - |fraction|))
    ensures FormatUnits(v, decimals, decimals) == Join(whole, fraction)
  {
    hide FormatUnits, TrimZeros, Join, Zeros, DigitsOf;
    PartsOf(v, whole, fraction + Zeros(decimals - |fraction|));
    TrimZerosOf(fraction, decimals - |fraction|);
    FormatNatural(v, decimals, decimals);
  }

  lemma PadEndIsZeros(s: string, width: nat)
    requires |s| <= width
    ensures PadEnd(s, width) == s + Zeros(width - |s|)
  {
    assert s + Zeros(0) == s;
  }

  /** Parsing tidy text then printing it gives the text back: the printer's style is canonical. */
  lemma ParseThenFormat(whole: string, fraction: string, decimals: nat)
    requires IsTidy(whole, fraction, decimals)
    ensures ParseUnits(Join(whole, fraction), decimals).Ok?
    ensures FormatUnits(ParseUnits(Join(whole, fraction), decimals).value, decimals, decimals) == Join(whole, fraction)
  {
    hide ParseUnits, FormatUnits, Join, Print, Parse, PadEnd;
    ParseText(whole, fraction, decimals);
    PadEndIsZeros(fraction, decimals);
    PrintedDigits(whole, fraction + Zeros(decimals - |fraction|));
    FormatOfDigits(Parse(whole + PadEnd(fraction, decimals)), whole, fraction, decimals);
  }

  /** Printing a value and padding it recovers the digits it was read from. */
  lemma PrintedDigits(whole: string, padded: string)
    requires Canonical(whole) && AllDigits(padded)
    ensures AllDigits(whole + padded)
    ensures PadStart(Print(Parse(whole + padded)), |padded| + 1) == whole + padded
  {
    ParseConcat(whole, padded);
    if whole[0] != '0' {
      assert (whole + padded)[0] == whole[0];
      PrintParse(whole + padded);
    } else {
      assert whole == "0";
      ParsesToSame("0" + padded);
    }
  }

  /** Digits of a given length are what printing their value and padding gives. */
  lemma ParsesToSame(digits: string)
    requires AllDigits(digits) && digits != ""
    ensures PadStart(Print(Parse(digits)), |digits|) == digits
  {
    var v := Parse(digits);
    ParseBound(digits);
    PrintLength(v, |digits|);
    PadStartKeepsValue(Print(v), |digits|);
    ParsePrint(v);
    ParseInjective(PadStart(Print(v), |digits|), digits);
  }

  lemma {:induction false} PrintLength(n: nat, k: nat)
    requires n < Pow10(k) && k > 0
    ensures |Print(n)| <= k
    decreases k
  {
    if n >= 10 {
      PrintLength(n / 10, k - 1);
    }
  }
}
