/** Hexadecimal text of byte strings, as addresses and hashes are rendered. */
module Hex {
  import opened ByteStrings

  function NibbleChar(n: nat): char
    requires n < 16
  {
    if n < 10 then (n + '0' as int) as char else (n - 10 + 'a' as int) as char
  }

  function NibbleValue(c: char): nat {
    if '0' <= c <= '9' then c as int - '0' as int
    else if 'a' <= c <= 'f' then c as int - 'a' as int + 10
    else 0
  }

  /** Two lower-case hexadecimal digits per byte. */
  function Encode(bs: Bytes): (s: string)
    ensures |s| == 2 * |bs|
  {
    if bs == [] then ""
    else [NibbleChar(bs[0] / 16), NibbleChar(bs[0] % 16)] + Encode(bs[1..])
  }

  function Decode(s: string): Bytes
    requires |s| % 2 == 0
  {
    if s == "" then []
    else
      var b := 16 * NibbleValue(s[0]) + NibbleValue(s[1]);
      [if b < 256 then b else 0] + Decode(s[2..])
  }

  lemma NibbleRoundTrip(n: nat)
    requires n < 16
    ensures NibbleValue(NibbleChar(n)) == n
  {}

  lemma {:induction false} DecodeEncode(bs: Bytes)
    ensures Decode(Encode(bs)) == bs
    decreases |bs|
  {
    if bs != [] {
      NibbleRoundTrip(bs[0] / 16);
      NibbleRoundTrip(bs[0] % 16);
      DecodeEncode(bs[1..]);
      assert Encode(bs)[2..] == Encode(bs[1..]);
    }
  }

  lemma EncodeInjective(a: Bytes, b: Bytes)
    requires Encode(a) == Encode(b)
    ensures a == b
  {
    DecodeEncode(a);
    DecodeEncode(b);
  }

  predicate IsLowerHex(c: char) {
    '0' <= c <= '9' || 'a' <= c <= 'f'
  }

  lemma {:induction false} EncodeIsLowerHex(bs: Bytes)
    ensures forall i :: 0 <= i < |Encode(bs)| ==> IsLowerHex(Encode(bs)[i])
    decreases |bs|
  {
    if bs != [] {
      EncodeIsLowerHex(bs[1..]);
    }
  }

  /** The `0x` form of an address or hash. */
  function Text(bs: Bytes): string {
    "0x" + Encode(bs)
  }

  lemma TextInjective(a: Bytes, b: Bytes)
    requires Text(a) == Text(b)
    ensures a == b
  {
    assert Encode(a) == Text(a)[2..] == Text(b)[2..] == Encode(b);
    EncodeInjective(a, b);
  }

  /** Each byte is written as its two digits, the high one first. */
  lemma {:induction false} TextDigits(bs: Bytes, k: nat)
    requires k < |bs|
    ensures Text(bs)[..2] == "0x" && |Text(bs)| == 2 + 2 * |bs|
    ensures var digits := "0123456789abcdef";
            Text(bs)[2 + 2 * k] == digits[bs[k] / 16] && Text(bs)[3 + 2 * k] == digits[bs[k] % 16]
    decreases |bs|
  {
    if k > 0 {
      TextDigits(bs[1..], k - 1);
      assert Text(bs[1..])[2 * k] == Encode(bs[1..])[2 * k - 2] == Encode(bs)[2 * k];
      assert Text(bs[1..])[1 + 2 * k] == Encode(bs[1..])[2 * k - 1] == Encode(bs)[2 * k + 1];
    }
  }
}
