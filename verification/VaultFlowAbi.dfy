/**
 * Raw EIP-4626 event decoding: logs to decoded events, per the "Events" sections of
 * EIP-4626 and of the Solidity Contract ABI Specification.
 */
module VaultFlowAbi {
  import opened ByteStrings
  import Hex

  const WORD: nat := 32

  /** keccak256("Deposit(address,address,uint256,uint256)") */
  const DEPOSIT_TOPIC0: Bytes := [
    0xdc, 0xbc, 0x1c, 0x05, 0x24, 0x0f, 0x31, 0xff,
    0x3a, 0xd0, 0x67, 0xef, 0x1e, 0xe3, 0x5c, 0xe4,
    0x99, 0x77, 0x62, 0x75, 0x2e, 0x3a, 0x09, 0x52,
    0x84, 0x75, 0x45, 0x44, 0xf4, 0xc7, 0x09, 0xd7]

  /** keccak256("Withdraw(address,address,address,uint256,uint256)") */
  const WITHDRAW_TOPIC0: Bytes := [
    0xfb, 0xde, 0x79, 0x7d, 0x20, 0x1c, 0x68, 0x1b,
    0x91, 0x05, 0x65, 0x29, 0x11, 0x9e, 0x0b, 0x02,
    0x40, 0x7c, 0x7b, 0xb9, 0x6a, 0x4a, 0x2c, 0x75,
    0xc0, 0x1f, 0xc9, 0x66, 0x72, 0x32, 0xc8, 0xdb]

  datatype Log = Log(address: Bytes, topics: seq<Bytes>, data: Bytes, index: nat)

  datatype DecodedDeposit = DecodedDeposit(sender: string, owner: string, assets: Bytes, shares: Bytes)

  datatype DecodedWithdraw =
    DecodedWithdraw(sender: string, receiver: string, owner: string, assets: Bytes, shares: Bytes)

  /** Not this event at all; this event but malformed, hence skipped; or decoded. */
  datatype Decoding<+T> = Unrelated | Malformed | Decoded(value: T)

  datatype Address = NotAnAddress | Address(text: string)

  // ----- numbers -------------------------------------------------------------

  /** The number a big-endian byte string denotes. */
  function ValueOf(bs: Bytes): nat {
    if bs == [] then 0 else ValueOf(bs[..|bs| - 1]) * 256 + bs[|bs| - 1] as int
  }

  function Pow256(k: nat): (p: nat)
    ensures p > 0
  {
    if k == 0 then 1 else 256 * Pow256(k - 1)
  }

  /** The big-endian word of a number, of the given width. */
  function ToBytes(n: nat, width: nat): (bs: Bytes)
    ensures |bs| == width
  {
    if width == 0 then [] else ToBytes(n / 256, width - 1) + [n % 256]
  }

  function LeadingZeros(bs: Bytes): (k: nat)
    ensures k <= |bs|
    ensures forall i :: 0 <= i < k ==> bs[i] == 0
    ensures k < |bs| ==> bs[k] != 0
  {
    if bs == [] || bs[0] != 0 then 0 else 1 + LeadingZeros(bs[1..])
  }

  /** A word with its leading zero bytes trimmed; an all-zero word keeps one. */
  function WordToBigInt(word: Bytes): Bytes
    requires |word| == WORD
  {
    if LeadingZeros(word) < WORD then word[LeadingZeros(word)..] else word[31..]
  }

  lemma {:induction false} ValueBound(bs: Bytes)
    ensures ValueOf(bs) < Pow256(|bs|)
    decreases |bs|
  {
    if bs != [] {
      ValueBound(bs[..|bs| - 1]);
    }
  }

  lemma {:induction false} ValueConcat(a: Bytes, b: Bytes)
    ensures ValueOf(a + b) == ValueOf(a) * Pow256(|b|) + ValueOf(b)
    decreases |b|
  {
    if b == [] {
      assert a + b == a;
    } else {
      var c := b[..|b| - 1];
      assert (a + b)[..|a + b| - 1] == a + c;
      ValueConcat(a, c);
      assert ValueOf(a) * Pow256(|c|) * 256 == ValueOf(a) * Pow256(|b|);
    }
  }

  lemma {:induction false} ValueOfZeros(bs: Bytes)
    requires forall i :: 0 <= i < |bs| ==> bs[i] == 0
    ensures ValueOf(bs) == 0
    decreases |bs|
  {
    if bs != [] {
      ValueOfZeros(bs[..|bs| - 1]);
    }
  }

  lemma {:induction false} ToBytesValue(n: nat, width: nat)
    requires n < Pow256(width)
    ensures ValueOf(ToBytes(n, width)) == n
    decreases width
  {
    if width > 0 {
      ToBytesValue(n / 256, width - 1);
      assert ToBytes(n, width)[..width - 1] == ToBytes(n / 256, width - 1);
    }
  }

  /** Words of one length are determined by their value. */
  lemma {:induction false} ValueInjective(a: Bytes, b: Bytes)
    requires |a| == |b| && ValueOf(a) == ValueOf(b)
    ensures a == b
    decreases |a|
  {
    if a != [] {
      ValueInjective(a[..|a| - 1], b[..|b| - 1]);
      assert a == a[..|a| - 1] + [a[|a| - 1]];
      assert b == b[..|b| - 1] + [b[|b| - 1]];
    }
  }

  /** Trimming keeps the value and never yields the empty string. */
  lemma TrimmingKeepsValue(word: Bytes)
    requires |word| == WORD
    ensures ValueOf(WordToBigInt(word)) == ValueOf(word)
    ensures 1 <= |WordToBigInt(word)| <= WORD
  {
    var k := if LeadingZeros(word) < WORD then LeadingZeros(word) else 31;
    assert word == word[..k] + word[k..];
    ValueConcat(word[..k], word[k..]);
    ValueOfZeros(word[..k]);
  }

  /** A non-zero leading byte forces the length. */
  lemma LeadingByteBound(bs: Bytes)
    requires bs != [] && bs[0] != 0
    ensures ValueOf(bs) >= Pow256(|bs| - 1)
  {
    hide Pow256;
    assert bs == [bs[0]] + bs[1..];
    ValueConcat([bs[0]], bs[1..]);
    assert ValueOf([bs[0]]) == bs[0] as int by { assert [bs[0]][..0] == []; }
    AtLeastOnce(bs[0], Pow256(|bs| - 1));
  }

  lemma AtLeastOnce(digit: nat, weight: nat)
    requires digit > 0
    ensures digit * weight >= weight
  {}

  lemma {:induction false} Pow256Monotone(a: nat, b: nat)
    requires a <= b
    ensures Pow256(a) <= Pow256(b)
    decreases b - a
  {
    if a < b {
      Pow256Monotone(a, b - 1);
    }
  }

  /** The trimmed form is the shortest non-empty byte string with the word's value. */
  lemma TrimmingIsMinimal(word: Bytes, other: Bytes)
    requires |word| == WORD && other != [] && ValueOf(other) == ValueOf(word)
    ensures |WordToBigInt(word)| <= |other|
  {
    var trimmed := WordToBigInt(word);
    TrimmingKeepsValue(word);
    if LeadingZeros(word) < WORD {
      LeadingByteBound(trimmed);
      ValueBound(other);
      if |other| < |trimmed| {
        Pow256Monotone(|other|, |trimmed| - 1);
      }
    }
  }

  /** No two words are trimmed to the same bytes. */
  lemma TrimmingInjective(a: Bytes, b: Bytes)
    requires |a| == WORD && |b| == WORD && WordToBigInt(a) == WordToBigInt(b)
    ensures a == b
  {
    TrimmingKeepsValue(a);
    TrimmingKeepsValue(b);
    ValueInjective(a, b);
  }

  // ----- topics --------------------------------------------------------------

  /** An indexed address sits in the low 20 bytes of its topic; any other padding is refused. */
  function AddressFromTopic(topic: Bytes): Address {
    if |topic| != WORD || LeadingZeros(topic) < 12 then NotAnAddress
    else Address(Hex.Text(topic[12..]))
  }

  function PadAddress(address: Bytes): Bytes {
    ToBytes(0, 12) + address
  }

  lemma PaddingIsZero()
    ensures forall i :: 0 <= i < 12 ==> ToBytes(0, 12)[i] == 0
  {
    ZeroWord(12);
  }

  lemma {:induction false} ZeroWord(width: nat)
    ensures forall i :: 0 <= i < width ==> ToBytes(0, width)[i] == 0
  {
    if width > 0 {
      ZeroWord(width - 1);
    }
  }

  /** A topic reads as an address exactly when it is some address, padded; and it reads as that address. */
  lemma TopicIsPaddedAddress(topic: Bytes, address: Bytes)
    requires |address| == ADDRESS_LENGTH
    ensures AddressFromTopic(topic) == Address(Hex.Text(address)) <==> topic == PadAddress(address)
  {
    PaddingIsZero();
    assert PadAddress(address)[12..] == address;
    if AddressFromTopic(topic) == Address(Hex.Text(address)) {
      Hex.TextInjective(topic[12..], address);
      assert topic[..12] == ToBytes(0, 12);
      assert topic == topic[..12] + topic[12..];
    }
  }

  // ----- events --------------------------------------------------------------

  function FirstTopic(log: Log): Bytes {
    if log.topics == [] then [] else log.topics[0]
  }

  function DecodeDeposit(log: Log): Decoding<DecodedDeposit> {
    if FirstTopic(log) != DEPOSIT_TOPIC0 then Unrelated
    else if |log.topics| != 3 || |log.data| != 64 then Malformed
    else
      match (AddressFromTopic(log.topics[1]), AddressFromTopic(log.topics[2]))
      case (Address(sender), Address(owner)) =>
        Decoded(DecodedDeposit(sender, owner, WordToBigInt(log.data[0..32]), WordToBigInt(log.data[32..64])))
      case _ => Malformed
  }

  function DecodeWithdraw(log: Log): Decoding<DecodedWithdraw> {
    if FirstTopic(log) != WITHDRAW_TOPIC0 then Unrelated
    else if |log.topics| != 4 || |log.data| != 64 then Malformed
    else
      match (AddressFromTopic(log.topics[1]), AddressFromTopic(log.topics[2]), AddressFromTopic(log.topics[3]))
      case (Address(sender), Address(receiver), Address(owner)) =>
        Decoded(DecodedWithdraw(sender, receiver, owner, WordToBigInt(log.data[0..32]), WordToBigInt(log.data[32..64])))
      case _ => Malformed
  }

  /** The log a conforming vault emits for a deposit. */
  function DepositLog(vault: Bytes, sender: Bytes, owner: Bytes, assets: Bytes, shares: Bytes, index: nat): Log {
    Log(vault, [DEPOSIT_TOPIC0, PadAddress(sender), PadAddress(owner)], assets + shares, index)
  }

  function WithdrawLog(vault: Bytes, sender: Bytes, receiver: Bytes, owner: Bytes, assets: Bytes, shares: Bytes, index: nat): Log {
    Log(vault, [WITHDRAW_TOPIC0, PadAddress(sender), PadAddress(receiver), PadAddress(owner)], assets + shares, index)
  }

  predicate AreWords(assets: Bytes, shares: Bytes) {
    |assets| == WORD && |shares| == WORD
  }

  /** Decoding undoes encoding, whichever address emitted the log. */
  lemma DepositRoundTrip(vault: Bytes, sender: Bytes, owner: Bytes, assets: Bytes, shares: Bytes, index: nat)
    requires AreWords(assets, shares) && |sender| == |owner| == ADDRESS_LENGTH
    ensures DecodeDeposit(DepositLog(vault, sender, owner, assets, shares, index))
         == Decoded(DecodedDeposit(Hex.Text(sender), Hex.Text(owner), WordToBigInt(assets), WordToBigInt(shares)))
  {
    var log := DepositLog(vault, sender, owner, assets, shares, index);
    TopicIsPaddedAddress(log.topics[1], sender);
    TopicIsPaddedAddress(log.topics[2], owner);
    assert log.data[0..32] == assets && log.data[32..64] == shares;
  }

  lemma WithdrawRoundTrip(vault: Bytes, sender: Bytes, receiver: Bytes, owner: Bytes, assets: Bytes, shares: Bytes, index: nat)
    requires AreWords(assets, shares) && |sender| == |receiver| == |owner| == ADDRESS_LENGTH
    ensures DecodeWithdraw(WithdrawLog(vault, sender, receiver, owner, assets, shares, index))
         == Decoded(DecodedWithdraw(Hex.Text(sender), Hex.Text(receiver), Hex.Text(owner),
                                    WordToBigInt(assets), WordToBigInt(shares)))
  {
    var log := WithdrawLog(vault, sender, receiver, owner, assets, shares, index);
    TopicIsPaddedAddress(log.topics[1], sender);
    TopicIsPaddedAddress(log.topics[2], receiver);
    TopicIsPaddedAddress(log.topics[3], owner);
    assert log.data[0..32] == assets && log.data[32..64] == shares;
  }

  /** Nothing but a conforming log decodes: whatever decodes as a deposit is some deposit's encoding. */
  lemma OnlyDepositsDecode(log: Log)
    requires DecodeDeposit(log).Decoded?
    ensures |log.topics| == 3 && |log.data| == 64
    ensures log == DepositLog(log.address, log.topics[1][12..], log.topics[2][12..], log.data[..32], log.data[32..], log.index)
    ensures |log.topics[1]| == |log.topics[2]| == WORD
  {
    hide WordToBigInt, PadAddress, AddressFromTopic;
    PaddedBack(log.topics[1]);
    PaddedBack(log.topics[2]);
    assert log.data == log.data[..32] + log.data[32..];
    assert log.topics == [log.topics[0], log.topics[1], log.topics[2]];
  }

  lemma OnlyWithdrawsDecode(log: Log)
    requires DecodeWithdraw(log).Decoded?
    ensures |log.topics| == 4 && |log.data| == 64
    ensures log == WithdrawLog(log.address, log.topics[1][12..], log.topics[2][12..], log.topics[3][12..],
                               log.data[..32], log.data[32..], log.index)
    ensures |log.topics[1]| == |log.topics[2]| == |log.topics[3]| == WORD
  {
    hide WordToBigInt, PadAddress, AddressFromTopic;
    PaddedBack(log.topics[1]);
    PaddedBack(log.topics[2]);
    PaddedBack(log.topics[3]);
    assert log.data == log.data[..32] + log.data[32..];
    assert log.topics == [log.topics[0], log.topics[1], log.topics[2], log.topics[3]];
  }

  lemma PaddedBack(topic: Bytes)
    requires AddressFromTopic(topic) != NotAnAddress
    ensures |topic| == WORD && topic == PadAddress(topic[12..])
  {
    TopicIsPaddedAddress(topic, topic[12..]);
  }

  /** The two event signatures differ, so no log is ever both. */
  lemma NeverBoth(log: Log)
    ensures DecodeDeposit(log).Unrelated? || DecodeWithdraw(log).Unrelated?
  {
    assert DEPOSIT_TOPIC0[0] != WITHDRAW_TOPIC0[0];
  }
}
