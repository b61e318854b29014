/** Byte strings, and the two composite ids the indexer builds from them. */
module ByteStrings {

  type Byte = b: int | 0 <= b < 256

  type Bytes = seq<Byte>

  const HASH_LENGTH: nat := 32
  const ADDRESS_LENGTH: nat := 20
  const I32_LIMIT: nat := 0x8000_0000

  /** A non-negative 32-bit integer as four little-endian bytes. */
  function FromI32(n: nat): (bs: Bytes)
    requires n < I32_LIMIT
    ensures |bs| == 4
  {
    [n % 256, n / 256 % 256, n / 65536 % 256, n / 16777216]
  }

  function ToI32(bs: Bytes): int
    requires |bs| == 4
  {
    (bs[0] as int) + 256 * (bs[1] as int) + 65536 * (bs[2] as int) + 16777216 * (bs[3] as int)
  }

  lemma I32RoundTrip(n: nat)
    requires n < I32_LIMIT
    ensures ToI32(FromI32(n)) == n
  {
    var a, b, c := n / 256, n / 65536, n / 16777216;
    assert b == a / 256 && c == b / 256;
    assert n == n % 256 + 256 * a && a == a % 256 + 256 * b && b == b % 256 + 256 * c;
  }

  /** One id per (transaction, log) pair. */
  function EventId(txHash: Bytes, logIndex: nat): (id: Bytes)
    requires logIndex < I32_LIMIT
  {
    txHash + FromI32(logIndex)
  }

  /** One id per (intent, vault) pair. */
  function FillId(intentId: Bytes, vault: Bytes): Bytes {
    intentId + vault
  }

  lemma EventIdInjective(h1: Bytes, l1: nat, h2: Bytes, l2: nat)
    requires l1 < I32_LIMIT && l2 < I32_LIMIT
    requires EventId(h1, l1) == EventId(h2, l2)
    ensures h1 == h2 && l1 == l2
  {
    assert |h1| == |h2|;
    assert h1 == EventId(h1, l1)[..|h1|] == EventId(h2, l2)[..|h2|] == h2;
    assert FromI32(l1) == EventId(h1, l1)[|h1|..] == EventId(h2, l2)[|h2|..] == FromI32(l2);
    I32RoundTrip(l1);
    I32RoundTrip(l2);
  }

  /** Intent ids share one length, so two fills of different intents or vaults never share an id. */
  lemma FillIdInjective(i1: Bytes, v1: Bytes, i2: Bytes, v2: Bytes)
    requires |i1| == |i2|
    requires FillId(i1, v1) == FillId(i2, v2)
    ensures i1 == i2 && v1 == v2
  {
    assert i1 == FillId(i1, v1)[..|i1|] == FillId(i2, v2)[..|i2|] == i2;
    assert v1 == FillId(i1, v1)[|i1|..] == FillId(i2, v2)[|i2|..] == v2;
  }
}
