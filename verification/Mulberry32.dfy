/** The load generator's seeded 32-bit generator: a counter stepped by a fixed odd amount, then mixed. */
module Mulberry32 {
  const MODULUS := 0x1_0000_0000
  const INCREMENT := 0x6d2b79f5

  type Word = x: int | 0 <= x < MODULUS

  function Advance(a: Word): Word {
    (a + INCREMENT) % MODULUS
  }

  function Mix(a: Word): bv32 {
    var s := a as bv32;
    var t := (s ^ (s >> 15)) * (s | 1);
    var u := t ^ (t + (t ^ (t >> 7)) * (t | 61));
    u ^ (u >> 14)
  }

  function Output(a: Word): real {
    (Mix(a) as int) as real / 4294967296.0
  }

  /** The state after `n` draws from a generator seeded with `seed`. */
  function StateAfter(seed: int, n: nat): Word {
    if n == 0 then seed % MODULUS else Advance(StateAfter(seed, n - 1))
  }

  /** The draw number `n`, counting from 0. */
  function Draw(seed: int, n: nat): real {
    Output(StateAfter(seed, n + 1))
  }

  class Generator {
    var a: Word
    ghost const seed: int
    ghost var taken: nat

    ghost predicate Valid()
      reads this
    {
      a == StateAfter(seed, taken)
    }

    constructor (seed: int)
      ensures Valid() && this.seed == seed && taken == 0
    {
      a, this.seed, taken := seed % MODULUS, seed, 0;
    }

    method Next() returns (draw: real)
      requires Valid()
      modifies this
      ensures Valid() && taken == old(taken) + 1
      ensures draw == Draw(seed, old(taken)) && 0.0 <= draw < 1.0
    {
      hide Output;
      a := (a + INCREMENT) % MODULUS;
      taken := taken + 1;
      OutputInUnit(a);
      draw := Output(a);
    }
  }

  lemma OutputInUnit(a: Word)
    ensures 0.0 <= Output(a) < 1.0
  {
    MixIsWord(a);
  }

  lemma MixIsWord(a: Word)
    ensures 0 <= Mix(a) as int < MODULUS
  {}

  // ----- the period ------------------------------------------------------------

  // INCREMENT * INVERSE == 1 + CARRY * MODULUS.
  const INVERSE := 3696798301
  const CARRY := 1576479847

  lemma AdvanceAdds(x: int)
    ensures Advance(x % MODULUS) == (x + INCREMENT) % MODULUS
  {
    var q := x / MODULUS;
    assert x == x % MODULUS + q * MODULUS;
    var r := Advance(x % MODULUS);
    var k := (x % MODULUS + INCREMENT) / MODULUS;
    assert x + INCREMENT == r + (q + k) * MODULUS;
    WholePeriodsVanish(r, q + k);
  }

  lemma {:induction false} ClosedForm(seed: int, n: nat)
    ensures StateAfter(seed, n) == (seed + n * INCREMENT) % MODULUS
  {
    hide Advance;
    if n > 0 {
      ClosedForm(seed, n - 1);
      AdvanceAdds(seed + (n - 1) * INCREMENT);
    }
  }

  /** The increment is invertible: only multiples of the modulus carry a state back to itself. */
  lemma OnlyWholePeriodsReturn(d: int)
    requires (d * INCREMENT) % MODULUS == 0
    ensures d % MODULUS == 0
  {
    var q := (d * INCREMENT) / MODULUS;
    assert d == (q * INVERSE - d * CARRY) * MODULUS;
  }

  lemma CongruentDifference(x: int, y: int)
    requires x % MODULUS == y % MODULUS
    ensures (y - x) % MODULUS == 0
  {}

  /** Two draws find the same state exactly when a whole number of periods separates them. */
  lemma SameStateIff(seed: int, i: nat, j: nat)
    ensures StateAfter(seed, i) == StateAfter(seed, j) <==> (j - i) % MODULUS == 0
  {
    hide StateAfter;
    ClosedForm(seed, i);
    ClosedForm(seed, j);
    if StateAfter(seed, i) == StateAfter(seed, j) {
      CongruentDifference(seed + i * INCREMENT, seed + j * INCREMENT);
      OnlyWholePeriodsReturn(j - i);
    }
    if (j - i) % MODULUS == 0 {
      var q := (j - i) / MODULUS;
      assert seed + j * INCREMENT == seed + i * INCREMENT + (q * INCREMENT) * MODULUS;
    }
  }

  /** The draw, within one period, that leaves the generator in state `v`. */
  function Reaches(seed: int, v: Word): (n: int)
    ensures 1 <= n <= MODULUS
  {
    var n := ((v - seed) * INVERSE) % MODULUS;
    if n == 0 then MODULUS else n
  }

  lemma WholePeriodsVanish(v: Word, k: int)
    ensures (v + k * MODULUS) % MODULUS == v
  {}

  lemma InverseSolves(seed: int, v: Word, n: int, p: int)
    requires (v - seed) * INVERSE == p * MODULUS + n
    ensures (seed + n * INCREMENT) % MODULUS == v
  {
    var k := (v - seed) * CARRY - p * INCREMENT;
    assert seed + n * INCREMENT == v + k * MODULUS;
    WholePeriodsVanish(v, k);
  }

  lemma ReachesSolves(seed: int, v: Word)
    ensures (seed + Reaches(seed, v) * INCREMENT) % MODULUS == v
  {
    var x := (v - seed) * INVERSE;
    var q, r := x / MODULUS, x % MODULUS;
    assert x == q * MODULUS + r;
    InverseSolves(seed, v, Reaches(seed, v), if r == 0 then q - 1 else q);
  }

  /** From any seed, the first 2^32 states are all the 32-bit values. */
  lemma EveryStateReached(seed: int, v: Word)
    ensures StateAfter(seed, Reaches(seed, v)) == v
  {
    hide StateAfter, Reaches;
    ClosedForm(seed, Reaches(seed, v));
    ReachesSolves(seed, v);
  }

  lemma ZeroAndNonZeroOutputs()
    ensures Output(0) == 0.0 && Output(1) > 0.0
  {
    assert Mix(0) == 0;
    assert Mix(1) == 63;
  }

  /** A draw of exactly zero comes up in every period, so samplers that take logarithms must redraw. */
  lemma ZeroIsDrawn(seed: int)
    ensures Draw(seed, Reaches(seed, 0) - 1) == 0.0
  {
    hide StateAfter, Output, Reaches;
    ZeroAndNonZeroOutputs();
    EveryStateReached(seed, 0);
  }

  /** And redrawing always ends: past every point of the sequence there is a draw above zero. */
  lemma NonZeroRecurs(seed: int, i: nat) returns (j: nat)
    ensures i <= j && Draw(seed, j) > 0.0
  {
    hide StateAfter, Output, Reaches;
    j := Reaches(seed, 1) - 1 + i * MODULUS;
    ZeroAndNonZeroOutputs();
    EveryStateReached(seed, 1);
    assert j + 1 - Reaches(seed, 1) == i * MODULUS;
    SameStateIff(seed, Reaches(seed, 1), j + 1);
  }

  /** What the mixing comes to, on the first two draws from seed 0. */
  lemma FirstDraws()
    ensures Draw(0, 0) == 1144304738.0 / 4294967296.0
    ensures Draw(0, 1) == 1416247.0 / 4294967296.0
  {
    assert StateAfter(0, 0) == 0;
    assert StateAfter(0, 1) == 1831565813;
    assert StateAfter(0, 2) == 3663131626;
    assert Mix(1831565813) == 1144304738;
    assert Mix(3663131626) == 1416247;
  }
}
