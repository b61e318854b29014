/** Draws in [0, 1) and the samplers built on them, over exact reals. */
module Rng {
  import Mulberry32

  ghost predicate NonZeroFrom(draws: nat -> real, i: nat) {
    exists j :: i <= j && draws(j) > 0.0
  }

  /** A source of draws: each in [0, 1), and never zero from some point on for good. */
  ghost predicate IsStream(draws: nat -> real) {
    && (forall i :: 0.0 <= draws(i) < 1.0)
    && (forall i :: NonZeroFrom(draws, i))
  }

  /** The nearest integer, halves upward. */
  function Round(x: real): (n: int)
    ensures n as real - 0.5 <= x < n as real + 0.5
  {
    (x + 0.5).Floor
  }

  function Scaled(draw: real, width: real): real {
    draw * width
  }

  /** The integer sampler applied to one draw. */
  function Spread(draw: real, min: real, max: real): real {
    min + Scaled(draw, max - min + 1.0).Floor as real
  }

  function Max0(w: real): real {
    if w < 0.0 then 0.0 else w
  }

  /** The positive weight lying before index `n`. */
  function Before(weights: seq<real>, n: nat): real
    requires n <= |weights|
  {
    if n == 0 then 0.0 else Before(weights, n - 1) + Max0(weights[n - 1])
  }

  function Total(weights: seq<real>): real {
    Before(weights, |weights|)
  }

  /** Index `i` owns the stretch of the total its own weight covers. */
  predicate Owns(weights: seq<real>, i: nat, r: real)
    requires i < |weights|
  {
    Before(weights, i) <= r < Before(weights, i + 1)
  }

  class Source {
    const draws: nat -> real
    var taken: nat

    ghost predicate Valid() {
      IsStream(draws)
    }

    constructor (draws: nat -> real)
      requires IsStream(draws)
      ensures Valid() && taken == 0 && this.draws == draws
    {
      this.draws, taken := draws, 0;
    }

    method Next() returns (draw: real)
      requires Valid()
      modifies this
      ensures taken == old(taken) + 1 && draw == draws(old(taken)) && 0.0 <= draw < 1.0
    {
      draw := draws(taken);
      taken := taken + 1;
    }

    /** Redraws until the draw is not zero, as the logarithm that follows needs. */
    method NextNonZero() returns (draw: real)
      requires Valid()
      modifies this
      ensures old(taken) < taken && draw == draws(taken - 1) && 0.0 < draw < 1.0
      ensures forall i :: old(taken) <= i < taken - 1 ==> draws(i) == 0.0
    {
      assert NonZeroFrom(draws, taken);
      ghost var j :| taken <= j && draws(j) > 0.0;
      draw := Next();
      while draw == 0.0
        invariant old(taken) < taken && draw == draws(taken - 1) && 0.0 <= draw < 1.0
        invariant forall i :: old(taken) <= i < taken - 1 ==> draws(i) == 0.0
        invariant draw == 0.0 ==> taken <= j
        decreases j + 1 - taken
      {
        draw := Next();
      }
    }

    method IntBetween(min: real, max: real) returns (n: real)
      requires Valid()
      modifies this
      ensures taken == old(taken) + 1 && n == Spread(draws(old(taken)), min, max)
      ensures min <= max ==> min <= n < max + 1.0
    {
      var draw := Next();
      n := min + Scaled(draw, max - min + 1.0).Floor as real;
      if min <= max {
        SpreadInReach(draw, min, max);
      }
    }

    method Between(min: real, max: real) returns (x: real)
      requires Valid()
      modifies this
      ensures taken == old(taken) + 1 && x == min + Scaled(draws(old(taken)), max - min)
      ensures min <= max ==> min <= x <= max
      ensures min < max ==> x < max
    {
      var draw := Next();
      x := min + Scaled(draw, max - min);
      if min <= max {
        ScaledDraw(draw, max - min);
      }
    }

    /** Inverse sampling: the draw falls in exactly one index's stretch, and that index is returned. */
    method WeightedIndex(weights: seq<real>) returns (i: nat)
      requires Valid()
      modifies this
      ensures taken == old(taken) + if Total(weights) > 0.0 then 1 else 0
      ensures Total(weights) <= 0.0 ==> i == 0
      ensures Total(weights) > 0.0 ==>
                i < |weights| && Owns(weights, i, Scaled(draws(old(taken)), Total(weights))) && weights[i] > 0.0
    {
      var total := 0.0;
      for k := 0 to |weights|
        invariant total == Before(weights, k)
      {
        total := total + Max0(weights[k]);
      }
      if total <= 0.0 {
        return 0;
      }
      var draw := Next();
      ScaledDraw(draw, total);
      var r := Scaled(draw, total);
      ghost var point := r;
      i := 0;
      while i < |weights|
        invariant i <= |weights|
        invariant r == point - Before(weights, i) && r >= 0.0
      {
        r := r - Max0(weights[i]);
        if r < 0.0 {
          return;
        }
        i := i + 1;
      }
      // The fallback to the last index is for rounding; exact draws never get here.
      assert false;
    }
  }

  // ----- laws ------------------------------------------------------------------

  lemma ScaledSign(a: real, width: real)
    requires a >= 0.0 && width >= 0.0
    ensures Scaled(a, width) >= 0.0
    ensures a > 0.0 && width > 0.0 ==> Scaled(a, width) > 0.0
  {}

  lemma ScaleOrders(a: real, b: real, width: real)
    requires a <= b && 0.0 <= width
    ensures Scaled(a, width) <= Scaled(b, width)
    ensures a < b && width > 0.0 ==> Scaled(a, width) < Scaled(b, width)
  {
    var gap := b - a;
    ScaledSign(gap, width);
    assert Scaled(b, width) == Scaled(a, width) + Scaled(gap, width);
  }

  lemma ScaledDraw(draw: real, width: real)
    requires 0.0 <= draw < 1.0 && 0.0 <= width
    ensures 0.0 <= Scaled(draw, width) <= width
    ensures width > 0.0 ==> Scaled(draw, width) < width
  {
    ScaleOrders(draw, 1.0, width);
    ScaleOrders(0.0, draw, width);
  }

  lemma DivideOut(draw: real, width: real, a: real)
    requires width > 0.0
    ensures a / width <= draw <==> a <= Scaled(draw, width)
  {
    var q := a / width;
    assert Scaled(q, width) == a;
    if q <= draw {
      ScaleOrders(q, draw, width);
    } else {
      ScaleOrders(draw, q, width);
    }
  }

  lemma SpreadInReach(draw: real, min: real, max: real)
    requires 0.0 <= draw < 1.0 && min <= max
    ensures min <= Spread(draw, min, max) < max + 1.0
  {
    hide Scaled;
    ScaledDraw(draw, max - min + 1.0);
  }

  lemma WholeReach(draw: real, min: real, max: real)
    requires 0.0 <= draw < 1.0 && min <= max && (max - min).Floor as real == max - min
    ensures min <= Spread(draw, min, max) <= max
  {
    hide Scaled;
    ScaledDraw(draw, max - min + 1.0);
    FloorBelow(Scaled(draw, max - min + 1.0), (max - min).Floor);
  }

  lemma FloorBelow(x: real, k: int)
    requires 0.0 <= x < k as real + 1.0
    ensures 0 <= x.Floor <= k
  {}

  /** The draw that takes the integer sampler furthest when its bounds are not a whole number apart. */
  function Overshoot(min: real, max: real): real
    requires min <= max
  {
    ((max - min).Floor + 1) as real / (max - min + 1.0)
  }

  lemma OvershootLands(min: real, max: real)
    requires min <= max && (max - min).Floor as real != max - min
    ensures 0.0 <= Overshoot(min, max) < 1.0 && Spread(Overshoot(min, max), min, max) > max
  {
    var width, top := max - min + 1.0, ((max - min).Floor + 1) as real;
    DivideOut(Overshoot(min, max), width, top);
    DivideOut(1.0, width, top);
    assert Scaled(1.0, width) == width;
    assert 0.0 / width == 0.0;
    DivideOut(0.0, width, top);
  }

  /** The integer sampler keeps within its bounds for every draw exactly when they are a whole number apart. */
  lemma SpreadWithinBoundsIff(min: real, max: real)
    requires min <= max
    ensures (forall draw :: 0.0 <= draw < 1.0 ==> min <= Spread(draw, min, max) <= max)
            <==> (max - min).Floor as real == max - min
  {
    hide Spread;
    if (max - min).Floor as real == max - min {
      forall draw | 0.0 <= draw < 1.0 ensures min <= Spread(draw, min, max) <= max {
        WholeReach(draw, min, max);
      }
    } else {
      OvershootLands(min, max);
    }
  }

  /** Between whole bounds every integer comes up, each on a stretch of draws of the same width. */
  lemma SpreadIsUniform(min: int, max: int, n: int, draw: real)
    requires min <= n <= max && 0.0 <= draw < 1.0
    ensures var width := (max - min + 1) as real;
            Spread(draw, min as real, max as real) == n as real
            <==> (n - min) as real / width <= draw < (n - min + 1) as real / width
  {
    hide Scaled;
    var width, a := (max - min + 1) as real, (n - min) as real;
    assert width == max as real - min as real + 1.0;
    DivideOut(draw, width, a);
    DivideOut(draw, width, a + 1.0);
    assert Scaled(draw, width).Floor == n - min <==> a <= Scaled(draw, width) < a + 1.0;
  }

  lemma {:induction false} BeforeMonotone(weights: seq<real>, i: nat, j: nat)
    requires i <= j <= |weights|
    ensures Before(weights, i) <= Before(weights, j)
  {
    if i < j {
      BeforeMonotone(weights, i, j - 1);
    }
  }

  /** No two indices own the same point, so the owner is the only answer the sampler could give. */
  lemma OwnerIsUnique(weights: seq<real>, i: nat, j: nat, r: real)
    requires i < |weights| && j < |weights| && Owns(weights, i, r) && Owns(weights, j, r)
    ensures i == j
  {
    if i < j {
      BeforeMonotone(weights, i + 1, j);
    } else if j < i {
      BeforeMonotone(weights, j + 1, i);
    }
  }

  lemma {:induction false} TotalZeroIff(weights: seq<real>, n: nat)
    requires n <= |weights|
    ensures Before(weights, n) >= 0.0
    ensures Before(weights, n) == 0.0 <==> forall i :: 0 <= i < n ==> weights[i] <= 0.0
  {
    if n > 0 {
      TotalZeroIff(weights, n - 1);
    }
  }

  /** The draws that select index `i` are a stretch whose length is its share of the positive weight. */
  lemma SelectedOnItsShare(weights: seq<real>, i: nat, draw: real)
    requires i < |weights| && Total(weights) > 0.0
    ensures Owns(weights, i, Scaled(draw, Total(weights)))
            <==> Before(weights, i) / Total(weights) <= draw < Before(weights, i + 1) / Total(weights)
    ensures Before(weights, i + 1) / Total(weights) - Before(weights, i) / Total(weights)
            == Max0(weights[i]) / Total(weights)
  {
    hide Scaled;
    DivideOut(draw, Total(weights), Before(weights, i));
    DivideOut(draw, Total(weights), Before(weights, i + 1));
    DivideDifference(Before(weights, i + 1), Before(weights, i), Total(weights));
  }

  lemma DivideDifference(a: real, b: real, c: real)
    requires c > 0.0
    ensures a / c - b / c == (a - b) / c
  {}

  /** The seeded generator is such a source, whatever its seed. */
  lemma SeededIsStream(seed: int)
    ensures IsStream((n: nat) => Mulberry32.Draw(seed, n))
  {
    hide Mulberry32.StateAfter, Mulberry32.Output;
    var draws := (n: nat) => Mulberry32.Draw(seed, n);
    forall i: nat ensures 0.0 <= draws(i) < 1.0 && NonZeroFrom(draws, i) {
      Mulberry32.OutputInUnit(Mulberry32.StateAfter(seed, i + 1));
      var j := Mulberry32.NonZeroRecurs(seed, i);
      assert draws(j) > 0.0;
    }
  }
}
