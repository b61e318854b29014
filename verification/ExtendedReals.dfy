/** Numbers as a division by zero leaves them, and picking by weights among such. Between them finite results stay exact. */
module ExtendedReals {
  import opened Rng

  datatype Number = Finite(value: real) | Infinity | NegativeInfinity | NaN

  function Quotient(a: real, b: real): Number
    requires b >= 0.0
  {
    if b > 0.0 then Finite(a / b) else if a > 0.0 then Infinity else if a < 0.0 then NegativeInfinity else NaN
  }

  /** The greater of zero and `n`; not a number when `n` is none. */
  function AtLeastZero(n: Number): Number {
    match n
    case Finite(value) => Finite(Max0(value))
    case NegativeInfinity => Finite(0.0)
    case _ => n
  }

  /** Addition where the second operand has been raised to zero. */
  function Plus(a: Number, b: Number): Number {
    if a.NaN? || b.NaN? then NaN
    else if a.Finite? && b.Finite? then Finite(a.value + b.value)
    else if a.Finite? then b
    else if b.Finite? || a == b then a
    else NaN
  }

  function Minus(a: Number, b: Number): Number {
    Plus(a, match b
            case Finite(value) => Finite(-value)
            case Infinity => NegativeInfinity
            case NegativeInfinity => Infinity
            case NaN => NaN)
  }

  /** A draw's share of `n`. */
  function Share(draw: real, n: Number): Number
    requires 0.0 <= draw < 1.0
  {
    if n.Finite? then Finite(Scaled(draw, n.value)) else if draw == 0.0 then NaN else n
  }

  predicate IsNegative(n: Number) {
    n.NegativeInfinity? || (n.Finite? && n.value < 0.0)
  }

  predicate Swamps(n: Number) {
    n.Infinity? || n.NaN?
  }

  predicate SomeSwamps(weights: seq<Number>) {
    exists k :: 0 <= k < |weights| && Swamps(weights[k])
  }

  /** The weights as reals, where none swamps the sum; a negative infinity weighs nothing. */
  function Values(weights: seq<Number>): (w: seq<real>)
    ensures |w| == |weights|
    ensures forall k :: 0 <= k < |w| ==> w[k] == if weights[k].Finite? then weights[k].value else 0.0
  {
    seq(|weights|, k requires 0 <= k < |weights| => if weights[k].Finite? then weights[k].value else 0.0)
  }

  /** The sampler by weight, as it treats weights that are not finite: one that swamps the sum sends every draw to the last index. */
  method WeightedIndex(weights: seq<Number>, rng: Source) returns (i: nat)
    requires rng.Valid()
    modifies rng
    ensures SomeSwamps(weights) ==> i == |weights| - 1 && rng.taken == old(rng.taken) + 1
    ensures !SomeSwamps(weights) && Total(Values(weights)) <= 0.0 ==> i == 0 && rng.taken == old(rng.taken)
    ensures !SomeSwamps(weights) && Total(Values(weights)) > 0.0 ==>
              && rng.taken == old(rng.taken) + 1 && i < |weights|
              && Owns(Values(weights), i, Scaled(rng.draws(old(rng.taken)), Total(Values(weights)))) && Values(weights)[i] > 0.0
  {
    hide Scaled, Before, SomeSwamps, Values;
    var total := Finite(0.0);
    NoneYet(weights);
    for k := 0 to |weights|
      invariant rng.taken == old(rng.taken)
      invariant if SomeSwamps(weights[..k]) then Swamps(total) else total == Finite(Before(Values(weights), k))
    {
      SwampStep(weights, k);
      WeightStep(weights, k);
      total := Plus(total, AtLeastZero(weights[k]));
    }
    assert weights[..|weights|] == weights;
    if IsNegative(total) || total == Finite(0.0) {
      return 0;
    }
    var draw := rng.Next();
    var r := Share(draw, total);
    if total.Finite? {
      TotalZeroIff(Values(weights), |weights|);
      ScaledDraw(draw, total.value);
    }
    for k := 0 to |weights|
      invariant rng.taken == old(rng.taken) + 1
      invariant if SomeSwamps(weights) then Swamps(r)
                else r == Finite(Scaled(draw, total.value) - Before(Values(weights), k)) && r.value >= 0.0
    {
      SwampStep(weights, k);
      WeightStep(weights, k);
      r := Minus(r, AtLeastZero(weights[k]));
      if IsNegative(r) {
        return k;
      }
    }
    return |weights| - 1;
  }

  lemma SwampStep(weights: seq<Number>, k: nat)
    requires k < |weights|
    ensures SomeSwamps(weights[..k + 1]) <==> SomeSwamps(weights[..k]) || Swamps(weights[k])
    ensures Swamps(weights[k]) ==> SomeSwamps(weights)
  {
    var more, fewer := weights[..k + 1], weights[..k];
    assert more[k] == weights[k];
    assert forall j :: 0 <= j < k ==> more[j] == fewer[j];
  }

  lemma WeightStep(weights: seq<Number>, k: nat)
    requires k < |weights|
    ensures !Swamps(weights[k]) ==>
              AtLeastZero(weights[k]) == Finite(Before(Values(weights), k + 1) - Before(Values(weights), k))
  {}

  lemma NoneYet(weights: seq<Number>)
    ensures !SomeSwamps(weights[..0]) && Before(Values(weights), 0) == 0.0
  {}
}
