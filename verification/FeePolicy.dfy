/** The vault's posted price: a four-tier step function of utilisation. */
module FeePolicy {

  const BPS: nat := 10_000
  const MAX_FEE_BPS: nat := 150
  const MAX_UINT16: nat := 65_535

  datatype Policy = Policy(
    baseFeeBps: int,
    midFeeBps: int,
    highFeeBps: int,
    criticalFeeBps: int,
    midThresholdBps: int,
    highThresholdBps: int,
    criticalThresholdBps: int)

  datatype PolicyError =
    | NotUint16
    | ThresholdsNotAscending
    | ThresholdAboveDenominator
    | FeesDecreasing
    | AboveProtocolCeiling

  datatype Verdict = Accepted | Refused(error: PolicyError)

  predicate IsUint16(v: int) {
    0 <= v <= MAX_UINT16
  }

  /** The checks in the order they throw. */
  function Validate(p: Policy): Verdict
  {
    if !(IsUint16(p.baseFeeBps) && IsUint16(p.midFeeBps) && IsUint16(p.highFeeBps) && IsUint16(p.criticalFeeBps)
         && IsUint16(p.midThresholdBps) && IsUint16(p.highThresholdBps) && IsUint16(p.criticalThresholdBps)) then
      Refused(NotUint16)
    else if !(p.midThresholdBps < p.highThresholdBps && p.highThresholdBps < p.criticalThresholdBps) then
      Refused(ThresholdsNotAscending)
    else if p.criticalThresholdBps > BPS then
      Refused(ThresholdAboveDenominator)
    else if !(p.baseFeeBps <= p.midFeeBps && p.midFeeBps <= p.highFeeBps && p.highFeeBps <= p.criticalFeeBps) then
      Refused(FeesDecreasing)
    else if p.criticalFeeBps > MAX_FEE_BPS then
      Refused(AboveProtocolCeiling)
    else
      Accepted
  }

  function FeeBpsAt(p: Policy, utilisationBps: int): int
  {
    if utilisationBps >= p.criticalThresholdBps then p.criticalFeeBps
    else if utilisationBps >= p.highThresholdBps then p.highFeeBps
    else if utilisationBps >= p.midThresholdBps then p.midFeeBps
    else p.baseFeeBps
  }

  /** Integer division that truncates toward zero, as the indexer's big integers divide. */
  function TruncDiv(a: int, b: int): int
    requires b != 0
  {
    if (0 <= a && 0 < b) || (a <= 0 && b < 0) then Abs(a) / Abs(b) else -(Abs(a) / Abs(b))
  }

  function Abs(a: int): nat {
    if a < 0 then -a else a
  }

  /** LP-owned cash: the balance held less protocol fees, never below zero. */
  function LpCash(liquid: int, protocolFees: int): nat {
    if liquid - protocolFees > 0 then liquid - protocolFees else 0
  }

  /** Exposure over LP-owned total assets, in basis points; a vault with no assets reads as fully used. */
  function Utilisation(liquid: int, protocolFees: int, exposure: int): int
  {
    var total := LpCash(liquid, protocolFees) + exposure;
    if total == 0 then BPS else TruncDiv(exposure * BPS, total)
  }

  /** Fee on an input amount, rounded up in the vault's favour. */
  function FeeAmountFor(inputAmount: nat, feeBps: nat): nat
  {
    var numerator := inputAmount * feeBps;
    var floor := numerator / BPS;
    if numerator % BPS == 0 then floor else floor + 1
  }

  /** A policy is accepted exactly when fees and thresholds are well ordered and under the two ceilings. */
  lemma AcceptedIffWellFormed(p: Policy)
    ensures Validate(p) == Accepted <==>
            && 0 <= p.baseFeeBps <= p.midFeeBps <= p.highFeeBps <= p.criticalFeeBps <= MAX_FEE_BPS
            && 0 <= p.midThresholdBps < p.highThresholdBps < p.criticalThresholdBps <= BPS
  {}

  /** Which fault a refused policy is refused for: the first in the order of the checks. */
  lemma RefusedForFirstFault(p: Policy)
    ensures Validate(p) == Refused(NotUint16) <==>
            exists v :: v in [p.baseFeeBps, p.midFeeBps, p.highFeeBps, p.criticalFeeBps,
                              p.midThresholdBps, p.highThresholdBps, p.criticalThresholdBps]
                        && !(0 <= v < 0x1_0000)
    ensures Validate(p) == Refused(ThresholdsNotAscending) ==>
              !(p.midThresholdBps < p.highThresholdBps < p.criticalThresholdBps)
    ensures Validate(p) == Refused(ThresholdAboveDenominator) ==>
              p.midThresholdBps < p.highThresholdBps < p.criticalThresholdBps && BPS < p.criticalThresholdBps
    ensures Validate(p) == Refused(FeesDecreasing) ==>
              && p.midThresholdBps < p.highThresholdBps < p.criticalThresholdBps <= BPS
              && !(p.baseFeeBps <= p.midFeeBps <= p.highFeeBps <= p.criticalFeeBps)
    ensures Validate(p) == Refused(AboveProtocolCeiling) ==>
              && p.midThresholdBps < p.highThresholdBps < p.criticalThresholdBps <= BPS
              && p.baseFeeBps <= p.midFeeBps <= p.highFeeBps <= p.criticalFeeBps && MAX_FEE_BPS < p.criticalFeeBps
  {
    var fields := [p.baseFeeBps, p.midFeeBps, p.highFeeBps, p.criticalFeeBps,
                   p.midThresholdBps, p.highThresholdBps, p.criticalThresholdBps];
    assert fields[0] in fields && fields[1] in fields && fields[2] in fields && fields[3] in fields;
    assert fields[4] in fields && fields[5] in fields && fields[6] in fields;
  }

  // ----- which tier is posted -----------------------------------------------------

  /** The fee of a tier whose threshold is reached; the base tier has none to reach. */
  predicate ReachedFee(p: Policy, utilisationBps: int, feeBps: int) {
    || feeBps == p.baseFeeBps
    || (feeBps == p.midFeeBps && p.midThresholdBps <= utilisationBps)
    || (feeBps == p.highFeeBps && p.highThresholdBps <= utilisationBps)
    || (feeBps == p.criticalFeeBps && p.criticalThresholdBps <= utilisationBps)
  }

  /** What a vault has to post: the greatest fee among the tiers it has reached. */
  ghost predicate PostsTier(p: Policy, utilisationBps: int, feeBps: int) {
    ReachedFee(p, utilisationBps, feeBps) && forall other :: ReachedFee(p, utilisationBps, other) ==> other <= feeBps
  }

  /** The fee of an accepted policy is the greatest among the tiers reached, and nothing else is. */
  lemma FeeIsGreatestReached(p: Policy, utilisationBps: int, feeBps: int)
    requires Validate(p) == Accepted
    ensures feeBps == FeeBpsAt(p, utilisationBps) <==> PostsTier(p, utilisationBps, feeBps)
  {
    assert ReachedFee(p, utilisationBps, FeeBpsAt(p, utilisationBps));
  }

  /** Each tier takes over at its own threshold, and the fee is the same all the way to the next one. */
  lemma TierTakesOver(p: Policy, u: int)
    requires Validate(p) == Accepted
    ensures u < p.midThresholdBps ==> FeeBpsAt(p, u) == p.baseFeeBps
    ensures p.midThresholdBps <= u < p.highThresholdBps ==> FeeBpsAt(p, u) == p.midFeeBps
    ensures p.highThresholdBps <= u < p.criticalThresholdBps ==> FeeBpsAt(p, u) == p.highFeeBps
    ensures p.criticalThresholdBps <= u ==> FeeBpsAt(p, u) == p.criticalFeeBps
  {}

  /** The price never falls as utilisation rises, and stays within [base, 150] basis points. */
  lemma FeeIsMonotone(p: Policy, u: int, w: int)
    requires Validate(p) == Accepted
    requires u <= w
    ensures p.baseFeeBps <= FeeBpsAt(p, u) <= FeeBpsAt(p, w) <= p.criticalFeeBps <= MAX_FEE_BPS
  {}

  /**
   * What the fee amount means: the least whole number of units that covers the
   * exact fraction, so the vault never loses a unit to rounding and never takes
   * a whole unit more than its tier allows.
   */
  lemma FeeAmountIsLeastCover(inputAmount: nat, feeBps: nat, charged: nat)
    ensures charged >= FeeAmountFor(inputAmount, feeBps) <==> charged * BPS >= inputAmount * feeBps
  {}

  /** Neither a larger input nor a higher tier ever pays less. */
  lemma FeeAmountMonotone(less: nat, more: nat, low: nat, high: nat)
    requires less <= more && low <= high
    ensures FeeAmountFor(less, low) <= FeeAmountFor(more, high)
  {
    hide FeeAmountFor;
    MulMonotone(low, high, less);
    MulMonotone(less, more, high);
    FeeAmountIsLeastCover(more, high, FeeAmountFor(more, high));
    FeeAmountIsLeastCover(less, low, FeeAmountFor(more, high));
  }

  /** Under an accepted policy no fill is ever charged more than 1.5% of its input, rounded up. */
  lemma FeeAmountUnderCeiling(p: Policy, u: int, inputAmount: nat)
    requires Validate(p) == Accepted
    ensures FeeBpsAt(p, u) >= 0
    ensures FeeAmountFor(inputAmount, FeeBpsAt(p, u)) <= FeeAmountFor(inputAmount, MAX_FEE_BPS)
  {
    FeeIsMonotone(p, u, u);
    FeeAmountMonotone(inputAmount, inputAmount, FeeBpsAt(p, u), MAX_FEE_BPS);
  }

  lemma QuotientSize(a: int, b: int)
    requires b != 0
    ensures Abs(TruncDiv(a, b)) == Abs(a) / Abs(b)
  {
    var q := Abs(a) / Abs(b);
    NotNegative(Abs(a), Abs(b));
    assert TruncDiv(a, b) == q || TruncDiv(a, b) == -q;
  }

  lemma NotNegative(n: nat, d: nat)
    requires d > 0
    ensures 0 <= n / d
  {}

  /** The quotient is the exact one with its fraction dropped, on either side of zero. */
  lemma TruncatesTowardZero(a: int, b: int)
    requires b != 0
    ensures Abs(TruncDiv(a, b)) * Abs(b) <= Abs(a) < (Abs(TruncDiv(a, b)) + 1) * Abs(b)
    ensures TruncDiv(a, b) > 0 ==> (a > 0 <==> b > 0)
    ensures TruncDiv(a, b) < 0 ==> (a > 0 <==> b < 0)
  {
    QuotientSize(a, b);
    QuotientSign(a, b);
    hide TruncDiv, Abs;
    DivisionBounds(Abs(a), Abs(b));
  }

  lemma QuotientSign(a: int, b: int)
    requires b != 0
    ensures TruncDiv(a, b) > 0 ==> (a > 0 <==> b > 0)
    ensures TruncDiv(a, b) < 0 ==> (a > 0 <==> b < 0)
    ensures Abs(b) > 0
  {
    NotNegative(Abs(a), Abs(b));
    assert a == 0 ==> Abs(a) / Abs(b) == 0;
  }

  /** The largest whole number of basis points not above the exposure's share of what LPs own; all of them when they own nothing. */
  predicate IsUtilisation(liquid: int, protocolFees: int, exposure: nat, u: int) {
    var total := (if liquid > protocolFees then liquid - protocolFees else 0) + exposure;
    if total == 0 then u == BPS else 0 <= u && u * total <= exposure * BPS < (u + 1) * total
  }

  /** The defining inequalities of utilisation: u is the largest whole number of basis points not above the exact ratio. */
  lemma UtilisationIsFloor(liquid: int, protocolFees: int, exposure: nat, u: int)
    requires liquid > protocolFees || exposure > 0
    requires u >= 0
    ensures var total := (if liquid > protocolFees then liquid - protocolFees else 0) + exposure;
            u <= Utilisation(liquid, protocolFees, exposure) <==> u * total <= exposure * BPS
  {
    var total := LpCash(liquid, protocolFees) + exposure;
    var n := exposure * BPS;
    var q := Utilisation(liquid, protocolFees, exposure);
    assert q == n / total;
    DivisionBounds(n, total);
    if u <= q {
      MulMonotone(u, q, total);
    } else {
      MulMonotone(q + 1, u, total);
    }
  }

  /** Utilisation is that share, and the only figure that is. */
  lemma UtilisationIsShare(liquid: int, protocolFees: int, exposure: nat, u: int)
    ensures u == Utilisation(liquid, protocolFees, exposure) <==> IsUtilisation(liquid, protocolFees, exposure, u)
  {
    hide Utilisation;
    if liquid > protocolFees || exposure > 0 {
      var q := Utilisation(liquid, protocolFees, exposure);
      UtilisationIsFloor(liquid, protocolFees, exposure, 0);
      UtilisationIsFloor(liquid, protocolFees, exposure, q);
      UtilisationIsFloor(liquid, protocolFees, exposure, q + 1);
      if u >= 0 {
        UtilisationIsFloor(liquid, protocolFees, exposure, u);
        UtilisationIsFloor(liquid, protocolFees, exposure, u + 1);
      }
    } else {
      NothingOwned(liquid, protocolFees);
    }
  }

  lemma NothingOwned(liquid: int, protocolFees: int)
    requires liquid <= protocolFees
    ensures Utilisation(liquid, protocolFees, 0) == BPS
  {}

  lemma DivisionBounds(n: nat, d: nat)
    requires d > 0
    ensures (n / d) * d <= n < (n / d + 1) * d
  {
    assert n == (n / d) * d + n % d;
  }

  lemma MulMonotone(a: int, b: int, c: nat)
    requires a <= b
    ensures a * c <= b * c
  {}

  lemma UtilisationInRange(liquid: int, protocolFees: int, exposure: nat)
    ensures 0 <= Utilisation(liquid, protocolFees, exposure) <= BPS
  {
    if LpCash(liquid, protocolFees) + exposure > 0 {
      UtilisationIsFloor(liquid, protocolFees, exposure, 0);
      UtilisationIsFloor(liquid, protocolFees, exposure, BPS + 1);
    }
  }

  /** A share no larger than the whole still fits when cash shrinks and exposure grows. */
  lemma ShareHolds(u: nat, cash: nat, exposure: nat, cash': nat, exposure': nat)
    requires u <= BPS && cash' <= cash && exposure <= exposure'
    requires u * (cash + exposure) <= exposure * BPS
    ensures u * (cash' + exposure') <= exposure' * BPS
  {
    var more := exposure' - exposure;
    MulMonotone(cash', cash, u);
    MulMonotone(u, BPS, more);
    assert u * (cash' + exposure') == cash' * u + u * exposure + u * more;
    assert u * (cash + exposure) == cash * u + u * exposure;
  }

  /** With no cash, everything a vault owns is lent out. */
  lemma UtilisationWhenEmpty(liquid: int, fees: int, exposure: nat)
    requires LpCash(liquid, fees) == 0
    ensures Utilisation(liquid, fees, exposure) == BPS
  {
    UtilisationInRange(liquid, fees, exposure);
    if exposure > 0 {
      UtilisationIsFloor(liquid, fees, exposure, BPS);
    }
  }

  /** More exposure against no more cash never lowers utilisation, including across the empty and clamped cases. */
  lemma UtilisationMonotone(liquid: int, fees: int, exposure: nat, liquid': int, fees': int, exposure': nat)
    requires exposure <= exposure'
    requires LpCash(liquid', fees') <= LpCash(liquid, fees)
    ensures Utilisation(liquid, fees, exposure) <= Utilisation(liquid', fees', exposure')
  {
    hide Utilisation;
    var cash, cash' := LpCash(liquid, fees), LpCash(liquid', fees');
    var u := Utilisation(liquid, fees, exposure);
    UtilisationInRange(liquid, fees, exposure);
    if cash' + exposure' > 0 && cash + exposure > 0 {
      UtilisationIsFloor(liquid, fees, exposure, u);
      UtilisationIsFloor(liquid', fees', exposure', u);
      ShareHolds(u, cash, exposure, cash', exposure');
    } else {
      UtilisationWhenEmpty(liquid', fees', exposure');
    }
  }
}
