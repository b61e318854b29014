/** When a phase can plan a transfer of nothing. */
module EmptyTransfers {
  import opened Options
  import opened Rng
  import opened Traffic
  import opened Planner
  import StableSort

  // ----- what the arbitrary functions must be like ----------------------------------

  ghost predicate AtMostBelow(exp: real -> real, bound: real, e: real) {
    forall x :: x <= bound ==> exp(x) <= e
  }

  ghost predicate Vanishes(exp: real -> real, e: real) {
    exists bound :: AtMostBelow(exp, bound, e)
  }

  ghost predicate ReachesDown(normal: (real, real) -> real, z: real) {
    exists u, v :: Positive(u) && Positive(v) && normal(u, v) <= z
  }

  /** The exponential gets as small as you like, and the normal deviate is unbounded below. */
  ghost predicate LogNormalLike(o: Oracles) {
    (forall e :: e > 0.0 ==> Vanishes(o.exp, e)) && (forall z :: ReachesDown(o.normal, z))
  }

  /** A zero draw makes no gap, so the next arrival comes after the least second. */
  ghost predicate ZeroMakesNoGap(o: Oracles) {
    forall rate :: rate > 0.0 ==> o.gap(0.0, rate) == 0.0
  }

  // ----- single intents ---------------------------------------------------------------

  /** The phase can plan an intent that is neither large nor a trade. */
  predicate PlainPossible(c: Config, p: Phase) {
    && p.largeProbability < 1.0
    && (|| c.tradeShare < 1.0
        || (c.ethereumToArcShare > 0.0 && !HasMarket(c, Forward(c).1))
        || (c.ethereumToArcShare < 1.0 && !HasMarket(c, Forward(c).0)))
  }

  /** The least a plain amount can be before rounding: its minimum, unless there is no spread to reach it. */
  function LeastPlain(o: Oracles, shape: AmountShape): real {
    if shape.sigma == 0.0 then Clamp(o.exp(shape.mu), shape.minUsdc, shape.maxUsdc) else shape.minUsdc
  }

  /** A large intent worth half a USDC and a plain one worth half a cent, when the phase can plan them at all. */
  predicate NeverEmpty(c: Config, o: Oracles, p: Phase) {
    && (p.largeProbability > 0.0 ==> p.largeAmount.min >= 0.5)
    && (PlainPossible(c, p) ==> LeastPlain(o, p.amount) >= 0.005)
  }

  lemma RoundReaches(x: real, n: int)
    ensures Round(x) >= n <==> x >= n as real - 0.5
  {}

  lemma PlainPositiveIff(shape: AmountShape, whole: real)
    requires shape.minUsdc <= shape.maxUsdc
    ensures AmountFrom(shape, whole) > 0 <==> Clamp(whole, shape.minUsdc, shape.maxUsdc) >= 0.005
  {
    hide Round;
    AmountIsClampedCents(shape, whole);
    RoundReaches(Clamp(whole, shape.minUsdc, shape.maxUsdc) * 100.0, 1);
  }

  /** Some draws make the amount its least. */
  lemma LeastIsReached(o: Oracles, shape: AmountShape) returns (u: real, v: real)
    requires LogNormalLike(o) && 0.0 < shape.minUsdc <= shape.maxUsdc && shape.sigma >= 0.0
    ensures Positive(u) && Positive(v)
    ensures Clamp(LogNormal(o, shape, u, v), shape.minUsdc, shape.maxUsdc) == LeastPlain(o, shape)
  {
    hide Scaled;
    assert Vanishes(o.exp, shape.minUsdc);
    var bound :| AtMostBelow(o.exp, bound, shape.minUsdc);
    var z := if shape.sigma == 0.0 then 0.0 else (bound - shape.mu) / shape.sigma;
    assert ReachesDown(o.normal, z);
    u, v :| Positive(u) && Positive(v) && o.normal(u, v) <= z;
    SpreadDown(shape.sigma, o.normal(u, v), z, bound - shape.mu);
  }

  lemma SpreadDown(sigma: real, z: real, limit: real, drop: real)
    requires sigma >= 0.0 && z <= limit
    requires sigma > 0.0 ==> limit == drop / sigma
    ensures sigma == 0.0 ==> Scaled(sigma, z) == 0.0
    ensures sigma > 0.0 ==> Scaled(sigma, z) <= drop
  {
    if sigma > 0.0 {
      ScaleOrders(z, limit, sigma);
      assert Scaled(limit, sigma) == drop && Scaled(z, sigma) == Scaled(sigma, z);
    }
  }

  lemma LeastIsLeast(o: Oracles, shape: AmountShape, u: real, v: real)
    requires 0.0 < shape.minUsdc <= shape.maxUsdc
    ensures LeastPlain(o, shape) <= Clamp(LogNormal(o, shape, u, v), shape.minUsdc, shape.maxUsdc)
  {
    assert shape.sigma == 0.0 ==> Scaled(shape.sigma, o.normal(u, v)) == 0.0;
  }

  lemma PositiveWhenNeverEmpty(c: Config, o: Oracles, p: Phase, i: Intent)
    requires ValidPhase(p) && NeverEmpty(c, o, p) && IntentFits(c, o, p, i)
    ensures i.amount > 0
  {
    hide LogNormal, LeastPlain, AmountFrom, Round, LargeDrawn, TradeDrawn;
    AmountsBounded(o, p, i);
    if i.tag == Large {
      RoundReaches(p.largeAmount.min, 1);
    } else if i.trade.None? {
      assert PlainPossible(c, p);
      var u, v :| Positive(u) && Positive(v) && i.amount == AmountFrom(p.amount, LogNormal(o, p.amount, u, v));
      LeastIsLeast(o, p.amount, u, v);
      PlainPositiveIff(p.amount, LogNormal(o, p.amount, u, v));
    }
  }

  // ----- whole plans ---------------------------------------------------------------

  /** The phase can have an arrival: a rate above zero, and more than the one second the first takes. */
  predicate CanArrive(p: Phase) {
    p.perMinute.max > 0.0 && p.duration.max > 1.0
  }

  lemma SpreadOfZero(min: real, max: real)
    ensures Spread(0.0, min, max) == min
  {
    assert Scaled(0.0, max - min + 1.0) == 0.0;
  }

  /** A draw that makes the phase last more than a second. */
  lemma LongDraw(r: Range) returns (draw: real)
    requires ValidRange(r, 1.0) && r.max > 1.0
    ensures Unit(draw) && Spread(draw, r.min, r.max) > 1.0
  {
    hide Scaled;
    draw := if r.min > 1.0 then 0.0 else 1.0 / r.max;
    if r.min > 1.0 {
      SpreadOfZero(r.min, r.max);
    } else {
      DivideOut(0.0, r.max, 1.0);
      DivideOut(1.0, r.max, 1.0);
      DivideOut(draw, r.max, 1.0);
      assert Scaled(0.0, r.max) == 0.0 && Scaled(1.0, r.max) == r.max by { ScaledEnds(r.max); }
    }
  }

  lemma ScaledEnds(width: real)
    ensures Scaled(0.0, width) == 0.0 && Scaled(1.0, width) == width
  {}

  /** A draw that makes the rate positive. */
  lemma BusyDraw(p: Phase) returns (draw: real)
    requires ValidRange(p.perMinute, 0.0) && p.perMinute.max > 0.0
    ensures Unit(draw) && Rate(p, draw) > 0.0
  {
    draw := if p.perMinute.min > 0.0 then 0.0 else 0.5;
  }

  function After(list: seq<real>): nat -> real {
    (n: nat) => if n < |list| then list[n] else 0.5
  }

  predicate Units(list: seq<real>) {
    forall k :: 0 <= k < |list| ==> Unit(list[k])
  }

  lemma AfterIsStream(list: seq<real>)
    requires Units(list)
    ensures IsStream(After(list))
  {
    var draws := After(list);
    forall i: nat ensures NonZeroFrom(draws, i) {
      assert draws(i + |list|) > 0.0;
    }
  }

  /** The draws of a phase whose first arrival comes at once, up to its deadline, which is the least. */
  function Opening(long: real, busy: real, direction: real): seq<real> {
    [long, busy, 0.0, direction, 0.0]
  }

  /** A draw that is no trade, where one is drawn at all. */
  function Untraded(c: Config, destination: int): seq<real> {
    if c.tradeShare <= 0.0 || !HasMarket(c, destination) then [] else [c.tradeShare]
  }

  /** The draws that decide the kind of the first arrival, and its size when a cluster. */
  function KindDraws(p: Phase): seq<real> {
    if p.clusterProbability < 1.0 then [p.largeProbability, p.clusterProbability] else [p.largeProbability, 0.0, 0.0]
  }

  function LargeList(long: real, busy: real): seq<real> {
    Opening(long, busy, 0.0) + [0.0, 0.0]
  }

  /** Up to where the first plain intent's amount is drawn. */
  function PlainFront(c: Config, p: Phase, long: real, busy: real, direction: real): seq<real> {
    Opening(long, busy, direction) + KindDraws(p) + Untraded(c, DirectionFor(c, direction).1)
    + if p.clusterProbability < 1.0 then [] else [0.0]
  }

  /** A phase with a first arrival plans that arrival's first intent. */
  lemma FirstIntentPlanned(c: Config, o: Oracles, p: Phase, draws: nat -> real) returns (plan: Plan)
    requires IsStream(draws) && ValidPhase(p) && ValidConfig(c) && ZeroMakesNoGap(o)
    requires Spread(draws(0), p.duration.min, p.duration.max) > 1.0 && Rate(p, draws(1)) > 0.0 && draws(2) == 0.0
    ensures Planned(c, o, p, plan)
    ensures var (s, n, from) := DecidedAt(c, p, 1.0, draws, 3);
            IntentAt(c, o, p, s, 0, draws, from).value in plan.intents
  {
    hide ValidConfig, Spread, Rate, IntentAt, StableSort.Sort, IntentsAt, DecidedAt, DirectionFor;
    plan := PhaseAt(c, o, p, 0.0, draws, 0).value;
    var arrivals := PhaseArrivals(c, o, p, 0.0, draws, 0).value;
    assert Tick(o, 0.0, Rate(p, draws(1))) == 1.0;
    var (s, n, from) := DecidedAt(c, p, 1.0, draws, 3);
    assert arrivals[0] == ArrivalAt(c, o, p, 1.0, draws, 3).value;
    SomeIntents(c, p, draws);
    FirstOfIntents(c, o, p, s, n, draws, from);
    var i := IntentAt(c, o, p, s, 0, draws, from).value;
    assert i in arrivals[0].intents;
    assert i in Emitted(arrivals);
    StableSort.SortMembers(At, Emitted(arrivals), i);
  }

  lemma SomeIntents(c: Config, p: Phase, draws: nat -> real)
    requires IsStream(draws) && ValidPhase(p) && ValidConfig(c)
    ensures DecidedAt(c, p, 1.0, draws, 3).1 > 0
  {
    hide Spread;
    SpreadInReach(draws(7), p.clusterSize.min, p.clusterSize.max);
  }

  lemma {:induction false} FirstOfIntents(c: Config, o: Oracles, p: Phase, s: Salvo, n: nat, draws: nat -> real, i: nat)
    requires IsStream(draws) && p.maxFeeBps != [] && n > 0
    ensures IntentAt(c, o, p, s, 0, draws, i).value in IntentsAt(c, o, p, s, n, draws, i).value
    decreases n
  {
    hide IntentAt;
    if n == 1 {
      assert IntentsAt(c, o, p, s, 0, draws, i) == Got([], i);
    } else {
      FirstOfIntents(c, o, p, s, n - 1, draws, i);
    }
  }

  /** Some plan holds the least large intent. */
  lemma LargePlanned(c: Config, o: Oracles, p: Phase) returns (plan: Plan, i: Intent)
    requires ValidConfig(c) && ValidPhase(p) && CanArrive(p) && ZeroMakesNoGap(o) && p.largeProbability > 0.0
    ensures Planned(c, o, p, plan) && i in plan.intents && i.amount == Round(p.largeAmount.min) * 1_000_000
  {
    hide ValidConfig, Spread, Rate, Round, Usdc, FeeAt, Planned, IsStream, ZeroMakesNoGap;
    var long := LongDraw(p.duration);
    var busy := BusyDraw(p);
    var list := LargeList(long, busy);
    var draws := After(list);
    AfterIsStream(list);
    plan := FirstIntentPlanned(c, o, p, draws);
    var (s, n, from) := DecidedAt(c, p, 1.0, draws, 3);
    assert s.tag == Large && from == 6 && draws(6) == 0.0;
    i := IntentAt(c, o, p, s, 0, draws, from).value;
    assert Scaled(0.0, p.largeAmount.max - p.largeAmount.min) == 0.0;
    WholeUsdc(Round(p.largeAmount.min));
  }

  /** An arrival decided by the plain front is plain, and its first amount is drawn where the front ends. */
  lemma PlainFirst(c: Config, o: Oracles, p: Phase, front: seq<real>, long: real, busy: real, direction: real, u: real, v: real)
    requires ValidPhase(p) && PlainHead(c, p, direction) && Unit(long) && Unit(busy) && Positive(u) && Positive(v)
    requires front == PlainFront(c, p, long, busy, direction) && IsStream(After(front + [u, v]))
    ensures var draws := After(front + [u, v]);
            var (s, n, from) := DecidedAt(c, p, 1.0, draws, 3);
            IntentAt(c, o, p, s, 0, draws, from).value.amount == AmountFrom(p.amount, LogNormal(o, p.amount, u, v))
  {
    hide Spread, Rate, FeeAt, AmountFrom, LogNormal, DirectionFor, IsStream;
    var draws := After(front + [u, v]);
    PlainDecided(c, p, front + [u, v], long, busy, direction);
    var (s, n, from) := DecidedAt(c, p, 1.0, draws, 3);
    PlainStarts(c, p, front, long, busy, direction, s.t, s.tag, from, u, v);
    PositiveIsThere(draws, |front|, |front|);
    PositiveIsThere(draws, |front| + 1, |front| + 1);
  }

  /** The direction leads where a plain intent may go. */
  predicate PlainHead(c: Config, p: Phase, direction: real) {
    Unit(direction) && p.largeProbability < 1.0 && (HasMarket(c, DirectionFor(c, direction).1) ==> c.tradeShare < 1.0)
  }

  lemma PlainDecided(c: Config, p: Phase, list: seq<real>, long: real, busy: real, direction: real)
    requires ValidPhase(p) && p.largeProbability < 1.0
    requires Opening(long, busy, direction) + KindDraws(p) <= list
    ensures var (s, n, from) := DecidedAt(c, p, 1.0, After(list), 3);
            && s.t == 1.0 && s.destination == DirectionFor(c, direction).1 && from == 5 + |KindDraws(p)|
            && s.tag == if p.clusterProbability < 1.0 then Regular else Clustered
  {
    hide Spread, DirectionFor, CountTo;
    var draws, head := After(list), Opening(long, busy, direction) + KindDraws(p);
    assert forall k :: 0 <= k < |head| ==> draws(k) == head[k];
  }

  lemma PlainStarts(c: Config, p: Phase, front: seq<real>, long: real, busy: real, direction: real,
                    t: real, tag: Tag, from: nat, u: real, v: real)
    requires PlainHead(c, p, direction) && front == PlainFront(c, p, long, busy, direction)
    requires tag == (if p.clusterProbability < 1.0 then Regular else Clustered) && from == 5 + |KindDraws(p)|
    requires IsStream(After(front + [u, v]))
    ensures var draws := After(front + [u, v]);
            var trade := TradeAt(c, DirectionFor(c, direction).1, draws, from);
            && trade.value == None && MomentAt(tag, t, 0, draws, trade.next).next == |front|
            && draws(|front|) == u && draws(|front| + 1) == v
  {
    hide Spread, DirectionFor;
    var draws, destination := After(front + [u, v]), DirectionFor(c, direction).1;
    assert Untraded(c, destination) != [] ==> draws(from) == c.tradeShare;
  }

  /** Some plan holds the least plain intent. */
  lemma PlainPlanned(c: Config, o: Oracles, p: Phase) returns (plan: Plan, i: Intent)
    requires ValidConfig(c) && ValidPhase(p) && CanArrive(p) && ZeroMakesNoGap(o) && PlainPossible(c, p) && LogNormalLike(o)
    ensures Planned(c, o, p, plan) && i in plan.intents && (i.amount > 0 <==> LeastPlain(o, p.amount) >= 0.005)
  {
    hide Spread, Rate, LogNormal, LeastPlain, AmountFrom, LogNormalLike, Planned, IsStream, ZeroMakesNoGap, PlainHead, IntentAt,
      DecidedAt, PlainPossible, PlainFront;
    var long := LongDraw(p.duration);
    var busy := BusyDraw(p);
    var direction := PlainDirection(c, p);
    var u, v := LeastIsReached(o, p.amount);
    var front := PlainFront(c, p, long, busy, direction);
    var draws := After(front + [u, v]);
    PlainUnits(c, p, long, busy, direction);
    AfterIsStream(front + [u, v]);
    plan := FirstIntentPlanned(c, o, p, draws);
    PlainFirst(c, o, p, front, long, busy, direction, u, v);
    var (s, n, from) := DecidedAt(c, p, 1.0, draws, 3);
    i := IntentAt(c, o, p, s, 0, draws, from).value;
    PlainPositiveIff(p.amount, LogNormal(o, p.amount, u, v));
  }

  lemma PlainUnits(c: Config, p: Phase, long: real, busy: real, direction: real)
    requires ValidPhase(p) && IsShare(c.tradeShare) && PlainHead(c, p, direction) && Unit(long) && Unit(busy)
    ensures var front := PlainFront(c, p, long, busy, direction);
            Units(front) && |front| >= 3 && front[0] == long && front[1] == busy && front[2] == 0.0
  {}

  lemma PlainDirection(c: Config, p: Phase) returns (direction: real)
    requires IsShare(c.ethereumToArcShare) && PlainPossible(c, p) && IsShare(c.tradeShare)
    ensures PlainHead(c, p, direction)
  {
    var forward := c.ethereumToArcShare > 0.0 && (c.tradeShare < 1.0 || !HasMarket(c, Forward(c).1));
    direction := if forward then 0.0 else c.ethereumToArcShare;
  }

  lemma OneSecond(draw: real)
    requires Unit(draw)
    ensures Spread(draw, 1.0, 1.0) == 1.0
  {
    WholeReach(draw, 1.0, 1.0);
  }

  /** Without a rate, or with only one second, nothing arrives. */
  lemma NothingArrives(c: Config, o: Oracles, p: Phase, plan: Plan)
    requires ValidPhase(p) && !CanArrive(p) && Planned(c, o, p, plan)
    ensures plan.intents == []
  {
    hide Spread, ArrivalsAt;
    var startsAt: real, draws: nat -> real, i: nat :| IsStream(draws) && p.maxFeeBps != [] && plan == PhaseAt(c, o, p, startsAt, draws, i).value;
    if p.perMinute.max <= 0.0 {
      assert Rate(p, draws(i + 1)) == 0.0;
    } else {
      AtMostOneArrivalASecond(c, o, p, startsAt, draws, i);
      OneSecond(draws(i));
    }
    assert Emitted([]) == [];
  }

  /** Every planned intent is one the phase allows. */
  lemma PlannedFits(c: Config, o: Oracles, p: Phase, plan: Plan, i: Intent)
    requires ValidConfig(c) && ValidPhase(p) && Planned(c, o, p, plan) && i in plan.intents
    ensures IntentFits(c, o, p, i)
  {
    hide Planned, IntentFits, StableSort.Ordered;
    PlannedInWindow(c, o, p, plan);
    assert InWindow(c, o, p, i, plan.startsAt, plan.endsAt);
  }

  /** No draws make the phase plan an empty transfer. */
  ghost predicate NoEmptyPlan(c: Config, o: Oracles, p: Phase) {
    forall plan, i :: Planned(c, o, p, plan) && i in plan.intents ==> i.amount > 0
  }

  /**
   * A phase never plans an empty transfer exactly when nothing can arrive in it, or its large amounts start at half
   * a USDC and its plain ones at half a cent, each where the phase can plan that kind at all. A minimum above zero
   * is not enough.
   */
  lemma NeverPlansEmptyIff(c: Config, o: Oracles, p: Phase)
    requires ValidConfig(c) && ValidPhase(p) && LogNormalLike(o) && ZeroMakesNoGap(o)
    ensures NoEmptyPlan(c, o, p) <==> (CanArrive(p) ==> NeverEmpty(c, o, p))
  {
    hide Planned, IntentFits, LeastPlain, LogNormalLike, ZeroMakesNoGap, Round, PlainPossible, CanArrive;
    if !CanArrive(p) {
      forall plan | Planned(c, o, p, plan) ensures plan.intents == [] {
        NothingArrives(c, o, p, plan);
      }
    } else if NeverEmpty(c, o, p) {
      forall plan, i | Planned(c, o, p, plan) && i in plan.intents ensures i.amount > 0 {
        PlannedFits(c, o, p, plan, i);
        PositiveWhenNeverEmpty(c, o, p, i);
      }
    } else if p.largeProbability > 0.0 && p.largeAmount.min < 0.5 {
      var plan, i := LargePlanned(c, o, p);
      RoundReaches(p.largeAmount.min, 1);
    } else {
      var plan, i := PlainPlanned(c, o, p);
    }
  }
}
