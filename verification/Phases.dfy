/** The traffic planner: samplers, one phase at a time, and whole schedules, each reading the draws as `Planner` says. */
module Phases {
  import opened Options
  import opened Rng
  import opened Traffic
  import opened Planner
  import StableSort

  // ----- the samplers ------------------------------------------------------------------

  method SampleTrade(c: Config, destination: int, rng: Source) returns (trade: Option<Trade>)
    requires rng.Valid()
    modifies rng
    ensures Got(trade, rng.taken) == TradeAt(c, destination, rng.draws, old(rng.taken))
    ensures trade.Some? <==>
              c.tradeShare > 0.0 && destination in c.markets && c.markets[destination] != []
              && rng.draws(old(rng.taken)) < c.tradeShare
    ensures trade.Some? ==> trade.value.market in c.markets[destination]
  {
    if c.tradeShare <= 0.0 {
      return None;
    }
    var markets := if destination in c.markets then c.markets[destination] else [];
    if markets == [] {
      return None;
    }
    var draw := rng.Next();
    if draw >= c.tradeShare {
      return None;
    }
    ghost var pick := rng.draws(rng.taken);
    var n := rng.IntBetween(0.0, (|markets| - 1) as real);
    assert n.Floor == MarketAt(markets, pick);
    var again := rng.Next();
    return Some(Trade(markets[n.Floor], again < UNSATISFIABLE_SHARE));
  }

  method SampleLogNormal(shape: AmountShape, oracles: Oracles, rng: Source) returns (whole: real, ghost u: nat)
    requires rng.Valid()
    modifies rng
    ensures u < rng.taken - 1
    ensures FirstPositive(rng.draws, old(rng.taken), u) && FirstPositive(rng.draws, u + 1, rng.taken - 1)
    ensures whole == LogNormal(oracles, shape, rng.draws(u), rng.draws(rng.taken - 1))
  {
    hide Scaled;
    var first := rng.NextNonZero();
    u := rng.taken - 1;
    var second := rng.NextNonZero();
    whole := oracles.exp(shape.mu + Scaled(shape.sigma, oracles.normal(first, second)));
  }

  method SampleAmount(p: Phase, oracles: Oracles, rng: Source) returns (amount: int)
    requires rng.Valid()
    modifies rng
    ensures forall tag :: tag != Large ==>
              Got(amount, rng.taken) == AmountAt(oracles, p, tag, None, rng.draws, old(rng.taken))
  {
    hide AmountFrom, LogNormal, FirstPositive;
    var whole, u := SampleLogNormal(p.amount, oracles, rng);
    PositiveIsThere(rng.draws, old(rng.taken), u);
    PositiveIsThere(rng.draws, u + 1, rng.taken - 1);
    amount := CentsOf(p.amount, whole);
  }

  method CentsOf(shape: AmountShape, whole: real) returns (amount: int)
    ensures amount == AmountFrom(shape, whole)
  {
    var raised := if whole < shape.minUsdc then shape.minUsdc else whole;
    var capped := if shape.maxUsdc < raised then shape.maxUsdc else raised;
    amount := Usdc(ToCents(capped));
  }

  method SampleTradeAmount(rng: Source) returns (amount: int)
    requires rng.Valid()
    modifies rng
    ensures rng.taken == old(rng.taken) + 1 && amount == TradeFrom(rng.draws(old(rng.taken)))
  {
    hide Scaled, ToCents, Usdc;
    var whole := rng.Between(1.0, 8.0);
    amount := Usdc(ToCents(whole));
  }

  method SampleLargeAmount(p: Phase, rng: Source) returns (amount: int)
    requires rng.Valid()
    modifies rng
    ensures rng.taken == old(rng.taken) + 1 && amount == LargeFrom(p, rng.draws(old(rng.taken)))
  {
    hide Scaled, Usdc, Round;
    var whole := rng.Between(p.largeAmount.min, p.largeAmount.max);
    amount := Usdc(Round(whole) as real);
  }

  method SampleFee(p: Phase, rng: Source) returns (fee: int)
    requires rng.Valid() && p.maxFeeBps != []
    modifies rng
    ensures Got(fee, rng.taken) == FeeAt(p, rng.draws, old(rng.taken))
    ensures FeeFits(p.maxFeeBps, fee)
  {
    hide Scaled, FeeFits;
    var weights := Weights(p.maxFeeBps);
    var i := rng.WeightedIndex(weights);
    fee := p.maxFeeBps[i].maxFeeBps;
    IndexIsPick(weights, rng.draws, old(rng.taken), i);
    FeeAtFits(p, rng.draws, old(rng.taken));
  }

  /** The index the sampler by weight finds is the one the draw picks. */
  lemma IndexIsPick(weights: seq<real>, draws: nat -> real, from: nat, i: nat)
    requires IsStream(draws)
    requires Total(weights) <= 0.0 ==> i == 0
    requires Total(weights) > 0.0 ==> i < |weights| && Owns(weights, i, Scaled(draws(from), Total(weights)))
    ensures PickAt(weights, draws, from) == Got(i, from + if Total(weights) > 0.0 then 1 else 0)
  {
    hide Scaled, Owns;
    if Total(weights) > 0.0 {
      OwnerIsUnique(weights, i, PickAt(weights, draws, from).value, Scaled(draws(from), Total(weights)));
    }
  }

  method SampleDirection(c: Config, rng: Source) returns (source: int, destination: int)
    requires rng.Valid()
    modifies rng
    ensures rng.taken == old(rng.taken) + 1 && (source, destination) == DirectionFor(c, rng.draws(old(rng.taken)))
    ensures DirectionFits(c, source, destination)
  {
    var (a, b) := c.chains;
    var (first, second) := if a == ETHEREUM then (a, b) else (b, a);
    var draw := rng.Next();
    if draw < c.ethereumToArcShare {
      return first, second;
    }
    return second, first;
  }

  /** The time of the `k`-th intent of an arrival that is not a cluster. */
  method SalvoMoment(t: real, k: nat, rng: Source) returns (at: real)
    requires rng.Valid()
    modifies rng
    ensures forall tag :: tag != Clustered ==> Got(at, rng.taken) == MomentAt(tag, t, k, rng.draws, old(rng.taken))
  {
    hide Scaled;
    if k == 0 {
      return t;
    }
    var apart := rng.IntBetween(3.0, 15.0);
    at := t + Scaled(k as real, apart);
  }

  // ----- one arrival ---------------------------------------------------------------------

  method FireLarge(c: Config, p: Phase, t: real, source: int, destination: int, deadline: real, oracles: Oracles, rng: Source)
    returns (intents: seq<Intent>)
    requires rng.Valid() && p.maxFeeBps != []
    modifies rng
    ensures Got(intents, rng.taken)
         == IntentsAt(c, oracles, p, Salvo(Large, t, source, destination, deadline), c.intentsPerFire, rng.draws, old(rng.taken))
  {
    hide TradeAt, FeeAt, LargeFrom, MomentAt, FeeFits, IsStream;
    intents := [];
    for k := 0 to c.intentsPerFire
      invariant Got(intents, rng.taken)
             == IntentsAt(c, oracles, p, Salvo(Large, t, source, destination, deadline), k, rng.draws, old(rng.taken))
    {
      var at := SalvoMoment(t, k, rng);
      var amount := SampleLargeAmount(p, rng);
      var fee := SampleFee(p, rng);
      intents := intents + [Intent(at, source, destination, amount, fee, deadline, p.kind, Large, None)];
    }
  }

  method FireRegular(c: Config, p: Phase, t: real, source: int, destination: int, deadline: real, oracles: Oracles, rng: Source)
    returns (intents: seq<Intent>)
    requires rng.Valid() && p.maxFeeBps != []
    modifies rng
    ensures Got(intents, rng.taken)
         == IntentsAt(c, oracles, p, Salvo(Regular, t, source, destination, deadline), c.intentsPerFire, rng.draws, old(rng.taken))
  {
    hide TradeAt, FeeAt, AmountAt, MomentAt, FeeFits, IsStream;
    intents := [];
    for k := 0 to c.intentsPerFire
      invariant Got(intents, rng.taken)
             == IntentsAt(c, oracles, p, Salvo(Regular, t, source, destination, deadline), k, rng.draws, old(rng.taken))
    {
      var trade := SampleTrade(c, destination, rng);
      var at := SalvoMoment(t, k, rng);
      var amount := SampleAnyAmount(p, Regular, trade, oracles, rng);
      var fee := SampleFee(p, rng);
      intents := intents + [Intent(at, source, destination, amount, fee, deadline, p.kind, Regular, trade)];
    }
  }

  method SampleAnyAmount(p: Phase, ghost tag: Tag, trade: Option<Trade>, oracles: Oracles, rng: Source) returns (amount: int)
    requires rng.Valid() && tag != Large
    modifies rng
    ensures Got(amount, rng.taken) == AmountAt(oracles, p, tag, trade, rng.draws, old(rng.taken))
  {
    if trade.Some? {
      amount := SampleTradeAmount(rng);
    } else {
      amount := SampleAmount(p, oracles, rng);
    }
  }

  method FireCluster(c: Config, p: Phase, t: real, source: int, destination: int, deadline: real, oracles: Oracles, rng: Source)
    returns (intents: seq<Intent>)
    requires rng.Valid() && p.maxFeeBps != []
    modifies rng
    ensures Got(intents, rng.taken)
         == IntentsAt(c, oracles, p, Salvo(Clustered, t, source, destination, deadline),
                      CountTo(Spread(rng.draws(old(rng.taken)), p.clusterSize.min, p.clusterSize.max)),
                      rng.draws, old(rng.taken) + 1)
  {
    hide TradeAt, FeeAt, AmountAt, FeeFits, IsStream, Spread, CountTo;
    ghost var s := Salvo(Clustered, t, source, destination, deadline);
    var size := rng.IntBetween(p.clusterSize.min, p.clusterSize.max);
    intents := [];
    while |intents| as real < size
      invariant Got(intents, rng.taken) == IntentsAt(c, oracles, p, s, |intents|, rng.draws, old(rng.taken) + 1)
      invariant |intents| > 0 ==> |intents| as real - 1.0 < size
      decreases size - |intents| as real
    {
      var trade := SampleTrade(c, destination, rng);
      var offset := rng.IntBetween(0.0, 30.0);
      var amount := SampleAnyAmount(p, Clustered, trade, oracles, rng);
      var fee := SampleFee(p, rng);
      intents := intents + [Intent(t + offset, source, destination, amount, fee, deadline, p.kind, Clustered, trade)];
    }
    CountIsUnique(size, |intents|);
  }

  lemma CountIsUnique(size: real, n: nat)
    requires size <= n as real && (n > 0 ==> n as real - 1.0 < size)
    ensures CountTo(size) == n
  {
    var m := CountTo(size);
    hide CountTo;
    assert m as real < n as real + 1.0 || m == 0;
    assert n as real < m as real + 1.0 || n == 0;
  }

  method Fire(c: Config, p: Phase, t: real, oracles: Oracles, rng: Source) returns (arrival: Arrival)
    requires rng.Valid() && ValidPhase(p)
    modifies rng
    ensures Got(arrival, rng.taken) == ArrivalAt(c, oracles, p, t, rng.draws, old(rng.taken))
    ensures arrival.t == t && ArrivalFits(c, oracles, p, arrival)
  {
    hide IntentsAt, ArrivalFits, Spread, CountTo, DirectionFits;
    ArrivalAtFits(c, oracles, p, t, rng.draws, rng.taken);
    var source, destination := SampleDirection(c, rng);
    var deadline := rng.IntBetween(p.deadline.min, p.deadline.max);
    var large := rng.Next();
    if large < p.largeProbability {
      var whales := FireLarge(c, p, t, source, destination, deadline, oracles, rng);
      return Arrival(t, Large, whales);
    }
    var clustered := rng.Next();
    if clustered < p.clusterProbability {
      var cluster := FireCluster(c, p, t, source, destination, deadline, oracles, rng);
      return Arrival(t, Clustered, cluster);
    }
    var salvo := FireRegular(c, p, t, source, destination, deadline, oracles, rng);
    return Arrival(t, Regular, salvo);
  }

  // ----- phases and schedules ----------------------------------------------------------------

  lemma {:induction false} EmittedAfter(intents: seq<Intent>, a: Arrival, rest: seq<Arrival>)
    ensures intents + Emitted([a] + rest) == (intents + a.intents) + Emitted(rest)
  {
    assert ([a] + rest)[1..] == rest;
  }

  method PlanPhase(c: Config, p: Phase, startsAt: real, oracles: Oracles, rng: Source) returns (plan: Plan)
    requires rng.Valid() && ValidPhase(p)
    modifies rng
    ensures Got(plan, rng.taken) == PhaseAt(c, oracles, p, startsAt, rng.draws, old(rng.taken))
  {
    hide ArrivalAt, ArrivalFits, Emitted, StableSort.Insert, Round, IsStream, Spread;
    var duration := rng.IntBetween(p.duration.min, p.duration.max);
    var perMinute := rng.Between(p.perMinute.min, p.perMinute.max);
    var endsAt := startsAt + duration;
    var intents: seq<Intent> := [];
    NothingEmitted();
    if perMinute <= 0.0 {
      return Plan(p.kind, startsAt, endsAt, intents);
    }
    ghost var whole := ArrivalsAt(c, oracles, p, startsAt, endsAt, perMinute, rng.draws, rng.taken);
    var t := startsAt;
    while true
      invariant var left := ArrivalsAt(c, oracles, p, t, endsAt, perMinute, rng.draws, rng.taken);
                intents + Emitted(left.value) == Emitted(whole.value) && left.next == whole.next
      decreases endsAt - t
    {
      ghost var left := ArrivalsAt(c, oracles, p, t, endsAt, perMinute, rng.draws, rng.taken);
      var draw := rng.Next();
      var gap := oracles.gap(draw, perMinute);
      t := t + if Round(gap) < 1 then 1.0 else Round(gap) as real;
      if t >= endsAt {
        assert left == Got([], rng.taken);
        assert intents + [] == intents;
        break;
      }
      var arrival := Fire(c, p, t, oracles, rng);
      EmittedAfter(intents, arrival, left.value[1..]);
      assert left.value == [arrival] + left.value[1..];
      intents := intents + arrival.intents;
    }
    return Plan(p.kind, startsAt, endsAt, StableSort.Sort(At, intents));
  }

  lemma NothingEmitted()
    ensures Emitted([]) == [] && StableSort.Sort(At, []) == []
  {}

  method SamplePhase(c: Config, weights: seq<real>, rng: Source) returns (phase: Phase)
    requires rng.Valid() && ValidConfig(c) && |weights| == |c.phases|
    modifies rng
    ensures Got(phase, rng.taken) == PhasePicked(c, weights, rng.draws, old(rng.taken))
  {
    hide Scaled;
    var index := rng.WeightedIndex(weights);
    IndexIsPick(weights, rng.draws, old(rng.taken), index);
    phase := c.phases[index];
  }

  /** Chooses a phase by weight and plans it. */
  method PlanNext(c: Config, weights: seq<real>, t: real, oracles: Oracles, rng: Source) returns (plan: Plan)
    requires rng.Valid() && ValidConfig(c) && |weights| == |c.phases|
    modifies rng
    ensures var phase := PhasePicked(c, weights, rng.draws, old(rng.taken));
            && Got(plan, rng.taken) == PhaseAt(c, oracles, phase.value, t, rng.draws, phase.next)
            && plan.endsAt == EndOf(phase.value, t, rng.draws, phase.next) >= t + 1.0
  {
    hide PhaseAt, PhasePicked, ValidConfig, EndOf;
    var phase := SamplePhase(c, weights, rng);
    PlannedLasts(phase, t, rng.draws, rng.taken);
    PhaseEnd(c, oracles, phase, t, rng.draws, rng.taken);
    plan := PlanPhase(c, phase, t, oracles, rng);
  }

  /** Back-to-back phases until the horizon is reached. */
  method PlanSchedule(c: Config, weights: seq<real>, startsAt: real, totalSeconds: real, oracles: Oracles, rng: Source)
    returns (plans: seq<Plan>)
    requires rng.Valid() && ValidConfig(c) && |weights| == |c.phases|
    modifies rng
    ensures Got(plans, rng.taken)
         == ScheduleAt(c, oracles, weights, startsAt, startsAt + totalSeconds, rng.draws, old(rng.taken))
    ensures Tiles(plans, startsAt, startsAt + totalSeconds) && End(plans, startsAt) >= startsAt + totalSeconds
    ensures forall plan :: plan in plans ==> Picked(c, oracles, weights, plan)
  {
    hide ValidConfig, PhaseAt, IsStream, PhasePicked, EndOf, Picked, Tiles, End;
    var horizon := startsAt + totalSeconds;
    SchedulePicks(c, oracles, weights, startsAt, horizon, rng.draws, rng.taken);
    ScheduleJoins(c, oracles, weights, startsAt, horizon, rng.draws, rng.taken);
    ghost var whole := ScheduleAt(c, oracles, weights, startsAt, horizon, rng.draws, rng.taken);
    plans := [];
    var t := startsAt;
    while t < horizon
      invariant var left := ScheduleAt(c, oracles, weights, t, horizon, rng.draws, rng.taken);
                plans + left.value == whole.value && left.next == whole.next
      decreases horizon - t
    {
      ghost var left := ScheduleAt(c, oracles, weights, t, horizon, rng.draws, rng.taken);
      var plan := PlanNext(c, weights, t, oracles, rng);
      assert left.value == [plan] + left.value[1..];
      plans := plans + [plan];
      t := plan.endsAt;
    }
    assert plans + [] == plans;
  }
}
