/**
 * What the traffic planner may plan, and what follows from it. Logarithms, exponentials and the normal
 * deviate are arbitrary functions of the draws; clamping, rounding and every integer step are the planner's own.
 */
module Traffic {
  import opened Options
  import opened Rng
  import StableSort

  datatype Kind = Background | Burst | Whale | Cluster | TightFee
  datatype Tag = Regular | Clustered | Large

  datatype Range = Range(min: real, max: real)
  datatype AmountShape = AmountShape(mu: real, sigma: real, minUsdc: real, maxUsdc: real)
  datatype FeeBucket = FeeBucket(maxFeeBps: int, weight: real)

  datatype Phase = Phase(
    kind: Kind,
    duration: Range,
    perMinute: Range,
    amount: AmountShape,
    maxFeeBps: seq<FeeBucket>,
    clusterProbability: real,
    clusterSize: Range,
    largeProbability: real,
    largeAmount: Range,
    deadline: Range)

  datatype Market = Market(tokenOut: string, symbol: string, decimals: nat)

  /** `markets` lists what can be bought on each destination chain. */
  datatype Config = Config(
    ethereumToArcShare: real,
    chains: (int, int),
    phases: seq<Phase>,
    tradeShare: real,
    intentsPerFire: nat,
    markets: map<int, seq<Market>>)

  /** The gap for a draw and a rate, the exponential, and the normal deviate two draws make. */
  datatype Oracles = Oracles(gap: (real, real) -> real, exp: real -> real, normal: (real, real) -> real)

  datatype Trade = Trade(market: Market, unsatisfiable: bool)

  datatype Intent = Intent(
    at: real, source: int, destination: int, amount: int, maxFeeBps: int, deadline: real,
    phase: Kind, tag: Tag, trade: Option<Trade>)

  datatype Plan = Plan(kind: Kind, startsAt: real, endsAt: real, intents: seq<Intent>)

  const ETHEREUM := 11155111
  const UNSATISFIABLE_SHARE := 0.2

  // ----- what a loaded configuration satisfies ---------------------------------

  predicate ValidRange(r: Range, least: real) {
    least <= r.min <= r.max
  }

  predicate IsShare(x: real) {
    0.0 <= x <= 1.0
  }

  predicate ValidPhase(p: Phase) {
    && ValidRange(p.duration, 1.0) && ValidRange(p.perMinute, 0.0)
    && 0.0 < p.amount.minUsdc <= p.amount.maxUsdc
    && p.maxFeeBps != [] && (forall b :: b in p.maxFeeBps ==> b.weight >= 0.0)
    && p.amount.sigma >= 0.0 && IsShare(p.clusterProbability) && IsShare(p.largeProbability)
    && ValidRange(p.clusterSize, 1.0) && ValidRange(p.largeAmount, 0.0) && ValidRange(p.deadline, 60.0)
  }

  predicate ValidConfig(c: Config) {
    && c.phases != [] && (forall p :: p in c.phases ==> ValidPhase(p)) && 1 <= c.intentsPerFire <= 5
    && IsShare(c.ethereumToArcShare) && IsShare(c.tradeShare)
  }

  // ----- single values ----------------------------------------------------------

  function Clamp(x: real, min: real, max: real): (r: real)
    ensures min <= max ==> min <= r <= max && (r == x || (x < min && r == min) || (max < x && r == max))
  {
    var raised := if x < min then min else x;
    if raised < max then raised else max
  }

  /** Whole USDC to base units. */
  function Usdc(whole: real): int {
    Round(whole * 1000000.0)
  }

  function ToCents(whole: real): real {
    Round(whole * 100.0) as real / 100.0
  }

  /** The base-unit amount a log-normal draw turns into. */
  function AmountFrom(shape: AmountShape, whole: real): int {
    Usdc(ToCents(Clamp(whole, shape.minUsdc, shape.maxUsdc)))
  }

  function LogNormal(o: Oracles, shape: AmountShape, u: real, v: real): real {
    o.exp(shape.mu + Scaled(shape.sigma, o.normal(u, v)))
  }

  /** The amount of a large intent, from one draw. */
  function LargeFrom(p: Phase, draw: real): int {
    Usdc(Round(p.largeAmount.min + Scaled(draw, p.largeAmount.max - p.largeAmount.min)) as real)
  }

  /** The amount of a trade, from one draw. */
  function TradeFrom(draw: real): int {
    Usdc(ToCents(1.0 + Scaled(draw, 8.0 - 1.0)))
  }

  function Weights(buckets: seq<FeeBucket>): (w: seq<real>)
    ensures |w| == |buckets| && forall i :: 0 <= i < |w| ==> w[i] == buckets[i].weight
  {
    seq(|buckets|, i requires 0 <= i < |buckets| => buckets[i].weight)
  }

  // ----- what a planned intent must look like --------------------------------------

  /** A bucket of the phase, and never one of weight zero while another has weight. */
  predicate FeeFits(buckets: seq<FeeBucket>, fee: int) {
    exists b :: b in buckets && b.maxFeeBps == fee && (b.weight > 0.0 || forall c :: c in buckets ==> c.weight <= 0.0)
  }

  predicate Unit(draw: real) {
    0.0 <= draw < 1.0
  }

  predicate Positive(draw: real) {
    0.0 < draw < 1.0
  }

  ghost predicate LargeDrawn(p: Phase, amount: int) {
    exists draw :: Unit(draw) && amount == LargeFrom(p, draw)
  }

  ghost predicate TradeDrawn(amount: int) {
    exists draw :: Unit(draw) && amount == TradeFrom(draw)
  }

  ghost predicate PlainDrawn(o: Oracles, shape: AmountShape, amount: int) {
    exists u, v :: Positive(u) && Positive(v) && amount == AmountFrom(shape, LogNormal(o, shape, u, v))
  }

  ghost predicate AmountFits(o: Oracles, p: Phase, i: Intent) {
    if i.tag == Large then LargeDrawn(p, i.amount)
    else if i.trade.Some? then TradeDrawn(i.amount)
    else PlainDrawn(o, p.amount, i.amount)
  }

  /** A kind of arrival its probability allows. */
  predicate KindFits(p: Phase, tag: Tag) {
    match tag
    case Large => p.largeProbability > 0.0
    case Clustered => p.largeProbability < 1.0 && p.clusterProbability > 0.0
    case Regular => p.largeProbability < 1.0 && p.clusterProbability < 1.0
  }

  predicate HasMarket(c: Config, destination: int) {
    destination in c.markets && c.markets[destination] != []
  }

  predicate TradeFits(c: Config, i: Intent) {
    match i.trade
    case Some(trade) =>
      i.tag != Large && c.tradeShare > 0.0 && i.destination in c.markets && trade.market in c.markets[i.destination]
    case None => i.tag == Large || c.tradeShare < 1.0 || !HasMarket(c, i.destination)
  }

  /** The direction the Ethereum share favours: from Ethereum when the first configured chain is it, else from the second. */
  function Forward(c: Config): (int, int) {
    var (a, b) := c.chains;
    if a == ETHEREUM then (a, b) else (b, a)
  }

  /** Which way an arrival goes, from one draw. */
  function DirectionFor(c: Config, draw: real): (int, int) {
    var (first, second) := Forward(c);
    if draw < c.ethereumToArcShare then (first, second) else (second, first)
  }

  predicate DirectionFits(c: Config, source: int, destination: int) {
    || ((source, destination) == Forward(c) && c.ethereumToArcShare > 0.0)
    || ((destination, source) == Forward(c) && c.ethereumToArcShare < 1.0)
  }

  ghost predicate IntentFits(c: Config, o: Oracles, p: Phase, i: Intent) {
    && DirectionFits(c, i.source, i.destination) && KindFits(p, i.tag)
    && p.deadline.min <= i.deadline < p.deadline.max + 1.0
    && FeeFits(p.maxFeeBps, i.maxFeeBps) && AmountFits(o, p, i) && TradeFits(c, i) && i.phase == p.kind
  }

  // ----- arrivals -------------------------------------------------------------------

  /** Everything one tick of the arrival process emits. */
  datatype Arrival = Arrival(t: real, tag: Tag, intents: seq<Intent>)

  predicate TimedFrom(a: Arrival, k: nat)
    requires k < |a.intents|
  {
    if a.tag == Clustered then a.t <= a.intents[k].at <= a.t + 30.0
    else a.t + (3 * k) as real <= a.intents[k].at <= a.t + (15 * k) as real
  }

  predicate Whole(x: real) {
    x.Floor as real == x
  }

  /** Between whole bounds a cluster is no larger than configured; otherwise it can overshoot by up to two. */
  predicate ClusterSized(r: Range, n: nat) {
    r.min <= n as real < r.max + 2.0 && (Whole(r.min) && Whole(r.max) ==> n as real <= r.max)
  }

  /** A salvo of exactly `intentsPerFire`, or a cluster of the configured size, sharing direction and deadline. */
  ghost predicate ArrivalFits(c: Config, o: Oracles, p: Phase, a: Arrival) {
    && (if a.tag == Clustered
        then ClusterSized(p.clusterSize, |a.intents|)
        else |a.intents| == c.intentsPerFire)
    && forall k :: 0 <= k < |a.intents| ==>
         && IntentFits(c, o, p, a.intents[k]) && TimedFrom(a, k) && a.intents[k].tag == a.tag
         && a.intents[k].source == a.intents[0].source && a.intents[k].destination == a.intents[0].destination
         && a.intents[k].deadline == a.intents[0].deadline
  }

  function At(i: Intent): real {
    i.at
  }

  /** Everything emitted, arrival after arrival. */
  function Emitted(arrivals: seq<Arrival>): seq<Intent> {
    if arrivals == [] then [] else arrivals[0].intents + Emitted(arrivals[1..])
  }

  /** Each at least a second after the one before it, the first after `since`, and all before the end. */
  predicate Spaced(arrivals: seq<Arrival>, since: real, endsAt: real) {
    arrivals == [] || (since + 1.0 <= arrivals[0].t < endsAt && Spaced(arrivals[1..], arrivals[0].t, endsAt))
  }

  /** The rate of a phase, from one draw. */
  function Rate(p: Phase, draw: real): real {
    p.perMinute.min + Scaled(draw, p.perMinute.max - p.perMinute.min)
  }

  /** The whole seconds to the next arrival, at least one. */
  function Tick(o: Oracles, draw: real, rate: real): real {
    var seconds := Round(o.gap(draw, rate));
    if seconds < 1 then 1.0 else seconds as real
  }

  // ----- amounts ------------------------------------------------------------------

  lemma RoundMonotone(x: real, y: real)
    requires x <= y
    ensures Round(x) <= Round(y)
  {}

  lemma WholeUsdc(n: int)
    ensures Usdc(n as real) == n * 1_000_000
  {
    assert (n * 1_000_000) as real == n as real * 1000000.0;
  }

  lemma CentsExact(n: int)
    ensures Usdc(n as real / 100.0) == n * 10_000
  {
    assert n as real / 100.0 * 1000000.0 == (n * 10_000) as real;
  }

  /** Whatever the draw, the amount is whole cents between the rounded bounds. */
  lemma AmountIsClampedCents(shape: AmountShape, whole: real)
    requires shape.minUsdc <= shape.maxUsdc
    ensures AmountFrom(shape, whole) == Round(Clamp(whole, shape.minUsdc, shape.maxUsdc) * 100.0) * 10_000
    ensures Round(shape.minUsdc * 100.0) <= AmountFrom(shape, whole) / 10_000 <= Round(shape.maxUsdc * 100.0)
  {
    var capped := Clamp(whole, shape.minUsdc, shape.maxUsdc);
    CentsExact(Round(capped * 100.0));
    RoundMonotone(shape.minUsdc * 100.0, capped * 100.0);
    RoundMonotone(capped * 100.0, shape.maxUsdc * 100.0);
  }

  /** What the three kinds of amount come to, whatever is drawn. */
  lemma AmountsBounded(o: Oracles, p: Phase, i: Intent)
    requires ValidPhase(p) && AmountFits(o, p, i)
    ensures i.tag == Large ==>
              i.amount % 1_000_000 == 0 && Round(p.largeAmount.min) <= i.amount / 1_000_000 <= Round(p.largeAmount.max)
    ensures i.tag != Large && i.trade.Some? ==> i.amount % 10_000 == 0 && 1_000_000 <= i.amount <= 8_000_000
    ensures i.tag != Large && i.trade.None? ==>
              i.amount % 10_000 == 0
              && Round(p.amount.minUsdc * 100.0) <= i.amount / 10_000 <= Round(p.amount.maxUsdc * 100.0)
  {
    hide Round, Scaled, Usdc, LargeFrom, TradeFrom, AmountFrom, LogNormal;
    if i.tag == Large {
      var draw :| Unit(draw) && i.amount == LargeFrom(p, draw);
      LargeBounded(p, draw);
    } else if i.trade.Some? {
      var draw :| Unit(draw) && i.amount == TradeFrom(draw);
      TradeBounded(draw);
    } else {
      var u, v :| Positive(u) && Positive(v) && i.amount == AmountFrom(p.amount, LogNormal(o, p.amount, u, v));
      AmountIsClampedCents(p.amount, LogNormal(o, p.amount, u, v));
    }
  }

  lemma LargeBounded(p: Phase, draw: real)
    requires p.largeAmount.min <= p.largeAmount.max && Unit(draw)
    ensures LargeFrom(p, draw) % 1_000_000 == 0
    ensures Round(p.largeAmount.min) <= LargeFrom(p, draw) / 1_000_000 <= Round(p.largeAmount.max)
  {
    hide Round, Scaled, Usdc;
    var whole := p.largeAmount.min + Scaled(draw, p.largeAmount.max - p.largeAmount.min);
    ScaledDraw(draw, p.largeAmount.max - p.largeAmount.min);
    WholeUsdc(Round(whole));
    RoundMonotone(p.largeAmount.min, whole);
    RoundMonotone(whole, p.largeAmount.max);
  }

  lemma TradeBounded(draw: real)
    requires Unit(draw)
    ensures TradeFrom(draw) % 10_000 == 0 && 1_000_000 <= TradeFrom(draw) <= 8_000_000
  {
    hide Round, Scaled, Usdc;
    var whole := 1.0 + Scaled(draw, 8.0 - 1.0);
    ScaledDraw(draw, 8.0 - 1.0);
    CentsExact(Round(whole * 100.0));
    RoundMonotone(100.0, whole * 100.0);
    RoundMonotone(whole * 100.0, 800.0);
    RoundOfWhole(100);
    RoundOfWhole(800);
  }

  lemma RoundOfWhole(n: int)
    ensures Round(n as real) == n
  {}

  // ----- arrivals in their phase ----------------------------------------------------------

  /** Both ends of every intent differ exactly when the two configured chains do. */
  lemma EndsDifferIff(c: Config, o: Oracles, p: Phase, i: Intent)
    requires IntentFits(c, o, p, i)
    ensures i.source != i.destination <==> c.chains.0 != c.chains.1
  {}

  ghost predicate InWindow(c: Config, o: Oracles, p: Phase, i: Intent, startsAt: real, endsAt: real) {
    IntentFits(c, o, p, i) && startsAt + 1.0 <= i.at < endsAt + 60.0
  }

  lemma {:induction false} SpacedCount(arrivals: seq<Arrival>, since: real, endsAt: real)
    requires Spaced(arrivals, since, endsAt) && arrivals != []
    ensures |arrivals| as real < endsAt - since
    decreases |arrivals|
  {
    if |arrivals| > 1 {
      SpacedCount(arrivals[1..], arrivals[0].t, endsAt);
    }
  }

  lemma ArrivalInWindow(c: Config, o: Oracles, p: Phase, a: Arrival, startsAt: real, endsAt: real)
    requires ValidConfig(c) && ArrivalFits(c, o, p, a) && startsAt + 1.0 <= a.t < endsAt
    ensures forall i :: i in a.intents ==> InWindow(c, o, p, i, startsAt, endsAt)
  {
    forall k | 0 <= k < |a.intents| ensures InWindow(c, o, p, a.intents[k], startsAt, endsAt) {
      assert TimedFrom(a, k) && IntentFits(c, o, p, a.intents[k]);
    }
  }

  lemma {:induction false} EmittedInWindow(c: Config, o: Oracles, p: Phase, arrivals: seq<Arrival>, since: real, startsAt: real, endsAt: real)
    requires ValidConfig(c) && startsAt <= since && Spaced(arrivals, since, endsAt)
    requires forall a :: a in arrivals ==> ArrivalFits(c, o, p, a)
    ensures forall i :: i in Emitted(arrivals) ==> InWindow(c, o, p, i, startsAt, endsAt)
    decreases |arrivals|
  {
    if arrivals != [] {
      hide ArrivalFits, InWindow;
      assert arrivals[0] in arrivals;
      ArrivalInWindow(c, o, p, arrivals[0], startsAt, endsAt);
      EmittedInWindow(c, o, p, arrivals[1..], arrivals[0].t, startsAt, endsAt);
    }
  }

  // ----- schedules -----------------------------------------------------------------------

  function End(plans: seq<Plan>, startsAt: real): real {
    if plans == [] then startsAt else plans[|plans| - 1].endsAt
  }

  /** Phases laid end to end from `startsAt`, each at least a second long and begun short of the horizon. */
  predicate Tiles(plans: seq<Plan>, startsAt: real, horizon: real) {
    plans == [] ||
    (var front, last := plans[..|plans| - 1], plans[|plans| - 1];
     && Tiles(front, startsAt, horizon)
     && last.startsAt == End(front, startsAt) < horizon && last.startsAt + 1.0 <= last.endsAt)
  }

  predicate Covers(plan: Plan, time: real) {
    plan.startsAt <= time < plan.endsAt
  }

  lemma {:induction false} TilesEndsGrow(plans: seq<Plan>, j: nat, startsAt: real, horizon: real)
    requires Tiles(plans, startsAt, horizon) && j < |plans|
    ensures plans[j].endsAt <= End(plans, startsAt)
  {
    if j < |plans| - 1 {
      TilesEndsGrow(plans[..|plans| - 1], j, startsAt, horizon);
    }
  }

  /** Each phase starts where the one before it ended, and all but the last end short of the horizon. */
  lemma {:induction false} TilesJoin(plans: seq<Plan>, k: nat, startsAt: real, horizon: real)
    requires Tiles(plans, startsAt, horizon) && k < |plans|
    ensures plans[k].startsAt == if k == 0 then startsAt else plans[k - 1].endsAt
    ensures k + 1 < |plans| ==> plans[k].endsAt < horizon
  {
    var front := plans[..|plans| - 1];
    if k + 1 < |plans| {
      TilesJoin(front, k, startsAt, horizon);
      TilesEndsGrow(front, k, startsAt, horizon);
    }
  }

  /** Every moment up to the end of the schedule belongs to exactly one of its phases. */
  lemma {:induction false} EachMomentInOnePhase(plans: seq<Plan>, startsAt: real, horizon: real, time: real) returns (k: nat)
    requires Tiles(plans, startsAt, horizon) && startsAt <= time < End(plans, startsAt)
    ensures k < |plans| && Covers(plans[k], time)
    ensures forall j :: 0 <= j < |plans| && Covers(plans[j], time) ==> j == k
    decreases |plans|
  {
    var n := |plans| - 1;
    var front := plans[..n];
    if time < plans[n].startsAt {
      k := EachMomentInOnePhase(front, startsAt, horizon, time);
      assert forall j :: 0 <= j < n ==> front[j] == plans[j];
    } else {
      k := n;
      forall j | 0 <= j < n ensures !Covers(plans[j], time) {
        TilesEndsGrow(front, j, startsAt, horizon);
      }
    }
  }

  /** Planning ends: there are at most as many phases as seconds to fill, rounded up. */
  lemma {:induction false} PhasesBounded(plans: seq<Plan>, startsAt: real, horizon: real)
    requires Tiles(plans, startsAt, horizon)
    ensures startsAt + |plans| as real <= End(plans, startsAt)
    ensures plans != [] ==> |plans| as real < horizon - startsAt + 1.0
  {
    if plans != [] {
      PhasesBounded(plans[..|plans| - 1], startsAt, horizon);
    }
  }
}
