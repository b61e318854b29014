/**
 * The plan as a function of the draws: which draw decides what, from the first to the last. A plan is therefore the
 * same whenever the draws are, and everything that holds of all draws holds of every plan.
 */
module Planner {
  import opened Options
  import opened Rng
  import opened Traffic
  import StableSort

  /** What is made of the draws from one position on, and the position after the last draw read. */
  datatype Got<T> = Got(value: T, next: nat)

  // ----- single draws ------------------------------------------------------------------

  ghost predicate FirstPositive(draws: nat -> real, i: nat, j: nat) {
    i <= j && draws(j) > 0.0 && forall k :: i <= k < j ==> draws(k) == 0.0
  }

  lemma {:induction false} FirstPositiveBefore(draws: nat -> real, i: nat, last: nat) returns (j: nat)
    requires IsStream(draws) && i <= last && draws(last) > 0.0
    ensures FirstPositive(draws, i, j)
    decreases last - i
  {
    if draws(i) > 0.0 {
      j := i;
    } else {
      j := FirstPositiveBefore(draws, i + 1, last);
    }
  }

  lemma HasFirstPositive(draws: nat -> real, i: nat)
    requires IsStream(draws)
    ensures exists j :: FirstPositive(draws, i, j)
  {
    assert NonZeroFrom(draws, i);
    var last :| i <= last && draws(last) > 0.0;
    var j := FirstPositiveBefore(draws, i, last);
  }

  /** Where redrawing from `i` until the draw is not zero stops. */
  ghost function PositiveAt(draws: nat -> real, i: nat): (j: nat)
    requires IsStream(draws)
    ensures FirstPositive(draws, i, j)
  {
    HasFirstPositive(draws, i);
    var j :| FirstPositive(draws, i, j);
    j
  }

  lemma PositiveIsThere(draws: nat -> real, i: nat, j: nat)
    requires IsStream(draws) && FirstPositive(draws, i, j)
    ensures PositiveAt(draws, i) == j
  {
    assert draws(PositiveAt(draws, i)) > 0.0 && draws(j) > 0.0;
  }

  /** The index before `n` that owns a point. */
  function OwnerBefore(weights: seq<real>, n: nat, r: real): (i: nat)
    requires n <= |weights| && 0.0 <= r < Before(weights, n)
    ensures i < n && Owns(weights, i, r)
  {
    if r >= Before(weights, n - 1) then n - 1 else OwnerBefore(weights, n - 1, r)
  }

  ghost function PickAt(weights: seq<real>, draws: nat -> real, i: nat): (g: Got<nat>)
    requires IsStream(draws)
    ensures g.value == 0 || g.value < |weights|
    ensures Total(weights) > 0.0 ==> g.value < |weights| && Owns(weights, g.value, Scaled(draws(i), Total(weights)))
  {
    if Total(weights) <= 0.0 then Got(0, i)
    else
      ScaledDraw(draws(i), Total(weights));
      Got(OwnerBefore(weights, |weights|, Scaled(draws(i), Total(weights))), i + 1)
  }

  // ----- one intent ------------------------------------------------------------------------

  ghost function TradeAt(c: Config, destination: int, draws: nat -> real, i: nat): Got<Option<Trade>>
    requires IsStream(draws)
  {
    if c.tradeShare <= 0.0 || !HasMarket(c, destination) then Got(None, i)
    else if draws(i) >= c.tradeShare then Got(None, i + 1)
    else
      var markets := c.markets[destination];
      Got(Some(Trade(markets[MarketAt(markets, draws(i + 1))], draws(i + 2) < UNSATISFIABLE_SHARE)), i + 3)
  }

  function MarketAt(markets: seq<Market>, draw: real): (n: nat)
    requires markets != [] && Unit(draw)
    ensures n < |markets|
  {
    WholeReach(draw, 0.0, (|markets| - 1) as real);
    Spread(draw, 0.0, (|markets| - 1) as real).Floor
  }

  /** The moment of an arrival's `k`-th intent. */
  function MomentAt(tag: Tag, t: real, k: nat, draws: nat -> real, i: nat): Got<real> {
    if tag == Clustered then Got(t + Spread(draws(i), 0.0, 30.0), i + 1)
    else if k == 0 then Got(t, i)
    else Got(t + Scaled(k as real, Spread(draws(i), 3.0, 15.0)), i + 1)
  }

  ghost function AmountAt(o: Oracles, p: Phase, tag: Tag, trade: Option<Trade>, draws: nat -> real, i: nat): Got<int>
    requires IsStream(draws)
  {
    if tag == Large then Got(LargeFrom(p, draws(i)), i + 1)
    else if trade.Some? then Got(TradeFrom(draws(i)), i + 1)
    else
      var u := PositiveAt(draws, i);
      var v := PositiveAt(draws, u + 1);
      Got(AmountFrom(p.amount, LogNormal(o, p.amount, draws(u), draws(v))), v + 1)
  }

  ghost function FeeAt(p: Phase, draws: nat -> real, i: nat): Got<int>
    requires IsStream(draws) && p.maxFeeBps != []
  {
    var bucket := PickAt(Weights(p.maxFeeBps), draws, i);
    Got(p.maxFeeBps[bucket.value].maxFeeBps, bucket.next)
  }

  /** What the intents of one arrival have in common. */
  datatype Salvo = Salvo(tag: Tag, t: real, source: int, destination: int, deadline: real)

  ghost function IntentAt(c: Config, o: Oracles, p: Phase, s: Salvo, k: nat, draws: nat -> real, i: nat): Got<Intent>
    requires IsStream(draws) && p.maxFeeBps != []
  {
    var trade := if s.tag == Large then Got(None, i) else TradeAt(c, s.destination, draws, i);
    var at := MomentAt(s.tag, s.t, k, draws, trade.next);
    var amount := AmountAt(o, p, s.tag, trade.value, draws, at.next);
    var fee := FeeAt(p, draws, amount.next);
    Got(Intent(at.value, s.source, s.destination, amount.value, fee.value, s.deadline, p.kind, s.tag, trade.value), fee.next)
  }

  // ----- arrivals and phases ------------------------------------------------------------------

  ghost function IntentsAt(c: Config, o: Oracles, p: Phase, s: Salvo, n: nat, draws: nat -> real, i: nat): Got<seq<Intent>>
    requires IsStream(draws) && p.maxFeeBps != []
  {
    if n == 0 then Got([], i)
    else
      var front := IntentsAt(c, o, p, s, n - 1, draws, i);
      var last := IntentAt(c, o, p, s, n - 1, draws, front.next);
      Got(front.value + [last.value], last.next)
  }

  /** The least count from zero up that reaches a size. */
  function CountTo(size: real): (n: nat)
    ensures size <= n as real && (n > 0 ==> n as real - 1.0 < size)
  {
    if size <= 0.0 then 0 else -(-size).Floor
  }

  /** How an arrival at `t` is decided, how many intents it has, and where their draws begin. */
  function DecidedAt(c: Config, p: Phase, t: real, draws: nat -> real, i: nat): (Salvo, nat, nat) {
    var (source, destination) := DirectionFor(c, draws(i));
    var deadline := Spread(draws(i + 1), p.deadline.min, p.deadline.max);
    if draws(i + 2) < p.largeProbability then
      (Salvo(Large, t, source, destination, deadline), c.intentsPerFire, i + 3)
    else if draws(i + 3) < p.clusterProbability then
      (Salvo(Clustered, t, source, destination, deadline),
       CountTo(Spread(draws(i + 4), p.clusterSize.min, p.clusterSize.max)), i + 5)
    else
      (Salvo(Regular, t, source, destination, deadline), c.intentsPerFire, i + 4)
  }

  ghost function ArrivalAt(c: Config, o: Oracles, p: Phase, t: real, draws: nat -> real, i: nat): Got<Arrival>
    requires IsStream(draws) && p.maxFeeBps != []
  {
    var (s, n, from) := DecidedAt(c, p, t, draws, i);
    var intents := IntentsAt(c, o, p, s, n, draws, from);
    Got(Arrival(t, s.tag, intents.value), intents.next)
  }

  /** The arrivals still to come at `t`: each a tick after the last, until one would reach the end. */
  ghost function ArrivalsAt(c: Config, o: Oracles, p: Phase, t: real, endsAt: real, rate: real, draws: nat -> real, i: nat)
    : Got<seq<Arrival>>
    requires IsStream(draws) && p.maxFeeBps != []
    decreases if t < endsAt then endsAt - t else 0.0
  {
    var next := t + Tick(o, draws(i), rate);
    if next >= endsAt then Got([], i + 1)
    else
      var first := ArrivalAt(c, o, p, next, draws, i + 1);
      var rest := ArrivalsAt(c, o, p, next, endsAt, rate, draws, first.next);
      Got([first.value] + rest.value, rest.next)
  }

  function EndOf(p: Phase, startsAt: real, draws: nat -> real, i: nat): real {
    startsAt + Spread(draws(i), p.duration.min, p.duration.max)
  }

  /** The arrivals of a whole phase; none when its rate is zero. */
  ghost function PhaseArrivals(c: Config, o: Oracles, p: Phase, startsAt: real, draws: nat -> real, i: nat): Got<seq<Arrival>>
    requires IsStream(draws) && p.maxFeeBps != []
  {
    var rate := Rate(p, draws(i + 1));
    if rate <= 0.0 then Got([], i + 2)
    else ArrivalsAt(c, o, p, startsAt, EndOf(p, startsAt, draws, i), rate, draws, i + 2)
  }

  ghost function PhaseAt(c: Config, o: Oracles, p: Phase, startsAt: real, draws: nat -> real, i: nat): Got<Plan>
    requires IsStream(draws) && p.maxFeeBps != []
  {
    var arrivals := PhaseArrivals(c, o, p, startsAt, draws, i);
    Got(Plan(p.kind, startsAt, EndOf(p, startsAt, draws, i), StableSort.Sort(At, Emitted(arrivals.value))), arrivals.next)
  }

  /** The phase's plan for some draws. */
  ghost predicate Planned(c: Config, o: Oracles, p: Phase, plan: Plan) {
    exists startsAt, draws, i :: IsStream(draws) && p.maxFeeBps != [] && plan == PhaseAt(c, o, p, startsAt, draws, i).value
  }

  // ----- what every plan satisfies ---------------------------------------------------------

  lemma TradeAtFits(c: Config, destination: int, draws: nat -> real, i: nat)
    requires IsStream(draws)
    ensures match TradeAt(c, destination, draws, i).value
            case Some(trade) => c.tradeShare > 0.0 && destination in c.markets && trade.market in c.markets[destination]
            case None => c.tradeShare < 1.0 || !HasMarket(c, destination)
  {}

  lemma MomentAtTimed(tag: Tag, t: real, k: nat, draws: nat -> real, i: nat)
    requires IsStream(draws)
    ensures var at := MomentAt(tag, t, k, draws, i).value;
            if tag == Clustered then t <= at <= t + 30.0 else t + (3 * k) as real <= at <= t + (15 * k) as real
  {
    hide Spread, Scaled;
    if tag == Clustered {
      WholeReach(draws(i), 0.0, 30.0);
    } else if k > 0 {
      WholeReach(draws(i), 3.0, 15.0);
      StepsApart(k, Spread(draws(i), 3.0, 15.0));
    }
  }

  lemma StepsApart(k: nat, apart: real)
    requires 3.0 <= apart <= 15.0
    ensures (3 * k) as real <= Scaled(k as real, apart) <= (15 * k) as real
  {
    var steps := k as real;
    ScaleOrders(3.0, apart, steps);
    ScaleOrders(apart, 15.0, steps);
    assert Scaled(apart, steps) == Scaled(steps, apart);
    assert Scaled(3.0, steps) == (3 * k) as real && Scaled(15.0, steps) == (15 * k) as real;
  }

  lemma AmountAtDrawn(o: Oracles, p: Phase, tag: Tag, trade: Option<Trade>, draws: nat -> real, i: nat)
    requires IsStream(draws)
    ensures var amount := AmountAt(o, p, tag, trade, draws, i).value;
            if tag == Large then LargeDrawn(p, amount)
            else if trade.Some? then TradeDrawn(amount)
            else PlainDrawn(o, p.amount, amount)
  {
    hide LargeFrom, TradeFrom, AmountFrom, LogNormal;
    assert Unit(draws(i));
    if tag != Large && trade.None? {
      var u := PositiveAt(draws, i);
      var v := PositiveAt(draws, u + 1);
      assert Positive(draws(u)) && Positive(draws(v));
    }
  }

  lemma FeeAtFits(p: Phase, draws: nat -> real, i: nat)
    requires IsStream(draws) && p.maxFeeBps != []
    ensures FeeFits(p.maxFeeBps, FeeAt(p, draws, i).value)
  {
    hide Scaled;
    var weights := Weights(p.maxFeeBps);
    TotalZeroIff(weights, |weights|);
    var bucket := PickAt(weights, draws, i).value;
    assert p.maxFeeBps[bucket] in p.maxFeeBps;
  }

  ghost predicate SalvoFits(c: Config, p: Phase, s: Salvo) {
    DirectionFits(c, s.source, s.destination) && KindFits(p, s.tag) && p.deadline.min <= s.deadline < p.deadline.max + 1.0
  }

  predicate Timed(s: Salvo, k: nat, at: real) {
    if s.tag == Clustered then s.t <= at <= s.t + 30.0 else s.t + (3 * k) as real <= at <= s.t + (15 * k) as real
  }

  predicate Shares(s: Salvo, i: Intent) {
    i.tag == s.tag && i.source == s.source && i.destination == s.destination && i.deadline == s.deadline
  }

  lemma IntentAtFits(c: Config, o: Oracles, p: Phase, s: Salvo, k: nat, draws: nat -> real, i: nat)
    requires IsStream(draws) && p.maxFeeBps != [] && SalvoFits(c, p, s)
    ensures var intent := IntentAt(c, o, p, s, k, draws, i).value;
            IntentFits(c, o, p, intent) && Timed(s, k, intent.at) && Shares(s, intent)
  {
    hide TradeAt, MomentAt, AmountAt, FeeAt, LargeDrawn, TradeDrawn, PlainDrawn, FeeFits, DirectionFits, KindFits, IsStream;
    var trade := if s.tag == Large then Got(None, i) else TradeAt(c, s.destination, draws, i);
    TradeAtFits(c, s.destination, draws, i);
    MomentAtTimed(s.tag, s.t, k, draws, trade.next);
    var at := MomentAt(s.tag, s.t, k, draws, trade.next);
    AmountAtDrawn(o, p, s.tag, trade.value, draws, at.next);
    FeeAtFits(p, draws, AmountAt(o, p, s.tag, trade.value, draws, at.next).next);
  }

  lemma {:induction false} IntentsAtFit(c: Config, o: Oracles, p: Phase, s: Salvo, n: nat, draws: nat -> real, i: nat)
    requires IsStream(draws) && p.maxFeeBps != [] && SalvoFits(c, p, s)
    ensures var intents := IntentsAt(c, o, p, s, n, draws, i).value;
            && |intents| == n
            && forall k :: 0 <= k < n ==>
                 IntentFits(c, o, p, intents[k]) && Timed(s, k, intents[k].at) && Shares(s, intents[k])
  {
    hide IntentAt, IntentFits, Timed, Shares, SalvoFits, IsStream;
    if n > 0 {
      IntentsAtFit(c, o, p, s, n - 1, draws, i);
      IntentAtFits(c, o, p, s, n - 1, draws, IntentsAt(c, o, p, s, n - 1, draws, i).next);
    }
  }

  lemma SalvoArrives(c: Config, o: Oracles, p: Phase, s: Salvo, n: nat, draws: nat -> real, i: nat)
    requires IsStream(draws) && p.maxFeeBps != [] && SalvoFits(c, p, s)
    requires if s.tag == Clustered then ClusterSized(p.clusterSize, n) else n == c.intentsPerFire
    ensures ArrivalFits(c, o, p, Arrival(s.t, s.tag, IntentsAt(c, o, p, s, n, draws, i).value))
  {
    hide IntentAt, IntentsAt, IntentFits, SalvoFits, IsStream, ClusterSized;
    IntentsAtFit(c, o, p, s, n, draws, i);
    var a := Arrival(s.t, s.tag, IntentsAt(c, o, p, s, n, draws, i).value);
    forall k | 0 <= k < |a.intents| ensures TimedFrom(a, k) {
      assert Timed(s, k, a.intents[k].at);
    }
  }

  lemma ClusterCounted(r: Range, draw: real)
    requires ValidRange(r, 1.0) && Unit(draw)
    ensures ClusterSized(r, CountTo(Spread(draw, r.min, r.max)))
  {
    hide Spread, Whole;
    var size := Spread(draw, r.min, r.max);
    SpreadInReach(draw, r.min, r.max);
    if Whole(r.min) && Whole(r.max) {
      WholesApart(r.min, r.max);
      WholeReach(draw, r.min, r.max);
      BelowWhole(CountTo(size), r.max);
    }
  }

  lemma WholesApart(x: real, y: real)
    requires Whole(x) && Whole(y)
    ensures (y - x).Floor as real == y - x
  {
    assert y - x == (y.Floor - x.Floor) as real;
  }

  lemma BelowWhole(n: int, x: real)
    requires Whole(x) && n as real < x + 1.0
    ensures n as real <= x
  {
    assert n < x.Floor + 1;
  }

  lemma DecidedFits(c: Config, p: Phase, t: real, draws: nat -> real, i: nat)
    requires IsStream(draws) && ValidPhase(p)
    ensures var (s, n, from) := DecidedAt(c, p, t, draws, i);
            && SalvoFits(c, p, s) && s.t == t && i < from
            && if s.tag == Clustered then ClusterSized(p.clusterSize, n) else n == c.intentsPerFire
  {
    hide Spread, CountTo, ClusterSized;
    SpreadInReach(draws(i + 1), p.deadline.min, p.deadline.max);
    ClusterCounted(p.clusterSize, draws(i + 4));
  }

  /** Whatever is drawn, an arrival is as its phase allows. */
  lemma ArrivalAtFits(c: Config, o: Oracles, p: Phase, t: real, draws: nat -> real, i: nat)
    requires IsStream(draws) && ValidPhase(p)
    ensures ArrivalFits(c, o, p, ArrivalAt(c, o, p, t, draws, i).value) && ArrivalAt(c, o, p, t, draws, i).value.t == t
  {
    hide ArrivalFits, IntentsAt, DecidedAt, SalvoFits, IsStream, ClusterSized;
    DecidedFits(c, p, t, draws, i);
    var (s, n, from) := DecidedAt(c, p, t, draws, i);
    SalvoArrives(c, o, p, s, n, draws, from);
  }

  lemma {:induction false} ArrivalsAtFit(c: Config, o: Oracles, p: Phase, t: real, endsAt: real, rate: real, draws: nat -> real, i: nat)
    requires IsStream(draws) && ValidPhase(p)
    ensures var arrivals := ArrivalsAt(c, o, p, t, endsAt, rate, draws, i).value;
            Spaced(arrivals, t, endsAt) && forall a :: a in arrivals ==> ArrivalFits(c, o, p, a)
    decreases if t < endsAt then endsAt - t else 0.0
  {
    hide ArrivalFits, ArrivalAt, IsStream, Round;
    var next := t + Tick(o, draws(i), rate);
    if next < endsAt {
      ArrivalAtFits(c, o, p, next, draws, i + 1);
      var first := ArrivalAt(c, o, p, next, draws, i + 1);
      ArrivalsAtFit(c, o, p, next, endsAt, rate, draws, first.next);
      var rest := ArrivalsAt(c, o, p, next, endsAt, rate, draws, first.next).value;
      assert ([first.value] + rest)[1..] == rest;
    }
  }

  lemma PhaseArrivalsFit(c: Config, o: Oracles, p: Phase, startsAt: real, draws: nat -> real, i: nat)
    requires IsStream(draws) && ValidPhase(p)
    ensures var arrivals := PhaseArrivals(c, o, p, startsAt, draws, i).value;
            Spaced(arrivals, startsAt, EndOf(p, startsAt, draws, i)) && forall a :: a in arrivals ==> ArrivalFits(c, o, p, a)
  {
    hide ArrivalFits, ArrivalsAt, EndOf, Rate;
    var rate := Rate(p, draws(i + 1));
    if rate > 0.0 {
      ArrivalsAtFit(c, o, p, startsAt, EndOf(p, startsAt, draws, i), rate, draws, i + 2);
    }
  }

  // ----- when arrivals come ---------------------------------------------------------------

  /** The whole seconds a gap comes to: one when it is under a half, and otherwise the nearest, halves upward. */
  predicate TakesSeconds(gap: real, seconds: real) {
    seconds.Floor as real == seconds && if gap < 0.5 then seconds == 1.0 else seconds - 0.5 <= gap < seconds + 0.5
  }

  lemma TickTakes(o: Oracles, draw: real, rate: real)
    ensures TakesSeconds(o.gap(draw, rate), Tick(o, draw, rate))
  {}

  /** The moment the `n`-th gap is counted from: the arrival before it, or the start. */
  function Since(arrivals: seq<Arrival>, n: nat, t: real): real
    requires n <= |arrivals|
  {
    if n == 0 then t else arrivals[n - 1].t
  }

  /** The `k`-th arrival comes the seconds of its gap after the one before it; its own draws follow that of the gap. */
  ghost predicate ComesByGap(c: Config, o: Oracles, p: Phase, t: real, endsAt: real, rate: real, draws: nat -> real,
                             arrivals: seq<Arrival>, at: seq<nat>, k: nat)
    requires IsStream(draws) && p.maxFeeBps != [] && k < |arrivals| && |at| == |arrivals| + 1
  {
    && TakesSeconds(o.gap(draws(at[k]), rate), arrivals[k].t - Since(arrivals, k, t))
    && arrivals[k].t < endsAt
    && Got(arrivals[k], at[k + 1]) == ArrivalAt(c, o, p, arrivals[k].t, draws, at[k] + 1)
  }

  /** The gap read by one more draw would reach the end. */
  ghost predicate WouldReachEnd(gap: real, since: real, endsAt: real) {
    exists seconds :: TakesSeconds(gap, seconds) && endsAt <= since + seconds
  }

  /**
   * Every arrival comes the seconds of a gap after the one before it, the gap read by draw `at[k]`, where the draws of
   * the arrival before it ended; and the gap read last would reach the end.
   */
  ghost predicate ComeByGaps(c: Config, o: Oracles, p: Phase, t: real, endsAt: real, rate: real, draws: nat -> real,
                             got: Got<seq<Arrival>>, at: seq<nat>)
    requires IsStream(draws) && p.maxFeeBps != []
  {
    var n := |got.value|;
    && |at| == n + 1 && got.next == at[n] + 1
    && (forall k :: 0 <= k < n ==> ComesByGap(c, o, p, t, endsAt, rate, draws, got.value, at, k))
    && WouldReachEnd(o.gap(draws(at[n]), rate), Since(got.value, n, t), endsAt)
  }

  lemma ComesLater(c: Config, o: Oracles, p: Phase, t: real, endsAt: real, rate: real, draws: nat -> real, i: nat,
                   first: Arrival, rest: seq<Arrival>, at: seq<nat>, k: nat)
    requires IsStream(draws) && p.maxFeeBps != [] && k < |rest| && |at| == |rest| + 1
    requires ComesByGap(c, o, p, first.t, endsAt, rate, draws, rest, at, k)
    ensures ComesByGap(c, o, p, t, endsAt, rate, draws, [first] + rest, [i] + at, k + 1)
  {
    hide ArrivalAt, TakesSeconds, IsStream;
    assert Since([first] + rest, k + 1, t) == Since(rest, k, first.t);
  }

  lemma ComeByGapsPrepend(c: Config, o: Oracles, p: Phase, t: real, endsAt: real, rate: real, draws: nat -> real, i: nat,
                          first: Got<Arrival>, rest: Got<seq<Arrival>>, at: seq<nat>)
    requires IsStream(draws) && p.maxFeeBps != [] && ComeByGaps(c, o, p, first.value.t, endsAt, rate, draws, rest, at)
    requires at[0] == first.next && first == ArrivalAt(c, o, p, first.value.t, draws, i + 1) && first.value.t < endsAt
    requires TakesSeconds(o.gap(draws(i), rate), first.value.t - t)
    ensures ComeByGaps(c, o, p, t, endsAt, rate, draws, Got([first.value] + rest.value, rest.next), [i] + at)
  {
    hide ArrivalAt, TakesSeconds, IsStream, ComesByGap, WouldReachEnd;
    var arrivals, all := [first.value] + rest.value, [i] + at;
    forall k | 0 <= k < |arrivals| ensures ComesByGap(c, o, p, t, endsAt, rate, draws, arrivals, all, k) {
      if k == 0 {
        ComesFirst(c, o, p, t, endsAt, rate, draws, arrivals, all);
      } else {
        ComesLater(c, o, p, t, endsAt, rate, draws, i, first.value, rest.value, at, k - 1);
      }
    }
    assert Since(arrivals, |arrivals|, t) == Since(rest.value, |rest.value|, first.value.t);
  }

  lemma ComesFirst(c: Config, o: Oracles, p: Phase, t: real, endsAt: real, rate: real, draws: nat -> real,
                   arrivals: seq<Arrival>, at: seq<nat>)
    requires IsStream(draws) && p.maxFeeBps != [] && arrivals != [] && |at| == |arrivals| + 1 && arrivals[0].t < endsAt
    requires Got(arrivals[0], at[1]) == ArrivalAt(c, o, p, arrivals[0].t, draws, at[0] + 1)
    requires TakesSeconds(o.gap(draws(at[0]), rate), arrivals[0].t - t)
    ensures ComesByGap(c, o, p, t, endsAt, rate, draws, arrivals, at, 0)
  {
    hide ArrivalAt, TakesSeconds, IsStream;
  }

  lemma {:induction false} ArrivalsByGaps(c: Config, o: Oracles, p: Phase, t: real, endsAt: real, rate: real, draws: nat -> real, i: nat)
    returns (at: seq<nat>)
    requires IsStream(draws) && ValidPhase(p)
    ensures ComeByGaps(c, o, p, t, endsAt, rate, draws, ArrivalsAt(c, o, p, t, endsAt, rate, draws, i), at) && at[0] == i
    decreases if t < endsAt then endsAt - t else 0.0
  {
    hide ArrivalAt, ComeByGaps, TakesSeconds, IsStream, Round, ValidPhase;
    var next := t + Tick(o, draws(i), rate);
    TickTakes(o, draws(i), rate);
    HasBuckets(p);
    if next >= endsAt {
      at := [i];
      NoneByGaps(c, o, p, t, endsAt, rate, draws, i);
    } else {
      ArrivalAtMoment(c, o, p, next, draws, i + 1);
      var first := ArrivalAt(c, o, p, next, draws, i + 1);
      var later := ArrivalsByGaps(c, o, p, next, endsAt, rate, draws, first.next);
      var rest := ArrivalsAt(c, o, p, next, endsAt, rate, draws, first.next);
      at := [i] + later;
      ComeByGapsPrepend(c, o, p, t, endsAt, rate, draws, i, first, rest, later);
    }
  }

  lemma HasBuckets(p: Phase)
    requires ValidPhase(p)
    ensures p.maxFeeBps != []
  {}

  lemma ArrivalAtMoment(c: Config, o: Oracles, p: Phase, t: real, draws: nat -> real, i: nat)
    requires IsStream(draws) && p.maxFeeBps != []
    ensures ArrivalAt(c, o, p, t, draws, i).value.t == t
  {}

  lemma NoneByGaps(c: Config, o: Oracles, p: Phase, t: real, endsAt: real, rate: real, draws: nat -> real, i: nat)
    requires IsStream(draws) && p.maxFeeBps != [] && t + Tick(o, draws(i), rate) >= endsAt
    ensures ComeByGaps(c, o, p, t, endsAt, rate, draws, Got([], i + 1), [i])
  {
    TickTakes(o, draws(i), rate);
  }

  /**
   * When the arrivals of a whole phase come. The second draw gives the rate, and the gaps follow: each arrival whole
   * seconds after the last, as many as its own gap comes to, until the next would reach the end that the first draw gave.
   */
  lemma PhaseByGaps(c: Config, o: Oracles, p: Phase, startsAt: real, draws: nat -> real, i: nat) returns (at: seq<nat>)
    requires IsStream(draws) && ValidPhase(p)
    ensures var rate := p.perMinute.min + draws(i + 1) * (p.perMinute.max - p.perMinute.min);
            var endsAt := startsAt + Spread(draws(i), p.duration.min, p.duration.max);
            var got := PhaseArrivals(c, o, p, startsAt, draws, i);
            if rate <= 0.0 then got == Got([], i + 2)
            else ComeByGaps(c, o, p, startsAt, endsAt, rate, draws, got, at) && at[0] == i + 2
  {
    hide ArrivalsAt, ComeByGaps;
    var rate := Rate(p, draws(i + 1));
    assert rate == p.perMinute.min + draws(i + 1) * (p.perMinute.max - p.perMinute.min);
    at := [];
    if rate > 0.0 {
      at := ArrivalsByGaps(c, o, p, startsAt, EndOf(p, startsAt, draws, i), rate, draws, i + 2);
    }
  }

  /** What is emitted follows the order of the arrivals, and within one the order of its intents. */
  lemma {:induction false} EmittedConcat(a: seq<Arrival>, b: seq<Arrival>)
    ensures Emitted(a + b) == Emitted(a) + Emitted(b)
    ensures forall one: Arrival :: Emitted([one]) == one.intents
    decreases |a|
  {
    if a == [] {
      assert a + b == b;
    } else {
      assert (a + b)[1..] == a[1..] + b;
      EmittedConcat(a[1..], b);
    }
  }

  lemma {:induction false} EmittedIff(arrivals: seq<Arrival>, i: Intent)
    ensures i in Emitted(arrivals) <==> exists n :: 0 <= n < |arrivals| && i in arrivals[n].intents
    decreases |arrivals|
  {
    if arrivals != [] {
      EmittedIff(arrivals[1..], i);
      if n :| 0 <= n < |arrivals| && i in arrivals[n].intents {
        assert n > 0 ==> arrivals[1..][n - 1] == arrivals[n];
      }
      if n :| 0 <= n < |arrivals[1..]| && i in arrivals[1..][n].intents {
        assert arrivals[n + 1] == arrivals[1..][n];
      }
    }
  }

  /** A plan holds what its arrivals emitted, each as often, and simultaneous ones in the order they were emitted. */
  lemma PlanHoldsArrivals(c: Config, o: Oracles, p: Phase, startsAt: real, draws: nat -> real, i: nat, at: real)
    requires IsStream(draws) && ValidPhase(p)
    ensures var plan, emitted := PhaseAt(c, o, p, startsAt, draws, i).value, Emitted(PhaseArrivals(c, o, p, startsAt, draws, i).value);
            && plan.kind == p.kind && plan.startsAt == startsAt
            && multiset(plan.intents) == multiset(emitted)
            && StableSort.Ties(At, plan.intents, at) == StableSort.Ties(At, emitted, at)
  {
    hide PhaseArrivals, StableSort.Sort, StableSort.Ties;
    var emitted := Emitted(PhaseArrivals(c, o, p, startsAt, draws, i).value);
    StableSort.SortPermutes(At, emitted);
    StableSort.SortStable(At, emitted, at);
  }

  /** A phase lasts between its bounds, as far as a draw between bounds that need not be whole goes. */
  lemma PlannedLasts(p: Phase, startsAt: real, draws: nat -> real, i: nat)
    requires ValidPhase(p) && IsStream(draws)
    ensures 1.0 <= p.duration.min <= EndOf(p, startsAt, draws, i) - startsAt < p.duration.max + 1.0
  {
    hide Spread;
    SpreadInReach(draws(i), p.duration.min, p.duration.max);
  }

  /** Arrivals come no faster than one a second. */
  lemma AtMostOneArrivalASecond(c: Config, o: Oracles, p: Phase, startsAt: real, draws: nat -> real, i: nat)
    requires ValidPhase(p) && IsStream(draws)
    ensures |PhaseArrivals(c, o, p, startsAt, draws, i).value| as real < EndOf(p, startsAt, draws, i) - startsAt
  {
    hide ArrivalFits, PhaseArrivals, EndOf;
    PlannedLasts(p, startsAt, draws, i);
    PhaseArrivalsFit(c, o, p, startsAt, draws, i);
    var arrivals := PhaseArrivals(c, o, p, startsAt, draws, i).value;
    if arrivals != [] {
      SpacedCount(arrivals, startsAt, EndOf(p, startsAt, draws, i));
    }
  }

  /** A planned phase is in order of time, starts after the phase does and runs less than a minute past its end. */
  lemma PlannedInWindow(c: Config, o: Oracles, p: Phase, plan: Plan)
    requires ValidConfig(c) && ValidPhase(p) && Planned(c, o, p, plan)
    ensures forall j, k :: 0 <= j < k < |plan.intents| ==> plan.intents[j].at <= plan.intents[k].at
    ensures forall i :: i in plan.intents ==> InWindow(c, o, p, i, plan.startsAt, plan.endsAt)
  {
    hide ArrivalFits, InWindow, PhaseArrivals, StableSort.Sort, Emitted, Spaced, EndOf, IsStream;
    var startsAt, draws, i :| IsStream(draws) && plan == PhaseAt(c, o, p, startsAt, draws, i).value;
    var arrivals := PhaseArrivals(c, o, p, startsAt, draws, i).value;
    PhaseArrivalsFit(c, o, p, startsAt, draws, i);
    StableSort.SortOrders(At, Emitted(arrivals));
    assert forall j, k :: 0 <= j < k < |plan.intents| ==> At(plan.intents[j]) <= At(plan.intents[k]);
    EmittedInWindow(c, o, p, arrivals, startsAt, startsAt, plan.endsAt);
    forall i | i in plan.intents ensures InWindow(c, o, p, i, plan.startsAt, plan.endsAt) {
      StableSort.SortMembers(At, Emitted(arrivals), i);
    }
  }

  // ----- schedules ---------------------------------------------------------------------------

  /** The phase a draw picks by weight. */
  ghost function PhasePicked(c: Config, weights: seq<real>, draws: nat -> real, i: nat): (g: Got<Phase>)
    requires IsStream(draws) && ValidConfig(c) && |weights| == |c.phases|
    ensures g.value in c.phases && ValidPhase(g.value)
  {
    var index := PickAt(weights, draws, i);
    Got(c.phases[index.value], index.next)
  }

  lemma PhaseEnd(c: Config, o: Oracles, p: Phase, startsAt: real, draws: nat -> real, i: nat)
    requires IsStream(draws) && p.maxFeeBps != []
    ensures PhaseAt(c, o, p, startsAt, draws, i).value.endsAt == EndOf(p, startsAt, draws, i)
  {}

  /** Phases back to back until the horizon, each the one its own draw picks by weight. */
  ghost function ScheduleAt(c: Config, o: Oracles, weights: seq<real>, t: real, horizon: real, draws: nat -> real, i: nat)
    : Got<seq<Plan>>
    requires IsStream(draws) && ValidConfig(c) && |weights| == |c.phases|
    decreases if t < horizon then horizon - t + 1.0 else 0.0
  {
    if t >= horizon then Got([], i)
    else
      var phase := PhasePicked(c, weights, draws, i);
      PlannedLasts(phase.value, t, draws, phase.next);
      var plan := PhaseAt(c, o, phase.value, t, draws, phase.next);
      var rest := ScheduleAt(c, o, weights, EndOf(phase.value, t, draws, phase.next), horizon, draws, plan.next);
      Got([plan.value] + rest.value, rest.next)
  }

  /** A plan of a phase that has weight, or of the first when none has. */
  ghost predicate Picked(c: Config, o: Oracles, weights: seq<real>, plan: Plan)
    requires |weights| == |c.phases|
  {
    exists index :: 0 <= index < |c.phases| && Planned(c, o, c.phases[index], plan)
                    && (if Total(weights) > 0.0 then weights[index] > 0.0 else index == 0)
  }

  lemma PhaseIsPicked(c: Config, o: Oracles, weights: seq<real>, t: real, draws: nat -> real, i: nat)
    requires IsStream(draws) && ValidConfig(c) && |weights| == |c.phases|
    ensures var phase := PhasePicked(c, weights, draws, i);
            Picked(c, o, weights, PhaseAt(c, o, phase.value, t, draws, phase.next).value)
  {
    hide PhaseAt, Scaled, IsStream;
    var index := PickAt(weights, draws, i);
    assert c.phases[index.value] in c.phases;
    assert Planned(c, o, c.phases[index.value], PhaseAt(c, o, c.phases[index.value], t, draws, index.next).value);
  }

  /** Every phase of a schedule is planned as one that can be picked. */
  lemma {:induction false} SchedulePicks(c: Config, o: Oracles, weights: seq<real>, t: real, horizon: real, draws: nat -> real, i: nat)
    requires IsStream(draws) && ValidConfig(c) && |weights| == |c.phases|
    ensures forall plan :: plan in ScheduleAt(c, o, weights, t, horizon, draws, i).value ==> Picked(c, o, weights, plan)
    decreases if t < horizon then horizon - t + 1.0 else 0.0
  {
    hide PhaseAt, PhasePicked, IsStream, Picked, EndOf, ValidConfig;
    if t < horizon {
      var phase := PhasePicked(c, weights, draws, i);
      PlannedLasts(phase.value, t, draws, phase.next);
      PhaseIsPicked(c, o, weights, t, draws, i);
      var plan := PhaseAt(c, o, phase.value, t, draws, phase.next);
      SchedulePicks(c, o, weights, EndOf(phase.value, t, draws, phase.next), horizon, draws, plan.next);
    }
  }

  /** The `k`-th phase is the one draw `at[k]` picks by weight, starts where the one before it ends, and is planned from the draws after. */
  ghost predicate FollowsDraw(c: Config, o: Oracles, weights: seq<real>, t: real, draws: nat -> real,
                              plans: seq<Plan>, picks: seq<nat>, at: seq<nat>, k: nat)
    requires IsStream(draws) && ValidConfig(c) && |weights| == |c.phases|
    requires k < |plans| == |picks| && |at| == |plans| + 1
  {
    && picks[k] < |c.phases|
    && (if Total(weights) > 0.0 then Owns(weights, picks[k], Scaled(draws(at[k]), Total(weights))) else picks[k] == 0)
    && c.phases[picks[k]].maxFeeBps != []
    && Got(plans[k], at[k + 1])
       == PhaseAt(c, o, c.phases[picks[k]], if k == 0 then t else plans[k - 1].endsAt, draws,
                  at[k] + if Total(weights) > 0.0 then 1 else 0)
  }

  /** Every phase of a schedule follows its own draw, and the schedule's last draw is the last of its last phase. */
  ghost predicate FollowsDraws(c: Config, o: Oracles, weights: seq<real>, t: real, draws: nat -> real,
                               got: Got<seq<Plan>>, picks: seq<nat>, at: seq<nat>)
    requires IsStream(draws) && ValidConfig(c) && |weights| == |c.phases|
  {
    var n := |got.value|;
    && |picks| == n && |at| == n + 1 && at[n] == got.next
    && forall k :: 0 <= k < n ==> FollowsDraw(c, o, weights, t, draws, got.value, picks, at, k)
  }

  lemma FollowsFirst(c: Config, o: Oracles, weights: seq<real>, t: real, draws: nat -> real,
                     plans: seq<Plan>, picks: seq<nat>, at: seq<nat>)
    requires IsStream(draws) && ValidConfig(c) && |weights| == |c.phases|
    requires plans != [] && |plans| == |picks| && |at| == |plans| + 1
    requires picks[0] == PickAt(weights, draws, at[0]).value
    requires var phase := PhasePicked(c, weights, draws, at[0]);
             Got(plans[0], at[1]) == PhaseAt(c, o, phase.value, t, draws, phase.next)
    ensures FollowsDraw(c, o, weights, t, draws, plans, picks, at, 0)
  {
    hide PhaseAt, Scaled, IsStream;
    assert c.phases[picks[0]] in c.phases;
  }

  lemma FollowsLater(c: Config, o: Oracles, weights: seq<real>, t: real, draws: nat -> real, i: nat, first: Plan,
                     rest: seq<Plan>, pick: nat, picks: seq<nat>, at: seq<nat>, k: nat)
    requires IsStream(draws) && ValidConfig(c) && |weights| == |c.phases|
    requires k < |rest| == |picks| && |at| == |rest| + 1
    requires FollowsDraw(c, o, weights, first.endsAt, draws, rest, picks, at, k)
    ensures FollowsDraw(c, o, weights, t, draws, [first] + rest, [pick] + picks, [i] + at, k + 1)
  {
    hide PhaseAt, IsStream, ValidConfig, Owns;
  }

  lemma FollowsPrepend(c: Config, o: Oracles, weights: seq<real>, t: real, draws: nat -> real, i: nat, first: Plan,
                       rest: Got<seq<Plan>>, pick: nat, picks: seq<nat>, at: seq<nat>)
    requires IsStream(draws) && ValidConfig(c) && |weights| == |c.phases|
    requires FollowsDraws(c, o, weights, first.endsAt, draws, rest, picks, at)
    requires FollowsDraw(c, o, weights, t, draws, [first] + rest.value, [pick] + picks, [i] + at, 0)
    ensures FollowsDraws(c, o, weights, t, draws, Got([first] + rest.value, rest.next), [pick] + picks, [i] + at)
  {
    hide FollowsDraw, IsStream, ValidConfig;
    var plans, allPicks, all := [first] + rest.value, [pick] + picks, [i] + at;
    forall k | 0 <= k < |plans| ensures FollowsDraw(c, o, weights, t, draws, plans, allPicks, all, k) {
      if k > 0 {
        FollowsLater(c, o, weights, t, draws, i, first, rest.value, pick, picks, at, k - 1);
      }
    }
  }

  /** So every phase of a schedule is decided by a draw read where the draws of the phase before it ended. */
  lemma {:induction false} ScheduleFollowsDraws(
      c: Config, o: Oracles, weights: seq<real>, t: real, horizon: real, draws: nat -> real, i: nat)
    returns (picks: seq<nat>, at: seq<nat>)
    requires IsStream(draws) && ValidConfig(c) && |weights| == |c.phases|
    ensures FollowsDraws(c, o, weights, t, draws, ScheduleAt(c, o, weights, t, horizon, draws, i), picks, at) && at[0] == i
    decreases if t < horizon then horizon - t + 1.0 else 0.0
  {
    hide PhaseAt, PhasePicked, PickAt, IsStream, EndOf, ValidConfig, FollowsDraws, FollowsDraw;
    if t >= horizon {
      picks, at := [], [i];
      NothingFollows(c, o, weights, t, draws, i);
    } else {
      var pick, phase := PickAt(weights, draws, i), PhasePicked(c, weights, draws, i);
      PlannedLasts(phase.value, t, draws, phase.next);
      PhaseEnd(c, o, phase.value, t, draws, phase.next);
      var plan := PhaseAt(c, o, phase.value, t, draws, phase.next);
      var after := EndOf(phase.value, t, draws, phase.next);
      var rest := ScheduleAt(c, o, weights, after, horizon, draws, plan.next);
      var laterPicks, laterAt := ScheduleFollowsDraws(c, o, weights, after, horizon, draws, plan.next);
      picks, at := [pick.value] + laterPicks, [i] + laterAt;
      FollowsSize(c, o, weights, after, draws, rest, laterPicks, laterAt);
      FollowsFirst(c, o, weights, t, draws, [plan.value] + rest.value, picks, at);
      FollowsPrepend(c, o, weights, t, draws, i, plan.value, rest, pick.value, laterPicks, laterAt);
    }
  }

  lemma FollowsSize(c: Config, o: Oracles, weights: seq<real>, t: real, draws: nat -> real,
                    got: Got<seq<Plan>>, picks: seq<nat>, at: seq<nat>)
    requires IsStream(draws) && ValidConfig(c) && |weights| == |c.phases|
    requires FollowsDraws(c, o, weights, t, draws, got, picks, at)
    ensures |picks| == |got.value| && |at| == |got.value| + 1
  {}

  lemma NothingFollows(c: Config, o: Oracles, weights: seq<real>, t: real, draws: nat -> real, i: nat)
    requires IsStream(draws) && ValidConfig(c) && |weights| == |c.phases|
    ensures FollowsDraws(c, o, weights, t, draws, Got([], i), [], [i])
  {}

  /** A schedule's phases lie end to end, the last reaching the horizon. */
  lemma {:induction false} ScheduleJoins(c: Config, o: Oracles, weights: seq<real>, t: real, horizon: real, draws: nat -> real, i: nat)
    requires IsStream(draws) && ValidConfig(c) && |weights| == |c.phases|
    ensures var plans := ScheduleAt(c, o, weights, t, horizon, draws, i).value;
            Tiles(plans, t, horizon) && End(plans, t) >= horizon
    decreases if t < horizon then horizon - t + 1.0 else 0.0
  {
    hide PhasePicked, IsStream, PhaseArrivals, EndOf, ValidConfig;
    if t < horizon {
      var phase := PhasePicked(c, weights, draws, i);
      PlannedLasts(phase.value, t, draws, phase.next);
      var plan := PhaseAt(c, o, phase.value, t, draws, phase.next);
      var after := EndOf(phase.value, t, draws, phase.next);
      ScheduleJoins(c, o, weights, after, horizon, draws, plan.next);
      var rest := ScheduleAt(c, o, weights, after, horizon, draws, plan.next).value;
      TilesPrepend(plan.value, rest, horizon);
    }
  }

  lemma {:induction false} TilesPrepend(plan: Plan, rest: seq<Plan>, horizon: real)
    requires plan.startsAt < horizon && plan.startsAt + 1.0 <= plan.endsAt && Tiles(rest, plan.endsAt, horizon)
    ensures Tiles([plan] + rest, plan.startsAt, horizon) && End([plan] + rest, plan.startsAt) == End(rest, plan.endsAt)
    decreases |rest|
  {
    var all := [plan] + rest;
    if rest == [] {
      assert all == [plan] && all[..|all| - 1] == [] && Tiles([], plan.startsAt, horizon);
    } else {
      var front := rest[..|rest| - 1];
      assert all[..|all| - 1] == [plan] + front;
      TilesPrepend(plan, front, horizon);
    }
  }
}
