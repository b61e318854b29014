/** How each draw decides: for every choice of the planner, exactly which draws make it. */
module Decisions {
  import opened Options
  import opened Rng
  import opened Traffic
  import opened Planner

  /** With Ethereum among two different chains, the draws below its share start there and no others do. */
  lemma DirectionDecided(c: Config, draw: real)
    requires c.chains.0 != c.chains.1
    ensures var (source, destination) := DirectionFor(c, draw);
            && {source, destination} == {c.chains.0, c.chains.1} && source != destination
            && (ETHEREUM in [c.chains.0, c.chains.1] ==> (source == ETHEREUM <==> draw < c.ethereumToArcShare))
            && (ETHEREUM !in [c.chains.0, c.chains.1] ==> (source == c.chains.1 <==> draw < c.ethereumToArcShare))
  {}

  /** Large below its probability; otherwise a cluster below its own; each size the least count that reaches the one drawn. */
  lemma ArrivalDecided(c: Config, o: Oracles, p: Phase, t: real, draws: nat -> real, i: nat)
    requires IsStream(draws) && ValidPhase(p)
    ensures var a := ArrivalAt(c, o, p, t, draws, i).value;
            && a.t == t
            && (a.tag == Large <==> draws(i + 2) < p.largeProbability)
            && (a.tag == Clustered <==> draws(i + 2) >= p.largeProbability && draws(i + 3) < p.clusterProbability)
            && (a.tag != Clustered ==> |a.intents| == c.intentsPerFire)
            && (a.tag == Clustered ==>
                  var size := Spread(draws(i + 4), p.clusterSize.min, p.clusterSize.max);
                  size <= |a.intents| as real < size + 1.0)
            && forall intent :: intent in a.intents ==>
                 && (intent.source, intent.destination) == DirectionFor(c, draws(i))
                 && intent.deadline == Spread(draws(i + 1), p.deadline.min, p.deadline.max) && intent.tag == a.tag
  {
    hide Spread, IntentsAt, CountTo, DirectionFor, SalvoFits, IntentFits, ClusterSized;
    DecidedFits(c, p, t, draws, i);
    var (s, n, from) := DecidedAt(c, p, t, draws, i);
    IntentsAtFit(c, o, p, s, n, draws, from);
    var intents := IntentsAt(c, o, p, s, n, draws, from).value;
    assert forall k :: 0 <= k < |intents| ==> Shares(s, intents[k]);
    if s.tag == Clustered {
      SpreadInReach(draws(i + 4), p.clusterSize.min, p.clusterSize.max);
      CountReaches(Spread(draws(i + 4), p.clusterSize.min, p.clusterSize.max));
    }
  }

  lemma CountReaches(size: real)
    requires size >= 1.0
    ensures size <= CountTo(size) as real < size + 1.0
  {}

  /** Each market of the destination is chosen on a stretch of draws of the same width. */
  lemma MarketDecided(markets: seq<Market>, draw: real, n: nat)
    requires n < |markets| && Unit(draw)
    ensures MarketAt(markets, draw) == n <==> n as real / |markets| as real <= draw < (n + 1) as real / |markets| as real
  {
    hide Spread;
    SpreadIsUniform(0, |markets| - 1, n, draw);
    WholeReach(draw, 0.0, (|markets| - 1) as real);
    SpreadIsWhole(draw, 0, |markets| - 1);
  }

  lemma SpreadIsWhole(draw: real, min: int, max: int)
    ensures Spread(draw, min as real, max as real) == Spread(draw, min as real, max as real).Floor as real
  {
    hide Scaled;
    var steps := Scaled(draw, max as real - min as real + 1.0).Floor;
    assert Spread(draw, min as real, max as real) == (min + steps) as real;
  }

  /** A trade is named below the share where there is a market, and asks for too much on the fifth of its third draws. */
  lemma TradeDecided(c: Config, destination: int, draws: nat -> real, i: nat)
    requires IsStream(draws)
    ensures var got := TradeAt(c, destination, draws, i);
            var offered := c.tradeShare > 0.0 && destination in c.markets && c.markets[destination] != [];
            && (got.value.Some? <==> offered && draws(i) < c.tradeShare)
            && got.next == (if !offered then i else if got.value.Some? then i + 3 else i + 1)
            && (got.value.Some? ==>
                  && got.value.value.market == c.markets[destination][MarketAt(c.markets[destination], draws(i + 1))]
                  && (got.value.value.unsatisfiable <==> draws(i + 2) < 1.0 / 5.0))
  {
    hide MarketAt;
  }

  /** A cluster's intents fall on each of the thirty-one whole seconds from the arrival on equal stretches of draws. */
  lemma ClusterMomentDecided(t: real, k: nat, draws: nat -> real, i: nat, n: nat)
    requires IsStream(draws) && n <= 30
    ensures var got := MomentAt(Clustered, t, k, draws, i);
            got.next == i + 1 && (got.value == t + n as real <==> n as real / 31.0 <= draws(i) < (n + 1) as real / 31.0)
  {
    hide Spread;
    SpreadIsUniform(0, 30, n, draws(i));
  }

  /** Other arrivals' first intent comes at once; the k-th comes k times a whole number of seconds later, from three to fifteen alike. */
  lemma SalvoMomentDecided(tag: Tag, t: real, k: nat, draws: nat -> real, i: nat, n: nat)
    requires IsStream(draws) && tag != Clustered && 3 <= n <= 15
    ensures var got := MomentAt(tag, t, k, draws, i);
            if k == 0 then got == Got(t, i)
            else got.next == i + 1
                 && (got.value == t + Scaled(k as real, n as real) <==> (n - 3) as real / 13.0 <= draws(i) < (n - 2) as real / 13.0)
  {
    hide Spread, Scaled;
    SpreadIsUniform(3, 15, n, draws(i));
    if k > 0 {
      ScaledCancels(k as real, Spread(draws(i), 3.0, 15.0), n as real);
    }
  }

  lemma ScaledCancels(k: real, a: real, b: real)
    requires k > 0.0
    ensures Scaled(k, a) == Scaled(k, b) <==> a == b
  {
    if a < b {
      ScaleOrders(a, b, k);
    } else if b < a {
      ScaleOrders(b, a, k);
    }
    assert Scaled(a, k) == Scaled(k, a) && Scaled(b, k) == Scaled(k, b);
  }

  /** A large amount is the whole number of USDC nearest to where the draw falls in the range. */
  lemma LargeDecided(p: Phase, draw: real, n: int)
    ensures var whole := p.largeAmount.min + draw * (p.largeAmount.max - p.largeAmount.min);
            LargeFrom(p, draw) == n * 1_000_000 <==> n as real - 0.5 <= whole < n as real + 0.5
  {
    hide Round, Usdc;
    var whole := p.largeAmount.min + Scaled(draw, p.largeAmount.max - p.largeAmount.min);
    assert whole == p.largeAmount.min + draw * (p.largeAmount.max - p.largeAmount.min);
    WholeUsdc(Round(whole));
    RoundIsNearest(whole, n);
  }

  /** A trade's amount is the whole number of cents nearest to where the draw falls from one USDC to eight. */
  lemma TradeAmountDecided(draw: real, cents: int)
    ensures TradeFrom(draw) == cents * 10_000 <==> cents as real - 0.5 <= 100.0 + draw * 700.0 < cents as real + 0.5
  {
    hide Round, Usdc;
    var whole := 1.0 + Scaled(draw, 8.0 - 1.0);
    assert whole * 100.0 == 100.0 + draw * 700.0;
    CentsExact(Round(whole * 100.0));
    RoundIsNearest(whole * 100.0, cents);
  }

  lemma RoundIsNearest(x: real, n: int)
    ensures Round(x) == n <==> n as real - 0.5 <= x < n as real + 0.5
  {}

  /** A plain amount is the whole number of cents nearest to the exponential of its normal draw, held between its bounds. */
  lemma PlainAmountDecided(o: Oracles, shape: AmountShape, u: real, v: real, cents: int)
    requires shape.minUsdc <= shape.maxUsdc
    ensures var whole := o.exp(shape.mu + shape.sigma * o.normal(u, v));
            var held := if whole < shape.minUsdc then shape.minUsdc else if shape.maxUsdc < whole then shape.maxUsdc else whole;
            AmountFrom(shape, LogNormal(o, shape, u, v)) == cents * 10_000
            <==> cents as real - 0.5 <= held * 100.0 < cents as real + 0.5
  {
    hide Round;
    var whole := LogNormal(o, shape, u, v);
    assert shape.mu + Scaled(shape.sigma, o.normal(u, v)) == shape.mu + shape.sigma * o.normal(u, v);
    AmountIsClampedCents(shape, whole);
    RoundIsNearest(Clamp(whole, shape.minUsdc, shape.maxUsdc) * 100.0, cents);
  }

  /** A fee is the one of the bucket whose stretch of the weight the draw falls in, or the first when there is no weight. */
  lemma FeeDecided(p: Phase, draws: nat -> real, i: nat, n: nat, point: real)
    requires IsStream(draws) && n < |p.maxFeeBps| && point == draws(i) * Total(Weights(p.maxFeeBps))
    ensures var weights, got := Weights(p.maxFeeBps), FeeAt(p, draws, i);
            if Total(weights) > 0.0 then
              got.next == i + 1 && (Before(weights, n) <= point < Before(weights, n + 1) ==> got.value == p.maxFeeBps[n].maxFeeBps)
            else got == Got(p.maxFeeBps[0].maxFeeBps, i)
  {
    hide Before, IsStream;
    var weights := Weights(p.maxFeeBps);
    assert point == Scaled(draws(i), Total(weights));
    if Total(weights) > 0.0 && Before(weights, n) <= point < Before(weights, n + 1) {
      OwnerIsUnique(weights, n, PickAt(weights, draws, i).value, point);
    }
  }

  /** A large intent reads its moment, unless it is the first, then its amount, then its fee, one after the other. */
  lemma LargeReads(c: Config, o: Oracles, p: Phase, s: Salvo, k: nat, draws: nat -> real, i: nat)
    requires IsStream(draws) && p.maxFeeBps != [] && s.tag == Large
    ensures var got, m := IntentAt(c, o, p, s, k, draws, i), if k == 0 then i else i + 1;
            && got.value.trade == None && got.value.at == MomentAt(Large, s.t, k, draws, i).value
            && got.value.amount == LargeFrom(p, draws(m))
            && Got(got.value.maxFeeBps, got.next) == FeeAt(p, draws, m + 1)
  {
    hide FeeAt, LargeFrom, Spread, Scaled;
  }

  /** Any other reads its trade, its moment, its amount and its fee, each from where the one before it ended. */
  lemma PlainReads(c: Config, o: Oracles, p: Phase, s: Salvo, k: nat, draws: nat -> real, i: nat) returns (m: nat, n: nat)
    requires IsStream(draws) && p.maxFeeBps != [] && s.tag != Large
    ensures var got, trade := IntentAt(c, o, p, s, k, draws, i), TradeAt(c, s.destination, draws, i);
            && got.value.trade == trade.value && Got(got.value.at, m) == MomentAt(s.tag, s.t, k, draws, trade.next)
            && (if trade.value.Some? then got.value.amount == TradeFrom(draws(m)) && n == m + 1
                else exists u: nat, v: nat :: FirstPositive(draws, m, u) && FirstPositive(draws, u + 1, v) && n == v + 1
                                    && got.value.amount == AmountFrom(p.amount, LogNormal(o, p.amount, draws(u), draws(v))))
            && Got(got.value.maxFeeBps, got.next) == FeeAt(p, draws, n)
  {
    hide FeeAt, TradeAt, TradeFrom, AmountFrom, LogNormal, Spread, Scaled;
    var trade := TradeAt(c, s.destination, draws, i);
    m := MomentAt(s.tag, s.t, k, draws, trade.next).next;
    n := AmountAt(o, p, s.tag, trade.value, draws, m).next;
    if trade.value.None? {
      var u := PositiveAt(draws, m);
      var v := PositiveAt(draws, u + 1);
    }
  }
}
