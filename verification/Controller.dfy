/** The scarcity controller: how constrained the recent past was, and what that does to the choice of phase. */
module Controller {
  import opened Options
  import opened ExtendedReals
  import opened Rng
  import opened Traffic
  import StableSort

  datatype Sample = Sample(at: real, constrained: bool)

  datatype Scarcity = Scarcity(target: real, window: real, min: real, max: real, gain: real)

  /** What loading a configuration checks; the lower bound may be zero, and 1 need not lie between the bounds. */
  predicate ValidScarcity(c: Scarcity) {
    0.0 <= c.target <= 1.0 && c.window > 0.0 && 0.0 <= c.min <= c.max && c.gain >= 0.0
  }

  // ----- the observed fraction ----------------------------------------------------

  function SampledAt(s: Sample): real {
    s.at
  }

  function Within(samples: seq<Sample>, from: real, to: real): seq<Sample> {
    if samples == [] then []
    else
      var last := samples[|samples| - 1];
      Within(samples[..|samples| - 1], from, to) + if from <= last.at <= to then [last] else []
  }

  /** The samples the fraction is taken over, in order of time. */
  function Recent(samples: seq<Sample>, now: real, window: real): seq<Sample> {
    StableSort.Sort(SampledAt, Within(samples, now - window, now))
  }

  /** Time spent between one sample and the next with the earlier of the two saying `flag`. */
  function TimeHeld(s: seq<Sample>, flag: bool): real {
    if |s| < 2 then 0.0
    else
      TimeHeld(s[..|s| - 1], flag)
      + if s[|s| - 2].constrained == flag then s[|s| - 1].at - s[|s| - 2].at else 0.0
  }

  function Span(s: seq<Sample>): real {
    if s == [] then 0.0 else s[|s| - 1].at - s[0].at
  }

  function FractionOf(s: seq<Sample>): Option<real> {
    if |s| < 2 || Span(s) == 0.0 then None else Some(TimeHeld(s, true) / Span(s))
  }

  /** Every sample but the last says `flag`: the whole span was so. */
  predicate AllSay(s: seq<Sample>, flag: bool) {
    forall k :: 0 <= k < |s| - 1 ==> s[k].constrained == flag
  }

  method ConstrainedFraction(samples: seq<Sample>, now: real, window: real) returns (fraction: Option<real>)
    ensures fraction == FractionOf(Recent(samples, now, window))
    ensures fraction.Some? ==> 0.0 <= fraction.value <= 1.0
    ensures var recent := Recent(samples, now, window);
            && (fraction.None? <==> |recent| < 2 || recent[0].at == recent[|recent| - 1].at)
            && (fraction.Some? && AllSay(recent, true) ==> fraction.value == 1.0)
            && (fraction.Some? && AllSay(recent, false) ==> fraction.value == 0.0)
  {
    hide StableSort.Sort, Within;
    var recent := Recent(samples, now, window);
    if |recent| < 2 {
      return None;
    }
    var constrained, total := 0.0, 0.0;
    for i := 1 to |recent|
      invariant total == recent[i - 1].at - recent[0].at
      invariant constrained == TimeHeld(recent[..i], true)
    {
      var dt := recent[i].at - recent[i - 1].at;
      total := total + dt;
      if recent[i - 1].constrained {
        constrained := constrained + dt;
      }
      assert recent[..i + 1][..i] == recent[..i];
    }
    assert recent[..|recent|] == recent;
    StableSort.SortOrders(SampledAt, Within(samples, now - window, now));
    if total != 0.0 {
      FractionInUnit(recent);
      FractionExtremes(recent);
    }
    return if total == 0.0 then None else Some(constrained / total);
  }

  // ----- which time counts -------------------------------------------------------------

  /** A sample speaks for the time up to the next one, so what the last one says changes nothing. */
  lemma LastSaysNothing(s: seq<Sample>, flag: bool, said: bool)
    requires s != []
    ensures TimeHeld(s[|s| - 1 := s[|s| - 1].(constrained := said)], flag) == TimeHeld(s, flag)
  {
    var other := s[|s| - 1 := s[|s| - 1].(constrained := said)];
    assert other[..|s| - 1] == s[..|s| - 1];
  }

  /** The time held adds up over a cut at any sample. */
  lemma {:induction false} HeldAddsUp(s: seq<Sample>, k: nat, flag: bool)
    requires k < |s|
    ensures TimeHeld(s, flag) == TimeHeld(s[..k + 1], flag) + TimeHeld(s[k..], flag)
    decreases |s|
  {
    if k == |s| - 1 {
      assert s[..k + 1] == s;
    } else {
      var front := s[..|s| - 1];
      HeldAddsUp(front, k, flag);
      assert front[..k + 1] == s[..k + 1];
      assert s[k..][..|s[k..]| - 1] == front[k..];
    }
  }

  /** Two samples hold the time between them when the earlier says so. */
  lemma HeldBetween(a: Sample, b: Sample, flag: bool)
    ensures TimeHeld([a, b], flag) == if a.constrained == flag then b.at - a.at else 0.0
  {
    assert [a, b][..1] == [a];
  }

  /** What any sample but the last says is worth exactly the time to the next one. */
  lemma EachSaysItsStretch(s: seq<Sample>, k: nat, flag: bool)
    requires k + 1 < |s|
    ensures TimeHeld(s[k := s[k].(constrained := flag)], flag)
         == TimeHeld(s[k := s[k].(constrained := !flag)], flag) + (s[k + 1].at - s[k].at)
  {
    hide TimeHeld;
    var yes, no := s[k := s[k].(constrained := flag)], s[k := s[k].(constrained := !flag)];
    HeldAddsUp(yes, k, flag);
    HeldAddsUp(no, k, flag);
    HeldAddsUp(yes[k..], 1, flag);
    HeldAddsUp(no[k..], 1, flag);
    assert yes[k..][..2] == [yes[k], s[k + 1]] && no[k..][..2] == [no[k], s[k + 1]];
    assert yes[k..][1..] == no[k..][1..];
    HeldBetween(yes[k], s[k + 1], flag);
    HeldBetween(no[k], s[k + 1], flag);
    LastSaysNothing(s[..k + 1], flag, flag);
    LastSaysNothing(s[..k + 1], flag, !flag);
    assert yes[..k + 1] == s[..k + 1][k := s[k].(constrained := flag)];
    assert no[..k + 1] == s[..k + 1][k := s[k].(constrained := !flag)];
  }

  lemma {:induction false} UnanimousHolds(s: seq<Sample>, flag: bool)
    requires AllSay(s, flag)
    ensures TimeHeld(s, flag) == Span(s) && TimeHeld(s, !flag) == 0.0
  {
    if |s| >= 2 {
      UnanimousHolds(s[..|s| - 1], flag);
    }
  }

  lemma WholeAndNone(x: real)
    ensures x != 0.0 ==> x / x == 1.0 && 0.0 / x == 0.0
  {}

  /** All of the time when every sample but the last says constrained, and none of it when none does. */
  lemma FractionExtremes(s: seq<Sample>)
    requires FractionOf(s).Some?
    ensures AllSay(s, true) ==> FractionOf(s).value == 1.0
    ensures AllSay(s, false) ==> FractionOf(s).value == 0.0
  {
    hide TimeHeld, AllSay;
    WholeAndNone(Span(s));
    if AllSay(s, true) {
      UnanimousHolds(s, true);
    }
    if AllSay(s, false) {
      UnanimousHolds(s, false);
    }
  }

  /** Constrained and unconstrained time make up the whole span, and neither is negative. */
  lemma {:induction false} HeldSplitsSpan(s: seq<Sample>)
    requires StableSort.Ordered(SampledAt, s)
    ensures TimeHeld(s, true) + TimeHeld(s, false) == Span(s)
    ensures TimeHeld(s, true) >= 0.0 && TimeHeld(s, false) >= 0.0
  {
    if |s| >= 2 {
      var front := s[..|s| - 1];
      assert forall i, j :: 0 <= i < j < |front| ==> SampledAt(front[i]) <= SampledAt(front[j]);
      HeldSplitsSpan(front);
      assert SampledAt(s[|s| - 2]) <= SampledAt(s[|s| - 1]);
    }
  }

  lemma Ratio(a: real, b: real, total: real)
    requires a >= 0.0 && b >= 0.0 && a + b == total && total > 0.0
    ensures 0.0 <= a / total <= 1.0
    ensures a / total == 1.0 <==> b == 0.0
    ensures a / total == 0.0 <==> a == 0.0
  {
    var q := a / total;
    assert Scaled(q, total) == a && Scaled(1.0, total) == total && Scaled(0.0, total) == 0.0;
    if q < 0.0 { ScaleOrders(q, 0.0, total); } else { ScaleOrders(0.0, q, total); }
    if q < 1.0 { ScaleOrders(q, 1.0, total); } else { ScaleOrders(1.0, q, total); }
  }

  /** A proportion of time: all of it exactly when no unconstrained time passed, none exactly when no constrained time did. */
  lemma FractionInUnit(s: seq<Sample>)
    requires StableSort.Ordered(SampledAt, s) && FractionOf(s).Some?
    ensures 0.0 <= FractionOf(s).value <= 1.0
    ensures FractionOf(s).value == 1.0 <==> TimeHeld(s, false) == 0.0
    ensures FractionOf(s).value == 0.0 <==> TimeHeld(s, true) == 0.0
  {
    hide TimeHeld;
    HeldSplitsSpan(s);
    Ratio(TimeHeld(s, true), TimeHeld(s, false), Span(s));
  }

  lemma {:induction false} WithinMembers(samples: seq<Sample>, from: real, to: real)
    ensures forall s :: s in Within(samples, from, to) <==> s in samples && from <= s.at <= to
  {
    if samples != [] {
      WithinMembers(samples[..|samples| - 1], from, to);
    }
  }

  lemma RecentMembers(samples: seq<Sample>, now: real, window: real, s: Sample)
    requires s in Recent(samples, now, window)
    ensures s in samples && now - window <= s.at <= now
  {
    StableSort.SortMembers(SampledAt, Within(samples, now - window, now), s);
    WithinMembers(samples, now - window, now);
  }

  lemma {:induction false} WithinCounts(samples: seq<Sample>, from: real, to: real, s: Sample)
    ensures multiset(Within(samples, from, to))[s] == if from <= s.at <= to then multiset(samples)[s] else 0
  {
    if samples != [] {
      var front, last := samples[..|samples| - 1], samples[|samples| - 1];
      WithinCounts(front, from, to, s);
      assert samples == front + [last];
    }
  }

  /** The samples looked at are exactly those in the window, each as often as it was taken, in order of time. */
  lemma RecentExactly(samples: seq<Sample>, now: real, window: real, s: Sample)
    ensures multiset(Recent(samples, now, window))[s] == if now - window <= s.at <= now then multiset(samples)[s] else 0
    ensures StableSort.Ordered(SampledAt, Recent(samples, now, window))
  {
    hide Within, StableSort.Sort;
    WithinCounts(samples, now - window, now, s);
    StableSort.SortPermutes(SampledAt, Within(samples, now - window, now));
    StableSort.SortOrders(SampledAt, Within(samples, now - window, now));
  }

  /** The observed span never exceeds the window. */
  lemma SpanWithinWindow(samples: seq<Sample>, now: real, window: real)
    requires window > 0.0
    ensures 0.0 <= Span(Recent(samples, now, window)) <= window
  {
    var recent := Recent(samples, now, window);
    StableSort.SortOrders(SampledAt, Within(samples, now - window, now));
    assert StableSort.Ordered(SampledAt, recent);
    if recent != [] {
      RecentMembers(samples, now, window, recent[0]);
      RecentMembers(samples, now, window, recent[|recent| - 1]);
      assert |recent| > 1 ==> SampledAt(recent[0]) <= SampledAt(recent[|recent| - 1]);
    }
  }

  // ----- the multiplier ------------------------------------------------------------

  function NextMultiplier(current: real, observed: Option<real>, c: Scarcity): real {
    if observed.None? then current
    else
      var proposed := current + Scaled(c.target - observed.value, c.gain);
      var raised := if c.min < proposed then proposed else c.min;
      if c.max < raised then c.max else raised
  }

  /** An observation moves the multiplier by the gain for each unit it is off target, as far as the bounds let it. */
  lemma NudgeIsProportional(current: real, observed: real, c: Scarcity, step: real)
    requires ValidScarcity(c) && step == (c.target - observed) * c.gain
    ensures var moved, next := current + step, NextMultiplier(current, Some(observed), c);
            && (c.min <= moved <= c.max ==> next == moved)
            && (moved < c.min ==> next == c.min)
            && (c.max < moved ==> next == c.max)
    ensures NextMultiplier(current, None, c) == current
  {
    assert Scaled(c.target - observed, c.gain) == step;
  }

  /** The multiplier after a run of observations; it starts at 1. */
  function RunMultiplier(observed: seq<Option<real>>, c: Scarcity): real {
    if observed == [] then 1.0
    else NextMultiplier(RunMultiplier(observed[..|observed| - 1], c), observed[|observed| - 1], c)
  }

  predicate SomethingSeen(observed: seq<Option<real>>) {
    exists i :: 0 <= i < |observed| && observed[i].Some?
  }

  /** On every run the multiplier is within bounds exactly when it began there or has been moved at all. */
  lemma {:induction false} InBoundsIff(observed: seq<Option<real>>, c: Scarcity)
    requires ValidScarcity(c)
    ensures c.min <= RunMultiplier(observed, c) <= c.max <==> c.min <= 1.0 <= c.max || SomethingSeen(observed)
    ensures !SomethingSeen(observed) ==> RunMultiplier(observed, c) == 1.0
  {
    hide Scaled;
    if observed != [] {
      InBoundsIff(observed[..|observed| - 1], c);
    }
  }

  /** Too little scarcity never lowers the multiplier, too much never raises it, and it moves whenever it has room to. */
  lemma NudgesTowardTarget(current: real, observed: real, c: Scarcity)
    requires ValidScarcity(c) && c.min <= current <= c.max
    ensures observed <= c.target ==> NextMultiplier(current, Some(observed), c) >= current
    ensures observed >= c.target ==> NextMultiplier(current, Some(observed), c) <= current
    ensures c.gain > 0.0 && observed < c.target && current < c.max ==> NextMultiplier(current, Some(observed), c) > current
    ensures c.gain > 0.0 && observed > c.target && current > c.min ==> NextMultiplier(current, Some(observed), c) < current
  {
    hide Scaled;
    NudgeSign(c.target - observed, c.gain);
  }

  lemma NudgeSign(gap: real, gain: real)
    requires gain >= 0.0
    ensures gap >= 0.0 ==> Scaled(gap, gain) >= 0.0
    ensures gap <= 0.0 ==> Scaled(gap, gain) <= 0.0
    ensures gain > 0.0 && gap > 0.0 ==> Scaled(gap, gain) > 0.0
    ensures gain > 0.0 && gap < 0.0 ==> Scaled(gap, gain) < 0.0
  {
    if gap >= 0.0 {
      ScaledSign(gap, gain);
    } else {
      ScaledSign(-gap, gain);
      assert Scaled(gap, gain) == -Scaled(-gap, gain);
    }
  }

  /** An observation is a fraction of time. */
  predicate Fractions(observed: seq<Option<real>>) {
    forall i :: 0 <= i < |observed| && observed[i].Some? ==> 0.0 <= observed[i].value <= 1.0
  }

  /** What keeps the multiplier above zero for good: a positive floor, or nothing that can pull it down. */
  predicate StaysPositive(c: Scarcity) {
    c.max > 0.0 && (c.min > 0.0 || c.gain == 0.0 || c.target == 1.0)
  }

  lemma StepStaysPositive(current: real, observed: Option<real>, c: Scarcity)
    requires ValidScarcity(c) && StaysPositive(c) && current > 0.0
    requires observed.Some? ==> 0.0 <= observed.value <= 1.0
    ensures NextMultiplier(current, observed, c) > 0.0
  {
    if observed.Some? && c.min == 0.0 {
      if c.gain > 0.0 {
        NudgeSign(c.target - observed.value, c.gain);
      } else {
        assert Scaled(c.target - observed.value, c.gain) == 0.0;
      }
    }
  }

  lemma {:induction false} PositiveWhenStays(observed: seq<Option<real>>, c: Scarcity)
    requires ValidScarcity(c) && Fractions(observed) && StaysPositive(c)
    ensures RunMultiplier(observed, c) > 0.0
  {
    hide NextMultiplier;
    if observed != [] {
      PositiveWhenStays(observed[..|observed| - 1], c);
      StepStaysPositive(RunMultiplier(observed[..|observed| - 1], c), observed[|observed| - 1], c);
    }
  }

  function AllConstrained(n: nat): (observed: seq<Option<real>>)
    ensures |observed| == n && Fractions(observed)
  {
    if n == 0 then [] else AllConstrained(n - 1) + [Some(1.0)]
  }

  function AtLeastZero(x: real): real {
    if x > 0.0 then x else 0.0
  }

  lemma FallsOnce(current: real, c: Scarcity)
    requires ValidScarcity(c) && c.min == 0.0
    ensures 0.0 <= NextMultiplier(current, Some(1.0), c) <= AtLeastZero(current - Scaled(1.0 - c.target, c.gain))
  {
    assert Scaled(c.target - 1.0, c.gain) == -Scaled(1.0 - c.target, c.gain);
  }

  lemma OneMoreStep(n: nat, step: real)
    ensures Scaled((n + 1) as real, step) == Scaled(n as real, step) + step
    ensures Scaled(0 as real, step) == 0.0
  {}

  /** Under unbroken scarcity with a zero floor the multiplier falls by the same step each time until it is zero. */
  lemma {:induction false} ConstrainedFalls(n: nat, c: Scarcity)
    requires ValidScarcity(c) && c.min == 0.0
    ensures 0.0 <= RunMultiplier(AllConstrained(n), c)
            <= AtLeastZero(1.0 - Scaled(n as real, Scaled(1.0 - c.target, c.gain)))
  {
    hide NextMultiplier;
    hide Scaled;
    ScaledSign(1.0 - c.target, c.gain);
    var step := Scaled(1.0 - c.target, c.gain);
    OneMoreStep(n, step);
    if n > 0 {
      var before := AllConstrained(n - 1);
      ConstrainedFalls(n - 1, c);
      OneMoreStep(n - 1, step);
      FallsOnce(RunMultiplier(before, c), c);
      assert AllConstrained(n)[..n - 1] == before;
    }
  }

  lemma EnoughSteps(step: real) returns (n: nat)
    requires step > 0.0
    ensures n > 0 && Scaled(n as real, step) >= 1.0
  {
    n := (1.0 / step).Floor + 1;
    ScaleOrders(1.0 / step, n as real, step);
    assert Scaled(1.0 / step, step) == 1.0;
  }

  lemma ReachesZero(c: Scarcity) returns (observed: seq<Option<real>>)
    requires ValidScarcity(c) && !StaysPositive(c)
    ensures Fractions(observed) && RunMultiplier(observed, c) <= 0.0
  {
    hide Scaled;
    if c.max == 0.0 {
      observed := AllConstrained(1);
      assert observed[..0] == [];
    } else {
      ScaledSign(1.0 - c.target, c.gain);
      var n := EnoughSteps(Scaled(1.0 - c.target, c.gain));
      ConstrainedFalls(n, c);
      observed := AllConstrained(n);
    }
  }

  /** The multiplier stays positive on every run exactly when the configuration says so: a zero floor alone lets it reach zero. */
  lemma PositiveOnEveryRunIff(c: Scarcity)
    requires ValidScarcity(c)
    ensures (forall observed :: Fractions(observed) ==> RunMultiplier(observed, c) > 0.0) <==> StaysPositive(c)
  {
    if StaysPositive(c) {
      forall observed | Fractions(observed) ensures RunMultiplier(observed, c) > 0.0 {
        PositiveWhenStays(observed, c);
      }
    } else {
      var observed := ReachesZero(c);
    }
  }

  // ----- the weights ----------------------------------------------------------------

  predicate Heavy(k: Kind) {
    k.Burst? || k.Whale? || k.Cluster?
  }

  function Grown(weight: real, heavy: bool, multiplier: real): real
    requires multiplier > 0.0
  {
    if heavy then weight * multiplier else weight / multiplier
  }

  function Tilted(weight: real, kind: Kind, multiplier: real): real
    requires multiplier > 0.0
  {
    Grown(weight, Heavy(kind), multiplier)
  }

  function ApplyMultiplier(base: seq<real>, kinds: seq<Kind>, multiplier: real): (w: seq<real>)
    requires |kinds| == |base| && multiplier > 0.0
    ensures |w| == |base| && forall i :: 0 <= i < |w| ==> w[i] == Tilted(base[i], kinds[i], multiplier)
  {
    seq(|base|, i requires 0 <= i < |base| => Tilted(base[i], kinds[i], multiplier))
  }

  /** Bursts, whales and clusters weigh more by the multiplier; background and tight-fee phases less by as much. */
  lemma TiltExact(base: seq<real>, kinds: seq<Kind>, multiplier: real, i: nat)
    requires |kinds| == |base| && multiplier > 0.0 && i < |base|
    ensures var w := ApplyMultiplier(base, kinds, multiplier);
            && (kinds[i] in [Burst, Whale, Cluster] ==> w[i] == base[i] * multiplier)
            && (kinds[i] in [Background, TightFee] ==> w[i] * multiplier == base[i])
  {}

  lemma TiltKeepsSign(weight: real, kind: Kind, multiplier: real)
    requires multiplier > 0.0
    ensures Tilted(weight, kind, multiplier) > 0.0 <==> weight > 0.0
  {
    var t := Tilted(weight, kind, multiplier);
    if Heavy(kind) {
      if weight > 0.0 { ScaledSign(weight, multiplier); } else { ScaledSign(-weight, multiplier); }
    } else {
      assert Scaled(t, multiplier) == weight;
      if t > 0.0 { ScaledSign(t, multiplier); } else { ScaledSign(-t, multiplier); }
    }
  }

  /** Every phase that could be chosen still can be, and none that could not. */
  lemma SupportKept(base: seq<real>, kinds: seq<Kind>, multiplier: real, i: nat)
    requires |kinds| == |base| && multiplier > 0.0 && i < |base|
    ensures ApplyMultiplier(base, kinds, multiplier)[i] > 0.0 <==> base[i] > 0.0
  {
    TiltKeepsSign(base[i], kinds[i], multiplier);
  }

  lemma TotalStaysPositive(base: seq<real>, kinds: seq<Kind>, multiplier: real)
    requires |kinds| == |base| && multiplier > 0.0
    ensures Total(ApplyMultiplier(base, kinds, multiplier)) > 0.0 <==> Total(base) > 0.0
  {
    var tilted := ApplyMultiplier(base, kinds, multiplier);
    TotalZeroIff(base, |base|);
    TotalZeroIff(tilted, |base|);
    forall i | 0 <= i < |base| ensures tilted[i] > 0.0 <==> base[i] > 0.0 {
      SupportKept(base, kinds, multiplier, i);
    }
  }

  /** The positive weight held by one class of phases among the first `n`. */
  function ClassWeight(weights: seq<real>, kinds: seq<Kind>, heavy: bool, n: nat): real
    requires |kinds| == |weights| && n <= |weights|
  {
    if n == 0 then 0.0
    else ClassWeight(weights, kinds, heavy, n - 1) + if Heavy(kinds[n - 1]) == heavy then Max0(weights[n - 1]) else 0.0
  }

  lemma {:induction false} ClassesSplitTotal(weights: seq<real>, kinds: seq<Kind>, n: nat)
    requires |kinds| == |weights| && n <= |weights|
    ensures ClassWeight(weights, kinds, true, n) + ClassWeight(weights, kinds, false, n) == Before(weights, n)
    ensures ClassWeight(weights, kinds, true, n) >= 0.0 && ClassWeight(weights, kinds, false, n) >= 0.0
  {
    if n > 0 {
      ClassesSplitTotal(weights, kinds, n - 1);
    }
  }

  lemma TiltedMax0(weight: real, kind: Kind, multiplier: real)
    requires multiplier > 0.0
    ensures Max0(Tilted(weight, kind, multiplier)) == Tilted(Max0(weight), kind, multiplier)
  {
    TiltKeepsSign(weight, kind, multiplier);
  }

  lemma GrownAdds(a: real, b: real, heavy: bool, multiplier: real)
    requires multiplier > 0.0
    ensures Grown(a, heavy, multiplier) + Grown(b, heavy, multiplier) == Grown(a + b, heavy, multiplier)
    ensures Grown(0.0, heavy, multiplier) == 0.0
  {}

  /** The heavy phases' weight is multiplied by the multiplier, the light phases' divided by it. */
  lemma {:induction false} ClassTilts(base: seq<real>, kinds: seq<Kind>, multiplier: real, heavy: bool, n: nat)
    requires |kinds| == |base| && multiplier > 0.0 && n <= |base|
    ensures ClassWeight(ApplyMultiplier(base, kinds, multiplier), kinds, heavy, n)
            == Grown(ClassWeight(base, kinds, heavy, n), heavy, multiplier)
  {
    hide Grown, Max0;
    GrownAdds(0.0, 0.0, heavy, multiplier);
    if n > 0 {
      ClassTilts(base, kinds, multiplier, heavy, n - 1);
      TiltedMax0(base[n - 1], kinds[n - 1], multiplier);
      GrownAdds(ClassWeight(base, kinds, heavy, n - 1), Max0(base[n - 1]), heavy, multiplier);
    }
  }

  function HeavyShare(weights: seq<real>, kinds: seq<Kind>): real
    requires |kinds| == |weights| && Total(weights) > 0.0
  {
    ClassWeight(weights, kinds, true, |weights|) / Total(weights)
  }

  function Share(h: real, l: real): real
    requires h + l > 0.0
  {
    h / (h + l)
  }

  lemma HeavyShareOf(weights: seq<real>, kinds: seq<Kind>)
    requires |kinds| == |weights| && Total(weights) > 0.0
    ensures ClassWeight(weights, kinds, true, |weights|) + ClassWeight(weights, kinds, false, |weights|) > 0.0
    ensures ClassWeight(weights, kinds, true, |weights|) >= 0.0 && ClassWeight(weights, kinds, false, |weights|) >= 0.0
    ensures HeavyShare(weights, kinds)
         == Share(ClassWeight(weights, kinds, true, |weights|), ClassWeight(weights, kinds, false, |weights|))
  {
    ClassesSplitTotal(weights, kinds, |weights|);
  }

  lemma ShareGrows(h1: real, l1: real, h2: real, l2: real)
    requires h1 >= 0.0 && l1 >= 0.0 && h2 >= h1 && l2 <= l1 && l2 >= 0.0 && h1 + l1 > 0.0 && h2 + l2 > 0.0
    ensures Share(h1, l1) <= Share(h2, l2)
    ensures h1 < h2 && l2 < l1 ==> Share(h1, l1) < Share(h2, l2)
  {
    var t1, t2 := h1 + l1, h2 + l2;
    var q := h2 / t2;
    assert Scaled(q, t2) == h2;
    Ratio(h2, l2, t2);
    // q * l1 >= (1 - q) * h1, so q * t1 >= h1.
    var p := 1.0 - q;
    assert Scaled(p, t2) == l2;
    assert Scaled(q, t1) - h1 == Scaled(q, l1) - Scaled(p, h1);
    assert Scaled(q, l2) == Scaled(p, h2);
    ScaledMonotone(q, l2, l1);
    ScaledMonotone(p, h1, h2);
    DivideOut(q, t1, h1);
    var q1 := h1 / t1;
    assert Scaled(q1, t1) == h1;
  }

  lemma ScaledMonotone(a: real, x: real, y: real)
    requires a >= 0.0 && x <= y
    ensures Scaled(a, x) <= Scaled(a, y)
    ensures a > 0.0 && x < y ==> Scaled(a, x) < Scaled(a, y)
  {
    ScaleOrders(x, y, a);
    assert Scaled(a, x) == Scaled(x, a) && Scaled(a, y) == Scaled(y, a);
  }

  lemma GrownOrders(x: real, m1: real, m2: real)
    requires x >= 0.0 && 0.0 < m1 < m2
    ensures Grown(x, true, m1) <= Grown(x, true, m2) && Grown(x, false, m2) <= Grown(x, false, m1)
    ensures x > 0.0 ==> Grown(x, true, m1) < Grown(x, true, m2) && Grown(x, false, m2) < Grown(x, false, m1)
    ensures Grown(x, true, m1) >= 0.0 && Grown(x, false, m2) >= 0.0
  {
    assert Grown(x, true, m1) == Scaled(x, m1) && Grown(x, true, m2) == Scaled(x, m2);
    ScaledMonotone(x, m1, m2);
    ScaledSign(x, m1);
    var d1, d2 := x / m1, x / m2;
    assert Scaled(d1, m1) == x && Scaled(d2, m2) == x;
    DivideOut(d1, m2, x);
    DivideOut(d2, m2, 0.0);
    DivideOut(d1, m1, 0.0);
    assert 0.0 / m1 == 0.0 && 0.0 / m2 == 0.0;
    ScaledMonotone(d1, m1, m2);
  }

  /** Raising the multiplier never lowers the chance of a heavy phase, and raises it whenever both classes have weight. */
  lemma HeavyShareRises(base: seq<real>, kinds: seq<Kind>, m1: real, m2: real)
    requires |kinds| == |base| && 0.0 < m1 < m2 && Total(base) > 0.0
    ensures Total(ApplyMultiplier(base, kinds, m1)) > 0.0 && Total(ApplyMultiplier(base, kinds, m2)) > 0.0
    ensures var s1, s2 := HeavyShare(ApplyMultiplier(base, kinds, m1), kinds), HeavyShare(ApplyMultiplier(base, kinds, m2), kinds);
            && s1 <= s2
            && (ClassWeight(base, kinds, true, |base|) > 0.0 && ClassWeight(base, kinds, false, |base|) > 0.0 ==> s1 < s2)
  {
    hide Grown, ClassWeight, Before, Share, HeavyShare;
    var w1, w2 := ApplyMultiplier(base, kinds, m1), ApplyMultiplier(base, kinds, m2);
    var h, l := ClassWeight(base, kinds, true, |base|), ClassWeight(base, kinds, false, |base|);
    TotalStaysPositive(base, kinds, m1);
    TotalStaysPositive(base, kinds, m2);
    HeavyShareOf(base, kinds);
    HeavyShareOf(w1, kinds);
    HeavyShareOf(w2, kinds);
    ClassTilts(base, kinds, m1, true, |base|);
    ClassTilts(base, kinds, m1, false, |base|);
    ClassTilts(base, kinds, m2, true, |base|);
    ClassTilts(base, kinds, m2, false, |base|);
    GrownOrders(h, m1, m2);
    GrownOrders(l, m1, m2);
    ShareGrows(Grown(h, true, m1), Grown(l, false, m1), Grown(h, true, m2), Grown(l, false, m2));
  }

  // ----- choosing a phase ------------------------------------------------------------

  /** The tilted weights as the generator computes them, whatever the multiplier: at zero the light ones are divided by it. */
  function TiltedNumbers(base: seq<real>, kinds: seq<Kind>, multiplier: real): (w: seq<Number>)
    requires |kinds| == |base| && multiplier >= 0.0
    ensures |w| == |base|
  {
    seq(|base|, i requires 0 <= i < |base| =>
      if Heavy(kinds[i]) then Finite(base[i] * multiplier) else Quotient(base[i], multiplier))
  }

  /** A light phase that is not weighted below zero. */
  predicate SomeLight(base: seq<real>, kinds: seq<Kind>)
    requires |kinds| == |base|
  {
    exists i :: 0 <= i < |base| && !Heavy(kinds[i]) && base[i] >= 0.0
  }

  lemma PositiveTilt(base: seq<real>, kinds: seq<Kind>, multiplier: real)
    requires |kinds| == |base| && multiplier > 0.0
    ensures !SomeSwamps(TiltedNumbers(base, kinds, multiplier))
    ensures Values(TiltedNumbers(base, kinds, multiplier)) == ApplyMultiplier(base, kinds, multiplier)
  {
    var w, tilted := Values(TiltedNumbers(base, kinds, multiplier)), ApplyMultiplier(base, kinds, multiplier);
    assert forall i :: 0 <= i < |base| ==> w[i] == tilted[i];
  }

  /** At zero every light phase weighs infinitely much or nothing that is a number, and no heavy one weighs anything. */
  lemma ZeroTilt(base: seq<real>, kinds: seq<Kind>)
    requires |kinds| == |base|
    ensures var w := TiltedNumbers(base, kinds, 0.0);
            (SomeSwamps(w) <==> SomeLight(base, kinds)) && (!SomeSwamps(w) ==> Total(Values(w)) == 0.0)
  {
    var w := TiltedNumbers(base, kinds, 0.0);
    forall i | 0 <= i < |base|
      ensures Swamps(w[i]) <==> !Heavy(kinds[i]) && base[i] >= 0.0
      ensures w[i].Finite? ==> w[i].value == 0.0
    {}
    if i :| 0 <= i < |base| && !Heavy(kinds[i]) && base[i] >= 0.0 {
      assert Swamps(w[i]);
    }
    TotalZeroIff(Values(w), |base|);
  }

  /**
   * One turn of the generator's loop: observe, nudge, tilt the weights, draw a phase. Once the multiplier has reached
   * zero the draw no longer matters: the last phase is chosen when some light phase is not weighted below zero, and
   * the first otherwise.
   */
  method ChoosePhase(samples: seq<Sample>, now: real, current: real, base: seq<real>, kinds: seq<Kind>, c: Scarcity, rng: Source)
    returns (multiplier: real, index: nat)
    requires rng.Valid() && ValidScarcity(c) && current >= 0.0 && |kinds| == |base|
    modifies rng
    ensures multiplier >= 0.0 && multiplier == NextMultiplier(current, FractionOf(Recent(samples, now, c.window)), c)
    ensures multiplier == 0.0 ==> index == if SomeLight(base, kinds) then |base| - 1 else 0
    ensures multiplier > 0.0 && Total(base) <= 0.0 ==> index == 0
    ensures multiplier > 0.0 && Total(base) > 0.0 ==>
              var tilted := ApplyMultiplier(base, kinds, multiplier);
              && index < |base| && base[index] > 0.0
              && Owns(tilted, index, Scaled(rng.draws(old(rng.taken)), Total(tilted)))
  {
    hide TiltedNumbers, Values, Scaled, FractionOf, Recent;
    var fraction := ConstrainedFraction(samples, now, c.window);
    multiplier := NextMultiplier(current, fraction, c);
    var weights := TiltedNumbers(base, kinds, multiplier);
    index := ExtendedReals.WeightedIndex(weights, rng);
    if multiplier > 0.0 {
      PositiveTilt(base, kinds, multiplier);
      TotalStaysPositive(base, kinds, multiplier);
      if index < |base| {
        SupportKept(base, kinds, multiplier, index);
      }
    } else {
      ZeroTilt(base, kinds);
    }
  }
}
