/**
 * The capital a fast fill may draw on, as the market observer computes it, and why
 * drawing on it can never dig into a vault's reserve.
 */
module ReserveFloor {
  import opened ByteStrings
  import opened FeePolicy
  import opened Entities
  import opened Handlers
  import opened History
  import opened Replay
  import FeeTiers

  /** Cash belonging to LPs, not clamped. */
  function Cash(v: Vault): int {
    v.liquidBalance - v.accruedProtocolFees
  }

  function TotalAssets(v: Vault): int {
    (if Cash(v) > 0 then Cash(v) else 0) + v.outstandingExposure
  }

  /** The reserve floor, rounded up in the vault's favour. */
  function Floor(total: int, reserveFloorBps: nat): int {
    TruncDiv(total * reserveFloorBps + 9_999, BPS)
  }

  function FloorOf(v: Vault): int {
    Floor(TotalAssets(v), v.reserveFloorBps)
  }

  function Available(v: Vault): nat {
    if Cash(v) > FloorOf(v) then Cash(v) - FloorOf(v) else 0
  }

  function AggregateAvailable(vaults: seq<Vault>): nat {
    if vaults == [] then 0 else AggregateAvailable(vaults[..|vaults| - 1]) + Available(vaults[|vaults| - 1])
  }

  /** The floor is the least whole amount covering the reserve fraction. */
  lemma FloorIsLeastCover(total: nat, bps: nat, kept: int)
    ensures 0 <= Floor(total, bps)
    ensures Floor(total, bps) <= kept <==> total * bps <= kept * BPS
  {
    assert 0 <= total * bps;
  }

  /** A share of the total, rounded down in the vault's favour: the cap on exposure, and on a single fill. */
  function Cap(total: int, bps: nat): int {
    TruncDiv(total * bps, BPS)
  }

  /** The cap is the greatest whole amount within the fraction. */
  lemma CapIsGreatest(total: nat, bps: nat, out: int)
    ensures 0 <= Cap(total, bps)
    ensures out <= Cap(total, bps) <==> out * BPS <= total * bps
  {
    assert 0 <= total * bps;
  }

  ghost predicate AboveFloor(v: Vault) {
    0 <= v.outstandingExposure && FloorOf(v) <= Cash(v)
  }

  predicate UnderCap(v: Vault) {
    v.outstandingExposure <= Cap(TotalAssets(v), v.maxExposureBps)
  }

  /** Both limits a vault is configured with: cash above the reserve floor, and exposure under its cap. */
  ghost predicate Within(v: Vault) {
    AboveFloor(v) && UnderCap(v)
  }

  predicate ValidLimits(v: Vault) {
    v.reserveFloorBps <= BPS && v.maxFillBps <= BPS && v.maxExposureBps <= BPS
  }

  predicate SameLimits(v: Vault, w: Vault) {
    v.reserveFloorBps == w.reserveFloorBps && v.maxFillBps == w.maxFillBps && v.maxExposureBps == w.maxExposureBps
  }

  // ----- in the vault's own figures --------------------------------------------

  /** Taking `x` out as a fill leaves cash that still covers the reserve fraction of everything LPs own. */
  predicate Spares(v: Vault, x: int) {
    var cash := v.liquidBalance - v.accruedProtocolFees;
    ((if cash > 0 then cash else 0) + v.outstandingExposure) * v.reserveFloorBps <= (cash - x) * BPS
  }

  /** The reported availability is all a vault can advance and leave its floor covered. */
  lemma AvailableIsExact(v: Vault, x: int)
    requires 0 <= v.outstandingExposure && 0 < x
    ensures x <= Available(v) <==> Spares(v, x)
  {
    FloorIsLeastCover(TotalAssets(v), v.reserveFloorBps, Cash(v) - x);
  }

  /** The most a vault can advance: that much is spared, and no more is. */
  ghost predicate IsMostSpared(v: Vault, most: nat) {
    (most > 0 ==> Spares(v, most)) && forall x: int :: x > most ==> !Spares(v, x)
  }

  lemma AvailableIsMost(v: Vault, most: nat)
    requires 0 <= v.outstandingExposure
    ensures most == Available(v) <==> IsMostSpared(v, most)
  {
    hide Spares, Available;
    forall x: int | x > 0 ensures x <= Available(v) <==> Spares(v, x) {
      AvailableIsExact(v, x);
    }
    if most < Available(v) {
      assert Spares(v, Available(v));
    }
  }

  /** Being within limits, in the vault's own figures. */
  lemma WithinIff(v: Vault)
    requires 0 <= v.outstandingExposure && v.accruedProtocolFees <= v.liquidBalance
    ensures var cash := v.liquidBalance - v.accruedProtocolFees;
            Within(v) <==>
            && (cash + v.outstandingExposure) * v.reserveFloorBps <= cash * BPS
            && v.outstandingExposure * BPS <= (cash + v.outstandingExposure) * v.maxExposureBps
  {
    FloorIsLeastCover(TotalAssets(v), v.reserveFloorBps, Cash(v));
    CapIsGreatest(TotalAssets(v), v.maxExposureBps, v.outstandingExposure);
  }

  function SumOf(parts: seq<nat>): nat {
    if parts == [] then 0 else SumOf(parts[..|parts| - 1]) + parts[|parts| - 1]
  }

  ghost predicate EachMost(vaults: seq<Vault>, parts: seq<nat>) {
    |parts| == |vaults| && forall k :: 0 <= k < |vaults| ==> IsMostSpared(vaults[k], parts[k])
  }

  /** The market-wide figure is the sum, vault by vault, of the most each can advance. */
  lemma {:induction false} AggregateIsMost(vaults: seq<Vault>) returns (parts: seq<nat>)
    requires forall k :: 0 <= k < |vaults| ==> 0 <= vaults[k].outstandingExposure
    ensures EachMost(vaults, parts) && AggregateAvailable(vaults) == SumOf(parts)
    decreases |vaults|
  {
    hide Available, IsMostSpared;
    if vaults == [] {
      parts := [];
    } else {
      var last := vaults[|vaults| - 1];
      var front := AggregateIsMost(vaults[..|vaults| - 1]);
      AvailableIsMost(last, Available(last));
      parts := front + [Available(last)];
      assert parts[..|front|] == front;
    }
  }

  // ----- one event -----------------------------------------------------------

  /** A fill within the reported availability uses up exactly its own size of it. */
  lemma FillDrawsDown(v: Vault, at: Stamp, log: VaultEvent)
    requires log.FastFilled? && 0 <= v.outstandingExposure
    requires log.outputAmount <= Available(v)
    ensures Available(VaultAfter(v, at, log)) == Available(v) - log.outputAmount
    ensures 0 < log.outputAmount ==> AboveFloor(VaultAfter(v, at, log))
    ensures 0 < log.outputAmount ==> FloorOf(VaultAfter(v, at, log)) == FloorOf(v)
  {
    var w := VaultAfter(v, at, log);
    assert Cash(w) == Cash(v) - log.outputAmount;
    if 0 < log.outputAmount {
      FloorIsLeastCover(TotalAssets(v), v.reserveFloorBps, 0);
      assert TotalAssets(w) == TotalAssets(v);
    } else {
      assert TotalAssets(w) == TotalAssets(v);
    }
  }

  /** Adding `more` of cash against at most as much of extra assets keeps a vault above its floor. */
  lemma MoreCashKeepsFloor(v: Vault, w: Vault, more: nat)
    requires AboveFloor(v) && w.reserveFloorBps == v.reserveFloorBps <= BPS
    requires 0 <= w.outstandingExposure
    requires Cash(w) == Cash(v) + more && TotalAssets(w) <= TotalAssets(v) + more
    ensures AboveFloor(w)
  {
    var bps := v.reserveFloorBps;
    FloorIsLeastCover(TotalAssets(v), bps, 0);
    FloorIsLeastCover(TotalAssets(v), bps, Cash(v));
    FloorIsLeastCover(TotalAssets(w), bps, Cash(w));
    MulMonotone(TotalAssets(w), TotalAssets(v) + more, bps);
    MulMonotone(bps, BPS, more);
    assert (TotalAssets(v) + more) * bps == TotalAssets(v) * bps + more * bps;
  }

  /** The cap on exposure, put as the cash it asks for. */
  lemma CapCoveredIff(cash: nat, exposure: nat, bps: nat)
    requires bps <= BPS
    ensures exposure <= Cap(cash + exposure, bps) <==> exposure * (BPS - bps) <= cash * bps
  {
    CapIsGreatest(cash + exposure, bps, exposure);
    assert (cash + exposure) * bps == cash * bps + exposure * bps;
    assert exposure * (BPS - bps) == exposure * BPS - exposure * bps;
  }

  lemma LessOutKeepsCap(cash: nat, exposure: nat, cash': nat, exposure': nat, bps: nat)
    requires bps <= BPS && cash <= cash' && exposure' <= exposure
    requires exposure <= Cap(cash + exposure, bps)
    ensures exposure' <= Cap(cash' + exposure', bps)
  {
    hide Cap;
    CapCoveredIff(cash, exposure, bps);
    CapCoveredIff(cash', exposure', bps);
    MulMonotone(exposure', exposure, BPS - bps);
    MulMonotone(cash, cash', bps);
  }

  /** More cash and no more out keeps both limits. */
  lemma MoreCashKeepsLimits(v: Vault, w: Vault, more: nat)
    requires Within(v) && ValidLimits(v) && SameLimits(v, w)
    requires 0 <= w.outstandingExposure <= v.outstandingExposure && Cash(w) == Cash(v) + more
    ensures Within(w)
  {
    FloorIsLeastCover(TotalAssets(v), v.reserveFloorBps, 0);
    hide Floor, Cap;
    MoreCashKeepsFloor(v, w, more);
    LessOutKeepsCap(Cash(v), v.outstandingExposure, Cash(w), w.outstandingExposure, v.maxExposureBps);
  }

  /** The least amount whose `rest` covers the `part` of what is out. */
  function Retained(exposure: nat, part: nat, rest: nat): nat
    requires rest > 0
  {
    TruncDiv(exposure * part + (rest - 1), rest)
  }

  /** The most LPs may take out now: cash beyond what the floor and the cap on exposure ask to be kept. */
  function Withdrawable(cash: nat, exposure: nat, floorBps: nat, capBps: nat): nat
    requires floorBps <= BPS && capBps <= BPS
  {
    if exposure == 0 then cash
    else if floorBps == BPS || capBps == 0 then 0
    else
      var forFloor, forCap := Retained(exposure, floorBps, BPS - floorBps), Retained(exposure, BPS - capBps, capBps);
      var least := if forFloor > forCap then forFloor else forCap;
      if cash > least then cash - least else 0
  }

  lemma CeilingIsLeastCover(x: nat, n: nat, kept: int)
    requires n > 0
    ensures 0 <= TruncDiv(x + (n - 1), n)
    ensures TruncDiv(x + (n - 1), n) <= kept <==> x <= kept * n
  {
    var q := (x + (n - 1)) / n;
    DivisionBounds(x + (n - 1), n);
    if q <= kept {
      MulMonotone(q, kept, n);
    } else {
      MulMonotone(kept + 1, q, n);
    }
  }

  lemma RetainedIsLeastCover(exposure: nat, part: nat, rest: nat, kept: int)
    requires rest > 0
    ensures Retained(exposure, part, rest) <= kept <==> exposure * part <= kept * rest
  {
    hide TruncDiv;
    assert 0 <= exposure * part;
    CeilingIsLeastCover(exposure * part, rest, kept);
  }

  /** Against kept cash, the floor on everything asks for exactly what the receivable alone asks for. */
  lemma FloorCoveredIff(cash: nat, exposure: nat, bps: nat)
    requires bps <= BPS
    ensures Floor(cash + exposure, bps) <= cash <==> exposure * bps <= cash * (BPS - bps)
  {
    FloorIsLeastCover(cash + exposure, bps, cash);
    assert (cash + exposure) * bps == cash * bps + exposure * bps;
    assert cash * (BPS - bps) == cash * BPS - cash * bps;
  }

  /** Both limits, put as cash to be kept. */
  lemma LimitsIff(cash: nat, exposure: nat, floorBps: nat, capBps: nat)
    requires floorBps <= BPS && capBps <= BPS
    ensures Floor(cash + exposure, floorBps) <= cash && exposure <= Cap(cash + exposure, capBps)
            <==> exposure * floorBps <= cash * (BPS - floorBps) && exposure * (BPS - capBps) <= cash * capBps
  {
    hide Floor, Cap;
    FloorCoveredIff(cash, exposure, floorBps);
    CapCoveredIff(cash, exposure, capBps);
  }

  lemma WithdrawableIsExact(cash: nat, exposure: nat, floorBps: nat, capBps: nat, assets: nat)
    requires floorBps <= BPS && capBps <= BPS && assets <= cash
    requires Floor(cash + exposure, floorBps) <= cash && exposure <= Cap(cash + exposure, capBps)
    ensures Floor(cash - assets + exposure, floorBps) <= cash - assets && exposure <= Cap(cash - assets + exposure, capBps)
            <==> assets <= Withdrawable(cash, exposure, floorBps, capBps)
  {
    hide Floor, Cap, Retained;
    var left := cash - assets;
    LimitsIff(cash, exposure, floorBps, capBps);
    LimitsIff(left, exposure, floorBps, capBps);
    if exposure == 0 {
      assert 0 <= left * (BPS - floorBps) && 0 <= left * capBps;
    } else {
      SomethingOut(exposure, cash, floorBps);
      SomethingOut(exposure, cash, BPS - capBps);
      RetainedCovers(cash, exposure, floorBps, capBps, left);
      RetainedCovers(cash, exposure, floorBps, capBps, cash);
    }
  }

  lemma RetainedCovers(cash: nat, exposure: nat, floorBps: nat, capBps: nat, left: int)
    requires exposure > 0 && floorBps < BPS && 0 < capBps <= BPS
    ensures exposure * floorBps <= left * (BPS - floorBps) && exposure * (BPS - capBps) <= left * capBps
            <==> Retained(exposure, floorBps, BPS - floorBps) <= left && Retained(exposure, BPS - capBps, capBps) <= left
  {
    hide Retained;
    RetainedIsLeastCover(exposure, floorBps, BPS - floorBps, left);
    RetainedIsLeastCover(exposure, BPS - capBps, capBps, left);
  }

  /** With something out, a limit that holds leaves a part to cover it with. */
  lemma SomethingOut(exposure: nat, cash: nat, part: nat)
    requires 0 < exposure && part <= BPS && exposure * part <= cash * (BPS - part)
    ensures part < BPS
  {
    assert 0 < exposure * BPS;
  }

  /** A withdrawal from a vault within its limits leaves it within them exactly when it is within the withdrawable balance. */
  lemma WithdrawKeepsLimitsIff(v: Vault, at: Stamp, assets: nat)
    requires Within(v) && ValidLimits(v) && assets <= Cash(v)
    ensures Within(VaultAfter(v, at, Withdraw(assets)))
            <==> assets <= Withdrawable(Cash(v), v.outstandingExposure, v.reserveFloorBps, v.maxExposureBps)
  {
    hide UtilisationOf, FeeBpsAt, Floor, Cap, Withdrawable;
    WithdrawableIsExact(Cash(v), v.outstandingExposure, v.reserveFloorBps, v.maxExposureBps, assets);
  }

  /** What the vault itself enforces on the two events that take cash out. */
  predicate Allowed(v: Vault, log: VaultEvent) {
    match log
    case FastFilled(_, _, _, _, output, _, _) =>
      && output <= Cap(TotalAssets(v), v.maxFillBps)
      && v.outstandingExposure + output <= Cap(TotalAssets(v), v.maxExposureBps)
      && output <= Available(v)
    case Withdraw(assets) =>
      && ValidLimits(v) && 0 <= v.outstandingExposure && assets <= Cash(v)
      && assets <= Withdrawable(Cash(v), v.outstandingExposure, v.reserveFloorBps, v.maxExposureBps)
    case _ => true
  }

  /** The vault lets a fill through exactly when it is under the single-fill cap and leaves the vault within its limits. */
  lemma FillAllowedIff(v: Vault, at: Stamp, log: VaultEvent)
    requires log.FastFilled? && 0 < log.outputAmount && 0 <= v.outstandingExposure
    ensures var cash := v.liquidBalance - v.accruedProtocolFees;
            Allowed(v, log) <==>
            && log.outputAmount * BPS <= ((if cash > 0 then cash else 0) + v.outstandingExposure) * v.maxFillBps
            && Within(VaultAfter(v, at, log))
  {
    var w := VaultAfter(v, at, log);
    CapIsGreatest(TotalAssets(v), v.maxFillBps, log.outputAmount);
    FloorIsLeastCover(TotalAssets(v), v.reserveFloorBps, 0);
    FloorIsLeastCover(TotalAssets(w), v.reserveFloorBps, 0);
    hide Floor, Cap, UtilisationOf, FeeBpsAt;
    assert Cash(w) == Cash(v) - log.outputAmount && w.outstandingExposure == v.outstandingExposure + log.outputAmount;
    if log.outputAmount <= Cash(v) {
      assert TotalAssets(w) == TotalAssets(v);
    }
  }

  /** The vault as it will stand once a surplus already received has all been booked to the protocol. */
  function Charged(v: Vault, surplus: int): Vault {
    v.(accruedProtocolFees := v.accruedProtocolFees + surplus)
  }

  lemma LimitsStay(v: Vault, at: Stamp, log: VaultEvent)
    ensures SameLimits(v, VaultAfter(v, at, log))
  {
    hide UtilisationOf, FeeBpsAt;
  }

  /** Cash out: fills and withdrawals the vault lets through keep it within its limits. */
  lemma AllowedKeepsLimits(v: Vault, at: Stamp, log: VaultEvent)
    requires Within(v) && ValidLimits(v) && Allowed(v, log)
    requires !log.ReimbursementRecorded? && !log.FeesAccrued?
    ensures Within(VaultAfter(v, at, log))
  {
    hide UtilisationOf, FeeBpsAt, Floor, Cap, Withdrawable;
    var w := VaultAfter(v, at, log);
    FloorIsLeastCover(TotalAssets(v), v.reserveFloorBps, 0);
    match log
    case FastFilled(_, _, _, _, output, _, _) =>
      assert Cash(w) == Cash(v) - output && TotalAssets(w) == TotalAssets(v);
    case Deposit(assets) => MoreCashKeepsLimits(v, w, assets);
    case Withdraw(assets) => WithdrawKeepsLimitsIff(v, at, assets);
    case ReimbursementRecorded(_, _, _) =>
    case FeesAccrued(_, _) =>
    case VaultInitialized(_) => assert Cash(w) == Cash(v) && TotalAssets(w) == TotalAssets(v);
    case PausedSet(_) => assert Cash(w) == Cash(v) && TotalAssets(w) == TotalAssets(v);
    case DeliveredViaSwap(_, _, _) => assert Cash(w) == Cash(v) && TotalAssets(w) == TotalAssets(v);
    case SwapFellBack(_, _, _) => assert Cash(w) == Cash(v) && TotalAssets(w) == TotalAssets(v);
  }

  /** A reimbursement, even with its whole surplus charged to the protocol, turns receivable into cash one for one. */
  lemma ReimbursementKeepsLimits(v: Vault, at: Stamp, log: VaultEvent)
    requires Within(v) && ValidLimits(v)
    requires log.ReimbursementRecorded? && log.exposureCleared <= log.amountReceived && log.exposureCleared <= v.outstandingExposure
    ensures Within(Charged(VaultAfter(v, at, log), log.amountReceived - log.exposureCleared))
  {
    hide UtilisationOf, FeeBpsAt, Floor, Cap;
    MoreCashKeepsLimits(v, Charged(VaultAfter(v, at, log), log.amountReceived - log.exposureCleared), log.exposureCleared);
  }

  /** Booking less than the whole surplus to the protocol leaves the rest to LPs. */
  lemma AccrualKeepsLimits(v: Vault, at: Stamp, log: VaultEvent, surplus: nat)
    requires log.FeesAccrued? && log.toProtocol <= surplus
    requires Within(Charged(v, surplus)) && ValidLimits(v)
    ensures Within(VaultAfter(v, at, log))
  {
    hide UtilisationOf, FeeBpsAt, Floor, Cap;
    MoreCashKeepsLimits(Charged(v, surplus), VaultAfter(v, at, log), surplus - log.toProtocol);
  }

  lemma Uncharged(v: Vault, surplus: nat)
    requires Within(Charged(v, surplus)) && ValidLimits(v)
    ensures Within(v)
  {
    hide Floor, Cap;
    MoreCashKeepsLimits(Charged(v, surplus), v, surplus);
  }

  // ----- whole runs ----------------------------------------------------------

  /** Every one of this vault's events in `k` is allowed at the moment it happens. */
  ghost predicate AllAllowed(s: Store, k: seq<Event>, a: Bytes) {
    k == [] ||
    var k', e := k[..|k| - 1], k[|k| - 1];
    && AllAllowed(s, k', a)
    && (e.VaultLog? && e.address == a && RunFrom(s, k').Ok? && a in RunFrom(s, k').store.vaults ==>
          Allowed(RunFrom(s, k').store.vaults[a], e.log))
  }

  /** The vault is within its limits, counting any surplus not yet booked as already owed to the protocol. */
  ghost predicate Safe(v: Vault, h: seq<Event>, a: Bytes) {
    ValidLimits(v) && Within(Charged(v, Unbooked(h, a)))
  }

  /** One admissible event of its own keeps a vault safe. */
  lemma OwnEventKeepsSafe(h: seq<Event>, e: Event, a: Bytes, v: Vault)
    requires Admits(h, e) && e.VaultLog? && e.address == a && Allowed(v, e.log)
    requires Safe(v, h, a) && 0 <= Unbooked(h, a)
    requires IsReimbursement(e) ==> e.log.exposureCleared <= v.outstandingExposure
    ensures Safe(VaultAfter(v, e.at, e.log), h + [e], a)
  {
    hide Within, VaultAfter, Allowed;
    assert (h + [e])[|h|] == e;
    LimitsStay(v, e.at, e.log);
    if IsReimbursement(e) {
      assert Charged(v, 0) == v;
      ReimbursementKeepsLimits(v, e.at, e.log);
    } else if IsAccrual(e) {
      AccrualKeepsLimits(v, e.at, e.log, Unbooked(h, a));
      assert Charged(VaultAfter(v, e.at, e.log), 0) == VaultAfter(v, e.at, e.log);
    } else {
      assert Charged(v, 0) == v;
      AllowedKeepsLimits(v, e.at, e.log);
      assert Charged(VaultAfter(v, e.at, e.log), 0) == VaultAfter(v, e.at, e.log);
    }
  }

  /** An event of another vault, or of no vault, leaves no surplus of this one unbooked. */
  lemma OthersBookNothing(h: seq<Event>, e: Event, a: Bytes)
    requires Admits(h, e) && !(e.VaultLog? && e.address == a)
    ensures Unbooked(h, a) == 0 && Unbooked(h + [e], a) == 0
  {
    assert (h + [e])[|h|] == e;
  }

  /** The delivery events, which do not touch the vault, would not change its figures either. */
  lemma SilentOnVault(v: Vault, at: Stamp, log: VaultEvent, h: seq<Event>, a: Bytes)
    ensures !ReadsVault(log) ==> (Safe(VaultAfter(v, at, log), h, a) <==> Safe(v, h, a))
  {
    hide Floor, Cap;
  }

  /** One admissible event, of whichever contract, keeps a vault safe. */
  lemma EventKeepsSafe(g: seq<Event>, e: Event, a: Bytes)
    requires Admissible(g) && Admits(g, e) && a in Created(g)
    requires Run(g).Ok? && a in Run(g).store.vaults && Safe(Run(g).store.vaults[a], g, a)
    requires e.VaultLog? && e.address == a ==> Allowed(Run(g).store.vaults[a], e.log)
    requires Run(g + [e]).Ok?
    ensures a in Run(g + [e]).store.vaults && Safe(Run(g + [e]).store.vaults[a], g + [e], a)
  {
    hide Within, VaultAfter, Allowed, Apply, Admits, RunFrom;
    RunStep(EMPTY_STORE, g, e);
    var v := Run(g).store.vaults[a];
    CreatedOnce(g, e, a);
    VaultStep(Run(g).store, e, a);
    if e.VaultLog? && e.address == a {
      FeesBookSurplus(g, a);
      if IsReimbursement(e) {
        FeeTiers.ClearedWithinExposure(g, e);
      }
      OwnEventKeepsSafe(g, e, a, v);
      SilentOnVault(v, e.at, e.log, g + [e], a);
    } else {
      OthersBookNothing(g, e, a);
    }
  }

  lemma {:induction false} SafeThroughout(h: seq<Event>, k: seq<Event>, a: Bytes)
    requires Admissible(h + k) && Admissible(h) && a in Created(h)
    requires Run(h).Ok? && a in Run(h).store.vaults && AllAllowed(Run(h).store, k, a)
    requires Safe(Run(h).store.vaults[a], h, a)
    ensures Run(h + k).Ok? && a in Run(h + k).store.vaults && a in Created(h + k)
    ensures Safe(Run(h + k).store.vaults[a], h + k, a)
    decreases |k|
  {
    hide Safe, Allowed, Apply, Admits, RunFrom;
    if k == [] {
      assert h + k == h;
    } else {
      var k', e := k[..|k| - 1], k[|k| - 1];
      var g := h + k';
      assert h + k == g + [e] && (h + k)[..|h + k| - 1] == g;
      SafeThroughout(h, k', a);
      AdmissibleRuns(h + k);
      RunConcat(EMPTY_STORE, h, k');
      EventKeepsSafe(g, e, a);
    }
  }

  /**
   * The limits survive every run: through any fills and withdrawals the vault lets through, deposits, and
   * reimbursements with their fees, whatever other vaults do meanwhile, cash covers the floor and exposure stays
   * under its cap, even between the two logs of a reimbursement.
   */
  lemma LimitsSurvive(h: seq<Event>, k: seq<Event>, a: Bytes)
    requires Admissible(h + k) && Admissible(h) && a in Created(h) && Settled(h)
    requires Run(h).Ok? && a in Run(h).store.vaults && AllAllowed(Run(h).store, k, a)
    requires ValidLimits(Run(h).store.vaults[a]) && Within(Run(h).store.vaults[a])
    ensures Run(h + k).Ok? && a in Run(h + k).store.vaults
    ensures Within(Run(h + k).store.vaults[a])
  {
    hide Within, Run, AllAllowed;
    assert Charged(Run(h).store.vaults[a], 0) == Run(h).store.vaults[a];
    SafeThroughout(h, k, a);
    FeesBookSurplus(h + k, a);
    Uncharged(Run(h + k).store.vaults[a], Unbooked(h + k, a));
  }

  /** A vault starts with nothing, which is within any limits. */
  lemma BornSafe(h: seq<Event>, e: Event)
    requires Admissible(h) && Admits(h, e) && e.VaultCreated? && Run(h).Ok?
    ensures Run(h + [e]).Ok? && e.creation.vault in Run(h + [e]).store.vaults
    ensures Safe(Run(h + [e]).store.vaults[e.creation.vault], h + [e], e.creation.vault)
  {
    hide UtilisationOf, FeeBpsAt, RunFrom;
    RunStep(EMPTY_STORE, h, e);
    OthersBookNothing(h, e, e.creation.vault);
  }

  lemma {:induction false} SafeSinceBirth(h: seq<Event>, a: Bytes)
    requires Admissible(h) && a in Created(h) && AllAllowed(EMPTY_STORE, h, a)
    ensures Run(h).Ok? && a in Run(h).store.vaults && Safe(Run(h).store.vaults[a], h, a)
    decreases |h|
  {
    hide Safe, Allowed, Apply, Admits, RunFrom;
    var g, e := h[..|h| - 1], h[|h| - 1];
    Unsnoc(h);
    AdmissibleRuns(g);
    AdmissibleRuns(h);
    if a in Created(g) {
      SafeSinceBirth(g, a);
      EventKeepsSafe(g, e, a);
    } else {
      BornSafe(g, e);
    }
  }

  /**
   * From creation on, in every reachable state, a vault whose fills and withdrawals were each let through by its own
   * checks keeps cash above its floor and exposure under its cap.
   */
  lemma LimitsAlwaysHold(h: seq<Event>, a: Bytes)
    requires Admissible(h) && a in Created(h) && AllAllowed(EMPTY_STORE, h, a)
    ensures Run(h).Ok? && a in Run(h).store.vaults
    ensures Within(Run(h).store.vaults[a])
  {
    hide Within, Run, AllAllowed;
    SafeSinceBirth(h, a);
    FeesBookSurplus(h, a);
    Uncharged(Run(h).store.vaults[a], Unbooked(h, a));
  }

  // ----- what the observer's figure bounds ------------------------------------

  /** This vault's only balance-moving events are fills. */
  ghost predicate OnlyFills(k: seq<Event>, a: Bytes) {
    forall i :: 0 <= i < |k| && Concerns(k[i], a) ==>
                  k[i].VaultLog? && (MovesBalance(k[i].log) ==> k[i].log.FastFilled?)
  }

  /** Each fill is within what is available when it comes. */
  ghost predicate AllFit(s: Store, k: seq<Event>, a: Bytes) {
    k == [] ||
    var k', e := k[..|k| - 1], k[|k| - 1];
    && AllFit(s, k', a)
    && (e.VaultLog? && e.address == a && e.log.FastFilled? && RunFrom(s, k').Ok? && a in RunFrom(s, k').store.vaults ==>
          e.log.outputAmount <= Available(RunFrom(s, k').store.vaults[a]))
  }

  function FillSum(k: seq<Event>, a: Bytes): nat {
    if k == [] then 0
    else
      var e := k[|k| - 1];
      FillSum(k[..|k| - 1], a) + if e.VaultLog? && e.address == a && e.log.FastFilled? then e.log.outputAmount else 0
  }

  lemma QuietKeepsAvailable(v: Vault, at: Stamp, log: VaultEvent)
    requires !MovesBalance(log)
    ensures Available(VaultAfter(v, at, log)) == Available(v)
    ensures VaultAfter(v, at, log).outstandingExposure == v.outstandingExposure
  {}

  /**
   * A sequence of fills fits, each within what is available when it comes, exactly when
   * its total is within what was available at the start: splitting and ordering change nothing.
   */
  lemma {:induction false} FillsBoundedByTotal(s: Store, k: seq<Event>, a: Bytes)
    requires RunFrom(s, k).Ok? && a in s.vaults && OnlyFills(k, a)
    requires 0 <= s.vaults[a].outstandingExposure
    ensures AllFit(s, k, a) <==> FillSum(k, a) <= Available(s.vaults[a])
    ensures a in RunFrom(s, k).store.vaults && 0 <= RunFrom(s, k).store.vaults[a].outstandingExposure
    ensures AllFit(s, k, a) ==>
              Available(RunFrom(s, k).store.vaults[a]) == Available(s.vaults[a]) - FillSum(k, a)
    decreases |k|
  {
    if k != [] {
      var k', e := k[..|k| - 1], k[|k| - 1];
      FillsBoundedByTotal(s, k', a);
      var t := RunFrom(s, k').store;
      assert Concerns(e, a) ==> Concerns(k[|k| - 1], a);
      VaultStep(t, e, a);
      if e.VaultLog? && e.address == a {
        if !MovesBalance(e.log) {
          QuietKeepsAvailable(t.vaults[a], e.at, e.log);
        } else if e.log.outputAmount <= Available(t.vaults[a]) {
          FillDrawsDown(t.vaults[a], e.at, e.log);
        }
      }
    }
  }

  /** What the vault itself would still advance in all: available, and short of the exposure cap. */
  function Headroom(v: Vault): nat {
    var room := Cap(TotalAssets(v), v.maxExposureBps) - v.outstandingExposure;
    if room < 0 then 0 else if room < Available(v) then room else Available(v)
  }

  function FillCap(v: Vault): int {
    Cap(TotalAssets(v), v.maxFillBps)
  }

  /** No fill of this vault in `k` advances more than `most`. */
  ghost predicate FillsUnder(k: seq<Event>, a: Bytes, most: int) {
    forall i :: 0 <= i < |k| && k[i].VaultLog? && k[i].address == a && k[i].log.FastFilled? ==> k[i].log.outputAmount <= most
  }

  /** Every fill of this vault in `k` advances something, as every fill does. */
  ghost predicate FillsAdvance(k: seq<Event>, a: Bytes) {
    forall i :: 0 <= i < |k| && k[i].VaultLog? && k[i].address == a && k[i].log.FastFilled? ==> 0 < k[i].log.outputAmount
  }

  lemma FillDrawsHeadroom(v: Vault, at: Stamp, log: VaultEvent)
    requires log.FastFilled? && 0 <= v.outstandingExposure && 0 < log.outputAmount
    ensures Allowed(v, log) <==> log.outputAmount <= Headroom(v) && log.outputAmount <= FillCap(v)
    ensures log.outputAmount <= Headroom(v) ==>
              && Headroom(VaultAfter(v, at, log)) == Headroom(v) - log.outputAmount
              && FillCap(VaultAfter(v, at, log)) == FillCap(v)
  {
    hide UtilisationOf, FeeBpsAt, Floor, Cap;
    if log.outputAmount <= Headroom(v) {
      FloorIsLeastCover(TotalAssets(v), v.reserveFloorBps, 0);
      assert TotalAssets(VaultAfter(v, at, log)) == TotalAssets(v);
    }
  }

  lemma QuietKeepsHeadroom(v: Vault, at: Stamp, log: VaultEvent)
    requires !MovesBalance(log)
    ensures Headroom(VaultAfter(v, at, log)) == Headroom(v) && FillCap(VaultAfter(v, at, log)) == FillCap(v)
    ensures VaultAfter(v, at, log).outstandingExposure == v.outstandingExposure && Allowed(v, log)
  {
    hide Floor, Cap;
  }

  lemma FillsUnderStep(k: seq<Event>, a: Bytes, most: int)
    requires k != []
    ensures var k', e := k[..|k| - 1], k[|k| - 1];
            FillsUnder(k, a, most) <==>
            FillsUnder(k', a, most) && (e.VaultLog? && e.address == a && e.log.FastFilled? ==> e.log.outputAmount <= most)
  {
    var k' := k[..|k| - 1];
    assert forall i :: 0 <= i < |k'| ==> k'[i] == k[i];
  }

  /**
   * The vault lets a sequence of fills through exactly when each is under the single-fill cap and their total is
   * within the headroom at the start: no way of splitting or ordering them gets more out of it, or less.
   */
  lemma {:induction false} FillsAllowedIff(s: Store, k: seq<Event>, a: Bytes)
    requires RunFrom(s, k).Ok? && a in s.vaults && OnlyFills(k, a) && FillsAdvance(k, a)
    requires 0 <= s.vaults[a].outstandingExposure
    ensures AllAllowed(s, k, a) <==> FillSum(k, a) <= Headroom(s.vaults[a]) && FillsUnder(k, a, FillCap(s.vaults[a]))
    ensures a in RunFrom(s, k).store.vaults && 0 <= RunFrom(s, k).store.vaults[a].outstandingExposure
    ensures AllAllowed(s, k, a) ==>
              && Headroom(RunFrom(s, k).store.vaults[a]) == Headroom(s.vaults[a]) - FillSum(k, a)
              && FillCap(RunFrom(s, k).store.vaults[a]) == FillCap(s.vaults[a])
    decreases |k|
  {
    hide Allowed, Headroom, FillCap, FillsUnder, Apply, VaultAfter;
    if k == [] {
      NoFills(a, FillCap(s.vaults[a]));
    } else {
      var k', e := k[..|k| - 1], k[|k| - 1];
      FillsAllowedIff(s, k', a);
      FillsUnderStep(k, a, FillCap(s.vaults[a]));
      var t := RunFrom(s, k').store;
      CreatesNothing(k, a);
      VaultStep(t, e, a);
      if e.VaultLog? && e.address == a {
        StillOut(t.vaults[a], e.at, e.log);
        if e.log.FastFilled? {
          FillDrawsHeadroom(t.vaults[a], e.at, e.log);
        } else {
          QuietKeepsHeadroom(t.vaults[a], e.at, e.log);
        }
      }
    }
  }

  lemma NoFills(a: Bytes, most: int)
    ensures FillsUnder([], a, most)
  {}

  lemma CreatesNothing(k: seq<Event>, a: Bytes)
    requires k != [] && OnlyFills(k, a)
    ensures var e := k[|k| - 1]; !(e.VaultCreated? && e.creation.vault == a)
    ensures var e := k[|k| - 1]; e.VaultLog? && e.address == a && MovesBalance(e.log) ==> e.log.FastFilled?
  {
    var e := k[|k| - 1];
    assert Concerns(e, a) ==> Concerns(k[|k| - 1], a);
  }

  lemma StillOut(v: Vault, at: Stamp, log: VaultEvent)
    requires 0 <= v.outstandingExposure && (MovesBalance(log) ==> log.FastFilled?)
    ensures 0 <= VaultAfter(v, at, log).outstandingExposure
  {
    hide UtilisationOf, FeeBpsAt;
  }

  /** One vault's fill lowers the market-wide figure by exactly the fill. */
  lemma {:induction false} AggregateAfterFill(vaults: seq<Vault>, i: nat, at: Stamp, log: VaultEvent)
    requires i < |vaults| && log.FastFilled? && 0 <= vaults[i].outstandingExposure
    requires log.outputAmount <= Available(vaults[i])
    ensures AggregateAvailable(vaults[i := VaultAfter(vaults[i], at, log)]) == AggregateAvailable(vaults) - log.outputAmount
    decreases |vaults|
  {
    var after := vaults[i := VaultAfter(vaults[i], at, log)];
    FillDrawsDown(vaults[i], at, log);
    if i == |vaults| - 1 {
      assert after[..|after| - 1] == vaults[..|vaults| - 1];
    } else {
      var front := vaults[..|vaults| - 1];
      assert after[..|after| - 1] == front[i := VaultAfter(front[i], at, log)];
      AggregateAfterFill(front, i, at, log);
    }
  }
}
