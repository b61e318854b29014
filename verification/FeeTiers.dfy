/**
 * The posted price never goes stale, its snapshot series is complete, and each kind
 * of event can move it only one way.
 */
module FeeTiers {
  import opened Options
  import opened ByteStrings
  import opened FeePolicy
  import opened Entities
  import opened Handlers
  import opened History
  import opened Ledger
  import opened Sums

  predicate CacheIsFresh(v: Vault) {
    v.utilisationBps == UtilisationOf(v) && v.currentFeeBps == FeeBpsAt(v.policy, v.utilisationBps)
  }

  /** The record read without recomputing anything: the utilisation its figures amount to, and the greatest fee reached at it. */
  ghost predicate PostsLivePrice(v: Vault) {
    && 0 <= v.outstandingExposure
    && IsUtilisation(v.liquidBalance, v.accruedProtocolFees, v.outstandingExposure, v.utilisationBps)
    && PostsTier(v.policy, v.utilisationBps, v.currentFeeBps)
  }

  lemma FreshPostsLive(v: Vault)
    requires CacheIsFresh(v) && Validate(v.policy) == Accepted && 0 <= v.outstandingExposure
    ensures PostsLivePrice(v)
  {
    hide FeeBpsAt, Utilisation, IsUtilisation, PostsTier;
    UtilisationIsShare(v.liquidBalance, v.accruedProtocolFees, v.outstandingExposure, v.utilisationBps);
    FeeIsGreatestReached(v.policy, v.utilisationBps, v.currentFeeBps);
  }

  ghost predicate AllFresh(vaults: map<Bytes, Vault>) {
    forall a :: a in vaults ==> CacheIsFresh(vaults[a]) && Validate(vaults[a].policy) == Accepted
  }

  /** Only the figures a refresh follows enter utilisation, so skipping it elsewhere is safe. */
  lemma VaultLogKeepsFresh(v: Vault, at: Stamp, log: VaultEvent)
    requires CacheIsFresh(v)
    ensures CacheIsFresh(VaultAfter(v, at, log))
    ensures VaultAfter(v, at, log).policy == v.policy
  {}

  lemma {:induction false} CachesFresh(h: seq<Event>)
    requires Admissible(h)
    ensures Run(h).Ok? && AllFresh(Run(h).store.vaults)
    decreases |h|
  {
    AdmissibleRuns(h);
    if h != [] {
      var h', e := h[..|h| - 1], h[|h| - 1];
      CachesFresh(h');
      AdmissibleRuns(h');
      EventKeepsFresh(Run(h').store, e);
    }
  }

  /** In every reachable store no vault's cached utilisation or fee is stale. */
  lemma CachesNeverStale(h: seq<Event>)
    requires Admissible(h)
    ensures Run(h).Ok? && AllFresh(Run(h).store.vaults)
    ensures forall a :: a in Run(h).store.vaults ==> PostsLivePrice(Run(h).store.vaults[a])
  {
    hide Run, CacheIsFresh, PostsLivePrice;
    CachesFresh(h);
    NothingNegative(h);
    forall a | a in Run(h).store.vaults ensures PostsLivePrice(Run(h).store.vaults[a]) {
      FreshPostsLive(Run(h).store.vaults[a]);
    }
  }

  lemma EventKeepsFresh(s: Store, e: Event)
    requires AllFresh(s.vaults) && Apply(s, e).Ok?
    requires e.VaultCreated? ==> Validate(e.creation.policy) == Accepted
    ensures AllFresh(Apply(s, e).store.vaults)
  {
    if e.VaultLog? && e.address in s.vaults {
      VaultLogKeepsFresh(s.vaults[e.address], e.at, e.log);
    }
  }

  /** A reader of a vault record sees the live utilisation and the price its policy posts at it, both in range. */
  lemma PostedPriceIsLive(h: seq<Event>, a: Bytes)
    requires Admissible(h) && a in Created(h)
    ensures Run(h).Ok? && a in Run(h).store.vaults
    ensures PostsLivePrice(Run(h).store.vaults[a])
    ensures 0 <= Run(h).store.vaults[a].utilisationBps <= BPS
    ensures Run(h).store.vaults[a].policy.baseFeeBps <= Run(h).store.vaults[a].currentFeeBps <= MAX_FEE_BPS
  {
    hide PostsLivePrice;
    AdmissibleRuns(h);
    CachesNeverStale(h);
    NothingNegative(h);
    var v := Run(h).store.vaults[a];
    UtilisationInRange(v.liquidBalance, v.accruedProtocolFees, v.outstandingExposure);
    FeeIsMonotone(v.policy, v.utilisationBps, v.utilisationBps);
  }

  // ----- snapshots -----------------------------------------------------------

  function IdOf(e: Event): Bytes {
    EventId(e.at.txHash, e.at.logIndex)
  }

  /** Events that write a point of the fee series. */
  predicate WritesSnapshot(e: Event) {
    e.VaultCreated? || (e.VaultLog? && MovesBalance(e.log))
  }

  function SnapshotEvents(h: seq<Event>): nat {
    if h == [] then 0 else SnapshotEvents(h[..|h| - 1]) + if WritesSnapshot(h[|h| - 1]) then 1 else 0
  }

  function SubjectOf(e: Event): Bytes
    requires WritesSnapshot(e)
  {
    if e.VaultCreated? then e.creation.vault else e.address
  }

  /** The last event of a history that wrote a point for this vault. */
  function LastPoint(h: seq<Event>, a: Bytes): Option<Event> {
    if h == [] then None
    else if WritesSnapshot(h[|h| - 1]) && SubjectOf(h[|h| - 1]) == a then Some(h[|h| - 1])
    else LastPoint(h[..|h| - 1], a)
  }

  /** A point of the series: a vault's four figures right after an event, and the event's block and time. */
  predicate IsPointOf(point: FeeSnapshot, v: Vault, vault: Bytes, at: Stamp) {
    && point.vault == vault && point.utilisationBps == v.utilisationBps && point.feeBps == v.currentFeeBps
    && point.liquidBalance == v.liquidBalance && point.outstandingExposure == v.outstandingExposure
    && point.blockNumber == at.blockNumber && point.timestamp == at.timestamp
  }

  ghost predicate IdsFrom(snapshots: map<Bytes, FeeSnapshot>, h: seq<Event>) {
    forall id :: id in snapshots ==> exists i :: 0 <= i < |h| && id == IdOf(h[i])
  }

  lemma FreshId(h: seq<Event>, e: Event)
    requires Admits(h, e)
    ensures forall i :: 0 <= i < |h| ==> IdOf(h[i]) != IdOf(e)
  {
    forall i | 0 <= i < |h|
      ensures IdOf(h[i]) != IdOf(e)
    {
      assert PositionOf(h[i]) != PositionOf(e);
      if IdOf(h[i]) == IdOf(e) {
        EventIdInjective(h[i].at.txHash, h[i].at.logIndex, e.at.txHash, e.at.logIndex);
      }
    }
  }

  lemma SnapshotsAfter(s: Store, e: Event)
    requires Apply(s, e).Ok?
    ensures var t := Apply(s, e).store;
            if WritesSnapshot(e) then
              && SubjectOf(e) in t.vaults
              && t.snapshots == s.snapshots[IdOf(e) := SnapshotOf(t.vaults[SubjectOf(e)], e.at)]
            else
              t.snapshots == s.snapshots
  {}

  /** The series has one point per balance-moving event or creation: none lost, none overwritten. */
  lemma {:induction false} SeriesIsComplete(h: seq<Event>)
    requires Admissible(h)
    ensures Run(h).Ok?
    ensures |Run(h).store.snapshots| == SnapshotEvents(h)
    ensures IdsFrom(Run(h).store.snapshots, h)
    decreases |h|
  {
    AdmissibleRuns(h);
    if h != [] {
      var h', e := h[..|h| - 1], h[|h| - 1];
      SeriesIsComplete(h');
      FreshId(h', e);
      SnapshotsAfter(Run(h').store, e);
      var before, after := Run(h').store.snapshots, Run(h).store.snapshots;
      assert IdOf(e) !in before;
      forall id | id in after
        ensures exists i :: 0 <= i < |h| && id == IdOf(h[i])
      {
        if id in before {
          var i :| 0 <= i < |h'| && id == IdOf(h'[i]);
          assert h[i] == h'[i];
        } else {
          assert id == IdOf(h[|h| - 1]);
        }
      }
    }
  }

  /** Every point ever written stays, and holds what its vault's record was right after its event. */
  lemma {:induction false} SeriesMatchesHistory(h: seq<Event>, i: nat)
    requires Admissible(h) && i < |h| && WritesSnapshot(h[i])
    ensures Run(h).Ok? && Run(h[..i + 1]).Ok?
    ensures SubjectOf(h[i]) in Run(h[..i + 1]).store.vaults && IdOf(h[i]) in Run(h).store.snapshots
    ensures IsPointOf(Run(h).store.snapshots[IdOf(h[i])], Run(h[..i + 1]).store.vaults[SubjectOf(h[i])], SubjectOf(h[i]), h[i].at)
    decreases |h|
  {
    hide Apply, Admits;
    AdmissibleRuns(h);
    FiledUnderOwnId(h);
    var h', e := h[..|h| - 1], h[|h| - 1];
    AdmissibleRuns(h');
    SnapshotsAfter(Run(h').store, e);
    if i == |h| - 1 {
      assert h[..i + 1] == h;
    } else {
      SeriesMatchesHistory(h', i);
      assert h'[..i + 1] == h[..i + 1] && h'[i] == h[i];
      FreshId(h', e);
    }
  }

  ghost predicate PointIsCurrent(s: Store, h: seq<Event>, a: Bytes) {
    && a in s.vaults
    && LastPoint(h, a).Some?
    && IdOf(LastPoint(h, a).value) in s.snapshots
    && IsPointOf(s.snapshots[IdOf(LastPoint(h, a).value)], s.vaults[a], a, LastPoint(h, a).value.at)
  }

  lemma {:induction false} LastPointInHistory(h: seq<Event>, a: Bytes)
    requires LastPoint(h, a).Some?
    ensures exists i :: 0 <= i < |h| && h[i] == LastPoint(h, a).value
    decreases |h|
  {
    var h' := h[..|h| - 1];
    if !(WritesSnapshot(h[|h| - 1]) && SubjectOf(h[|h| - 1]) == a) {
      LastPointInHistory(h', a);
      var i :| 0 <= i < |h'| && h'[i] == LastPoint(h', a).value;
      assert h[i] == LastPoint(h, a).value;
    }
  }

  /** Records are filed under their own address. */
  lemma {:induction false} FiledUnderOwnId(h: seq<Event>)
    requires Run(h).Ok?
    ensures forall a :: a in Run(h).store.vaults ==> Run(h).store.vaults[a].id == a
    decreases |h|
  {
    if h != [] {
      FiledUnderOwnId(h[..|h| - 1]);
    }
  }

  lemma QuietEventKeepsFigures(s: Store, e: Event, a: Bytes)
    requires Apply(s, e).Ok? && a in s.vaults
    requires !(WritesSnapshot(e) && SubjectOf(e) == a)
    ensures a in Apply(s, e).store.vaults
    ensures var v, w := s.vaults[a], Apply(s, e).store.vaults[a];
            && w.utilisationBps == v.utilisationBps && w.currentFeeBps == v.currentFeeBps
            && w.liquidBalance == v.liquidBalance && w.outstandingExposure == v.outstandingExposure
  {}

  /** The latest point of every vault's series is its current utilisation, price, balance and exposure. */
  lemma {:induction false} LatestSnapshotIsCurrent(h: seq<Event>, a: Bytes)
    requires Admissible(h) && a in Created(h)
    ensures Run(h).Ok? && PointIsCurrent(Run(h).store, h, a)
    decreases |h|
  {
    hide Apply, Admits;
    AdmissibleRuns(h);
    FiledUnderOwnId(h);
    var h', e := h[..|h| - 1], h[|h| - 1];
    AdmissibleRuns(h');
    SnapshotsAfter(Run(h').store, e);
    if !(WritesSnapshot(e) && SubjectOf(e) == a) {
      LatestSnapshotIsCurrent(h', a);
      LastPointInHistory(h', a);
      FreshId(h', e);
      QuietEventKeepsFigures(Run(h').store, e, a);
    }
  }

  // ----- direction -----------------------------------------------------------

  /** Fills, withdrawals and fee accruals can only raise the price. */
  predicate Raises(log: VaultEvent) {
    log.FastFilled? || log.Withdraw? || log.FeesAccrued?
  }

  /** Deposits and reimbursements can only lower it. */
  predicate Lowers(log: VaultEvent) {
    log.Deposit? || log.ReimbursementRecorded?
  }

  lemma VaultLogMovesOneWay(v: Vault, at: Stamp, log: VaultEvent)
    requires CacheIsFresh(v) && Validate(v.policy) == Accepted
    requires 0 <= v.outstandingExposure
    requires log.ReimbursementRecorded? ==> log.exposureCleared <= v.outstandingExposure
    ensures var w := VaultAfter(v, at, log);
            && (!Lowers(log) ==> v.utilisationBps <= w.utilisationBps && v.currentFeeBps <= w.currentFeeBps)
            && (!Raises(log) ==> w.utilisationBps <= v.utilisationBps && w.currentFeeBps <= v.currentFeeBps)
  {
    var w := VaultAfter(v, at, log);
    VaultLogKeepsFresh(v, at, log);
    if Raises(log) {
      UtilisationMonotone(v.liquidBalance, v.accruedProtocolFees, v.outstandingExposure,
                          w.liquidBalance, w.accruedProtocolFees, w.outstandingExposure);
      FeeIsMonotone(v.policy, v.utilisationBps, w.utilisationBps);
    } else if Lowers(log) {
      UtilisationMonotone(w.liquidBalance, w.accruedProtocolFees, w.outstandingExposure,
                          v.liquidBalance, v.accruedProtocolFees, v.outstandingExposure);
      FeeIsMonotone(v.policy, w.utilisationBps, v.utilisationBps);
    }
  }

  /** In every reachable store, each next event moves its vault's posted price only its own way, and no other vault's at all. */
  lemma PriceMovesOneWay(h: seq<Event>, e: Event, a: Bytes)
    requires Admissible(h + [e]) && a in Created(h)
    ensures Admissible(h) && Run(h).Ok? && a in Run(h).store.vaults && Run(h + [e]).Ok? && a in Run(h + [e]).store.vaults
    ensures var v, w := Run(h).store.vaults[a], Run(h + [e]).store.vaults[a];
            var own := e.VaultLog? && e.address == a;
            && (!(own && Lowers(e.log)) ==> v.currentFeeBps <= w.currentFeeBps)
            && (!(own && Raises(e.log)) ==> w.currentFeeBps <= v.currentFeeBps)
  {
    hide Apply, Admits, VaultAfter;
    assert (h + [e])[..|h|] == h;
    AdmissibleRuns(h);
    AdmissibleRuns(h + [e]);
    RunStep(EMPTY_STORE, h, e);
    CreatedOnce(h, e, a);
    VaultStep(Run(h).store, e, a);
    if e.VaultLog? && e.address == a {
      CachesNeverStale(h);
      NothingNegative(h);
      ClearedWithinExposure(h, e);
      VaultLogMovesOneWay(Run(h).store.vaults[a], e.at, e.log);
    }
  }

  /** Utilisation as it will stand once a surplus already received has all been booked to the protocol. */
  function DueUtilisation(v: Vault, surplus: int): int {
    Utilisation(v.liquidBalance, v.accruedProtocolFees + surplus, v.outstandingExposure)
  }

  /**
   * One admissible event of a vault, counting a surplus not yet booked as already owed: everything but a
   * fill or a withdrawal lowers utilisation, everything but a deposit or a reimbursement with its fees raises it.
   */
  lemma DueMovesOneWay(h: seq<Event>, e: Event, v: Vault)
    requires Admits(h, e) && e.VaultLog? && 0 <= v.outstandingExposure && 0 <= Unbooked(h, e.address)
    requires IsReimbursement(e) ==> e.log.exposureCleared <= v.outstandingExposure
    ensures var w := VaultAfter(v, e.at, e.log);
            var before, after := DueUtilisation(v, Unbooked(h, e.address)), DueUtilisation(w, Unbooked(h + [e], e.address));
            && (!(e.log.FastFilled? || e.log.Withdraw?) ==> after <= before)
            && (!(Lowers(e.log) || IsAccrual(e)) ==> before <= after)
            && w.policy == v.policy
  {
    hide UtilisationOf, FeeBpsAt, Utilisation;
    assert (h + [e])[|h|] == e;
    var w := VaultAfter(v, e.at, e.log);
    var due, due' := Unbooked(h, e.address), Unbooked(h + [e], e.address);
    if e.log.FastFilled? || e.log.Withdraw? {
      UtilisationMonotone(v.liquidBalance, v.accruedProtocolFees + due, v.outstandingExposure,
                          w.liquidBalance, w.accruedProtocolFees + due', w.outstandingExposure);
    } else {
      UtilisationMonotone(w.liquidBalance, w.accruedProtocolFees + due', w.outstandingExposure,
                          v.liquidBalance, v.accruedProtocolFees + due, v.outstandingExposure);
    }
  }

  /** No fill of this vault and no withdrawal from it. */
  ghost predicate NeverDraws(k: seq<Event>, a: Bytes) {
    forall i :: 0 <= i < |k| && k[i].VaultLog? && k[i].address == a ==> !k[i].log.FastFilled? && !k[i].log.Withdraw?
  }

  /** No deposit into this vault and no reimbursement of it. */
  ghost predicate NeverLowers(k: seq<Event>, a: Bytes) {
    forall i :: 0 <= i < |k| && k[i].VaultLog? && k[i].address == a ==> !Lowers(k[i].log)
  }

  /** An accrual comes only with its reimbursement, so a stretch without the one is without the other. */
  lemma NoStrayAccrual(h: seq<Event>, k: seq<Event>, e: Event, a: Bytes)
    requires Settled(h) && NeverLowers(k, a) && Admits(h + k, e) && e.VaultLog? && e.address == a
    ensures !IsAccrual(e)
  {
    if k == [] {
      assert h + k == h;
    } else {
      assert (h + k)[|h + k| - 1] == k[|k| - 1];
    }
  }

  lemma OthersKeepUtilisation(h: seq<Event>, e: Event, a: Bytes)
    requires Admissible(h) && Admits(h, e) && a in Created(h) && !(e.VaultLog? && e.address == a)
    requires Run(h).Ok? && a in Run(h).store.vaults && Run(h + [e]).Ok?
    ensures a in Run(h + [e]).store.vaults && Run(h + [e]).store.vaults[a] == Run(h).store.vaults[a]
    ensures Unbooked(h, a) == 0 && Unbooked(h + [e], a) == 0
  {
    hide Apply;
    AdmissibleRuns(h);
    RunStep(EMPTY_STORE, h, e);
    CreatedOnce(h, e, a);
    VaultStep(Run(h).store, e, a);
    assert (h + [e])[|h|] == e;
  }

  lemma OwnMovesUtilisation(h: seq<Event>, e: Event, a: Bytes)
    requires Admissible(h) && Admits(h, e) && a in Created(h) && e.VaultLog? && e.address == a
    requires Run(h).Ok? && a in Run(h).store.vaults && Run(h + [e]).Ok? && 0 <= Unbooked(h, a)
    ensures a in Run(h + [e]).store.vaults
    ensures var v, w := Run(h).store.vaults[a], Run(h + [e]).store.vaults[a];
            var before, after := DueUtilisation(v, Unbooked(h, a)), DueUtilisation(w, Unbooked(h + [e], a));
            && (!(e.log.FastFilled? || e.log.Withdraw?) ==> after <= before)
            && (!(Lowers(e.log) || IsAccrual(e)) ==> before <= after)
            && w.policy == v.policy
  {
    hide DueUtilisation, Apply, VaultAfter, Admits;
    var v := Run(h).store.vaults[a];
    RunStep(EMPTY_STORE, h, e);
    CreatedOnce(h, e, a);
    VaultStep(Run(h).store, e, a);
    NothingNegative(h);
    ClearedWithinExposure(h, e);
    DueMovesOneWay(h, e, v);
    DeliveryKeepsUtilisation(v, e.at, e.log);
    assert (h + [e])[|h|] == e;
  }

  lemma DeliveryKeepsUtilisation(v: Vault, at: Stamp, log: VaultEvent)
    ensures VaultAfter(v, at, log).policy == v.policy
    ensures !ReadsVault(log) ==>
              forall surplus :: DueUtilisation(VaultAfter(v, at, log), surplus) == DueUtilisation(v, surplus)
  {}

  lemma {:induction false} DueOverStretch(h: seq<Event>, k: seq<Event>, a: Bytes)
    requires Admissible(h + k) && Admissible(h) && a in Created(h)
    ensures Run(h).Ok? && a in Run(h).store.vaults && Run(h + k).Ok? && a in Run(h + k).store.vaults && a in Created(h + k)
    ensures Run(h + k).store.vaults[a].policy == Run(h).store.vaults[a].policy
    ensures var before := DueUtilisation(Run(h).store.vaults[a], Unbooked(h, a));
            var after := DueUtilisation(Run(h + k).store.vaults[a], Unbooked(h + k, a));
            && (NeverDraws(k, a) ==> after <= before)
            && (NeverLowers(k, a) && Settled(h) ==> before <= after)
    decreases |k|
  {
    hide DueUtilisation, Apply, Admits, NeverDraws, NeverLowers, RunFrom;
    AdmissibleRuns(h);
    if k == [] {
      assert h + k == h;
    } else {
      StretchStep(k, a);
      var k', e := k[..|k| - 1], k[|k| - 1];
      var g := h + k';
      assert h + k == g + [e] && (h + k)[..|h + k| - 1] == g;
      DueOverStretch(h, k', a);
      AdmissibleRuns(h + k);
      if e.VaultLog? && e.address == a {
        UnbookedNonNegative(g, a);
        OwnMovesUtilisation(g, e, a);
        if NeverLowers(k, a) && Settled(h) {
          NoStrayAccrual(h, k', e, a);
        }
      } else {
        OthersKeepUtilisation(g, e, a);
      }
    }
  }

  lemma StretchStep(k: seq<Event>, a: Bytes)
    requires k != []
    ensures NeverDraws(k, a) ==>
              && NeverDraws(k[..|k| - 1], a)
              && (k[|k| - 1].VaultLog? && k[|k| - 1].address == a ==>
                    !k[|k| - 1].log.FastFilled? && !k[|k| - 1].log.Withdraw?)
    ensures NeverLowers(k, a) ==>
              && NeverLowers(k[..|k| - 1], a)
              && (k[|k| - 1].VaultLog? && k[|k| - 1].address == a ==> !Lowers(k[|k| - 1].log))
  {}

  lemma UnbookedNonNegative(h: seq<Event>, a: Bytes)
    requires Admissible(h)
    ensures 0 <= Unbooked(h, a)
  {}

  /**
   * Between any two points of a run with no reimbursement half booked: without a fill or a withdrawal the
   * utilisation and the posted price never rise, reimbursements with their fees included, and without a
   * deposit or a reimbursement they never fall.
   */
  lemma PriceOverStretch(h: seq<Event>, k: seq<Event>, a: Bytes)
    requires Admissible(h + k) && Admissible(h) && a in Created(h) && Settled(h) && Settled(h + k)
    ensures Run(h).Ok? && a in Run(h).store.vaults && Run(h + k).Ok? && a in Run(h + k).store.vaults
    ensures var v, w := Run(h).store.vaults[a], Run(h + k).store.vaults[a];
            && (NeverDraws(k, a) ==> w.utilisationBps <= v.utilisationBps && w.currentFeeBps <= v.currentFeeBps)
            && (NeverLowers(k, a) ==> v.utilisationBps <= w.utilisationBps && v.currentFeeBps <= w.currentFeeBps)
  {
    hide Run;
    DueOverStretch(h, k, a);
    CachesNeverStale(h);
    CachesNeverStale(h + k);
    var v, w := Run(h).store.vaults[a], Run(h + k).store.vaults[a];
    assert DueUtilisation(v, 0) == v.utilisationBps && DueUtilisation(w, 0) == w.utilisationBps;
    if w.utilisationBps <= v.utilisationBps {
      FeeIsMonotone(v.policy, w.utilisationBps, v.utilisationBps);
    }
    if v.utilisationBps <= w.utilisationBps {
      FeeIsMonotone(v.policy, v.utilisationBps, w.utilisationBps);
    }
  }

  lemma PrincipalWithinExposure(open: map<FillKey, Advance>, k: FillKey)
    requires k in open
    ensures open[k].principal <= OutstandingOf(open, k.vault)
  {
    SumNonNegative(open.Keys, PrincipalIn(open, k.vault));
    assert PrincipalIn(open, k.vault)(k) == open[k].principal;
  }

  /** A reimbursement never clears more than its vault has out. */
  lemma ClearedWithinExposure(h: seq<Event>, e: Event)
    requires Admissible(h) && Admits(h, e) && e.VaultLog? && Run(h).Ok? && e.address in Run(h).store.vaults
    ensures e.log.ReimbursementRecorded? ==> e.log.exposureCleared <= Run(h).store.vaults[e.address].outstandingExposure
  {
    if e.log.ReimbursementRecorded? {
      ExposuresBalance(h);
      PrincipalWithinExposure(Advances(h), FillKey(e.log.intentId, e.address));
    }
  }
}
