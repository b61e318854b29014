/**
 * The books balance: the incrementally kept global figures equal the sums of the
 * vaults' figures and of the outstanding advances, in every reachable store.
 */
module Ledger {
  import opened Options
  import opened ByteStrings
  import opened Entities
  import opened Handlers
  import opened History
  import opened Sums

  datatype Figure = Exposure | FillCount | FeesEarned

  function FigureOf(v: Vault, figure: Figure): int {
    match figure
    case Exposure => v.outstandingExposure
    case FillCount => v.fillCount
    case FeesEarned => v.totalFeesEarned
  }

  ghost function FigureBy(vaults: map<Bytes, Vault>, figure: Figure): Bytes -> int {
    a => if a in vaults then FigureOf(vaults[a], figure) else 0
  }

  ghost function Total(vaults: map<Bytes, Vault>, figure: Figure): int {
    SumOver(vaults.Keys, FigureBy(vaults, figure))
  }

  ghost function PrincipalBy(open: map<FillKey, Advance>): FillKey -> int {
    k => if k in open then open[k].principal else 0
  }

  ghost function PrincipalIn(open: map<FillKey, Advance>, vault: Bytes): FillKey -> int {
    k => if k in open && k.vault == vault then open[k].principal else 0
  }

  /** All principal advanced and not yet reimbursed. */
  ghost function Outstanding(open: map<FillKey, Advance>): int {
    SumOver(open.Keys, PrincipalBy(open))
  }

  ghost function OutstandingOf(open: map<FillKey, Advance>, vault: Bytes): int {
    SumOver(open.Keys, PrincipalIn(open, vault))
  }

  function Global(s: Store): ProtocolState {
    match s.protocol
    case None => FRESH_PROTOCOL
    case Some(p) => p
  }

  /** Each vault's exposure is the principal it has out on its own unreimbursed advances. */
  ghost predicate ExposuresMatch(vaults: map<Bytes, Vault>, open: map<FillKey, Advance>) {
    forall a :: a in vaults ==> vaults[a].outstandingExposure == OutstandingOf(open, a)
  }

  /** Each global figure is the sum of the vaults' figures. */
  ghost predicate TotalsMatch(p: ProtocolState, vaults: map<Bytes, Vault>) {
    && p.pendingSettlementValue == Total(vaults, Exposure)
    && p.intentsFilled == Total(vaults, FillCount)
    && p.totalFeesEarned == Total(vaults, FeesEarned)
    && p.vaultCount == |vaults|
  }

  /** Every open advance is a positive amount of a known vault, made no later than `now`. */
  ghost predicate WellFormed(vaults: set<Bytes>, open: map<FillKey, Advance>, now: nat) {
    forall k :: k in open ==> k.vault in vaults && 0 < open[k].principal && 0 < open[k].timestamp <= now
  }

  /** Zero exactly when nothing is outstanding; otherwise never later than any outstanding fill. */
  ghost predicate AgeIsSafe(oldest: int, open: map<FillKey, Advance>) {
    && (oldest == 0 <==> open == map[])
    && (forall k :: k in open ==> 0 < oldest <= open[k].timestamp)
  }

  lemma TotalChange(vaults: map<Bytes, Vault>, a: Bytes, w: Vault, figure: Figure)
    requires a in vaults
    ensures Total(vaults[a := w], figure) == Total(vaults, figure) - FigureOf(vaults[a], figure) + FigureOf(w, figure)
  {
    assert vaults[a := w].Keys == vaults.Keys;
    SumChange(vaults.Keys, a, FigureBy(vaults, figure), FigureBy(vaults[a := w], figure));
  }

  lemma TotalInsert(vaults: map<Bytes, Vault>, a: Bytes, w: Vault, figure: Figure)
    requires a !in vaults
    ensures Total(vaults[a := w], figure) == Total(vaults, figure) + FigureOf(w, figure)
  {
    assert vaults[a := w].Keys == vaults.Keys + {a};
    SumInsert(vaults.Keys, a, FigureBy(vaults, figure), FigureBy(vaults[a := w], figure));
  }

  /** Opening an advance adds its principal to the total and to its own vault only. */
  lemma OpenAdvance(open: map<FillKey, Advance>, k: FillKey, adv: Advance)
    requires k !in open
    ensures Outstanding(open[k := adv]) == Outstanding(open) + adv.principal
    ensures forall v :: OutstandingOf(open[k := adv], v) == OutstandingOf(open, v) + if v == k.vault then adv.principal else 0
  {
    assert open[k := adv].Keys == open.Keys + {k};
    SumInsert(open.Keys, k, PrincipalBy(open), PrincipalBy(open[k := adv]));
    forall v
      ensures OutstandingOf(open[k := adv], v) == OutstandingOf(open, v) + if v == k.vault then adv.principal else 0
    {
      SumInsert(open.Keys, k, PrincipalIn(open, v), PrincipalIn(open[k := adv], v));
    }
  }

  lemma CloseAdvance(open: map<FillKey, Advance>, k: FillKey)
    requires k in open
    ensures Outstanding(open - {k}) == Outstanding(open) - open[k].principal
    ensures forall v :: OutstandingOf(open - {k}, v) == OutstandingOf(open, v) - if v == k.vault then open[k].principal else 0
  {
    assert (open - {k}).Keys == open.Keys - {k};
    SumDelete(open.Keys, k, PrincipalBy(open), PrincipalBy(open - {k}));
    forall v
      ensures OutstandingOf(open - {k}, v) == OutstandingOf(open, v) - if v == k.vault then open[k].principal else 0
    {
      SumDelete(open.Keys, k, PrincipalIn(open, v), PrincipalIn(open - {k}, v));
    }
  }

  /** With positive principals, the outstanding total is zero only when nothing is outstanding. */
  lemma OutstandingPositive(open: map<FillKey, Advance>)
    requires forall k :: k in open ==> 0 < open[k].principal
    ensures 0 <= Outstanding(open)
    ensures Outstanding(open) == 0 <==> open == map[]
    ensures forall v :: 0 <= OutstandingOf(open, v) <= Outstanding(open)
  {
    SumNonNegative(open.Keys, PrincipalBy(open));
    if k :| k in open {
      assert PrincipalBy(open)(k) <= Outstanding(open);
    } else {
      assert open == map[];
    }
    forall v
      ensures 0 <= OutstandingOf(open, v) <= Outstanding(open)
    {
      SumNonNegative(open.Keys, PrincipalIn(open, v));
      SumMonotone(open.Keys, PrincipalIn(open, v), PrincipalBy(open));
    }
  }

  // ----- one event ---------------------------------------------------------

  /** What an event does to the global figures, as numbers. */
  lemma GlobalAfter(s: Store, e: Event)
    requires Apply(s, e).Ok?
    ensures var p, q := Global(s), Global(Apply(s, e).store);
            && q.pendingSettlementValue == p.pendingSettlementValue + Delta(e, Exposure)
            && q.intentsFilled == p.intentsFilled + Delta(e, FillCount)
            && q.totalFeesEarned == p.totalFeesEarned + Delta(e, FeesEarned)
            && q.vaultCount == p.vaultCount + if e.VaultCreated? then 1 else 0
  {
    hide NewVault, NewIntent, VaultsWith, FillsAfter, IntentsWith, SnapshotsWith, SettlementsWith, MarkSettled, SnapshotOf;
  }

  /** An event's contribution to a figure, whichever vault emitted it. */
  function Delta(e: Event, figure: Figure): int {
    match e
    case VaultLog(_, _, FastFilled(_, _, _, _, output, _, _)) =>
      (match figure case Exposure => output case FillCount => 1 case FeesEarned => 0)
    case VaultLog(_, _, ReimbursementRecorded(_, _, cleared)) =>
      (match figure case Exposure => -(cleared as int) case FillCount => 0 case FeesEarned => 0)
    case VaultLog(_, _, FeesAccrued(toProtocol, toLps)) =>
      (match figure case Exposure => 0 case FillCount => 0 case FeesEarned => toProtocol + toLps)
    case _ => 0
  }

  /** A vault event changes only its own vault, by its own contribution. */
  lemma VaultFigureAfter(v: Vault, e: Event, figure: Figure)
    requires e.VaultLog?
    ensures FigureOf(VaultAfter(v, e.at, e.log), figure) == FigureOf(v, figure) + Delta(e, figure)
  {}

  lemma EventMovesTotal(s: Store, e: Event, figure: Figure)
    requires Apply(s, e).Ok?
    requires e.VaultCreated? ==> e.creation.vault !in s.vaults
    requires e.VaultLog? ==> e.address in s.vaults
    ensures Total(Apply(s, e).store.vaults, figure) == Total(s.vaults, figure) + Delta(e, figure)
  {
    match e
    case VaultCreated(at, factory, c) =>
      TotalInsert(s.vaults, c.vault, NewVault(at, factory, c), figure);
    case VaultLog(at, a, log) =>
      VaultFigureAfter(s.vaults[a], e, figure);
      TotalChange(s.vaults, a, VaultAfter(s.vaults[a], at, log), figure);
      assert ReadsVault(log) || Delta(e, figure) == 0;
    case _ =>
  }

  lemma EventKeepsTotals(s: Store, e: Event)
    requires Apply(s, e).Ok?
    requires e.VaultCreated? ==> e.creation.vault !in s.vaults
    requires e.VaultLog? ==> e.address in s.vaults
    requires TotalsMatch(Global(s), s.vaults)
    ensures TotalsMatch(Global(Apply(s, e).store), Apply(s, e).store.vaults)
  {
    hide Apply, Global, Total, Delta;
    GlobalAfter(s, e);
    EventMovesTotal(s, e, Exposure);
    EventMovesTotal(s, e, FillCount);
    EventMovesTotal(s, e, FeesEarned);
    VaultKeysAfter(s, e);
  }

  lemma VaultKeysAfter(s: Store, e: Event)
    requires Apply(s, e).Ok?
    ensures Apply(s, e).store.vaults.Keys == s.vaults.Keys + if e.VaultCreated? then {e.creation.vault} else {}
  {}

  lemma EventMovesAdvances(open: map<FillKey, Advance>, e: Event)
    requires e.VaultLog? ==> VaultMayEmit(open, e.address, e.log)
    ensures Outstanding(AdvancesAfter(open, e)) == Outstanding(open) + Delta(e, Exposure)
    ensures forall v :: OutstandingOf(AdvancesAfter(open, e), v)
                     == OutstandingOf(open, v) + if e.VaultLog? && v == e.address then Delta(e, Exposure) else 0
  {
    match e
    case VaultLog(at, a, FastFilled(intentId, _, _, _, output, _, _)) =>
      OpenAdvance(open, FillKey(intentId, a), Advance(output, at.timestamp));
    case VaultLog(_, a, ReimbursementRecorded(intentId, _, _)) =>
      CloseAdvance(open, FillKey(intentId, a));
    case _ =>
  }

  /** A vault's exposure after an event: its own events move it, creation starts it at zero. */
  lemma ExposureAfter(s: Store, e: Event, a: Bytes)
    requires Apply(s, e).Ok?
    requires a in Apply(s, e).store.vaults
    requires e.VaultCreated? ==> e.creation.vault !in s.vaults
    ensures a !in s.vaults ==> e.VaultCreated? && a == e.creation.vault && Apply(s, e).store.vaults[a].outstandingExposure == 0
    ensures a in s.vaults ==>
              Apply(s, e).store.vaults[a].outstandingExposure
              == s.vaults[a].outstandingExposure + if e.VaultLog? && a == e.address then Delta(e, Exposure) else 0
  {
    if e.VaultLog? && a == e.address {
      VaultFigureAfter(s.vaults[a], e, Exposure);
    }
  }

  lemma EventKeepsExposures(s: Store, open: map<FillKey, Advance>, e: Event)
    requires Apply(s, e).Ok?
    requires ExposuresMatch(s.vaults, open)
    requires forall k :: k in open ==> k.vault in s.vaults
    requires e.VaultCreated? ==> e.creation.vault !in s.vaults
    requires e.VaultLog? ==> e.address in s.vaults && VaultMayEmit(open, e.address, e.log)
    ensures ExposuresMatch(Apply(s, e).store.vaults, AdvancesAfter(open, e))
  {
    EventMovesAdvances(open, e);
    var after := Apply(s, e).store.vaults;
    forall a | a in after
      ensures after[a].outstandingExposure == OutstandingOf(AdvancesAfter(open, e), a)
    {
      ExposureAfter(s, e, a);
      if a !in s.vaults {
        SumZero(open.Keys, PrincipalIn(open, a));
      }
    }
  }

  /** The age rule of the two handlers that touch it. */
  lemma EventMovesAge(s: Store, e: Event)
    requires Apply(s, e).Ok?
    ensures var before, after := Global(s).oldestUnsettledTimestamp, Global(Apply(s, e).store).oldestUnsettledTimestamp;
            after ==
            if e.VaultLog? && e.log.FastFilled? && before == 0 then e.at.timestamp
            else if e.VaultLog? && e.log.ReimbursementRecorded? && Global(Apply(s, e).store).pendingSettlementValue <= 0 then 0
            else before
  {}

  lemma EventKeepsAge(oldest: int, open: map<FillKey, Advance>, now: nat, e: Event, oldest': int)
    requires AgeIsSafe(oldest, open)
    requires forall k :: k in open ==> 0 < open[k].principal && 0 < open[k].timestamp <= now <= e.at.timestamp
    requires 0 < e.at.timestamp
    requires e.VaultLog? ==> VaultMayEmit(open, e.address, e.log)
    requires oldest' ==
             if e.VaultLog? && e.log.FastFilled? && oldest == 0 then e.at.timestamp
             else if e.VaultLog? && e.log.ReimbursementRecorded? && Outstanding(AdvancesAfter(open, e)) <= 0 then 0
             else oldest
    ensures AgeIsSafe(oldest', AdvancesAfter(open, e))
  {
    if e.VaultLog? && e.log.ReimbursementRecorded? {
      OutstandingPositive(AdvancesAfter(open, e));
    }
  }

  lemma EventKeepsWellFormed(s: Store, open: map<FillKey, Advance>, now: nat, e: Event)
    requires Apply(s, e).Ok?
    requires WellFormed(s.vaults.Keys, open, now) && now <= e.at.timestamp && 0 < e.at.timestamp
    requires e.VaultLog? ==> e.address in s.vaults && VaultMayEmit(open, e.address, e.log)
    ensures WellFormed(Apply(s, e).store.vaults.Keys, AdvancesAfter(open, e), e.at.timestamp)
  {
    VaultKeysAfter(s, e);
  }

  // ----- every run ---------------------------------------------------------

  lemma EmptyTotals()
    ensures TotalsMatch(Global(EMPTY_STORE), EMPTY_STORE.vaults)
  {
    var none: map<Bytes, Vault> := map[];
    assert none.Keys == {};
    assert forall figure :: Total(none, figure) == 0;
  }

  lemma {:induction false} TotalsBalance(h: seq<Event>)
    requires Admissible(h)
    ensures Run(h).Ok? && TotalsMatch(Global(Run(h).store), Run(h).store.vaults)
    decreases |h|
  {
    if h == [] {
      EmptyTotals();
    } else {
      var h', e := h[..|h| - 1], h[|h| - 1];
      TotalsBalance(h');
      AdmissibleRuns(h');
      var s := Run(h').store;
      assert Run(h) == Apply(s, e);
      EventKeepsTotals(s, e);
    }
  }

  lemma {:induction false} AdvancesWellFormed(h: seq<Event>)
    requires Admissible(h)
    ensures Run(h).Ok? && WellFormed(Run(h).store.vaults.Keys, Advances(h), Now(h))
    decreases |h|
  {
    AdmissibleRuns(h);
    if h != [] {
      var h' := h[..|h| - 1];
      AdvancesWellFormed(h');
      AdmissibleRuns(h');
      EventKeepsWellFormed(Run(h').store, Advances(h'), Now(h'), h[|h| - 1]);
    }
  }

  lemma {:induction false} ExposuresBalance(h: seq<Event>)
    requires Admissible(h)
    ensures Run(h).Ok? && ExposuresMatch(Run(h).store.vaults, Advances(h))
    decreases |h|
  {
    AdmissibleRuns(h);
    if h != [] {
      var h' := h[..|h| - 1];
      ExposuresBalance(h');
      AdvancesWellFormed(h');
      AdmissibleRuns(h');
      EventKeepsExposures(Run(h').store, Advances(h'), h[|h| - 1]);
    }
  }

  lemma {:induction false} PendingIsOutstanding(h: seq<Event>)
    requires Admissible(h)
    ensures Run(h).Ok? && Global(Run(h).store).pendingSettlementValue == Outstanding(Advances(h))
    decreases |h|
  {
    hide Apply;
    AdmissibleRuns(h);
    if h != [] {
      var h' := h[..|h| - 1];
      PendingIsOutstanding(h');
      EventMovesAdvances(Advances(h'), h[|h| - 1]);
      GlobalAfter(Run(h').store, h[|h| - 1]);
    }
  }

  /**
   * In every reachable store the books balance: pending settlement value is the sum of
   * the vaults' exposures and of the outstanding principals, each vault's exposure is the
   * sum of its own outstanding principals, and fills, fees and vaults add up too.
   */
  lemma BooksBalance(h: seq<Event>)
    requires Admissible(h)
    ensures Run(h).Ok?
    ensures TotalsMatch(Global(Run(h).store), Run(h).store.vaults)
    ensures ExposuresMatch(Run(h).store.vaults, Advances(h))
    ensures Global(Run(h).store).pendingSettlementValue == Outstanding(Advances(h))
    ensures WellFormed(Run(h).store.vaults.Keys, Advances(h), Now(h))
  {
    hide Admissible, Run, Global, TotalsMatch, ExposuresMatch, WellFormed, Advances, Outstanding;
    TotalsBalance(h);
    ExposuresBalance(h);
    PendingIsOutstanding(h);
    AdvancesWellFormed(h);
  }

  /** Nothing outstanding is ever negative, for the protocol or for any vault. */
  lemma NothingNegative(h: seq<Event>)
    requires Admissible(h)
    ensures Run(h).Ok?
    ensures 0 <= Global(Run(h).store).pendingSettlementValue
    ensures Global(Run(h).store).pendingSettlementValue == 0 <==> Advances(h) == map[]
    ensures forall a :: a in Run(h).store.vaults ==>
              0 <= Run(h).store.vaults[a].outstandingExposure <= Global(Run(h).store).pendingSettlementValue
  {
    BooksBalance(h);
    OutstandingPositive(Advances(h));
  }

  /** The reported oldest unsettled timestamp errs only toward overstating age, over every run. */
  lemma {:induction false} AgeNeverUnderstated(h: seq<Event>)
    requires Admissible(h)
    ensures Run(h).Ok? && AgeIsSafe(Global(Run(h).store).oldestUnsettledTimestamp, Advances(h))
    decreases |h|
  {
    BooksBalance(h);
    if h != [] {
      var h', e := h[..|h| - 1], h[|h| - 1];
      AgeNeverUnderstated(h');
      BooksBalance(h');
      EventMovesAge(Run(h').store, e);
      EventKeepsAge(Global(Run(h').store).oldestUnsettledTimestamp, Advances(h'), Now(h'), e,
                    Global(Run(h).store).oldestUnsettledTimestamp);
    }
  }
}
