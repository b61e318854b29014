/**
 * Incremental equals replay: a vault's record depends on its own events alone, and
 * its figures are the sums one would compute over the whole event history.
 */
module Replay {
  import opened ByteStrings
  import opened Entities
  import opened Handlers
  import opened History

  predicate Concerns(e: Event, vault: Bytes) {
    (e.VaultCreated? && e.creation.vault == vault) || (e.VaultLog? && e.address == vault)
  }

  /** The history as one vault saw it. */
  function OwnEvents(h: seq<Event>, vault: Bytes): seq<Event> {
    if h == [] then []
    else
      OwnEvents(h[..|h| - 1], vault) + if Concerns(h[|h| - 1], vault) then [h[|h| - 1]] else []
  }

  /** Two stores that agree on a vault still agree on it after one of its events. */
  lemma OwnEventAgrees(s: Store, t: Store, e: Event, vault: Bytes)
    requires Lookup(s.vaults, vault) == Lookup(t.vaults, vault)
    requires Concerns(e, vault)
    ensures Apply(s, e).Ok? <==> Apply(t, e).Ok?
    ensures Apply(s, e).Ok? ==> Lookup(Apply(s, e).store.vaults, vault) == Lookup(Apply(t, e).store.vaults, vault)
  {
    assert vault in s.vaults <==> vault in t.vaults;
  }

  lemma OtherEventKeeps(s: Store, e: Event, vault: Bytes)
    requires !Concerns(e, vault) && Apply(s, e).Ok?
    ensures Lookup(Apply(s, e).store.vaults, vault) == Lookup(s.vaults, vault)
  {}

  /**
   * Non-interference: whatever other vaults, the router and the settlement receiver did in
   * between, a vault's whole record is the one its own events produce on their own.
   */
  lemma {:induction false} OwnEventsSuffice(h: seq<Event>, vault: Bytes)
    requires Run(h).Ok?
    ensures Run(OwnEvents(h, vault)).Ok?
    ensures Lookup(Run(h).store.vaults, vault) == Lookup(Run(OwnEvents(h, vault)).store.vaults, vault)
    decreases |h|
  {
    if h != [] {
      var h', e := h[..|h| - 1], h[|h| - 1];
      OwnEventsSuffice(h', vault);
      var s := Run(h').store;
      var t := Run(OwnEvents(h', vault)).store;
      if Concerns(e, vault) {
        RunStep(EMPTY_STORE, OwnEvents(h', vault), e);
        OwnEventAgrees(s, t, e, vault);
      } else {
        assert OwnEvents(h, vault) == OwnEvents(h', vault);
        OtherEventKeeps(s, e, vault);
      }
    }
  }

  /** Any two histories in which a vault emitted the same events leave it with the same record. */
  lemma InterleavingIrrelevant(h: seq<Event>, k: seq<Event>, vault: Bytes)
    requires Run(h).Ok? && Run(k).Ok?
    requires OwnEvents(h, vault) == OwnEvents(k, vault)
    ensures Lookup(Run(h).store.vaults, vault) == Lookup(Run(k).store.vaults, vault)
  {
    OwnEventsSuffice(h, vault);
    OwnEventsSuffice(k, vault);
  }

  // ----- the balance sheet ---------------------------------------------------

  datatype Entry = Deposited | Withdrawn | Advanced | Received | Cleared | Fills | ToProtocol | ToLps

  /** What one vault event adds to one column of the sheet. */
  function AmountOf(log: VaultEvent, entry: Entry): nat {
    match (entry, log)
    case (Deposited, Deposit(assets)) => assets
    case (Withdrawn, Withdraw(assets)) => assets
    case (Advanced, FastFilled(_, _, _, _, output, _, _)) => output
    case (Fills, FastFilled(_, _, _, _, _, _, _)) => 1
    case (Received, ReimbursementRecorded(_, received, _)) => received
    case (Cleared, ReimbursementRecorded(_, _, cleared)) => cleared
    case (ToProtocol, FeesAccrued(toProtocol, _)) => toProtocol
    case (ToLps, FeesAccrued(_, toLps)) => toLps
    case _ => 0
  }

  /** The query-time sum over the whole history that the aggregates exist to avoid. */
  function Column(h: seq<Event>, vault: Bytes, entry: Entry): nat {
    if h == [] then 0
    else
      var e := h[|h| - 1];
      Column(h[..|h| - 1], vault, entry)
      + if e.VaultLog? && e.address == vault then AmountOf(e.log, entry) else 0
  }

  ghost predicate SheetMatches(v: Vault, h: seq<Event>, a: Bytes) {
    && v.totalDeposited == Column(h, a, Deposited)
    && v.totalWithdrawn == Column(h, a, Withdrawn)
    && v.fillCount == Column(h, a, Fills)
    && v.outstandingExposure == Column(h, a, Advanced) - Column(h, a, Cleared)
    && v.liquidBalance
       == Column(h, a, Deposited) - Column(h, a, Withdrawn) - Column(h, a, Advanced) + Column(h, a, Received)
    && v.accruedProtocolFees == Column(h, a, ToProtocol)
    && v.totalFeesEarned == Column(h, a, ToProtocol) + Column(h, a, ToLps)
  }

  lemma ColumnStep(h: seq<Event>, e: Event, a: Bytes, entry: Entry)
    ensures Column(h + [e], a, entry)
         == Column(h, a, entry) + if e.VaultLog? && e.address == a then AmountOf(e.log, entry) else 0
  {
    assert (h + [e])[..|h|] == h;
  }

  /** One vault event moves each figure by its columns' amounts. */
  lemma FiguresAfter(v: Vault, at: Stamp, log: VaultEvent)
    ensures var w := VaultAfter(v, at, log);
            && w.totalDeposited == v.totalDeposited + AmountOf(log, Deposited)
            && w.totalWithdrawn == v.totalWithdrawn + AmountOf(log, Withdrawn)
            && w.fillCount == v.fillCount + AmountOf(log, Fills)
            && w.outstandingExposure == v.outstandingExposure + AmountOf(log, Advanced) - AmountOf(log, Cleared)
            && w.liquidBalance
               == v.liquidBalance + AmountOf(log, Deposited) - AmountOf(log, Withdrawn)
                  - AmountOf(log, Advanced) + AmountOf(log, Received)
            && w.accruedProtocolFees == v.accruedProtocolFees + AmountOf(log, ToProtocol)
            && w.totalFeesEarned == v.totalFeesEarned + AmountOf(log, ToProtocol) + AmountOf(log, ToLps)
  {}

  lemma ColumnsStep(h: seq<Event>, e: Event, a: Bytes)
    ensures forall entry: Entry ::
              Column(h + [e], a, entry)
              == Column(h, a, entry) + if e.VaultLog? && e.address == a then AmountOf(e.log, entry) else 0
  {
    forall entry: Entry
      ensures Column(h + [e], a, entry)
           == Column(h, a, entry) + if e.VaultLog? && e.address == a then AmountOf(e.log, entry) else 0
    {
      ColumnStep(h, e, a, entry);
    }
  }

  lemma OwnLogMovesSheet(v: Vault, h: seq<Event>, e: Event)
    requires e.VaultLog? && SheetMatches(v, h, e.address)
    ensures SheetMatches(VaultAfter(v, e.at, e.log), h + [e], e.address)
  {
    FiguresAfter(v, e.at, e.log);
    ColumnsStep(h, e, e.address);
  }

  /** Nothing was logged by a vault before the factory announced it. */
  lemma {:induction false} SilentBeforeCreation(h: seq<Event>, a: Bytes, entry: Entry)
    requires Admissible(h) && a !in Created(h)
    ensures Column(h, a, entry) == 0
    decreases |h|
  {
    if h != [] {
      SilentBeforeCreation(h[..|h| - 1], a, entry);
    }
  }

  /** In every reachable store each vault's aggregates equal the sums over its whole history. */
  lemma {:induction false} IncrementalEqualsReplay(h: seq<Event>, a: Bytes)
    requires Admissible(h) && a in Created(h)
    ensures Run(h).Ok? && a in Run(h).store.vaults
    ensures SheetMatches(Run(h).store.vaults[a], h, a)
    decreases |h|
  {
    AdmissibleRuns(h);
    var h', e := h[..|h| - 1], h[|h| - 1];
    Unsnoc(h);
    AdmissibleRuns(h');
    if a in Created(h') {
      IncrementalEqualsReplay(h', a);
      if e.VaultLog? && e.address == a {
        SheetStepOwn(h', e, a);
      } else {
        SheetStepOther(h', e, a);
      }
    } else {
      forall entry: Entry
        ensures Column(h, a, entry) == 0
      {
        SilentBeforeCreation(h', a, entry);
        ColumnStep(h', e, a, entry);
      }
    }
  }

  lemma SheetStepOwn(h: seq<Event>, e: Event, a: Bytes)
    requires Run(h).Ok? && a in Run(h).store.vaults && SheetMatches(Run(h).store.vaults[a], h, a)
    requires e.VaultLog? && e.address == a
    ensures Run(h + [e]).Ok? && a in Run(h + [e]).store.vaults
    ensures SheetMatches(Run(h + [e]).store.vaults[a], h + [e], a)
  {
    RunStep(EMPTY_STORE, h, e);
    OwnLogMovesSheet(Run(h).store.vaults[a], h, e);
    assert ReadsVault(e.log) || SameFigures(Run(h).store.vaults[a], VaultAfter(Run(h).store.vaults[a], e.at, e.log));
  }

  predicate SameFigures(v: Vault, w: Vault) {
    && v.totalDeposited == w.totalDeposited
    && v.totalWithdrawn == w.totalWithdrawn
    && v.fillCount == w.fillCount
    && v.outstandingExposure == w.outstandingExposure
    && v.liquidBalance == w.liquidBalance
    && v.accruedProtocolFees == w.accruedProtocolFees
    && v.totalFeesEarned == w.totalFeesEarned
  }

  lemma SheetStepOther(h: seq<Event>, e: Event, a: Bytes)
    requires Run(h).Ok? && a in Run(h).store.vaults && SheetMatches(Run(h).store.vaults[a], h, a)
    requires !Concerns(e, a) && Run(h + [e]).Ok?
    ensures a in Run(h + [e]).store.vaults
    ensures SheetMatches(Run(h + [e]).store.vaults[a], h + [e], a)
  {
    RunStep(EMPTY_STORE, h, e);
    OtherEventKeeps(Run(h).store, e, a);
    ColumnsStep(h, e, a);
  }

  /** What reimbursements brought above principal is exactly what fees booked, but for one not yet booked. */
  lemma {:induction false} FeesBookSurplus(h: seq<Event>, a: Bytes)
    requires Admissible(h)
    ensures Column(h, a, Received) - Column(h, a, Cleared)
         == Column(h, a, ToProtocol) + Column(h, a, ToLps) + Unbooked(h, a)
    ensures 0 <= Unbooked(h, a)
    decreases |h|
  {
    if h != [] {
      FeesBookSurplus(h[..|h| - 1], a);
    }
  }

  /**
   * Conservation of LP capital: cash plus receivables is what LPs put in, less what they took out,
   * plus the fees the vault reports having earned, but for a reimbursement not yet booked.
   */
  lemma CapitalIsConserved(h: seq<Event>, a: Bytes)
    requires Admissible(h) && a in Created(h)
    ensures Run(h).Ok? && a in Run(h).store.vaults
    ensures var v := Run(h).store.vaults[a];
            v.liquidBalance + v.outstandingExposure
            == Column(h, a, Deposited) - Column(h, a, Withdrawn) + v.totalFeesEarned + Unbooked(h, a)
    ensures Settled(h) ==> Unbooked(h, a) == 0
  {
    IncrementalEqualsReplay(h, a);
    FeesBookSurplus(h, a);
  }
}
