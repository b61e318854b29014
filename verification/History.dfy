/**
 * Event histories: which sequences the contracts can emit, and the facts read off
 * a history alone, against which the store is judged.
 */
module History {
  import opened ByteStrings
  import opened Options
  import opened FeePolicy
  import opened Entities
  import opened Handlers

  /** A vault's advance of its own capital against one intent. */
  datatype FillKey = FillKey(intentId: Bytes, vault: Bytes)

  datatype Advance = Advance(principal: nat, timestamp: nat)

  datatype Position = Position(txHash: Bytes, logIndex: nat)

  function PositionOf(e: Event): Position {
    Position(e.at.txHash, e.at.logIndex)
  }

  function AdvancesAfter(open: map<FillKey, Advance>, e: Event): map<FillKey, Advance> {
    match e
    case VaultLog(at, address, FastFilled(intentId, _, _, _, output, _, _)) =>
      open[FillKey(intentId, address) := Advance(output, at.timestamp)]
    case VaultLog(_, address, ReimbursementRecorded(intentId, _, _)) => open - {FillKey(intentId, address)}
    case _ => open
  }

  /** The advances a history leaves unreimbursed. */
  function Advances(h: seq<Event>): map<FillKey, Advance> {
    if h == [] then map[] else AdvancesAfter(Advances(h[..|h| - 1]), h[|h| - 1])
  }

  /** The vaults a history's factory events announce. */
  function Created(h: seq<Event>): set<Bytes> {
    if h == [] then {}
    else
      var before := Created(h[..|h| - 1]);
      match h[|h| - 1]
      case VaultCreated(_, _, c) => before + {c.vault}
      case _ => before
  }

  function Announced(h: seq<Event>): set<Bytes> {
    if h == [] then {}
    else
      var before := Announced(h[..|h| - 1]);
      match h[|h| - 1]
      case IntentCreated(_, terms) => before + {terms.intentId}
      case _ => before
  }

  function Now(h: seq<Event>): nat {
    if h == [] then 0 else h[|h| - 1].at.timestamp
  }

  /** What a vault contract guarantees about its next event. */
  ghost predicate VaultMayEmit(open: map<FillKey, Advance>, address: Bytes, log: VaultEvent) {
    match log
    case FastFilled(intentId, _, _, _, output, _, _) =>
      |intentId| == HASH_LENGTH && 0 < output && FillKey(intentId, address) !in open
    case DeliveredViaSwap(intentId, _, _) => |intentId| == HASH_LENGTH
    case SwapFellBack(intentId, _, _) => |intentId| == HASH_LENGTH
    case ReimbursementRecorded(intentId, received, cleared) =>
      && FillKey(intentId, address) in open
      && open[FillKey(intentId, address)].principal == cleared <= received
    case _ => true
  }

  predicate IsReimbursement(e: Event) {
    e.VaultLog? && e.log.ReimbursementRecorded?
  }

  predicate IsAccrual(e: Event) {
    e.VaultLog? && e.log.FeesAccrued?
  }

  /** No reimbursement is still waiting for the accrual that completes it. */
  predicate Settled(h: seq<Event>) {
    h == [] || !IsReimbursement(h[|h| - 1])
  }

  /** The very next log of the same transaction books what a reimbursement brought above the principal. */
  predicate Completes(e: Event, r: Event)
    requires IsReimbursement(r)
  {
    && IsAccrual(e) && e.address == r.address
    && e.log.toProtocol + e.log.toLps == r.log.amountReceived - r.log.exposureCleared
    && e.at.txHash == r.at.txHash && e.at.logIndex == r.at.logIndex + 1
    && e.at.blockNumber == r.at.blockNumber && e.at.timestamp == r.at.timestamp
  }

  /** Fees accrue exactly once for each reimbursement, straight after it. */
  predicate InEmissionOrder(h: seq<Event>, e: Event) {
    if Settled(h) then !IsAccrual(e) else Completes(e, h[|h| - 1])
  }

  /** What a vault has been paid above principal and not yet booked. */
  function Unbooked(h: seq<Event>, a: Bytes): int {
    if !Settled(h) && h[|h| - 1].address == a
    then h[|h| - 1].log.amountReceived - h[|h| - 1].log.exposureCleared
    else 0
  }

  /** The outcome an event reports for an intent, if any. */
  function Reported(e: Event, i: Bytes): Option<Outcome> {
    match e
    case SettlementLog(_, LpReimbursed(intentId, _, _)) => if intentId == i then Some(LP_REIMBURSED) else None
    case SettlementLog(_, RecipientPaidByFallback(intentId, _, _)) => if intentId == i then Some(RECIPIENT_FALLBACK) else None
    case SettlementLog(_, HeldForVault(intentId, _, _)) => if intentId == i then Some(HELD_FOR_VAULT) else None
    case _ => None
  }

  function FirstOutcome(h: seq<Event>, i: Bytes): Option<Outcome> {
    if h == [] then None
    else
      var earlier := FirstOutcome(h[..|h| - 1], i);
      if earlier.Some? then earlier else Reported(h[|h| - 1], i)
  }

  function LastOutcome(h: seq<Event>, i: Bytes): Option<Outcome> {
    if h == [] then None
    else
      var latest := Reported(h[|h| - 1], i);
      if latest.Some? then latest else LastOutcome(h[..|h| - 1], i)
  }

  /** The latest outcome event of an intent. */
  function LastReport(h: seq<Event>, i: Bytes): (e: Option<Event>)
    ensures e.Some? ==> Reported(e.value, i).Some?
  {
    if h == [] then None
    else if Reported(h[|h| - 1], i).Some? then Some(h[|h| - 1])
    else LastReport(h[..|h| - 1], i)
  }

  /**
   * What the settlement receiver guarantees about its next notice: one outcome for each intent, after which only
   * held funds are paid out, to the same vault and in full; and proof straight after a first outcome.
   */
  predicate ReceiverMaySend(h: seq<Event>, e: Event)
    requires e.SettlementLog?
  {
    var i := e.notice.intentId;
    match e.notice
    case LpReimbursed(_, vault, amount) =>
      FirstOutcome(h, i).None? || (LastReport(h, i).Some? && LastReport(h, i).value.notice == HeldForVault(i, vault, amount))
    case SettledWithProof(_, _) =>
      && h != [] && Reported(h[|h| - 1], i).Some? && FirstOutcome(h[..|h| - 1], i).None?
      && h[|h| - 1].at.txHash == e.at.txHash
    case _ => FirstOutcome(h, i).None?
  }

  /** Log positions are unique, time never runs backwards, and each contract keeps its own promises. */
  ghost predicate Admits(h: seq<Event>, e: Event) {
    && Now(h) <= e.at.timestamp
    && 0 < e.at.timestamp
    && InEmissionOrder(h, e)
    && (forall i :: 0 <= i < |h| ==> PositionOf(h[i]) != PositionOf(e))
    && match e
       case VaultCreated(_, _, c) =>
         && c.vault !in Created(h) && Validate(c.policy) == Accepted
         && c.reserveFloorBps <= BPS && c.maxFillBps <= BPS && c.maxExposureBps <= BPS
       case IntentCreated(_, terms) => terms.intentId !in Announced(h) && |terms.intentId| == HASH_LENGTH
       case VaultLog(_, address, log) => address in Created(h) && VaultMayEmit(Advances(h), address, log)
       case SettlementLog(_, notice) => |notice.intentId| == HASH_LENGTH && ReceiverMaySend(h, e)
  }

  ghost predicate Admissible(h: seq<Event>) {
    h == [] || (Admissible(h[..|h| - 1]) && Admits(h[..|h| - 1], h[|h| - 1]))
  }

  lemma AdmissibleStep(h: seq<Event>, e: Event)
    requires Admissible(h) && Admits(h, e)
    ensures Admissible(h + [e])
  {
    assert (h + [e])[..|h|] == h;
  }

  lemma RunStep(s: Store, h: seq<Event>, e: Event)
    ensures RunFrom(s, h + [e]) ==
            match RunFrom(s, h)
            case Ok(t) => Apply(t, e)
            case UnknownVault(a) => UnknownVault(a)
  {
    assert (h + [e])[..|h|] == h;
  }

  lemma {:induction false} RunConcat(s: Store, h: seq<Event>, k: seq<Event>)
    ensures RunFrom(s, h + k) ==
            match RunFrom(s, h)
            case Ok(t) => RunFrom(t, k)
            case UnknownVault(a) => UnknownVault(a)
    decreases |k|
  {
    if k == [] {
      assert h + k == h;
    } else {
      var k' := k[..|k| - 1];
      assert (h + k)[..|h + k| - 1] == h + k';
      RunConcat(s, h, k');
    }
  }

  /** Splitting the last event off a history, as every induction over runs does. */
  lemma Unsnoc(h: seq<Event>)
    requires h != []
    ensures h == h[..|h| - 1] + [h[|h| - 1]]
  {}

  /** An admissible history is indexed without error, and the vaults known, and listened to, are exactly those the factory announced. */
  lemma {:induction false} AdmissibleRuns(h: seq<Event>)
    requires Admissible(h)
    ensures Run(h).Ok?
    ensures Run(h).store.vaults.Keys == Created(h) == Run(h).store.watched
    ensures Run(h).store.intents.Keys == Announced(h)
    decreases |h|
  {
    if h != [] {
      AdmissibleRuns(h[..|h| - 1]);
    }
  }

  lemma CreatedOnce(h: seq<Event>, e: Event, a: Bytes)
    requires Admits(h, e) && a in Created(h)
    ensures !(e.VaultCreated? && e.creation.vault == a)
  {}

  /** An event that does not create a vault changes its record only by being its own. */
  lemma VaultStep(s: Store, e: Event, a: Bytes)
    requires a in s.vaults && Apply(s, e).Ok? && !(e.VaultCreated? && e.creation.vault == a)
    ensures a in Apply(s, e).store.vaults
    ensures Apply(s, e).store.vaults[a]
         == if e.VaultLog? && e.address == a && ReadsVault(e.log) then VaultAfter(s.vaults[a], e.at, e.log) else s.vaults[a]
  {}
}
