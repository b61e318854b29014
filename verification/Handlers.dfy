/** Each event as a function on stores: the specification the indexer's handlers are proved against. */
module Handlers {
  import opened Options
  import opened ByteStrings
  import opened FeePolicy
  import opened Entities

  /** A handler that meets a vault the factory never created throws; the host then discards its writes. */
  datatype Indexed = Ok(store: Store) | UnknownVault(address: Bytes)

  const ZERO_ADDRESS: Bytes := [0, 0, 0, 0, 0, 0, 0, 0, 0, 0, 0, 0, 0, 0, 0, 0, 0, 0, 0, 0]

  const FRESH_PROTOCOL := ProtocolState(0, 0, 0, 0, 0, 0, 0, 0, 0, 0, 0, 0)

  /** The global record, created on first use and stamped with the current block. */
  function ProtocolAt(protocol: Option<ProtocolState>, at: Stamp): ProtocolState {
    (match protocol
     case None => FRESH_PROTOCOL
     case Some(p) => p).(updatedAtBlock := at.blockNumber, updatedAtTimestamp := at.timestamp)
  }

  // ----- vaults ------------------------------------------------------------

  function UtilisationOf(v: Vault): int {
    Utilisation(v.liquidBalance, v.accruedProtocolFees, v.outstandingExposure)
  }

  /** The vault with its cached utilisation and price recomputed. */
  function Refreshed(v: Vault): Vault {
    v.(utilisationBps := UtilisationOf(v), currentFeeBps := FeeBpsAt(v.policy, UtilisationOf(v)))
  }

  function SnapshotOf(v: Vault, at: Stamp): FeeSnapshot {
    FeeSnapshot(v.id, v.utilisationBps, v.currentFeeBps, v.liquidBalance, v.outstandingExposure,
                at.blockNumber, at.timestamp)
  }

  function NewVault(at: Stamp, factory: Bytes, c: VaultCreation): Vault {
    Refreshed(
      Vault(c.vault, 0, factory, c.owner, c.name, FACTORY, at.blockNumber, at.timestamp, c.policy,
            c.reserveFloorBps, c.maxFillBps, c.maxExposureBps,
            0, 0, 0, 0, 0, 0, 0, 0, 0, false, at.blockNumber, at.timestamp))
  }

  /** Events that move balance, exposure or fees, after which the tier is recomputed. */
  predicate MovesBalance(log: VaultEvent) {
    log.FastFilled? || log.Deposit? || log.Withdraw? || log.ReimbursementRecorded? || log.FeesAccrued?
  }

  /** The two delivery events only touch the fill record. */
  predicate ReadsVault(log: VaultEvent) {
    !log.DeliveredViaSwap? && !log.SwapFellBack?
  }

  function Booked(v: Vault, log: VaultEvent): Vault {
    match log
    case VaultInitialized(asset) => v.(asset := asset)
    case FastFilled(_, _, _, _, output, _, _) =>
      v.(outstandingExposure := v.outstandingExposure + output,
         liquidBalance := v.liquidBalance - output,
         fillCount := v.fillCount + 1)
    case DeliveredViaSwap(_, _, _) => v
    case SwapFellBack(_, _, _) => v
    case Deposit(assets) =>
      v.(liquidBalance := v.liquidBalance + assets, totalDeposited := v.totalDeposited + assets)
    case Withdraw(assets) =>
      v.(liquidBalance := v.liquidBalance - assets, totalWithdrawn := v.totalWithdrawn + assets)
    case ReimbursementRecorded(_, received, cleared) =>
      v.(liquidBalance := v.liquidBalance + received, outstandingExposure := v.outstandingExposure - cleared)
    case FeesAccrued(toProtocol, toLps) =>
      v.(accruedProtocolFees := v.accruedProtocolFees + toProtocol,
         totalFeesEarned := v.totalFeesEarned + toProtocol + toLps)
    case PausedSet(paused) => v.(paused := paused)
  }

  function VaultAfter(v: Vault, at: Stamp, log: VaultEvent): Vault {
    var booked := Booked(v.(updatedAtBlock := at.blockNumber, updatedAtTimestamp := at.timestamp), log);
    if MovesBalance(log) then Refreshed(booked) else booked
  }

  /** What a vault event does to the global figures. */
  function ProtocolAfter(p: ProtocolState, at: Stamp, log: VaultEvent): ProtocolState {
    match log
    case FastFilled(_, _, _, _, output, _, _) =>
      p.(intentsFilled := p.intentsFilled + 1,
         pendingSettlementValue := p.pendingSettlementValue + output,
         oldestUnsettledTimestamp :=
           if p.oldestUnsettledTimestamp == 0 then at.timestamp else p.oldestUnsettledTimestamp)
    case ReimbursementRecorded(_, _, cleared) =>
      p.(pendingSettlementValue := p.pendingSettlementValue - cleared,
         oldestUnsettledTimestamp :=
           if p.pendingSettlementValue - cleared <= 0 then 0 else p.oldestUnsettledTimestamp)
    case FeesAccrued(toProtocol, toLps) =>
      p.(totalFeesEarned := p.totalFeesEarned + toProtocol + toLps)
    case _ => p
  }

  predicate MovesProtocol(log: VaultEvent) {
    log.FastFilled? || log.ReimbursementRecorded? || log.FeesAccrued?
  }

  // ----- fills -------------------------------------------------------------

  /** The stored fill, or a fresh one presumed delivered in USDC. */
  function FillAt(fills: map<Bytes, Fill>, intentId: Bytes, vault: Bytes): Fill {
    var id := FillId(intentId, vault);
    if id in fills then fills[id] else Fill(intentId, vault, None, USDC, None, None)
  }

  function TermsOf(at: Stamp, log: VaultEvent): FillTerms
    requires log.FastFilled?
  {
    FillTerms(log.recipient, log.inputAmount, log.outputAmount, log.feeAmount, log.feeBps, log.signer,
              at.blockNumber, at.timestamp, at.txHash)
  }

  function FillsAfter(fills: map<Bytes, Fill>, at: Stamp, address: Bytes, log: VaultEvent): map<Bytes, Fill> {
    match log
    case FastFilled(intentId, _, _, _, _, _, _) =>
      fills[FillId(intentId, address) :=
        FillAt(fills, intentId, address).(intentId := intentId, vault := address, terms := Some(TermsOf(at, log)))]
    case DeliveredViaSwap(intentId, tokenOut, amountOut) =>
      fills[FillId(intentId, address) :=
        FillAt(fills, intentId, address).(deliveredVia := SWAP, tokenOut := Some(tokenOut), amountOut := Some(amountOut))]
    case SwapFellBack(intentId, tokenOut, usdc) =>
      fills[FillId(intentId, address) :=
        FillAt(fills, intentId, address).(deliveredVia := SWAP_FALLBACK, tokenOut := Some(tokenOut), amountOut := Some(usdc))]
    case _ => fills
  }

  // ----- intents -----------------------------------------------------------

  function NewIntent(at: Stamp, terms: IntentTerms): Intent {
    Intent(terms, terms.tokenOut != ZERO_ADDRESS, FAST_PENDING, CANONICAL_PENDING,
           at.blockNumber, at.timestamp, at.txHash, None, None)
  }

  function MarkFilled(intents: map<Bytes, Intent>, intentId: Bytes, fillId: Bytes): map<Bytes, Intent> {
    if intentId in intents then
      intents[intentId := intents[intentId].(fastStatus := FAST_FILLED, fill := Some(fillId))]
    else
      intents
  }

  function MarkSettled(intents: map<Bytes, Intent>, intentId: Bytes): map<Bytes, Intent> {
    if intentId in intents then
      intents[intentId := intents[intentId].(canonicalStatus := SETTLED, settlement := Some(intentId))]
    else
      intents
  }

  // ----- settlements -------------------------------------------------------

  /** The outcome an event reports and the amount; `SettledWithProof` reports none. */
  function OutcomeOf(notice: SettlementEvent): Option<Outcome> {
    match notice
    case LpReimbursed(_, _, _) => Some(LP_REIMBURSED)
    case RecipientPaidByFallback(_, _, _) => Some(RECIPIENT_FALLBACK)
    case HeldForVault(_, _, _) => Some(HELD_FOR_VAULT)
    case SettledWithProof(_, _) => None
  }

  /** The vault owed the funds, when they are parked for one. */
  function HeldBy(notice: SettlementEvent): Option<Bytes> {
    if notice.HeldForVault? then Some(notice.vault) else None
  }

  /** A record not yet given an outcome; every use overwrites the placeholder fields. */
  function NewSettlement(intentId: Bytes): Settlement {
    Settlement(intentId, LP_REIMBURSED, 0, false, None, None, 0, 0, [])
  }

  function SettlementAfter(previous: Option<Settlement>, at: Stamp, notice: SettlementEvent): Option<Settlement> {
    match notice
    case SettledWithProof(_, nonce) =>
      (match previous
       case None => None
       case Some(s) => Some(s.(viaProof := true, cctpNonce := Some(nonce))))
    case _ =>
      var base := if previous.Some? then previous.value else NewSettlement(notice.intentId);
      Some(base.(outcome := OutcomeOf(notice).value,
                 amount := notice.amount,
                 heldForVault := HeldBy(notice),
                 blockNumber := at.blockNumber,
                 timestamp := at.timestamp,
                 txHash := at.txHash))
  }

  function Lookup<K, V>(m: map<K, V>, k: K): Option<V> {
    if k in m then Some(m[k]) else None
  }

  // ----- whole events ------------------------------------------------------

  function ApplyVaultCreated(s: Store, at: EventStamp, factory: Bytes, c: VaultCreation): Store {
    var v := NewVault(at, factory, c);
    var p := ProtocolAt(s.protocol, at);
    s.(watched := s.watched + {c.vault},
       vaults := s.vaults[c.vault := v],
       snapshots := s.snapshots[EventId(at.txHash, at.logIndex) := SnapshotOf(v, at)],
       protocol := Some(p.(vaultCount := p.vaultCount + 1)))
  }

  function ApplyIntentCreated(s: Store, at: EventStamp, terms: IntentTerms): Store {
    var intent := NewIntent(at, terms);
    var p := ProtocolAt(s.protocol, at);
    s.(intents := s.intents[terms.intentId := intent],
       protocol := Some(
         p.(chainId := terms.sourceChainId,
            intentsCreated := p.intentsCreated + 1,
            tradeIntentsCreated := p.tradeIntentsCreated + if intent.isTradeIntent then 1 else 0)))
  }

  function VaultsWith(vaults: map<Bytes, Vault>, at: EventStamp, address: Bytes, log: VaultEvent): map<Bytes, Vault> {
    if ReadsVault(log) && address in vaults then vaults[address := VaultAfter(vaults[address], at, log)] else vaults
  }

  function SnapshotsWith(snapshots: map<Bytes, FeeSnapshot>, vaults: map<Bytes, Vault>, at: EventStamp, address: Bytes, log: VaultEvent)
    : map<Bytes, FeeSnapshot>
  {
    if MovesBalance(log) && address in vaults then
      snapshots[EventId(at.txHash, at.logIndex) := SnapshotOf(VaultAfter(vaults[address], at, log), at)]
    else
      snapshots
  }

  function IntentsWith(intents: map<Bytes, Intent>, address: Bytes, log: VaultEvent): map<Bytes, Intent> {
    if log.FastFilled? then MarkFilled(intents, log.intentId, FillId(log.intentId, address)) else intents
  }

  function ProtocolWith(protocol: Option<ProtocolState>, at: EventStamp, log: VaultEvent): Option<ProtocolState> {
    if MovesProtocol(log) then Some(ProtocolAfter(ProtocolAt(protocol, at), at, log)) else protocol
  }

  function ApplyVaultLog(s: Store, at: EventStamp, address: Bytes, log: VaultEvent): Indexed {
    if ReadsVault(log) && address !in s.vaults then
      UnknownVault(address)
    else
      Ok(Store(ProtocolWith(s.protocol, at, log),
               s.watched,
               VaultsWith(s.vaults, at, address, log),
               FillsAfter(s.fills, at, address, log),
               IntentsWith(s.intents, address, log),
               s.settlements,
               SnapshotsWith(s.snapshots, s.vaults, at, address, log)))
  }

  function SettlementsWith(settlements: map<Bytes, Settlement>, at: EventStamp, notice: SettlementEvent): map<Bytes, Settlement> {
    var next := SettlementAfter(Lookup(settlements, notice.intentId), at, notice);
    if next.Some? then settlements[notice.intentId := next.value] else settlements
  }

  /** Only an intent's first outcome is counted. */
  function ProtocolSettled(protocol: Option<ProtocolState>, first: bool, at: EventStamp, notice: SettlementEvent): Option<ProtocolState> {
    if first && !notice.SettledWithProof? then
      var p := ProtocolAt(protocol, at);
      Some(p.(intentsSettled := p.intentsSettled + 1,
              intentsFallenBack := p.intentsFallenBack + if notice.RecipientPaidByFallback? then 1 else 0))
    else
      protocol
  }

  function ApplySettlementLog(s: Store, at: EventStamp, notice: SettlementEvent): Store {
    s.(settlements := SettlementsWith(s.settlements, at, notice),
       intents := if notice.SettledWithProof? then s.intents else MarkSettled(s.intents, notice.intentId),
       protocol := ProtocolSettled(s.protocol, notice.intentId !in s.settlements, at, notice))
  }

  function Apply(s: Store, e: Event): Indexed {
    match e
    case VaultCreated(at, factory, creation) => Ok(ApplyVaultCreated(s, at, factory, creation))
    case IntentCreated(at, terms) => Ok(ApplyIntentCreated(s, at, terms))
    case VaultLog(at, address, log) => ApplyVaultLog(s, at, address, log)
    case SettlementLog(at, notice) => Ok(ApplySettlementLog(s, at, notice))
  }

  /** Replaying a history from a store; a throw stops indexing for good. */
  function RunFrom(s: Store, h: seq<Event>): Indexed
    decreases |h|
  {
    if h == [] then Ok(s)
    else
      match RunFrom(s, h[..|h| - 1])
      case Ok(t) => Apply(t, h[|h| - 1])
      case UnknownVault(a) => UnknownVault(a)
  }

  function Run(h: seq<Event>): Indexed {
    RunFrom(EMPTY_STORE, h)
  }
}
