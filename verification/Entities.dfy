/** What the subgraph stores, and the events it indexes. Unsigned event fields are `nat`. */
module Entities {
  import opened ByteStrings
  import opened FeePolicy
  import opened Options

  /** The only way a vault comes to exist. */
  datatype VaultOrigin = FACTORY

  datatype Vault = Vault(
    id: Bytes,
    chainId: nat,
    asset: Bytes,
    owner: Bytes,
    name: string,
    createdVia: VaultOrigin,
    createdAtBlock: nat,
    createdAtTimestamp: nat,
    policy: Policy,
    reserveFloorBps: nat,
    maxFillBps: nat,
    maxExposureBps: nat,
    liquidBalance: int,
    outstandingExposure: int,
    accruedProtocolFees: int,
    utilisationBps: int,
    currentFeeBps: int,
    totalDeposited: int,
    totalWithdrawn: int,
    fillCount: int,
    totalFeesEarned: int,
    paused: bool,
    updatedAtBlock: nat,
    updatedAtTimestamp: nat)

  datatype DeliveryPath = USDC | SWAP | SWAP_FALLBACK

  /** The part of a fill that only its `FastFilled` event carries. */
  datatype FillTerms = FillTerms(
    recipient: Bytes,
    inputAmount: nat,
    outputAmount: nat,
    feeAmount: nat,
    feeBps: nat,
    signer: Bytes,
    blockNumber: nat,
    timestamp: nat,
    txHash: Bytes)

  /** `terms` is `None` between the delivery event and the `FastFilled` of the same transaction. */
  datatype Fill = Fill(
    intentId: Bytes,
    vault: Bytes,
    terms: Option<FillTerms>,
    deliveredVia: DeliveryPath,
    tokenOut: Option<Bytes>,
    amountOut: Option<nat>)

  datatype IntentTerms = IntentTerms(
    intentId: Bytes,
    intentVersion: nat,
    sender: Bytes,
    recipient: Bytes,
    inputToken: Bytes,
    amount: nat,
    sourceChainId: nat,
    destinationChainId: nat,
    maxFeeBps: nat,
    deadline: nat,
    nonce: nat,
    tokenOut: Bytes,
    targetMinOut: nat,
    settlementRef: Bytes)

  datatype FastStatus = FAST_PENDING | FAST_FILLED

  datatype CanonicalStatus = CANONICAL_PENDING | SETTLED

  datatype Intent = Intent(
    terms: IntentTerms,
    isTradeIntent: bool,
    fastStatus: FastStatus,
    canonicalStatus: CanonicalStatus,
    createdAtBlock: nat,
    createdAtTimestamp: nat,
    createdTxHash: Bytes,
    fill: Option<Bytes>,
    settlement: Option<Bytes>)

  datatype Outcome = LP_REIMBURSED | RECIPIENT_FALLBACK | HELD_FOR_VAULT

  datatype Settlement = Settlement(
    intentId: Bytes,
    outcome: Outcome,
    amount: nat,
    viaProof: bool,
    cctpNonce: Option<Bytes>,
    heldForVault: Option<Bytes>,
    blockNumber: nat,
    timestamp: nat,
    txHash: Bytes)

  datatype FeeSnapshot = FeeSnapshot(
    vault: Bytes,
    utilisationBps: int,
    feeBps: int,
    liquidBalance: int,
    outstandingExposure: int,
    blockNumber: nat,
    timestamp: nat)

  datatype ProtocolState = ProtocolState(
    chainId: nat,
    vaultCount: int,
    intentsCreated: int,
    tradeIntentsCreated: int,
    intentsFilled: int,
    intentsSettled: int,
    intentsFallenBack: int,
    pendingSettlementValue: int,
    oldestUnsettledTimestamp: int,
    totalFeesEarned: int,
    updatedAtBlock: nat,
    updatedAtTimestamp: nat)

  /** `watched` holds the vaults whose own events the factory's handler has started indexing. */
  datatype Store = Store(
    protocol: Option<ProtocolState>,
    watched: set<Bytes>,
    vaults: map<Bytes, Vault>,
    fills: map<Bytes, Fill>,
    intents: map<Bytes, Intent>,
    settlements: map<Bytes, Settlement>,
    snapshots: map<Bytes, FeeSnapshot>)

  const EMPTY_STORE := Store(None, {}, map[], map[], map[], map[], map[])

  /** Where in the chain an event sits. */
  datatype Stamp = Stamp(blockNumber: nat, timestamp: nat, txHash: Bytes, logIndex: nat)

  type EventStamp = at: Stamp | at.logIndex < I32_LIMIT witness Stamp(0, 0, [], 0)

  datatype VaultEvent =
    | VaultInitialized(asset: Bytes)
    | FastFilled(intentId: Bytes, recipient: Bytes, signer: Bytes,
                 inputAmount: nat, outputAmount: nat, feeAmount: nat, feeBps: nat)
    | DeliveredViaSwap(intentId: Bytes, tokenOut: Bytes, amountOut: nat)
    | SwapFellBack(intentId: Bytes, tokenOut: Bytes, usdcDelivered: nat)
    | Deposit(assets: nat)
    | Withdraw(assets: nat)
    | ReimbursementRecorded(intentId: Bytes, amountReceived: nat, exposureCleared: nat)
    | FeesAccrued(toProtocol: nat, toLps: nat)
    | PausedSet(paused: bool)

  datatype SettlementEvent =
    | LpReimbursed(intentId: Bytes, vault: Bytes, amount: nat)
    | RecipientPaidByFallback(intentId: Bytes, recipient: Bytes, amount: nat)
    | HeldForVault(intentId: Bytes, vault: Bytes, amount: nat)
    | SettledWithProof(intentId: Bytes, cctpNonce: Bytes)

  datatype VaultCreation = VaultCreation(
    vault: Bytes,
    owner: Bytes,
    name: string,
    policy: Policy,
    reserveFloorBps: nat,
    maxFillBps: nat,
    maxExposureBps: nat)

  datatype Event =
    | VaultCreated(at: EventStamp, factory: Bytes, creation: VaultCreation)
    | IntentCreated(at: EventStamp, terms: IntentTerms)
    | VaultLog(at: EventStamp, address: Bytes, log: VaultEvent)
    | SettlementLog(at: EventStamp, notice: SettlementEvent)
}
