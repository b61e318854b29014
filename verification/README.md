# Arcaidia, verified

A Dafny model of the parts of Arcaidia whose correctness is not visible from any one function, with proofs.
Arcaidia moves USDC between chains by letting liquidity vaults pay out first (a fast fill) and be reimbursed
later by canonical settlement. Off chain, a subgraph keeps running totals of all that, a relay tracks which
solvers are alive, a load generator plans traffic, and a solver asks several subgraphs what is left to fill.

`dafny verify dfyconfig.toml` checks everything.

## How it is built

**The indexer.** `Entities` holds the stored records and the events. `Handlers.Apply` says what each event does
to a whole store, `Run` replays a history. `Indexer.EntityStore` is the program's own form: a store of maps whose
handlers load an entity, change its fields and save it, each proved to reach the store `Apply` describes, and
`Indexer.Index` proves the same for whole histories. Every theorem about `Run` is therefore about the handlers.
`History.Admissible` states what the contracts guarantee about the order of events: unique log positions, time that
does not run backwards, policies the factory validated, positive fills, and reimbursements that clear exactly the
principal of one open fill and receive at least that (`contracts/src/ArcaidiaLiquidityVault.sol` lines 836 to 857);
and one outcome for each intent, after which only held funds are paid out, with attested bytes straight after a first
outcome (`contracts/src/SettlementReceiver.sol` lines 149 to 240).
`Ledger`, `Replay`, `FeeTiers`, `Records`, `Settlements` and `Independence` prove what every reachable store says about
its history, `Stamps` its update stamps; `ReserveFloor` the limits a vault keeps on the capital it may advance, and with `MarketObserver` what the
load generator computes from them; `FeePolicy` is the fee and
utilisation arithmetic, with truncating division written out.

**The relay.** `RelaySteps` gives each operation as a function on the relay's state and its runs as arbitrary
interleavings. Confirming a pairing suspends while the signature is checked, so it is two steps. `Pairing` and
`RelayInvariants` hold over every interleaving, `Liveness` reads who is online off a run, and `SingleUse` says how often a challenge can be used; whether a signature recovers to an address is an arbitrary function.
`RelayStore.Store` is the mutable store with its listeners, proved against those functions, with the invariant that
every open stream's last snapshot is the store's state.

**The load generator.** `Mulberry32` is the generator bit for bit. `Rng.Source` is any stream of draws in [0, 1) that
is not zero for good, which `SeededIsStream` shows the generator to be. The exponential and the normal deviate are arbitrary
functions, as is the gap between arrivals; only `EmptyTransfers.NeverPlansEmptyIff` assumes more of them, that the
exponential vanishes, the deviate is unbounded below, and a zero draw makes no gap. `Traffic` says what may be planned,
`Planner` which draws decide what, so that a plan is a function of them, and what follows for every plan, `Phases` proves
the samplers and planning loops against that function, `Decisions` says which draws make each choice, `EmptyTransfers` says when a plan can hold nothing at all, and
`Controller` is the scarcity controller, with `ExtendedReals` for what a division by zero leaves. Durations, ranges and times are
reals, as the configuration allows; rounding and flooring are explicit.

**Discovery.** `PendingQuery` is the batched query for unfilled intents, proved equal to the one-intent check it
replaces, then composed with stores reached by the indexer. `Pages` is the page query's reply, oldest first and by id
within a second, which is how the host orders; `Starvation` is what the page limit hides.

**Codecs.** `Decimal`, `Units` and `Usdc` are the decimal printers and parsers; `Hex`, `VaultFlowAbi` and `VaultFlows` the
ERC-4626 pipeline from raw logs ("Events" in EIP-4626, encoded as in "Events" of the Solidity Contract ABI
Specification) to decimal strings.

## Where the code and its description differ

The model follows the code.

- The relay calls a challenge single-use. Confirmations begun before the first finishes may succeed too
  (`Pairing.ConcurrentConfirmsBothFinish` is such a run). `SingleUse.UsedAgainIff` and `SingleUse.UsedOnceIffNoRival` say
  exactly when a challenge is used again; `Pairing.AnswerableIff` says exactly when one can be begun. A finishing
  confirmation discards whatever challenge is then pending, even a newer one.
- A challenge is meant to bind one vault and operator. The relay accepts any text for either, and one that holds a line
  break followed by `operator:` moves the border between them: a challenge has one reading exactly when neither text
  holds that (`RelayText.OneReadingIff`). Chain, nonce and times are bound whatever the texts (`RelayText.MessageBindsTail`).
- The integer sampler is described as within [min, max]. With bounds a fractional distance apart it exceeds max on some
  draws (`Rng.SpreadWithinBoundsIff`).
- Minimum amounts above zero, and large amounts from zero up, load without complaint, but small ones round to empty
  transfers: some plan holds one exactly when something can arrive and `EmptyTransfers.NeverEmpty` fails
  (`EmptyTransfers.NeverPlansEmptyIff`). Loading accepts two chains with one id, and then every intent has its source as
  destination (`Traffic.EndsDifferIff`).
- The controller "never switches anything off", but a lower bound of zero lets the multiplier reach zero
  (`Controller.PositiveOnEveryRunIff`), light weights are divided by it, and one phase, as a rule the last, is then
  chosen whatever is drawn (`Controller.ChoosePhase`).
- Pending intents are fetched oldest first up to a page, and a source never learns of a fill on the other chain, so a page
  of stale ones hides every younger one for good (`Starvation.HiddenForGood`).
- The two delivery handlers write a fill even for a vault the factory never created; every other vault event throws.

## Model

| member | source | states |
|---|---|---|
| Ledger.BooksBalance | subgraph/src/vault.ts:64-143 | in every reachable store, pending settlement value is the sum of all vaults' exposures and of all unreimbursed principals, each vault's exposure is the sum of its own, and fill counts, fees and vault count add up |
| Ledger.NothingNegative | subgraph/src/vault.ts:113-129 | no exposure and no pending value is ever negative, no vault exceeds the total, and the total is zero exactly when nothing is outstanding |
| Ledger.AgeNeverUnderstated | subgraph/src/vault.ts:74-127 | the oldest-unsettled stamp is 0 exactly when nothing is outstanding and otherwise positive and no later than any outstanding fill, so age is only ever overstated |
| Ledger.TotalsBalance | subgraph/src/vault.ts:64-143 | each global figure equals the sum of the vaults' figures after every admissible history |
| Ledger.ExposuresBalance | subgraph/src/vault.ts:64-118 | each vault's exposure is the principal of its own unreimbursed advances |
| Ledger.PendingIsOutstanding | subgraph/src/vault.ts:71-128 | the incremental pending value equals the sum over the outstanding advances of the history |
| Ledger.AdvancesWellFormed | subgraph/src/vault.ts:36-79 | every open advance is positive, belongs to a known vault and is not from the future |
| History.AdmissibleRuns | subgraph/src/shared.ts:37-51 | a history the contracts can emit never throws, the vault and intent keys are exactly those announced, and exactly the vaults announced are listened to |
| Replay.OwnEventsSuffice | subgraph/src/shared.ts:43-51 | a vault's record is a replay of its own events alone |
| Replay.InterleavingIrrelevant | subgraph/src/shared.ts:43-51 | two histories that agree on a vault's own events leave the same vault record, however interleaved with anything else |
| Replay.IncrementalEqualsReplay | subgraph/src/vault.ts:64-143 | balance, exposure, deposits, withdrawals, fees and fill count each equal sums over the vault's whole history |
| Replay.FeesBookSurplus | subgraph/src/vault.ts:113-143 | what reimbursements brought above principal is exactly what fees booked, but for a reimbursement between its two logs |
| Replay.CapitalIsConserved | subgraph/src/vault.ts:64-143 | cash plus receivables equals deposits less withdrawals plus the fees the vault reports having earned, but for a reimbursement between its two logs |
| FeeTiers.CachesNeverStale | subgraph/src/shared.ts:58-61 | in every reachable store every stored utilisation and fee is what its vault's current fields amount to |
| FeeTiers.PostedPriceIsLive | subgraph/src/fee-policy.ts:10-26 | every vault's stored utilisation is the floor of its exposure's share of what its LPs own, and its stored fee the greatest among the tiers its policy has reached at it; both in range |
| FeeTiers.SeriesIsComplete | subgraph/src/shared.ts:63-77 | there is one fee snapshot per balance-moving event and per creation, and no two share an id |
| FeeTiers.SeriesMatchesHistory | subgraph/src/shared.ts:63-71 | every point ever written stays and holds the four figures of its vault right after its event, and the event's block and time |
| FeeTiers.LatestSnapshotIsCurrent | subgraph/src/shared.ts:63-71 | a vault's latest snapshot carries its current utilisation, fee, balance and exposure, and the block and time of the event that wrote it |
| FeeTiers.VaultLogMovesOneWay | subgraph/src/vault.ts:64-143 | fills, withdrawals and fee accruals never lower utilisation or fee, deposits and full reimbursements never raise them, zero-total and clamped cases included |
| FeeTiers.PriceMovesOneWay | subgraph/src/vault.ts:64-143 | the same over any reachable store and any event of an admissible history |
| FeeTiers.PriceOverStretch | subgraph/src/vault.ts:64-143 | between any two points with no reimbursement half booked, utilisation and fee never rise without a fill or withdrawal, reimbursements with their accruals included, and never fall without a deposit or reimbursement |
| FeeTiers.ClearedWithinExposure | subgraph/src/vault.ts:113-118 | a reimbursement never clears more than the vault has out |
| Records.FillsMatchHistory | subgraph/src/vault.ts:36-95 | a fill record exists exactly when the vault filled or delivered; its terms are the fill event's field by field and its path is the delivery event's, plain USDC without one |
| Records.FillsStayKeyed | subgraph/src/vault.ts:151-166 | every fill sits under the id made of its own intent and vault |
| Records.IntentsMatchHistory | subgraph/src/router.ts:16-41 | an intent record keeps the announced terms and moment through everything that happens to it later |
| Records.CountersCountAnnouncements | subgraph/src/router.ts:43-47 | the created and trade-intent counters equal the number of intents and of those naming another token |
| Records.VaultsMatchHistory | subgraph/src/factory.ts:14-48 | a vault record keeps what the factory announced, and its asset and pause flag follow its own latest events only |
| Stamps.GlobalMatchesHistory | subgraph/src/shared.ts:15-35 | the global record names the source chain of the last intent announced, and the block and time of the last event that wrote it: a creation, an announcement, a fill, a reimbursement, its fees, or an intent's first outcome |
| Stamps.VaultStampedByHistory | subgraph/src/shared.ts:43-51 | every vault record carries the block and time of its creation or of the last of its own events but the two delivery events |
| Records.LinksAlwaysResolve | subgraph/src/vault.ts:56-62 | fast and canonical status hold exactly when their links are set, and each link leads to a complete record of the same intent |
| ByteStrings.EventIdInjective | subgraph/src/shared.ts:74-77 | no two log positions share an event id |
| ByteStrings.FillIdInjective | subgraph/src/vault.ts:151-154 | no two (intent, vault) pairs share a fill id |
| Settlements.RecordsMatchHistory | subgraph/src/settlement.ts:26-86 | a settlement exists once an outcome was reported, carries the latest one, is parked exactly while that is HELD_FOR_VAULT, and is proved (with its nonce) exactly when attested bytes followed an outcome |
| Settlements.DetailsMatchHistory | subgraph/src/settlement.ts:26-86 | amount, block, time and transaction are the latest outcome's, and the nonce is that of the latest proof after an outcome |
| Settlements.CountersCountIntents | subgraph/src/settlement.ts:51-56 | intentsSettled counts distinct settled intents and intentsFallenBack those whose first outcome was the fallback |
| Settlements.OutcomeIsFinal | contracts/src/SettlementReceiver.sol:165-240 | an intent is settled once: after its first outcome only held funds being paid out can follow |
| Settlements.FallbacksCounted | subgraph/src/settlement.ts:51-56 | the fallback counter is the number of settlements whose outcome, as it stands, is the direct payment |
| Settlements.SettlementsProgress | subgraph/src/settlement.ts:26-57 | once recorded, a settlement keeps its amount for good, its outcome only ever goes from held to reimbursed, and its place changes only then |
| Settlements.ProofIsPermanent | subgraph/src/settlement.ts:80-86 | a proof mark survives every continuation of the run |
| Settlements.ProofNeverMissed | subgraph/src/settlement.ts:75-86 | attested bytes always find their record: a settlement is marked proved exactly when some were announced for it |
| Independence.EventsCommute | subgraph/src/settlement.ts:44-57 | a settlement event and any other event commute on the whole store up to update stamps, unless the other creates that very intent |
| Independence.SettlementLast | subgraph/src/settlement.ts:44-57 | from any store, moving all settlement events to the end of a history changes no fact |
| Independence.InterleavingsAgree | subgraph/src/settlement.ts:44-57 | two histories with the same fill side and the same settlement side agree on every fact |
| Independence.StatusesAreIndependent | subgraph/src/router.ts:34-35 | FAST_FILLED holds exactly after a fill of a known intent, SETTLED exactly after an outcome; neither reads the other's events |
| Independence.DeliveryAndFillCommute | subgraph/src/vault.ts:36-95 | a delivery event and a fill event reach the same store in either order |
| Independence.StampBlind | subgraph/src/shared.ts:32-33 | no handler's effect depends on the global record's update stamps |
| Indexer.EntityStore.LoadProtocol | subgraph/src/shared.ts:15-35 | loads or creates the global record and stamps it |
| Indexer.EntityStore.LoadVault | subgraph/src/shared.ts:43-51 | finds exactly the vaults the factory created and stamps them; any other address is an error |
| Indexer.EntityStore.RefreshFeeTier | subgraph/src/shared.ts:58-72 | sets utilisation to the floor of the exposure's share and the fee to the greatest tier reached, and files one snapshot under the event's id |
| Indexer.EntityStore.LoadFill | subgraph/src/vault.ts:156-166 | loads the stored fill, or a fresh one presumed paid in USDC |
| Indexer.EntityStore.HandleVaultCreated | subgraph/src/factory.ts:14-55 | the whole new store is the specified one, with the vault among those listened to |
| Indexer.EntityStore.HandleIntentCreated | subgraph/src/router.ts:16-48 | the whole new store is the specified one |
| Indexer.EntityStore.HandleVaultInitialized | subgraph/src/vault.ts:18-22 | the whole new store is the specified one, or an unknown vault leaves no trace |
| Indexer.EntityStore.HandleFastFilled | subgraph/src/vault.ts:36-79 | the whole new store is the specified one, or an unknown vault leaves no trace |
| Indexer.EntityStore.HandleDeliveredViaSwap | subgraph/src/vault.ts:81-87 | only the fill record changes, and an unknown vault is no error here |
| Indexer.EntityStore.HandleSwapFellBack | subgraph/src/vault.ts:89-95 | only the fill record changes, and an unknown vault is no error here |
| Indexer.EntityStore.HandleDeposit | subgraph/src/vault.ts:97-103 | the whole new store is the specified one, or an unknown vault leaves no trace |
| Indexer.EntityStore.HandleWithdraw | subgraph/src/vault.ts:105-111 | the whole new store is the specified one, or an unknown vault leaves no trace |
| Indexer.EntityStore.HandleReimbursement | subgraph/src/vault.ts:113-129 | the whole new store is the specified one, or an unknown vault leaves no trace |
| Indexer.EntityStore.HandleFeesAccrued | subgraph/src/vault.ts:131-143 | the whole new store is the specified one, or an unknown vault leaves no trace |
| Indexer.EntityStore.HandlePausedSet | subgraph/src/vault.ts:145-149 | the whole new store is the specified one, or an unknown vault leaves no trace |
| Indexer.EntityStore.Record | subgraph/src/settlement.ts:26-57 | writes the outcome, joins the intent if held here, and counts only first records |
| Indexer.EntityStore.HandleLpReimbursed | subgraph/src/settlement.ts:59-61 | the whole new store is the specified one |
| Indexer.EntityStore.HandleRecipientPaidByFallback | subgraph/src/settlement.ts:63-65 | the whole new store is the specified one |
| Indexer.EntityStore.HandleHeldForVault | subgraph/src/settlement.ts:67-73 | the whole new store is the specified one |
| Indexer.EntityStore.HandleSettledWithProof | subgraph/src/settlement.ts:80-86 | marks an existing record and leaves a missing one alone |
| Indexer.EntityStore.Handle | subgraph/src/vault.ts:18-149 | any event takes the store in place to what the replay specification says |
| Indexer.Index | subgraph/src/shared.ts:5-11 | indexing a whole history in place reaches exactly the replayed store, or fails exactly when the replay does |
| FeePolicy.AcceptedIffWellFormed | packages/domain/src/fee-policy.ts:38-57 | validation accepts exactly the policies with uint16 fields, ascending thresholds within 10000, non-decreasing fees and the critical fee under the ceiling |
| FeePolicy.RefusedForFirstFault | packages/domain/src/fee-policy.ts:38-57 | a refused policy is refused for the first check it fails |
| FeePolicy.FeeIsGreatestReached | packages/domain/src/fee-policy.ts:60-65 | an accepted policy's fee is the greatest among the tiers whose threshold is reached, the base tier always being, and no other figure is |
| FeePolicy.TierTakesOver | subgraph/src/fee-policy.ts:10-18 | each tier takes over at its own threshold and holds up to the next |
| FeePolicy.FeeIsMonotone | packages/domain/src/fee-policy.ts:60-65 | an accepted policy's fee never falls as utilisation rises and stays between base and critical |
| FeePolicy.FeeAmountIsLeastCover | packages/domain/src/fee-policy.ts:68-73 | the fee amount is the least whole number covering the exact fee |
| FeePolicy.FeeAmountMonotone | packages/domain/src/fee-policy.ts:68-73 | neither a larger input nor a higher tier ever pays less |
| FeePolicy.FeeAmountUnderCeiling | packages/domain/src/fee-policy.ts:33-73 | under an accepted policy the fee never exceeds the ceiling's share, rounded up |
| FeePolicy.UtilisationIsShare | subgraph/src/fee-policy.ts:20-26 | utilisation is the exposure's share of balance less protocol fees, never below zero, plus exposure, rounded down to a basis point, and full when that is nothing; no other figure is |
| FeePolicy.TruncatesTowardZero | subgraph/src/fee-policy.ts:20-26 | division drops the fraction on either side of zero |
| FeePolicy.UtilisationInRange | subgraph/src/fee-policy.ts:20-26 | utilisation lies in 0 to 10000 for every vault with non-negative exposure |
| FeePolicy.UtilisationMonotone | subgraph/src/fee-policy.ts:20-26 | less cash or more exposure never lowers utilisation |
| ReserveFloor.FloorIsLeastCover | packages/loadgen/src/observe.ts:96 | the floor is the least whole amount covering the reserve fraction |
| ReserveFloor.AvailableIsExact | packages/loadgen/src/observe.ts:92-99 | an amount is within the reported availability exactly when taking it out leaves balance less fees covering the reserve fraction of all LPs own |
| ReserveFloor.AvailableIsMost | packages/loadgen/src/observe.ts:92-99 | the figure reported for a vault is the most it can advance so |
| ReserveFloor.AggregateIsMost | packages/loadgen/src/observe.ts:92-100 | the market-wide figure is the sum, vault by vault, of the most each can advance |
| ReserveFloor.FillDrawsDown | packages/loadgen/src/observe.ts:92-99 | a fill within the reported availability lowers it by exactly its size and leaves the floor where it was and covered |
| ReserveFloor.CapIsGreatest | contracts/src/ArcaidiaLiquidityVault.sol:448-458 | a cap is the greatest whole amount within its fraction |
| ReserveFloor.WithinIff | contracts/src/ArcaidiaLiquidityVault.sol:398-458 | being within limits, spelled out in balance, fees, exposure and the two fractions |
| ReserveFloor.FillAllowedIff | contracts/src/ArcaidiaLiquidityVault.sol:760-790 | a fill is let through exactly when it is under the single-fill cap and leaves floor and exposure cap holding |
| ReserveFloor.WithdrawKeepsLimitsIff | contracts/src/ArcaidiaLiquidityVault.sol:411-446 | a withdrawal from a vault within its limits leaves both the reserve floor and the exposure cap holding exactly when it is within the withdrawable balance |
| ReserveFloor.AllowedKeepsLimits | contracts/src/ArcaidiaLiquidityVault.sol:760-790 | fills and withdrawals the vault lets through, and deposits, keep cash above the floor and exposure under its cap |
| ReserveFloor.ReimbursementKeepsLimits | contracts/src/ArcaidiaLiquidityVault.sol:832-857 | a reimbursement keeps both limits even with its whole surplus charged to the protocol |
| ReserveFloor.LimitsSurvive | contracts/src/ArcaidiaLiquidityVault.sol:398-458 | floor and cap survive every run: fills and withdrawals the vault lets through, deposits, and reimbursements with their fees, at every point of it |
| ReserveFloor.LimitsAlwaysHold | contracts/src/ArcaidiaLiquidityVault.sol:398-458 | from creation on, in every reachable state, a vault whose outflows were each let through by its own checks is within both limits |
| ReserveFloor.FillsBoundedByTotal | packages/loadgen/src/observe.ts:92-99 | a sequence of fills fits, each when it comes, exactly when its total is within the initial availability: splitting and ordering change nothing |
| ReserveFloor.FillsAllowedIff | contracts/src/ArcaidiaLiquidityVault.sol:760-790 | the vault's own checks let a sequence of fills through exactly when each is under the single-fill cap and their total is within the initial headroom under availability and exposure cap |
| ReserveFloor.AggregateAfterFill | packages/loadgen/src/observe.ts:92-100 | one vault's fill lowers the market-wide figure by exactly the fill |
| MarketObserver.Snapshot | packages/loadgen/src/observe.ts:49-110 | rows, labelled with their chain, and counters of exactly the chains that answered, in order, a chain's rows up to the first unreadable one; a figure nobody answered for is absent, not zero; stamped with the clock |
| MarketObserver.SeenAreRows | packages/loadgen/src/observe.ts:59-71 | labelling rows with their chain changes neither which they are nor their order |
| MarketObserver.SeenInOrder | packages/loadgen/src/observe.ts:54-71 | rows are seen chain after chain in the order asked, each under its own chain |
| MarketObserver.ReadRows | packages/loadgen/src/observe.ts:60-71 | rows before the first that cannot be converted are kept |
| MarketObserver.ReadableIsPrefix | packages/loadgen/src/observe.ts:60-71 | those rows are the longest run from the first that can all be converted |
| MarketObserver.SumAvailable | packages/loadgen/src/observe.ts:92-105 | the loop's availability is the sum of the most each row's vault can advance, its exposure the sum of theirs |
| MarketObserver.ExposureIsPendingValue | packages/loadgen/src/observe.ts:105 | for a chain that answers in full, exposure summed over its rows is the pending value its own record keeps |
| MarketObserver.ReportedExposureIsOutstanding | packages/loadgen/src/observe.ts:105 | whichever chains answer, reported exposure is exactly the principal of every unreimbursed advance on those |
| MarketObserver.ReportedCountsAreReal | packages/loadgen/src/observe.ts:74-90 | the reported counters are, over the chains that gave their global row, the intents announced, the fast fills, and the settlements standing as direct payments |
| RelayText.TokenInjective | packages/relay/src/types.ts:62-64 | vaults that differ in chain or (case-folded) address never share an entry |
| RelayText.SameTokenIff | packages/relay/src/types.ts:62-64 | vaults of one chain share an entry exactly when their addresses differ at most in case |
| RelayText.LowerIsAscii | packages/relay/src/types.ts:62-64 | case is folded for the twenty-six capitals and for nothing else |
| RelayText.MessageBindsEverything | packages/relay/src/pairing.ts:28-38 | a challenge whose address texts do not hold the operator label shares its words with no other vault, operator, nonce or times |
| RelayText.OneReadingIff | packages/relay/src/pairing.ts:28-38 | and those are the only ones: with one-line nonces, a challenge has one reading exactly when neither lower-cased address text holds a line break followed by the operator label |
| RelayText.MessageBindsTail | packages/relay/src/pairing.ts:28-38 | whatever the addresses, equal challenge texts have the same chain, nonce and times |
| RelayInvariants.ChainsAreSeparate | packages/relay/src/types.ts:6-16 | one address on two chains is two vaults |
| Pairing.PairingIsSound | packages/relay/src/store.ts:60-118 | under every interleaving, an operator is recorded for a vault only if some attempt answering a challenge issued for exactly that vault and operator, pending and unexpired at its start, passed verification |
| Pairing.ConsumedForGood | packages/relay/src/store.ts:97-104 | with fresh nonces, after a confirmation of a challenge finishes no later one of it gets past its first checks, whatever happens in between |
| SingleUse.UnderWayIff | packages/relay/src/store.ts:97-104 | after a first success, an attempt on the challenge is under way exactly when it was then, is another, and has been neither finished nor replaced since |
| SingleUse.UsedAgainIff | packages/relay/src/store.ts:97-118 | a later step succeeds on it again exactly when it finishes such an attempt and the signature verifies |
| SingleUse.UsedOnceIffNoRival | packages/relay/src/store.ts:97-118 | a challenge can be used again exactly when another attempt that will verify is under way at its first success |
| Pairing.PendingIffUndisturbed | packages/relay/src/store.ts:60-104 | a challenge stays pending exactly until a newer one, a completed pairing of that vault, or a late answer |
| Pairing.AnswerableIff | packages/relay/src/store.ts:87-95 | an operator can begin answering exactly while the challenge is unexpired and undisturbed |
| Pairing.FinishConsumes | packages/relay/src/store.ts:104 | a verified finish removes its message from every pending challenge |
| RelayInvariants.RecordsAlwaysSound | packages/relay/src/store.ts:111-173 | every record is paired to a lower-case operator, filed under its own token, online only once heard from, with stage, time and intent set together |
| RelayInvariants.StepTouchesOneVault | packages/relay/src/store.ts:211-226 | a step on one vault changes no other vault's record or challenge |
| RelayInvariants.SweepFlipsExactlyOverdue | packages/relay/src/store.ts:181-195 | a sweep takes exactly the paired, online vaults last heard from more than the window ago offline and changes nothing else |
| RelayInvariants.OnlineAfterSweepIff | packages/relay/src/store.ts:181-195 | after a sweep a vault is online exactly when it was before and has been heard from within the window |
| Liveness.OnlineIff | packages/relay/src/store.ts:121-195 | over every run a vault is online exactly when it has been heard from and every sweep since its last beat came within its window of that beat |
| Liveness.HeardAt | packages/relay/src/store.ts:121-173 | its last heartbeat is the time of its last accepted heartbeat or stage event |
| Liveness.UnpairedIsUnknown | packages/relay/src/types.ts:43-56 | a vault never paired reads as nobody's, offline, never heard from and at no stage |
| Liveness.PairingSays | packages/relay/src/store.ts:104-118 | pairing names the operator and leaves liveness, stage and intelligence as they were |
| Liveness.HeartbeatSays | packages/relay/src/store.ts:121-131 | a heartbeat of the paired operator brings the vault online at its own time with the intelligence it names or none, and any other changes nothing |
| Liveness.StageSays | packages/relay/src/store.ts:149-173 | one of the four stages sent for a paired vault is stored with its intent and time and brings it online, and anything else changes nothing |
| Liveness.StageRefusals | packages/relay/src/store.ts:149-160 | the stage is looked at before the pairing |
| RelayInvariants.SweepIdempotent | packages/relay/src/store.ts:181-195 | sweeping again at the same moment does nothing |
| RelayInvariants.OnlineMeansRecent | packages/relay/src/store.ts:181-195 | after a sweep every online vault was heard from within the window |
| RelayStore.Store.IssueChallenge | packages/relay/src/store.ts:60-77 | the new state is the specified step; any older challenge of the vault is replaced |
| RelayStore.Store.BeginConfirm | packages/relay/src/store.ts:81-95 | everything before the suspension: proceeds exactly when the specification does, and drops an expired challenge |
| RelayStore.Store.FinishConfirm | packages/relay/src/store.ts:97-118 | everything after it: records the operator and consumes whatever is pending, only when verified |
| RelayStore.Store.RecordHeartbeat | packages/relay/src/store.ts:121-131 | accepted exactly from the paired operator; the snapshot goes to that vault's streams only |
| RelayStore.Store.RecordStageEvent | packages/relay/src/store.ts:149-173 | unknown stage, then unpaired vault, then accepted, in that order; the snapshot goes to that vault's streams only |
| RelayStore.Store.SweepHeartbeats | packages/relay/src/store.ts:181-195 | the loop takes offline exactly the vaults last heard from more than the window ago, and sends each of their streams one offline snapshot and no other stream anything |
| RelayStore.Store.Update | packages/relay/src/store.ts:211-216 | sets one record and pushes it |
| RelayStore.Store.Emit | packages/relay/src/store.ts:223-225 | each listener under the token is sent the snapshot once, nobody else anything |
| RelayStore.Store.Subscribe | packages/relay/src/store.ts:198-204 | adds one listener under the vault's token |
| RelayStore.Store.OpenStream | packages/relay/src/server.ts:334-335 | snapshot first, then subscribe: the new stream is current from the start |
| RelayStore.Store.CloseStream | packages/relay/src/server.ts:337 | a closed stream is removed from its own vault's listeners only |
| RelayStore.PushKeepsCurrent | packages/relay/src/store.ts:211-226 | changing a record and pushing it to that vault's listeners alone keeps every stream's last snapshot equal to the store |
| Mulberry32.Generator.Next | packages/loadgen/src/rng.ts:11-22 | each draw is the specified function of seed and position and lies in [0, 1) |
| Mulberry32.SameStateIff | packages/loadgen/src/rng.ts:14 | two draws meet the same state exactly when a whole number of 2^32 periods separates them |
| Mulberry32.EveryStateReached | packages/loadgen/src/rng.ts:14 | from any seed, the first 2^32 states are all the 32-bit values |
| Mulberry32.OutputInUnit | packages/loadgen/src/rng.ts:15-18 | every output lies in [0, 1) |
| Mulberry32.FirstDraws | packages/loadgen/src/rng.ts:11-22 | what the mixing comes to on the first two draws from seed 0 |
| Mulberry32.ZeroIsDrawn | packages/loadgen/src/rng.ts:35-39 | a zero draw comes up in every period, so the redraw loops are needed |
| Mulberry32.NonZeroRecurs | packages/loadgen/src/rng.ts:35-39 | and a non-zero draw always comes again, so they end |
| Rng.SeededIsStream | packages/loadgen/src/rng.ts:11-22 | the seeded generator is a source in the sense every sampler assumes |
| Rng.Source.NextNonZero | packages/loadgen/src/rng.ts:36-39 | terminates with the first non-zero draw |
| Rng.Source.IntBetween | packages/loadgen/src/rng.ts:25-27 | one draw spread over the range |
| Rng.SpreadWithinBoundsIff | packages/loadgen/src/rng.ts:25-27 | the integer sampler keeps within its bounds for every draw exactly when they are a whole number apart |
| Rng.SpreadIsUniform | packages/loadgen/src/rng.ts:25-27 | between whole bounds each integer is drawn on a stretch of the same width |
| Rng.Source.Between | packages/loadgen/src/rng.ts:30-32 | one draw scaled into the range, never its upper end |
| Rng.Source.WeightedIndex | packages/loadgen/src/rng.ts:49-58 | returns the index whose cumulative stretch the draw falls in, so never one of zero weight; 0 without a draw when there is no weight |
| Rng.OwnerIsUnique | packages/loadgen/src/rng.ts:53-56 | stretches do not overlap, so that index is the only answer |
| Rng.SelectedOnItsShare | packages/loadgen/src/rng.ts:49-58 | an index is selected on a stretch of draws as long as its share of the positive weight |
| StableSort.SortOrders | packages/loadgen/src/phases.ts:176 | sorting orders by the key |
| StableSort.SortPermutes | packages/loadgen/src/phases.ts:176 | sorting loses and invents nothing |
| StableSort.SortStable | packages/loadgen/src/phases.ts:176 | ties keep their original order |
| Phases.SampleTrade | packages/loadgen/src/phases.ts:32-44 | a trade is named exactly when the share is positive, the destination has a market and the draw is below the share; market and unsatisfiability come from the next two draws |
| Phases.SampleLogNormal | packages/loadgen/src/rng.ts:35-46 | the first two positive draws from here on, through the exponential of the scaled deviate |
| Phases.SampleAmount | packages/loadgen/src/phases.ts:74-78 | the clamped, rounded cents of that value, reading exactly the draws up to the second positive one |
| Phases.SampleLargeAmount | packages/loadgen/src/phases.ts:131 | whole USDC from one draw over the range |
| Phases.SampleTradeAmount | packages/loadgen/src/phases.ts:80-82 | cents from 1 to 8 USDC, from one draw |
| Phases.SampleFee | packages/loadgen/src/phases.ts:84-87 | the ceiling of the bucket the draw picks, never a weightless one beside a weighted one; no draw is read when there is no weight |
| Phases.SampleDirection | packages/loadgen/src/phases.ts:89-95 | which way the draw and the Ethereum share send the intent |
| Phases.SalvoMoment | packages/loadgen/src/phases.ts:123 | the first intent at once and without a draw, the k-th k times a draw from 3 to 15 seconds later |
| Phases.FireLarge | packages/loadgen/src/phases.ts:125-138 | exactly the configured number of large intents, each the specified one for the draws from where the last left off |
| Phases.FireCluster | packages/loadgen/src/phases.ts:141-157 | the loop up to a size that need not be whole makes exactly the least count reaching it of clustered intents, each the specified one for its draws |
| Phases.FireRegular | packages/loadgen/src/phases.ts:160-173 | exactly the configured number of regular intents, each the specified one for the draws from where the last left off |
| Phases.Fire | packages/loadgen/src/phases.ts:118-173 | one arrival is a function of the draws from here on, reads no others, and is as its phase allows |
| Planner.ArrivalAtFits | packages/loadgen/src/phases.ts:118-173 | whatever is drawn, an arrival is a salvo of the configured size or a cluster within its bounds, sharing direction and deadline, spaced as its kind is, of a kind its probabilities allow |
| Planner.IntentAtFits | packages/loadgen/src/phases.ts:125-173 | whatever is drawn, each intent's direction, deadline, fee, amount, trade and moment are ones its phase and configuration allow |
| Phases.PlanPhase | packages/loadgen/src/phases.ts:103-178 | terminates; the plan and the number of draws read are a function of the phase, its start and the draws alone: equal generator states give equal plans |
| Planner.PhaseByGaps | packages/loadgen/src/phases.ts:103-117 | the second draw gives the rate; each arrival comes whole seconds after the one before it, one when the gap read for it is under a half and else the nearest, that gap being read where the arrival before it ended; and planning stops only because the next would reach the end |
| Planner.PlanHoldsArrivals | packages/loadgen/src/phases.ts:103-178 | a plan holds what its arrivals emitted, each as often, simultaneous ones in the order emitted |
| Planner.EmittedConcat | packages/loadgen/src/phases.ts:125-173 | what is emitted follows the order of the arrivals, and within one that of its intents |
| Planner.ArrivalsAtFit | packages/loadgen/src/phases.ts:113-117 | arrivals are at least a second apart, inside the phase, and each as the phase allows |
| Phases.PlanSchedule | packages/loadgen/src/phases.ts:181-197 | terminates; the schedule is a function of the weights, the start and the draws alone |
| Planner.ScheduleFollowsDraws | packages/loadgen/src/phases.ts:188-195 | every phase is the one its own draw picks by weight, starts where the one before it ended, and is planned from the draws after |
| Planner.ScheduleJoins | packages/loadgen/src/phases.ts:188-195 | a schedule's phases lie end to end from its start, all but the last begun and ended short of the horizon, which the last reaches |
| Planner.SchedulePicks | packages/loadgen/src/phases.ts:98-100 | each is planned as a phase with weight, or as the first when none has |
| Planner.PlannedInWindow | packages/loadgen/src/phases.ts:103-178 | a planned phase is ordered, starts at least a second after the phase and runs less than a minute past its end |
| Planner.AtMostOneArrivalASecond | packages/loadgen/src/phases.ts:113-117 | there are fewer arrivals than seconds in the phase |
| Planner.PlannedLasts | packages/loadgen/src/phases.ts:104-106 | a planned phase lasts at least its shortest duration and less than a second over its longest |
| Traffic.EndsDifferIff | packages/loadgen/src/phases.ts:89-95 | source and destination differ exactly when the two configured chains do, which loading does not check |
| Traffic.AmountIsClampedCents | packages/loadgen/src/phases.ts:74-78 | whatever the draw, the amount is whole cents between the rounded bounds |
| Traffic.AmountsBounded | packages/loadgen/src/phases.ts:74-82 | large amounts are whole USDC, others whole cents, between their rounded bounds |
| Decisions.DirectionDecided | packages/loadgen/src/phases.ts:89-95 | with Ethereum among two different chains, exactly the draws below its share start there |
| Decisions.ArrivalDecided | packages/loadgen/src/phases.ts:118-173 | large exactly below its probability, otherwise a cluster exactly below its own, with the least count reaching the drawn size; direction and deadline are those of the first two draws |
| Decisions.TradeDecided | packages/loadgen/src/phases.ts:32-44 | when a trade is named, which market, when it asks for too much, and how many draws that takes |
| Decisions.MarketDecided | packages/loadgen/src/phases.ts:38 | each market is chosen on a stretch of draws of the same width |
| Decisions.ClusterMomentDecided | packages/loadgen/src/phases.ts:146 | a cluster's intents fall on each of thirty-one whole seconds on equal stretches of draws |
| Decisions.SalvoMomentDecided | packages/loadgen/src/phases.ts:123 | the first intent of another arrival comes at once, the k-th k times a whole number of seconds later, three to fifteen alike |
| Decisions.LargeDecided | packages/loadgen/src/phases.ts:131 | a large amount is the whole number of USDC nearest to where its draw falls in the range |
| Decisions.TradeAmountDecided | packages/loadgen/src/phases.ts:80-82 | a trade's amount is the whole number of cents nearest to where its draw falls from 1 to 8 USDC |
| Decisions.PlainAmountDecided | packages/loadgen/src/phases.ts:74-78 | a plain amount is the whole number of cents nearest to the exponential of its normal draw, held between its bounds |
| Decisions.FeeDecided | packages/loadgen/src/phases.ts:84-87 | a fee is that of the bucket whose stretch of the weight the draw falls in, or the first when there is no weight |
| Decisions.LargeReads | packages/loadgen/src/phases.ts:125-138 | a large intent reads its moment, amount and fee one after the other, skipping and repeating no draw |
| Decisions.PlainReads | packages/loadgen/src/phases.ts:141-173 | any other reads its trade, moment, amount and fee, each from where the one before it ended |
| EmptyTransfers.NeverPlansEmptyIff | packages/loadgen/src/phases.ts:103-178 | no draws make a phase plan an empty transfer exactly when nothing can arrive in it, or large amounts start at half a USDC and plain ones at half a cent, each where the phase can plan that kind at all |
| EmptyTransfers.LargePlanned | packages/loadgen/src/phases.ts:125-138 | where large intents can arrive, some draws plan one of the least large amount |
| EmptyTransfers.PlainPlanned | packages/loadgen/src/phases.ts:141-173 | where plain intents can arrive, some draws plan one that is empty exactly when the least plain amount is under half a cent |
| EmptyTransfers.NothingArrives | packages/loadgen/src/phases.ts:108-117 | a phase without a rate, or of a single second, plans nothing |
| Traffic.TilesJoin | packages/loadgen/src/phases.ts:188-195 | each phase starts where the one before ended, and all but the last end short of the horizon |
| Traffic.EachMomentInOnePhase | packages/loadgen/src/phases.ts:188-195 | every moment of a schedule belongs to exactly one phase |
| Traffic.PhasesBounded | packages/loadgen/src/phases.ts:188-195 | no more phases than seconds to fill, rounded up |
| Controller.ConstrainedFraction | packages/loadgen/src/controller.ts:18-31 | the loop computes the specified fraction of the samples in the window, in order: none with fewer than two or no time between, 1 when every sample but the last is constrained, 0 when none but the last is |
| Controller.RecentExactly | packages/loadgen/src/controller.ts:20 | those samples are exactly the ones in the window, each as often as it was taken, in order of time |
| Controller.LastSaysNothing | packages/loadgen/src/controller.ts:25-29 | what the last sample says changes nothing |
| Controller.EachSaysItsStretch | packages/loadgen/src/controller.ts:25-29 | what any other says is worth exactly the time to the next one |
| Controller.HeldAddsUp | packages/loadgen/src/controller.ts:24-29 | the time held adds up over a cut at any sample |
| Controller.FractionExtremes | packages/loadgen/src/controller.ts:30 | all of the time when every sample but the last says so, none when none does |
| Controller.HeldSplitsSpan | packages/loadgen/src/controller.ts:22-30 | constrained and unconstrained time make up last sample less first, neither negative |
| Controller.FractionInUnit | packages/loadgen/src/controller.ts:30 | the fraction is in [0, 1], 1 exactly when no unconstrained time passed and 0 exactly when no constrained time did |
| Controller.SpanWithinWindow | packages/loadgen/src/controller.ts:19-20 | the observed span never exceeds the window |
| Controller.InBoundsIff | packages/loadgen/src/controller.ts:37-41 | over every run the multiplier is within bounds exactly when it began there or something was observed |
| Controller.NudgesTowardTarget | packages/loadgen/src/controller.ts:39 | too little scarcity never lowers it, too much never raises it, and it moves whenever it has room |
| Controller.NudgeIsProportional | packages/loadgen/src/controller.ts:37-41 | an observation moves the multiplier by the gain for each unit off target, as far as the bounds let it; none leaves it |
| Controller.TiltExact | packages/loadgen/src/controller.ts:43-47 | bursts, whales and clusters are multiplied by the multiplier, background and tight-fee phases divided by it |
| Controller.PositiveOnEveryRunIff | packages/loadgen/src/controller.ts:37-41 | it stays positive on every run exactly when the upper bound is positive and either the floor is, the gain is zero, or the target is all the time |
| Controller.SupportKept | packages/loadgen/src/controller.ts:45-47 | a positive multiplier leaves exactly the positive weights positive |
| Controller.HeavyShareRises | packages/loadgen/src/controller.ts:33-47 | raising the multiplier never lowers the chance of a heavy phase, and raises it whenever both classes have weight |
| Controller.ChoosePhase | packages/loadgen/src/run.ts:79-82 | one turn of the loop: the next multiplier is the specified one, and the chosen phase is the owner of the draw among the tilted weights; at a zero multiplier it is the last phase when some light one is not weighted below zero, else the first |
| ExtendedReals.WeightedIndex | packages/loadgen/src/rng.ts:49-58 | among weights a division by zero may have made infinite or not a number: one that swamps the sum sends every draw to the last index, and otherwise the draw's owner is chosen |
| Controller.ZeroTilt | packages/loadgen/src/controller.ts:45-47 | at a zero multiplier the weights swamp the sum exactly when some light phase is not weighted below zero, and otherwise weigh nothing |
| PendingQuery.PendingIntents | packages/agent/src/observation/graph-observation-provider.ts:183-201 | the batched query offers, in order and with repeats, exactly the candidates the single-intent check lets through |
| PendingQuery.FilledIntentIds | packages/agent/src/observation/graph-observation-provider.ts:208-227 | the batch's filled set is exactly the asked ids the single check calls filled |
| PendingQuery.KeepUnfilled | packages/agent/src/observation/graph-observation-provider.ts:200 | filtering by the set is filtering by the single check |
| PendingQuery.HasFillIff | packages/agent/src/observation/graph-observation-provider.ts:359-369 | a chain answers yes exactly when one of its vaults filled or delivered the intent |
| PendingQuery.NeverOffersFilled | packages/agent/src/observation/graph-observation-provider.ts:183-201 | an intent filled by any vault on any chain read is never offered, in whatever case its id is written |
| PendingQuery.OfferedWhenItFits | packages/agent/src/observation/graph-observation-provider.ts:183-201 | an unfilled intent with fewer than a page ahead of it on its chain is among everything offered |
| PendingQuery.OfferedIff | packages/agent/src/observation/graph-observation-provider.ts:183-201 | a waiting intent is offered from its page exactly when it is unfilled and fewer than a page wait ahead of it |
| PendingQuery.OffersByPage | packages/agent/src/observation/graph-observation-provider.ts:197-200 | what is offered is what each page contributes, in order |
| Pages.PageCompleteIff | packages/agent/src/observation/graph-observation-provider.ts:71-84 | a page holds every waiting intent exactly when they fit in it |
| Pages.PageMembership | packages/agent/src/observation/graph-observation-provider.ts:71-84 | a waiting intent is on the page exactly when fewer than a page wait ahead of it, oldest first and by id within a second |
| Pages.PageIsDetermined | packages/agent/src/observation/graph-observation-provider.ts:71-84 | the query has only one right reply |
| Pages.LexLessIff | packages/agent/src/observation/graph-observation-provider.ts:71-84 | ids are ordered by the first byte in which they differ, a proper start before the longer |
| Pages.PageExists | packages/agent/src/observation/graph-observation-provider.ts:71-84 | and for every page size it has one |
| Starvation.StayWaiting | subgraph/src/vault.ts:56-62 | intents a chain does not fill itself wait there for ever, whatever else happens on it |
| Starvation.StaleIntentsHideTheRest | packages/agent/src/observation/graph-observation-provider.ts:183-201 | once a page of the oldest waiting intents is filled on the other chain, the source's page offers nothing, however both chains run on, until the source itself fills one of them |
| Starvation.HiddenForGood | packages/agent/src/observation/graph-observation-provider.ts:183-201 | and it is enough that they are first in line at one moment after they were announced: from then on the page offers nothing |
| Starvation.OneStaleIntentHidesAnother | packages/agent/src/observation/graph-observation-provider.ts:183-201 | it happens: both histories are admissible, and one filled intent hides another that waits and is filled nowhere |
| Units.FormatThenParse | scripts/bot-balances.ts:180-198 | printing then parsing a non-negative amount rounds it down to what the display can show |
| Units.FullDisplayIsExact | scripts/bot-balances.ts:180-198 | with all places shown nothing is lost |
| Units.ParsesBackIffNonNegative | scripts/bot-balances.ts:180-198 | the parser takes back a printed amount exactly when it is not negative |
| Units.ParsesIff | scripts/bot-balances.ts:180-186 | an amount of digits with at most that many decimals is taken at its value, more are refused as too many, anything else as no amount |
| Units.TrimIsTrimmed | scripts/bot-balances.ts:181 | white space at both ends is dropped, all of it and nothing else |
| Units.ParseThenFormat | scripts/bot-balances.ts:180-198 | parsing tidy text then printing gives the text back |
| Usdc.DisplayedToTheCent | packages/mcp/src/format.ts:15-26 | a minus sign exactly when negative, then a display that with commas removed reads back as the magnitude truncated to cents |
| Usdc.GroupedShape | packages/mcp/src/format.ts:22 | counting from the right, every fourth character is a comma and only those, and removing them restores the digits |
| VaultFlowAbi.TrimmingKeepsValue | substreams/erc4626-vault-flows/src/abi.rs:90-99 | trimming a word keeps its value |
| VaultFlowAbi.TrimmingIsMinimal | substreams/erc4626-vault-flows/src/abi.rs:90-99 | the trimmed form is the shortest non-empty byte string of that value |
| VaultFlowAbi.TrimmingInjective | substreams/erc4626-vault-flows/src/abi.rs:90-99 | no two words trim alike |
| VaultFlowAbi.TopicIsPaddedAddress | substreams/erc4626-vault-flows/src/abi.rs:80-85 | a topic decodes to an address exactly when it is that address padded |
| VaultFlowAbi.DepositRoundTrip | substreams/erc4626-vault-flows/src/abi.rs:42-57 | decoding an encoded deposit gives back parties and amounts |
| VaultFlowAbi.WithdrawRoundTrip | substreams/erc4626-vault-flows/src/abi.rs:59-75 | decoding an encoded withdrawal gives back parties and amounts |
| VaultFlowAbi.OnlyDepositsDecode | substreams/erc4626-vault-flows/src/abi.rs:42-57 | whatever decodes as a deposit is some deposit's encoding |
| VaultFlowAbi.OnlyWithdrawsDecode | substreams/erc4626-vault-flows/src/abi.rs:59-75 | whatever decodes as a withdrawal is some withdrawal's encoding |
| VaultFlowAbi.NeverBoth | substreams/erc4626-vault-flows/src/abi.rs:42-75 | no log matches both signatures |
| VaultFlows.ExtractVaultFlows | substreams/erc4626-vault-flows/src/lib.rs:29-76 | one pass yields exactly the rows of the well-formed matching logs, in order |
| VaultFlows.EachInExactlyOneList | substreams/erc4626-vault-flows/src/lib.rs:33-70 | each such log is in exactly one list, no other log in either |
| VaultFlows.BuildEntityChanges | substreams/erc4626-vault-flows/src/graph_out.rs:35-76 | deposits then withdraws, one change each, in order |
| VaultFlows.DepositEndToEnd | substreams/erc4626-vault-flows/src/graph_out.rs:38-54 | a logged deposit becomes a change naming the same vault, parties and place, whose amounts denote the logged words |
| VaultFlows.WithdrawEndToEnd | substreams/erc4626-vault-flows/src/graph_out.rs:56-73 | the same for a withdrawal |
| VaultFlows.FieldDenotesWord | substreams/erc4626-vault-flows/src/graph_out.rs:112-122 | the decimal text emitted denotes the original word |
| Hex.TextDigits | substreams/erc4626-vault-flows/src/lib.rs:30-36 | each byte is written as its two digits, the high one first |
| VaultFlows.RowIdInjective | substreams/erc4626-vault-flows/src/graph_out.rs:41 | rows of different log positions get different ids |

## Left out

- Pairing.ConsumedForGood: assumes distinct nonces, which the source draws at random, each on one line, as its hexadecimal is; nothing is asked of the addresses.
- ReserveFloor.LimitsAlwaysHold: takes as given that each fill and withdrawal passed the vault's own checks; on-chain changes of its limits, fee withdrawals and stray transfers have no handler and are not seen.
- EmptyTransfers.NeverPlansEmptyIff: draws are any reals in [0, 1); a 32-bit generator cannot reach the furthest tail of the deviate.
- Rng.Source.WeightedIndex: exact reals; the source's fallback to the last index, reachable only by rounding, is shown unreachable here.
- Planner.PlannedInWindow: floating-point rounding of times and ranges is not modelled.
- Indexer.EntityStore.Handle: the graph host's own checks (required fields of a fill saved before its terms, merging a re-created entity with stored fields) are not modelled; a delivery event stores a fill whose terms are absent.
- RelayStore.Store.Emit: the order in which listeners of one vault are called, and listeners that throw.
- PendingQuery.PendingIntents: `toIntent` field mapping; candidates carry the stored intent.
- FeesWithdrawn and the other vault events without a handler: claims are about handled events, so indexed balances are not claimed to equal on-chain balances after fee withdrawals.
- 32-bit conversion of utilisation: proved in range, so the conversion is the identity; log indices are taken below 2^31.
- Lower-casing and trimming are ASCII only.
- Keccak, EIP-191 recovery and EIP-712: hashes are opaque bytes and recovery an arbitrary function.
- Null price columns of an observed row, which no stored vault has.
- `worst`, the top-up planner and env-file reading of the balance monitor; `formatBps`, `formatDuration` and `shortAddress`.
- The Solidity contracts, the settlement worker, `vaultState` and `settlementHealth` of the agent, intelligence endpoints, payments, the gateway, the MCP transport, the web app and all process wiring.
