/**
 * The event handlers in their own form: they load an entity, change its fields and
 * save it back to the store. Each is proved to do what `Handlers.Apply` says, so
 * every theorem about `Run` is a theorem about this class.
 */
module Indexer {
  import opened Options
  import opened ByteStrings
  import opened FeePolicy
  import opened Entities
  import opened Handlers

  /** A handler either completes with the specified store, or throws and leaves no trace. */
  predicate Reflects(before: Store, after: Store, ok: bool, result: Indexed) {
    match result
    case Ok(t) => ok && after == t
    case UnknownVault(_) => !ok && after == before
  }

  class EntityStore {
    var protocol: Option<ProtocolState>
    var watched: set<Bytes>
    var vaults: map<Bytes, Vault>
    var fills: map<Bytes, Fill>
    var intents: map<Bytes, Intent>
    var settlements: map<Bytes, Settlement>
    var snapshots: map<Bytes, FeeSnapshot>

    ghost function State(): Store
      reads this
    {
      Store(protocol, watched, vaults, fills, intents, settlements, snapshots)
    }

    constructor ()
      ensures State() == EMPTY_STORE
    {
      protocol, watched := None, {};
      vaults, fills, intents, settlements, snapshots := map[], map[], map[], map[], map[];
    }

    // ----- loading and saving ------------------------------------------------

    method LoadProtocol(at: EventStamp) returns (state: ProtocolState)
      ensures state == ProtocolAt(protocol, at)
    {
      if protocol == None {
        state := FRESH_PROTOCOL;
      } else {
        state := protocol.value;
      }
      state := state.(updatedAtBlock := at.blockNumber);
      state := state.(updatedAtTimestamp := at.timestamp);
    }

    method LoadVault(at: EventStamp, address: Bytes) returns (found: Option<Vault>)
      ensures found.None? <==> address !in vaults
      ensures found.Some? ==>
                found.value == vaults[address].(updatedAtBlock := at.blockNumber, updatedAtTimestamp := at.timestamp)
    {
      if address !in vaults {
        return None;
      }
      var vault := vaults[address];
      vault := vault.(updatedAtBlock := at.blockNumber);
      vault := vault.(updatedAtTimestamp := at.timestamp);
      found := Some(vault);
    }

    /** Recompute the live tier and record a snapshot. */
    method RefreshFeeTier(vault: Vault, at: EventStamp) returns (refreshed: Vault)
      modifies this`snapshots
      ensures refreshed == Refreshed(vault)
      ensures Validate(vault.policy) == Accepted ==> PostsTier(vault.policy, refreshed.utilisationBps, refreshed.currentFeeBps)
      ensures 0 <= vault.outstandingExposure ==>
                IsUtilisation(vault.liquidBalance, vault.accruedProtocolFees, vault.outstandingExposure, refreshed.utilisationBps)
      ensures snapshots == old(snapshots)[EventId(at.txHash, at.logIndex) := SnapshotOf(refreshed, at)]
    {
      hide FeeBpsAt, Utilisation, IsUtilisation, PostsTier;
      var utilisation := UtilisationOf(vault);
      if Validate(vault.policy) == Accepted {
        FeeIsGreatestReached(vault.policy, utilisation, FeeBpsAt(vault.policy, utilisation));
      }
      if 0 <= vault.outstandingExposure {
        UtilisationIsShare(vault.liquidBalance, vault.accruedProtocolFees, vault.outstandingExposure, utilisation);
      }
      refreshed := vault.(utilisationBps := utilisation);
      refreshed := refreshed.(currentFeeBps := FeeBpsAt(vault.policy, utilisation));
      var snapshot := FeeSnapshot(vault.id, utilisation, refreshed.currentFeeBps, vault.liquidBalance,
                                  vault.outstandingExposure, at.blockNumber, at.timestamp);
      snapshots := snapshots[EventId(at.txHash, at.logIndex) := snapshot];
    }

    method LoadFill(intentId: Bytes, vault: Bytes) returns (fill: Fill)
      ensures fill == FillAt(fills, intentId, vault)
    {
      var id := FillId(intentId, vault);
      if id in fills {
        fill := fills[id];
      } else {
        fill := Fill(intentId, vault, None, USDC, None, None);
      }
    }

    // ----- the factory and the router ------------------------------------------

    method HandleVaultCreated(at: EventStamp, factory: Bytes, c: VaultCreation)
      modifies this
      ensures State() == ApplyVaultCreated(old(State()), at, factory, c)
    {
      var vault := Vault(c.vault, 0, factory, c.owner, c.name, FACTORY, at.blockNumber, at.timestamp, c.policy,
                         c.reserveFloorBps, c.maxFillBps, c.maxExposureBps,
                         0, 0, 0, 0, 0, 0, 0, 0, 0, false, at.blockNumber, at.timestamp);
      vault := RefreshFeeTier(vault, at);
      vaults := vaults[c.vault := vault];

      var state := LoadProtocol(at);
      state := state.(vaultCount := state.vaultCount + 1);
      protocol := Some(state);

      watched := watched + {c.vault};
    }

    method HandleIntentCreated(at: EventStamp, terms: IntentTerms)
      modifies this
      ensures State() == ApplyIntentCreated(old(State()), at, terms)
    {
      var intent := Intent(terms, terms.tokenOut != ZERO_ADDRESS, FAST_PENDING, CANONICAL_PENDING,
                           at.blockNumber, at.timestamp, at.txHash, None, None);
      intents := intents[terms.intentId := intent];

      var state := LoadProtocol(at);
      state := state.(chainId := terms.sourceChainId);
      state := state.(intentsCreated := state.intentsCreated + 1);
      if intent.isTradeIntent {
        state := state.(tradeIntentsCreated := state.tradeIntentsCreated + 1);
      }
      protocol := Some(state);
    }

    // ----- a vault's own events ------------------------------------------------

    method HandleVaultInitialized(at: EventStamp, address: Bytes, asset: Bytes) returns (ok: bool)
      modifies this
      ensures Reflects(old(State()), State(), ok, ApplyVaultLog(old(State()), at, address, VaultInitialized(asset)))
    {
      var loaded := LoadVault(at, address);
      if loaded.None? {
        return false;
      }
      var vault := loaded.value.(asset := asset);
      vaults := vaults[address := vault];
      ok := true;
    }

    method SaveFill(at: EventStamp, address: Bytes, log: VaultEvent)
      requires log.FastFilled?
      modifies this`fills
      ensures fills == FillsAfter(old(fills), at, address, log)
    {
      var fill := LoadFill(log.intentId, address);
      fill := fill.(intentId := log.intentId, vault := address);
      fill := fill.(terms := Some(TermsOf(at, log)));
      fills := fills[FillId(log.intentId, address) := fill];
    }

    /** Only if this chain happens to hold the intent too. */
    method MarkIntentFilled(intentId: Bytes, fillId: Bytes)
      modifies this`intents
      ensures intents == MarkFilled(old(intents), intentId, fillId)
    {
      if intentId in intents {
        var intent := intents[intentId];
        intent := intent.(fastStatus := FAST_FILLED);
        intent := intent.(fill := Some(fillId));
        intents := intents[intentId := intent];
      }
    }

    method HandleFastFilled(at: EventStamp, address: Bytes, log: VaultEvent) returns (ok: bool)
      requires log.FastFilled?
      modifies this
      ensures Reflects(old(State()), State(), ok, ApplyVaultLog(old(State()), at, address, log))
    {
      hide Refreshed, SnapshotOf, EventId, FillId, FillsAfter, MarkFilled;
      var fillsBefore, intentsBefore := fills, intents;
      SaveFill(at, address, log);
      MarkIntentFilled(log.intentId, FillId(log.intentId, address));

      var loaded := LoadVault(at, address);
      if loaded.None? {
        // A throw: the host discards what this handler wrote.
        fills, intents := fillsBefore, intentsBefore;
        return false;
      }
      var vault := loaded.value;
      vault := vault.(outstandingExposure := vault.outstandingExposure + log.outputAmount);
      vault := vault.(liquidBalance := vault.liquidBalance - log.outputAmount);
      vault := vault.(fillCount := vault.fillCount + 1);
      vault := RefreshFeeTier(vault, at);
      vaults := vaults[address := vault];

      var state := LoadProtocol(at);
      state := state.(intentsFilled := state.intentsFilled + 1);
      state := state.(pendingSettlementValue := state.pendingSettlementValue + log.outputAmount);
      if state.oldestUnsettledTimestamp == 0 {
        state := state.(oldestUnsettledTimestamp := at.timestamp);
      }
      protocol := Some(state);
      ok := true;
    }

    method HandleDeliveredViaSwap(at: EventStamp, address: Bytes, intentId: Bytes, tokenOut: Bytes, amountOut: nat)
      modifies this
      ensures Reflects(old(State()), State(), true,
                       ApplyVaultLog(old(State()), at, address, DeliveredViaSwap(intentId, tokenOut, amountOut)))
    {
      var fill := LoadFill(intentId, address);
      fill := fill.(deliveredVia := SWAP);
      fill := fill.(tokenOut := Some(tokenOut));
      fill := fill.(amountOut := Some(amountOut));
      fills := fills[FillId(intentId, address) := fill];
    }

    method HandleSwapFellBack(at: EventStamp, address: Bytes, intentId: Bytes, tokenOut: Bytes, usdcDelivered: nat)
      modifies this
      ensures Reflects(old(State()), State(), true,
                       ApplyVaultLog(old(State()), at, address, SwapFellBack(intentId, tokenOut, usdcDelivered)))
    {
      var fill := LoadFill(intentId, address);
      fill := fill.(deliveredVia := SWAP_FALLBACK);
      fill := fill.(tokenOut := Some(tokenOut));
      fill := fill.(amountOut := Some(usdcDelivered));
      fills := fills[FillId(intentId, address) := fill];
    }

    method HandleDeposit(at: EventStamp, address: Bytes, assets: nat) returns (ok: bool)
      modifies this
      ensures Reflects(old(State()), State(), ok, ApplyVaultLog(old(State()), at, address, Deposit(assets)))
    {
      hide Refreshed, SnapshotOf, EventId;
      var loaded := LoadVault(at, address);
      if loaded.None? {
        return false;
      }
      var vault := loaded.value;
      vault := vault.(liquidBalance := vault.liquidBalance + assets);
      vault := vault.(totalDeposited := vault.totalDeposited + assets);
      vault := RefreshFeeTier(vault, at);
      vaults := vaults[address := vault];
      ok := true;
    }

    method HandleWithdraw(at: EventStamp, address: Bytes, assets: nat) returns (ok: bool)
      modifies this
      ensures Reflects(old(State()), State(), ok, ApplyVaultLog(old(State()), at, address, Withdraw(assets)))
    {
      hide Refreshed, SnapshotOf, EventId;
      var loaded := LoadVault(at, address);
      if loaded.None? {
        return false;
      }
      var vault := loaded.value;
      vault := vault.(liquidBalance := vault.liquidBalance - assets);
      vault := vault.(totalWithdrawn := vault.totalWithdrawn + assets);
      vault := RefreshFeeTier(vault, at);
      vaults := vaults[address := vault];
      ok := true;
    }

    method HandleReimbursement(at: EventStamp, address: Bytes, intentId: Bytes, received: nat, cleared: nat)
      returns (ok: bool)
      modifies this
      ensures Reflects(old(State()), State(), ok,
                       ApplyVaultLog(old(State()), at, address, ReimbursementRecorded(intentId, received, cleared)))
    {
      hide Refreshed, SnapshotOf, EventId;
      var loaded := LoadVault(at, address);
      if loaded.None? {
        return false;
      }
      var vault := loaded.value;
      vault := vault.(liquidBalance := vault.liquidBalance + received);
      vault := vault.(outstandingExposure := vault.outstandingExposure - cleared);
      vault := RefreshFeeTier(vault, at);
      vaults := vaults[address := vault];

      var state := LoadProtocol(at);
      state := state.(pendingSettlementValue := state.pendingSettlementValue - cleared);
      if state.pendingSettlementValue <= 0 {
        state := state.(oldestUnsettledTimestamp := 0);
      }
      protocol := Some(state);
      ok := true;
    }

    method HandleFeesAccrued(at: EventStamp, address: Bytes, toProtocol: nat, toLps: nat) returns (ok: bool)
      modifies this
      ensures Reflects(old(State()), State(), ok,
                       ApplyVaultLog(old(State()), at, address, FeesAccrued(toProtocol, toLps)))
    {
      hide Refreshed, SnapshotOf, EventId;
      var loaded := LoadVault(at, address);
      if loaded.None? {
        return false;
      }
      var vault := loaded.value;
      vault := vault.(accruedProtocolFees := vault.accruedProtocolFees + toProtocol);
      vault := vault.(totalFeesEarned := vault.totalFeesEarned + toProtocol + toLps);
      vault := RefreshFeeTier(vault, at);
      vaults := vaults[address := vault];

      var state := LoadProtocol(at);
      state := state.(totalFeesEarned := state.totalFeesEarned + toProtocol + toLps);
      protocol := Some(state);
      ok := true;
    }

    method HandlePausedSet(at: EventStamp, address: Bytes, paused: bool) returns (ok: bool)
      modifies this
      ensures Reflects(old(State()), State(), ok, ApplyVaultLog(old(State()), at, address, PausedSet(paused)))
    {
      var loaded := LoadVault(at, address);
      if loaded.None? {
        return false;
      }
      var vault := loaded.value.(paused := paused);
      vaults := vaults[address := vault];
      ok := true;
    }

    // ----- the settlement receiver ---------------------------------------------

    /** Shared by the three outcome handlers; parking for a vault is completed by `HandleHeldForVault`. */
    method Record(at: EventStamp, intentId: Bytes, outcome: Outcome, amount: nat)
      modifies this
      ensures intentId in settlements
      ensures State() ==
              var base := if intentId in old(settlements) then old(settlements)[intentId] else NewSettlement(intentId);
              var held := if outcome == HELD_FOR_VAULT then base.heldForVault else None;
              var p := ProtocolAt(old(protocol), at);
              old(State()).(
                settlements := old(settlements)[intentId :=
                  base.(outcome := outcome, amount := amount, heldForVault := held,
                        blockNumber := at.blockNumber, timestamp := at.timestamp, txHash := at.txHash)],
                intents := MarkSettled(old(intents), intentId),
                protocol :=
                  if intentId in old(settlements) then old(protocol)
                  else Some(p.(intentsSettled := p.intentsSettled + 1,
                               intentsFallenBack := p.intentsFallenBack + if outcome == RECIPIENT_FALLBACK then 1 else 0)))
    {
      var firstRecord := intentId !in settlements;
      var settlement;
      if firstRecord {
        settlement := NewSettlement(intentId);
      } else {
        settlement := settlements[intentId];
      }
      settlement := settlement.(outcome := outcome, amount := amount);
      settlement := settlement.(blockNumber := at.blockNumber, timestamp := at.timestamp, txHash := at.txHash);
      if outcome != HELD_FOR_VAULT {
        settlement := settlement.(heldForVault := None);
      }
      settlements := settlements[intentId := settlement];

      if intentId in intents {
        var intent := intents[intentId];
        intent := intent.(canonicalStatus := SETTLED);
        intent := intent.(settlement := Some(intentId));
        intents := intents[intentId := intent];
      }

      if firstRecord {
        var state := LoadProtocol(at);
        state := state.(intentsSettled := state.intentsSettled + 1);
        if outcome == RECIPIENT_FALLBACK {
          state := state.(intentsFallenBack := state.intentsFallenBack + 1);
        }
        protocol := Some(state);
      }
    }

    method HandleLpReimbursed(at: EventStamp, intentId: Bytes, vault: Bytes, amount: nat)
      modifies this
      ensures State() == ApplySettlementLog(old(State()), at, LpReimbursed(intentId, vault, amount))
    {
      Record(at, intentId, LP_REIMBURSED, amount);
    }

    method HandleRecipientPaidByFallback(at: EventStamp, intentId: Bytes, recipient: Bytes, amount: nat)
      modifies this
      ensures State() == ApplySettlementLog(old(State()), at, RecipientPaidByFallback(intentId, recipient, amount))
    {
      Record(at, intentId, RECIPIENT_FALLBACK, amount);
    }

    method HandleHeldForVault(at: EventStamp, intentId: Bytes, vault: Bytes, amount: nat)
      modifies this
      ensures State() == ApplySettlementLog(old(State()), at, HeldForVault(intentId, vault, amount))
    {
      Record(at, intentId, HELD_FOR_VAULT, amount);
      var settlement := settlements[intentId];
      settlement := settlement.(heldForVault := Some(vault));
      settlements := settlements[intentId := settlement];
    }

    method HandleSettledWithProof(at: EventStamp, intentId: Bytes, cctpNonce: Bytes)
      modifies this
      ensures State() == ApplySettlementLog(old(State()), at, SettledWithProof(intentId, cctpNonce))
    {
      if intentId !in settlements {
        return;
      }
      var settlement := settlements[intentId];
      settlement := settlement.(viaProof := true);
      settlement := settlement.(cctpNonce := Some(cctpNonce));
      settlements := settlements[intentId := settlement];
    }

    // ----- dispatch --------------------------------------------------------------

    method HandleVaultLog(at: EventStamp, address: Bytes, log: VaultEvent) returns (ok: bool)
      modifies this
      ensures Reflects(old(State()), State(), ok, ApplyVaultLog(old(State()), at, address, log))
    {
      match log
      case VaultInitialized(asset) => ok := HandleVaultInitialized(at, address, asset);
      case FastFilled(_, _, _, _, _, _, _) => ok := HandleFastFilled(at, address, log);
      case DeliveredViaSwap(intentId, tokenOut, amountOut) =>
        HandleDeliveredViaSwap(at, address, intentId, tokenOut, amountOut);
        ok := true;
      case SwapFellBack(intentId, tokenOut, usdc) =>
        HandleSwapFellBack(at, address, intentId, tokenOut, usdc);
        ok := true;
      case Deposit(assets) => ok := HandleDeposit(at, address, assets);
      case Withdraw(assets) => ok := HandleWithdraw(at, address, assets);
      case ReimbursementRecorded(intentId, received, cleared) =>
        ok := HandleReimbursement(at, address, intentId, received, cleared);
      case FeesAccrued(toProtocol, toLps) => ok := HandleFeesAccrued(at, address, toProtocol, toLps);
      case PausedSet(paused) => ok := HandlePausedSet(at, address, paused);
    }

    method Handle(e: Event) returns (ok: bool)
      modifies this
      ensures Reflects(old(State()), State(), ok, Apply(old(State()), e))
    {
      match e
      case VaultCreated(at, factory, creation) =>
        HandleVaultCreated(at, factory, creation);
        ok := true;
      case IntentCreated(at, terms) =>
        HandleIntentCreated(at, terms);
        ok := true;
      case VaultLog(at, address, log) =>
        ok := HandleVaultLog(at, address, log);
      case SettlementLog(at, LpReimbursed(intentId, vault, amount)) =>
        HandleLpReimbursed(at, intentId, vault, amount);
        ok := true;
      case SettlementLog(at, RecipientPaidByFallback(intentId, recipient, amount)) =>
        HandleRecipientPaidByFallback(at, intentId, recipient, amount);
        ok := true;
      case SettlementLog(at, HeldForVault(intentId, vault, amount)) =>
        HandleHeldForVault(at, intentId, vault, amount);
        ok := true;
      case SettlementLog(at, SettledWithProof(intentId, cctpNonce)) =>
        HandleSettledWithProof(at, intentId, cctpNonce);
        ok := true;
    }
  }

  /** Indexing a whole history in place reaches exactly the store that replaying it describes. */
  method Index(h: seq<Event>) returns (indexer: EntityStore, ok: bool)
    ensures fresh(indexer)
    ensures ok <==> Run(h).Ok?
    ensures ok ==> Run(h) == Ok(indexer.State())
  {
    indexer := new EntityStore();
    ok := true;
    for i := 0 to |h|
      invariant fresh(indexer)
      invariant ok && Run(h[..i]) == Ok(indexer.State())
    {
      assert h[..i + 1][..i] == h[..i];
      ok := indexer.Handle(h[i]);
      if !ok {
        FailureIsFinal(h, i + 1);
        return;
      }
    }
    assert h[..|h|] == h;
  }

  lemma {:induction false} FailureIsFinal(h: seq<Event>, i: nat)
    requires i <= |h| && Run(h[..i]).UnknownVault?
    ensures Run(h).UnknownVault?
    decreases |h| - i
  {
    if i == |h| {
      assert h[..i] == h;
    } else {
      assert h[..i + 1][..i] == h[..i];
      FailureIsFinal(h, i + 1);
    }
  }
}
