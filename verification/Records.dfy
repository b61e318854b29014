/** Fill and intent records against the events they came from, and the links between records. */
module Records {
  import opened Options
  import opened ByteStrings
  import opened Entities
  import opened Handlers
  import opened History
  import opened FeePolicy
  import opened Ledger

  // ----- fills ------------------------------------------------------------------

  predicate IsFillOf(e: Event, i: Bytes, a: Bytes) {
    e.VaultLog? && e.address == a && e.log.FastFilled? && e.log.intentId == i
  }

  predicate IsDeliveryOf(e: Event, i: Bytes, a: Bytes) {
    e.VaultLog? && e.address == a && (e.log.DeliveredViaSwap? || e.log.SwapFellBack?) && e.log.intentId == i
  }

  function LastFill(h: seq<Event>, i: Bytes, a: Bytes): (e: Option<Event>)
    ensures e.Some? ==> IsFillOf(e.value, i, a)
  {
    if h == [] then None
    else if IsFillOf(h[|h| - 1], i, a) then Some(h[|h| - 1])
    else LastFill(h[..|h| - 1], i, a)
  }

  function LastDelivery(h: seq<Event>, i: Bytes, a: Bytes): (e: Option<Event>)
    ensures e.Some? ==> IsDeliveryOf(e.value, i, a)
  {
    if h == [] then None
    else if IsDeliveryOf(h[|h| - 1], i, a) then Some(h[|h| - 1])
    else LastDelivery(h[..|h| - 1], i, a)
  }

  predicate TermsFrom(terms: Option<FillTerms>, source: Option<Event>)
    requires source.Some? ==> source.value.VaultLog? && source.value.log.FastFilled?
  {
    match source
    case None => terms == None
    case Some(e) =>
      && terms.Some?
      && terms.value.recipient == e.log.recipient && terms.value.signer == e.log.signer
      && terms.value.inputAmount == e.log.inputAmount && terms.value.outputAmount == e.log.outputAmount
      && terms.value.feeAmount == e.log.feeAmount && terms.value.feeBps == e.log.feeBps
      && terms.value.blockNumber == e.at.blockNumber && terms.value.timestamp == e.at.timestamp
      && terms.value.txHash == e.at.txHash
  }

  predicate DeliveryFrom(f: Fill, source: Option<Event>)
    requires source.Some? ==> source.value.VaultLog? && (source.value.log.DeliveredViaSwap? || source.value.log.SwapFellBack?)
  {
    match source
    case None => f.deliveredVia == USDC && f.tokenOut == None && f.amountOut == None
    case Some(e) =>
      && f.tokenOut == Some(e.log.tokenOut)
      && (if e.log.DeliveredViaSwap? then f.deliveredVia == SWAP && f.amountOut == Some(e.log.amountOut)
          else f.deliveredVia == SWAP_FALLBACK && f.amountOut == Some(e.log.usdcDelivered))
  }

  /** What the store holds about one vault's fill of one intent, read against the history. */
  predicate FillMatches(fills: map<Bytes, Fill>, h: seq<Event>, i: Bytes, a: Bytes) {
    var id := FillId(i, a);
    && (id in fills <==> LastFill(h, i, a).Some? || LastDelivery(h, i, a).Some?)
    && (id in fills ==>
          && fills[id].intentId == i && fills[id].vault == a
          && TermsFrom(fills[id].terms, LastFill(h, i, a)) && DeliveryFrom(fills[id], LastDelivery(h, i, a)))
  }

  lemma FillsStep(s: Store, e: Event)
    requires Apply(s, e).Ok?
    ensures Apply(s, e).store.fills == if e.VaultLog? then FillsAfter(s.fills, e.at, e.address, e.log) else s.fills
  {}

  lemma EventKeepsFill(fills: map<Bytes, Fill>, h: seq<Event>, e: Event, i: Bytes, a: Bytes)
    requires |i| == HASH_LENGTH && Admits(h, e) && FillMatches(fills, h, i, a)
    ensures FillMatches(if e.VaultLog? then FillsAfter(fills, e.at, e.address, e.log) else fills, h + [e], i, a)
  {
    assert (h + [e])[..|h|] == h;
    if e.VaultLog? && (e.log.FastFilled? || e.log.DeliveredViaSwap? || e.log.SwapFellBack?) {
      if FillId(e.log.intentId, e.address) == FillId(i, a) {
        FillIdInjective(e.log.intentId, e.address, i, a);
      }
    }
  }

  /**
   * Every fill record says what the history says: it exists once the vault filled or delivered, carries the
   * fill event's terms field by field, and the delivery path of the delivery event, or plain USDC without one.
   */
  lemma {:induction false} FillsMatchHistory(h: seq<Event>, i: Bytes, a: Bytes)
    requires Admissible(h) && |i| == HASH_LENGTH
    ensures Run(h).Ok? && FillMatches(Run(h).store.fills, h, i, a)
    decreases |h|
  {
    AdmissibleRuns(h);
    if h != [] {
      var h', e := h[..|h| - 1], h[|h| - 1];
      Unsnoc(h);
      AdmissibleRuns(h');
      FillsMatchHistory(h', i, a);
      FillsStep(Run(h').store, e);
      EventKeepsFill(Run(h').store.fills, h', e, i, a);
    }
  }

  /** Every stored fill sits under the id of its own intent and vault. */
  predicate FillsKeyed(fills: map<Bytes, Fill>) {
    forall id :: id in fills ==>
      |fills[id].intentId| == HASH_LENGTH && id == FillId(fills[id].intentId, fills[id].vault)
  }

  lemma EventKeepsKeys(fills: map<Bytes, Fill>, h: seq<Event>, e: Event)
    requires Admits(h, e) && e.VaultLog? && FillsKeyed(fills)
    ensures FillsKeyed(FillsAfter(fills, e.at, e.address, e.log))
  {
    if e.log.FastFilled? || e.log.DeliveredViaSwap? || e.log.SwapFellBack? {
      var id := FillId(e.log.intentId, e.address);
      if id in fills {
        FillIdInjective(fills[id].intentId, fills[id].vault, e.log.intentId, e.address);
      }
    }
  }

  lemma {:induction false} FillsStayKeyed(h: seq<Event>)
    requires Admissible(h)
    ensures Run(h).Ok? && FillsKeyed(Run(h).store.fills)
    decreases |h|
  {
    AdmissibleRuns(h);
    if h != [] {
      var h', e := h[..|h| - 1], h[|h| - 1];
      AdmissibleRuns(h');
      FillsStayKeyed(h');
      FillsStep(Run(h').store, e);
      if e.VaultLog? {
        EventKeepsKeys(Run(h').store.fills, h', e);
      }
    }
  }

  lemma {:induction false} LastFillFinds(h: seq<Event>, k: nat, i: Bytes, a: Bytes)
    requires k < |h| && IsFillOf(h[k], i, a)
    ensures LastFill(h, i, a).Some?
    decreases |h|
  {
    if k < |h| - 1 {
      LastFillFinds(h[..|h| - 1], k, i, a);
    }
  }

  // ----- intents ------------------------------------------------------------------

  function CreationOf(h: seq<Event>, i: Bytes): (e: Option<Event>)
    ensures e.Some? ==> e.value.IntentCreated? && e.value.terms.intentId == i
  {
    if h == [] then None
    else if h[|h| - 1].IntentCreated? && h[|h| - 1].terms.intentId == i then Some(h[|h| - 1])
    else CreationOf(h[..|h| - 1], i)
  }

  /** What an intent record never changes: the terms announced and the moment of announcement. */
  predicate BornOf(intent: Intent, e: Event)
    requires e.IntentCreated?
  {
    && intent.terms == e.terms && (intent.isTradeIntent <==> e.terms.tokenOut != ZERO_ADDRESS)
    && intent.createdAtBlock == e.at.blockNumber && intent.createdAtTimestamp == e.at.timestamp
    && intent.createdTxHash == e.at.txHash
  }

  predicate IntentMatches(intents: map<Bytes, Intent>, h: seq<Event>, i: Bytes) {
    && (i in intents <==> CreationOf(h, i).Some?)
    && (i in intents ==> BornOf(intents[i], CreationOf(h, i).value))
  }

  lemma EventKeepsIntent(s: Store, h: seq<Event>, e: Event, i: Bytes)
    requires Apply(s, e).Ok? && IntentMatches(s.intents, h, i)
    ensures IntentMatches(Apply(s, e).store.intents, h + [e], i)
  {
    assert (h + [e])[..|h|] == h;
  }

  /** Nothing that happens to an intent later touches what it was announced with. */
  lemma {:induction false} IntentsMatchHistory(h: seq<Event>, i: Bytes)
    requires Admissible(h)
    ensures Run(h).Ok? && IntentMatches(Run(h).store.intents, h, i)
    decreases |h|
  {
    AdmissibleRuns(h);
    if h != [] {
      var h', e := h[..|h| - 1], h[|h| - 1];
      Unsnoc(h);
      AdmissibleRuns(h');
      IntentsMatchHistory(h', i);
      EventKeepsIntent(Run(h').store, h', e, i);
    }
  }

  /** The announced intents, counted once each, and those of them that ask for another token. */
  ghost predicate IntentsCounted(s: Store) {
    && Global(s).intentsCreated == |s.intents|
    && Global(s).tradeIntentsCreated == |(set i | i in s.intents && s.intents[i].isTradeIntent)|
  }

  lemma CountersStep(s: Store, e: Event)
    requires Apply(s, e).Ok?
    ensures var p, q := Global(s), Global(Apply(s, e).store);
            && q.intentsCreated == p.intentsCreated + (if e.IntentCreated? then 1 else 0)
            && q.tradeIntentsCreated
               == p.tradeIntentsCreated + (if e.IntentCreated? && e.terms.tokenOut != ZERO_ADDRESS then 1 else 0)
  {}

  lemma IntentSetsStep(s: Store, e: Event)
    requires Apply(s, e).Ok? && (e.IntentCreated? ==> e.terms.intentId !in s.intents)
    ensures Apply(s, e).store.intents.Keys == s.intents.Keys + (if e.IntentCreated? then {e.terms.intentId} else {})
    ensures (set i | i in Apply(s, e).store.intents && Apply(s, e).store.intents[i].isTradeIntent)
         == (set i | i in s.intents && s.intents[i].isTradeIntent)
            + (if e.IntentCreated? && e.terms.tokenOut != ZERO_ADDRESS then {e.terms.intentId} else {})
  {}

  lemma TradesAmong(intents: map<Bytes, Intent>)
    ensures (set i | i in intents && intents[i].isTradeIntent) <= intents.Keys
  {}

  lemma {:induction false} CountersCountAnnouncements(h: seq<Event>)
    requires Admissible(h)
    ensures Run(h).Ok? && IntentsCounted(Run(h).store)
    decreases |h|
  {
    AdmissibleRuns(h);
    if h == [] {
      TradesAmong(EMPTY_STORE.intents);
    } else {
      var h', e := h[..|h| - 1], h[|h| - 1];
      AdmissibleRuns(h');
      CountersCountAnnouncements(h');
      var s, t := Run(h').store, Run(h).store;
      CountersStep(s, e);
      IntentSetsStep(s, e);
      assert |t.intents| == |t.intents.Keys| && |s.intents| == |s.intents.Keys|;
    }
  }

  // ----- vaults -------------------------------------------------------------------

  function BirthOf(h: seq<Event>, a: Bytes): (e: Option<Event>)
    ensures e.Some? ==> e.value.VaultCreated? && e.value.creation.vault == a
  {
    if h == [] then None
    else if h[|h| - 1].VaultCreated? && h[|h| - 1].creation.vault == a then Some(h[|h| - 1])
    else BirthOf(h[..|h| - 1], a)
  }

  /** The asset a vault last named for itself; until then, the factory's address stands in. */
  function AssetOf(h: seq<Event>, a: Bytes): Bytes {
    if h == [] then []
    else
      match h[|h| - 1]
      case VaultCreated(_, factory, c) => if c.vault == a then factory else AssetOf(h[..|h| - 1], a)
      case VaultLog(_, address, VaultInitialized(asset)) => if address == a then asset else AssetOf(h[..|h| - 1], a)
      case _ => AssetOf(h[..|h| - 1], a)
  }

  function PausedIn(h: seq<Event>, a: Bytes): bool {
    if h == [] then false
    else
      match h[|h| - 1]
      case VaultCreated(_, _, c) => c.vault != a && PausedIn(h[..|h| - 1], a)
      case VaultLog(_, address, PausedSet(paused)) => if address == a then paused else PausedIn(h[..|h| - 1], a)
      case _ => PausedIn(h[..|h| - 1], a)
  }

  /** What a vault record keeps from its creation, and the two settings it can change. */
  predicate VaultMatches(vaults: map<Bytes, Vault>, h: seq<Event>, a: Bytes) {
    && (a in vaults <==> BirthOf(h, a).Some?)
    && (a in vaults ==>
          var v, e := vaults[a], BirthOf(h, a).value;
          && v.id == a && v.owner == e.creation.owner && v.name == e.creation.name && v.policy == e.creation.policy
          && v.reserveFloorBps == e.creation.reserveFloorBps && v.maxFillBps == e.creation.maxFillBps
          && v.maxExposureBps == e.creation.maxExposureBps
          && v.createdAtBlock == e.at.blockNumber && v.createdAtTimestamp == e.at.timestamp
          && v.chainId == 0 && v.asset == AssetOf(h, a) && v.paused == PausedIn(h, a))
  }

  lemma VaultsStep(s: Store, e: Event)
    requires Apply(s, e).Ok?
    ensures Apply(s, e).store.vaults ==
            match e
            case VaultCreated(at, factory, c) => s.vaults[c.vault := NewVault(at, factory, c)]
            case VaultLog(at, a, log) => VaultsWith(s.vaults, at, a, log)
            case _ => s.vaults
  {
    hide VaultsWith, NewVault;
  }

  lemma LogKeepsBirth(v: Vault, at: Stamp, log: VaultEvent)
    ensures var w := VaultAfter(v, at, log);
            && w.id == v.id && w.owner == v.owner && w.name == v.name && w.policy == v.policy
            && w.reserveFloorBps == v.reserveFloorBps && w.maxFillBps == v.maxFillBps && w.maxExposureBps == v.maxExposureBps
            && w.createdAtBlock == v.createdAtBlock && w.createdAtTimestamp == v.createdAtTimestamp && w.chainId == v.chainId
            && w.asset == (if log.VaultInitialized? then log.asset else v.asset)
            && w.paused == (if log.PausedSet? then log.paused else v.paused)
  {
    hide UtilisationOf, FeeBpsAt;
  }

  lemma LogKeepsVault(vaults: map<Bytes, Vault>, h: seq<Event>, e: Event, a: Bytes)
    requires e.VaultLog? && VaultMatches(vaults, h, a)
    ensures VaultMatches(VaultsWith(vaults, e.at, e.address, e.log), h + [e], a)
  {
    hide VaultAfter;
    assert (h + [e])[..|h|] == h;
    if a in vaults {
      LogKeepsBirth(vaults[a], e.at, e.log);
    }
  }

  lemma EventKeepsVault(s: Store, h: seq<Event>, e: Event, a: Bytes)
    requires Apply(s, e).Ok? && VaultMatches(s.vaults, h, a)
    ensures VaultMatches(Apply(s, e).store.vaults, h + [e], a)
  {
    hide Apply, VaultsWith, UtilisationOf, FeeBpsAt;
    VaultsStep(s, e);
    if e.VaultLog? {
      LogKeepsVault(s.vaults, h, e, a);
    } else {
      assert (h + [e])[..|h|] == h;
    }
  }

  /** A vault record keeps what the factory announced, and follows the vault's own asset and pause events and no others. */
  lemma {:induction false} VaultsMatchHistory(h: seq<Event>, a: Bytes)
    requires Run(h).Ok?
    ensures VaultMatches(Run(h).store.vaults, h, a)
    decreases |h|
  {
    if h != [] {
      Unsnoc(h);
      VaultsMatchHistory(h[..|h| - 1], a);
      EventKeepsVault(Run(h[..|h| - 1]).store, h[..|h| - 1], h[|h| - 1], a);
    }
  }

  // ----- links ----------------------------------------------------------------------

  /** Each status is the presence of its link, and each link leads to a complete record of the same intent. */
  predicate LinksResolve(s: Store, i: Bytes)
    requires i in s.intents
  {
    var intent := s.intents[i];
    && (intent.fastStatus == FAST_FILLED <==> intent.fill.Some?)
    && (intent.fill.Some? ==>
          && intent.fill.value in s.fills && s.fills[intent.fill.value].intentId == i
          && s.fills[intent.fill.value].terms.Some?)
    && (intent.canonicalStatus == SETTLED <==> intent.settlement.Some?)
    && (intent.settlement.Some? ==> intent.settlement.value == i && i in s.settlements)
  }

  ghost predicate AllLinksResolve(s: Store) {
    forall i :: i in s.intents ==> LinksResolve(s, i)
  }

  /** No event erases a record or the terms of a fill, or refiles one under another intent. */
  lemma RecordsPersist(s: Store, h: seq<Event>, e: Event)
    requires Apply(s, e).Ok? && Admits(h, e) && FillsKeyed(s.fills)
    ensures s.settlements.Keys <= Apply(s, e).store.settlements.Keys
    ensures forall id :: id in s.fills ==>
              && id in Apply(s, e).store.fills && Apply(s, e).store.fills[id].intentId == s.fills[id].intentId
              && (s.fills[id].terms.Some? ==> Apply(s, e).store.fills[id].terms.Some?)
  {
    FillsStep(s, e);
    if e.VaultLog? && e.log.FastFilled? {
      var id := FillId(e.log.intentId, e.address);
      if id in s.fills {
        FillIdInjective(s.fills[id].intentId, s.fills[id].vault, e.log.intentId, e.address);
      }
    }
  }

  predicate SameLinks(i: Intent, j: Intent) {
    i.fastStatus == j.fastStatus && i.canonicalStatus == j.canonicalStatus && i.fill == j.fill && i.settlement == j.settlement
  }

  /** Which links an event touches: a fill sets one of its own intent's, an outcome the other, a creation starts with neither. */
  lemma LinksAfter(s: Store, e: Event, i: Bytes)
    requires Apply(s, e).Ok? && i in Apply(s, e).store.intents
    ensures var t := Apply(s, e).store;
            if e.IntentCreated? && e.terms.intentId == i then
              SameLinks(t.intents[i], NewIntent(e.at, e.terms))
            else
              i in s.intents &&
              if e.VaultLog? && e.log.FastFilled? && e.log.intentId == i then
                SameLinks(t.intents[i], s.intents[i].(fastStatus := FAST_FILLED, fill := Some(FillId(i, e.address))))
              else if e.SettlementLog? && !e.notice.SettledWithProof? && e.notice.intentId == i then
                SameLinks(t.intents[i], s.intents[i].(canonicalStatus := SETTLED, settlement := Some(i))) && i in t.settlements
              else
                SameLinks(t.intents[i], s.intents[i])
  {
    hide ProtocolWith, VaultsWith, FillsAfter, SnapshotsWith, ProtocolSettled, NewVault, FillId;
  }

  lemma EventKeepsLinks(s: Store, h: seq<Event>, e: Event)
    requires Apply(s, e).Ok? && Admits(h, e) && FillsKeyed(s.fills) && AllLinksResolve(s)
    ensures AllLinksResolve(Apply(s, e).store)
  {
    hide Apply, NewVault, FillId, Admits;
    var t := Apply(s, e).store;
    RecordsPersist(s, h, e);
    FillsStep(s, e);
    forall i | i in t.intents ensures LinksResolve(t, i) {
      LinksAfter(s, e, i);
      assert i in s.intents ==> LinksResolve(s, i);
    }
  }

  /** In every reachable store an intent's statuses and links agree and no link dangles. */
  lemma {:induction false} LinksAlwaysResolve(h: seq<Event>)
    requires Admissible(h)
    ensures Run(h).Ok? && AllLinksResolve(Run(h).store)
    decreases |h|
  {
    AdmissibleRuns(h);
    if h != [] {
      var h', e := h[..|h| - 1], h[|h| - 1];
      AdmissibleRuns(h');
      LinksAlwaysResolve(h');
      FillsStayKeyed(h');
      EventKeepsLinks(Run(h').store, h', e);
    }
  }
}
