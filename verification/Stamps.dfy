/** When and where each record was last touched, and which chain the global record names. */
module Stamps {
  import opened Options
  import opened ByteStrings
  import opened FeePolicy
  import opened Entities
  import opened Handlers
  import opened History
  import opened Ledger
  import Settlements

  /**
   * The events that write the global record: creations, announcements, fills, reimbursements and their fees, and the
   * first outcome of each intent.
   */
  predicate WritesGlobal(h: seq<Event>, e: Event) {
    match e
    case VaultCreated(_, _, _) => true
    case IntentCreated(_, _) => true
    case VaultLog(_, _, log) => log.FastFilled? || log.ReimbursementRecorded? || log.FeesAccrued?
    case SettlementLog(_, notice) => !notice.SettledWithProof? && FirstOutcome(h, notice.intentId).None?
  }

  function LastGlobalWrite(h: seq<Event>): Option<Event> {
    if h == [] then None
    else if WritesGlobal(h[..|h| - 1], h[|h| - 1]) then Some(h[|h| - 1])
    else LastGlobalWrite(h[..|h| - 1])
  }

  /** The source chain of the last intent announced; zero before the first. */
  function LastSourceChain(h: seq<Event>): nat {
    if h == [] then 0
    else match h[|h| - 1]
      case IntentCreated(_, terms) => terms.sourceChainId
      case _ => LastSourceChain(h[..|h| - 1])
  }

  ghost predicate GlobalMatches(protocol: Option<ProtocolState>, h: seq<Event>) {
    match LastGlobalWrite(h)
    case None => protocol == None
    case Some(e) =>
      && protocol.Some? && protocol.value.chainId == LastSourceChain(h)
      && protocol.value.updatedAtBlock == e.at.blockNumber && protocol.value.updatedAtTimestamp == e.at.timestamp
  }

  lemma GlobalStep(s: Store, h: seq<Event>, e: Event)
    requires Apply(s, e).Ok? && GlobalMatches(s.protocol, h)
    requires LastGlobalWrite(h).None? ==> LastSourceChain(h) == 0
    requires forall i :: i in s.settlements <==> FirstOutcome(h, i).Some?
    ensures GlobalMatches(Apply(s, e).store.protocol, h + [e])
    ensures LastGlobalWrite(h + [e]).None? ==> LastSourceChain(h + [e]) == 0
  {
    assert (h + [e])[..|h|] == h;
  }

  /** The global record names the source chain of the last intent announced, and the block and time of the last event that wrote it. */
  lemma {:induction false} GlobalMatchesHistory(h: seq<Event>)
    requires Run(h).Ok?
    ensures GlobalMatches(Run(h).store.protocol, h)
    ensures LastGlobalWrite(h).None? ==> LastSourceChain(h) == 0
    decreases |h|
  {
    hide Apply, GlobalMatches, FirstOutcome;
    if h == [] {
      NothingWritten();
    } else {
      var g, e := h[..|h| - 1], h[|h| - 1];
      Unsnoc(h);
      GlobalMatchesHistory(g);
      forall i ensures i in Run(g).store.settlements <==> FirstOutcome(g, i).Some? {
        Settlements.RecordsMatchHistory(g, i);
      }
      GlobalStep(Run(g).store, g, e);
    }
  }

  lemma NothingWritten()
    ensures GlobalMatches(None, [])
  {}

  /** The last event a vault's record was written by: its creation, or one of its own but the two delivery events. */
  function LastVaultWrite(h: seq<Event>, a: Bytes): Option<Event> {
    if h == [] then None
    else
      var e := h[|h| - 1];
      if e.VaultCreated? && e.creation.vault == a then Some(e)
      else if e.VaultLog? && e.address == a && !e.log.DeliveredViaSwap? && !e.log.SwapFellBack? then Some(e)
      else LastVaultWrite(h[..|h| - 1], a)
  }

  predicate VaultStamped(vaults: map<Bytes, Vault>, h: seq<Event>, a: Bytes) {
    a in vaults ==>
      && LastVaultWrite(h, a).Some?
      && vaults[a].updatedAtBlock == LastVaultWrite(h, a).value.at.blockNumber
      && vaults[a].updatedAtTimestamp == LastVaultWrite(h, a).value.at.timestamp
  }

  lemma VaultAfterStamped(v: Vault, at: Stamp, log: VaultEvent)
    ensures VaultAfter(v, at, log).updatedAtBlock == at.blockNumber && VaultAfter(v, at, log).updatedAtTimestamp == at.timestamp
  {
    hide UtilisationOf, FeeBpsAt;
  }

  lemma VaultStampStep(s: Store, h: seq<Event>, e: Event, a: Bytes)
    requires Apply(s, e).Ok? && VaultStamped(s.vaults, h, a)
    ensures VaultStamped(Apply(s, e).store.vaults, h + [e], a)
  {
    hide VaultAfter, UtilisationOf, FeeBpsAt;
    assert (h + [e])[..|h|] == h;
    if e.VaultLog? && e.address == a && a in s.vaults {
      VaultAfterStamped(s.vaults[a], e.at, e.log);
    }
  }

  /** Every vault record carries the block and time of the last event that wrote it. */
  lemma {:induction false} VaultStampedByHistory(h: seq<Event>, a: Bytes)
    requires Run(h).Ok?
    ensures VaultStamped(Run(h).store.vaults, h, a)
    decreases |h|
  {
    hide Apply;
    if h != [] {
      Unsnoc(h);
      VaultStampedByHistory(h[..|h| - 1], a);
      VaultStampStep(Run(h[..|h| - 1]).store, h[..|h| - 1], h[|h| - 1], a);
    }
  }
}
