/**
 * Fast fills and canonical settlement are independent facts: neither's order relative
 * to the other can be told from the store, and each status answers one question only.
 */
module Independence {
  import opened Options
  import opened ByteStrings
  import opened Entities
  import opened Handlers
  import opened History

  /** A store without the marks of when the global record was last written. */
  function Unstamped(s: Store): Store {
    s.(protocol := UnstampedProtocol(s.protocol))
  }

  predicate SameFacts(a: Indexed, b: Indexed) {
    match (a, b)
    case (Ok(s), Ok(t)) => Unstamped(s) == Unstamped(t)
    case (UnknownVault(x), UnknownVault(y)) => x == y
    case _ => false
  }

  /** An intent cannot be created after it settled. */
  predicate LateCreation(settled: Event, created: Event) {
    settled.SettlementLog? && created.IntentCreated? && settled.notice.intentId == created.terms.intentId
  }

  function Then(r: Indexed, e: Event): Indexed {
    match r
    case Ok(s) => Apply(s, e)
    case UnknownVault(a) => UnknownVault(a)
  }

  lemma SameFactsThen(a: Indexed, b: Indexed, e: Event)
    requires SameFacts(a, b)
    ensures SameFacts(Then(a, e), Then(b, e))
  {
    if a.Ok? {
      StampBlind(a.store, e);
      StampBlind(b.store, e);
    }
  }

  /** No handler's effect depends on the global record's stamps. */
  lemma StampBlind(s: Store, e: Event)
    ensures SameFacts(Apply(s, e), Apply(Unstamped(s), e))
  {
    match e
    case VaultCreated(_, _, _) =>
    case IntentCreated(_, _) =>
    case VaultLog(at, a, log) => LogStampBlind(s, at, a, log);
    case SettlementLog(at, notice) => SettlementStampBlind(s, at, notice);
  }

  lemma LogStampBlind(s: Store, at: EventStamp, a: Bytes, log: VaultEvent)
    ensures SameFacts(ApplyVaultLog(s, at, a, log), ApplyVaultLog(Unstamped(s), at, a, log))
  {
    ProtocolStampBlind(s, at);
  }

  lemma SettlementStampBlind(s: Store, at: EventStamp, notice: SettlementEvent)
    ensures SameFacts(Ok(ApplySettlementLog(s, at, notice)), Ok(ApplySettlementLog(Unstamped(s), at, notice)))
  {
    ProtocolStampBlind(s, at);
  }

  lemma ProtocolStampBlind(s: Store, at: EventStamp)
    ensures ProtocolAt(s.protocol, at) == ProtocolAt(Unstamped(s).protocol, at)
  {}

  /** A settlement event and any other event that does not create its intent commute on every store. */
  lemma EventsCommute(s: Store, settled: Event, other: Event)
    requires settled.SettlementLog? && !other.SettlementLog? && !LateCreation(settled, other)
    ensures SameFacts(Then(Apply(s, settled), other), Then(Apply(s, other), settled))
  {
    match other
    case VaultLog(at, a, log) => LogCommutes(s, settled.at, settled.notice, at, a, log);
    case IntentCreated(at, terms) => IntentCommutes(s, settled.at, settled.notice, at, terms);
    case VaultCreated(at, factory, c) => CreationCommutes(s, settled.at, settled.notice, at, factory, c);
  }

  lemma LogCommutes(s: Store, at: EventStamp, notice: SettlementEvent, at': EventStamp, a: Bytes, log: VaultEvent)
    ensures SameFacts(Then(Ok(ApplySettlementLog(s, at, notice)), VaultLog(at', a, log)),
                      Then(ApplyVaultLog(s, at', a, log), SettlementLog(at, notice)))
  {
    if log.FastFilled? {
      MarksCommute(s.intents, log.intentId, FillId(log.intentId, a), notice.intentId);
    }
    ProtocolsCommute(s.protocol, notice.intentId !in s.settlements, at, notice, at', log);
  }

  lemma MarksCommute(intents: map<Bytes, Intent>, filled: Bytes, fillId: Bytes, settled: Bytes)
    ensures MarkFilled(MarkSettled(intents, settled), filled, fillId) == MarkSettled(MarkFilled(intents, filled, fillId), settled)
  {}

  function UnstampedProtocol(protocol: Option<ProtocolState>): Option<ProtocolState> {
    match protocol
    case None => None
    case Some(p) => Some(p.(updatedAtBlock := 0, updatedAtTimestamp := 0))
  }

  /** The two handlers write disjoint fields of the global record, apart from its stamps. */
  lemma ProtocolsCommute(p: Option<ProtocolState>, first: bool, at: EventStamp, notice: SettlementEvent, at': EventStamp, log: VaultEvent)
    ensures UnstampedProtocol(ProtocolWith(ProtocolSettled(p, first, at, notice), at', log))
         == UnstampedProtocol(ProtocolSettled(ProtocolWith(p, at', log), first, at, notice))
  {}

  lemma IntentCommutes(s: Store, at: EventStamp, notice: SettlementEvent, at': EventStamp, terms: IntentTerms)
    requires notice.intentId != terms.intentId
    ensures Unstamped(ApplyIntentCreated(ApplySettlementLog(s, at, notice), at', terms))
         == Unstamped(ApplySettlementLog(ApplyIntentCreated(s, at', terms), at, notice))
  {
    hide SettlementsWith, NewIntent;
  }

  lemma CreationCommutes(s: Store, at: EventStamp, notice: SettlementEvent, at': EventStamp, factory: Bytes, c: VaultCreation)
    ensures Unstamped(ApplyVaultCreated(ApplySettlementLog(s, at, notice), at', factory, c))
         == Unstamped(ApplySettlementLog(ApplyVaultCreated(s, at', factory, c), at, notice))
  {}

  ghost predicate NoLateCreation(h: seq<Event>) {
    forall i, j :: 0 <= i < j < |h| ==> !LateCreation(h[i], h[j])
  }

  function SettlementSide(h: seq<Event>): seq<Event> {
    if h == [] then []
    else SettlementSide(h[..|h| - 1]) + if h[|h| - 1].SettlementLog? then [h[|h| - 1]] else []
  }

  function OtherSide(h: seq<Event>): seq<Event> {
    if h == [] then []
    else OtherSide(h[..|h| - 1]) + if h[|h| - 1].SettlementLog? then [] else [h[|h| - 1]]
  }

  lemma ThenRun(s: Store, h: seq<Event>, e: Event)
    ensures RunFrom(s, h + [e]) == Then(RunFrom(s, h), e)
  {
    RunStep(s, h, e);
  }

  lemma SameFactsTransitive(a: Indexed, b: Indexed, c: Indexed)
    requires SameFacts(a, b) && SameFacts(b, c)
    ensures SameFacts(a, c)
  {}

  /** Moving one event ahead of a block of settlement events changes no fact. */
  lemma {:induction false} MoveAhead(s: Store, block: seq<Event>, e: Event)
    requires forall i :: 0 <= i < |block| ==> block[i].SettlementLog? && !LateCreation(block[i], e)
    requires !e.SettlementLog?
    ensures SameFacts(RunFrom(s, block + [e]), RunFrom(s, [e] + block))
    decreases |block|
  {
    if block == [] {
      assert block + [e] == [e] + block;
    } else {
      var b, t := block[..|block| - 1], block[|block| - 1];
      var r := RunFrom(s, b);
      assert block == b + [t];
      assert [e] + block == ([e] + b) + [t];
      ThenRun(s, block, e);
      ThenRun(s, b, t);
      ThenRun(s, b, e);
      ThenRun(s, [e] + b, t);
      MoveAhead(s, b, e);
      if r.Ok? {
        EventsCommute(r.store, t, e);
      }
      SameFactsThen(RunFrom(s, b + [e]), RunFrom(s, [e] + b), t);
      SameFactsTransitive(RunFrom(s, block + [e]), Then(RunFrom(s, b + [e]), t), RunFrom(s, [e] + block));
    }
  }

  lemma {:induction false} SidesOf(h: seq<Event>)
    ensures forall t :: t in SettlementSide(h) ==> t.SettlementLog? && t in h
    decreases |h|
  {
    if h != [] {
      SidesOf(h[..|h| - 1]);
    }
  }

  lemma NoneLate(h: seq<Event>)
    requires NoLateCreation(h) && h != []
    ensures forall t :: t in SettlementSide(h[..|h| - 1]) ==> t.SettlementLog? && !LateCreation(t, h[|h| - 1])
  {
    hide SettlementSide;
    SidesOf(h[..|h| - 1]);
  }

  lemma MoveAheadAfter(s: Store, others: seq<Event>, block: seq<Event>, e: Event)
    requires forall i :: 0 <= i < |block| ==> block[i].SettlementLog? && !LateCreation(block[i], e)
    requires !e.SettlementLog?
    ensures SameFacts(RunFrom(s, (others + block) + [e]), RunFrom(s, (others + [e]) + block))
  {
    hide RunFrom;
    RunConcat(s, others, block + [e]);
    RunConcat(s, others, [e] + block);
    assert (others + block) + [e] == others + (block + [e]);
    assert (others + [e]) + block == others + ([e] + block);
    if RunFrom(s, others).Ok? {
      MoveAhead(RunFrom(s, others).store, block, e);
    }
  }

  /** From any store, a history reaches the facts it reaches with all settlement events moved to its end. */
  lemma {:induction false} SettlementLast(s: Store, h: seq<Event>)
    requires NoLateCreation(h)
    ensures SameFacts(RunFrom(s, h), RunFrom(s, OtherSide(h) + SettlementSide(h)))
    decreases |h|
  {
    if h == [] {
      assert OtherSide(h) + SettlementSide(h) == h;
    } else {
      hide SameFacts, RunFrom, Apply, Then;
      var h', e := h[..|h| - 1], h[|h| - 1];
      var others, settled := OtherSide(h'), SettlementSide(h');
      Unsnoc(h);
      SettlementLast(s, h');
      ThenRun(s, h', e);
      ThenRun(s, others + settled, e);
      SameFactsThen(RunFrom(s, h'), RunFrom(s, others + settled), e);
      if e.SettlementLog? {
        assert OtherSide(h) + SettlementSide(h) == (others + settled) + [e];
      } else {
        assert OtherSide(h) == others + [e] && SettlementSide(h) == settled;
        NoneLate(h);
        MoveAheadAfter(s, others, settled, e);
        SameFactsTransitive(RunFrom(s, h), RunFrom(s, (others + settled) + [e]), RunFrom(s, (others + [e]) + settled));
      }
    }
  }

  /** However fills and settlements interleave, two histories with the same fill side and the same settlement side agree on every fact. */
  lemma InterleavingsAgree(s: Store, h: seq<Event>, k: seq<Event>)
    requires NoLateCreation(h) && NoLateCreation(k)
    requires OtherSide(h) == OtherSide(k) && SettlementSide(h) == SettlementSide(k)
    ensures SameFacts(RunFrom(s, h), RunFrom(s, k))
  {
    SettlementLast(s, h);
    SettlementLast(s, k);
  }

  // ----- each status follows its own kind of event ------------------------------

  ghost predicate FilledOnceKnown(h: seq<Event>, i: Bytes) {
    exists k :: 0 <= k < |h| && h[k].VaultLog? && h[k].log.FastFilled? && h[k].log.intentId == i && i in Announced(h[..k])
  }

  ghost predicate SettledOnceKnown(h: seq<Event>, i: Bytes) {
    exists k :: 0 <= k < |h| && h[k].SettlementLog? && OutcomeOf(h[k].notice).Some? && h[k].notice.intentId == i
                && i in Announced(h[..k])
  }

  ghost predicate StatusesMatch(s: Store, h: seq<Event>, i: Bytes) {
    i in s.intents ==>
      && (s.intents[i].fastStatus == FAST_FILLED <==> FilledOnceKnown(h, i))
      && (s.intents[i].canonicalStatus == SETTLED <==> SettledOnceKnown(h, i))
  }

  lemma KnownStep(h: seq<Event>, e: Event, i: Bytes)
    ensures FilledOnceKnown(h + [e], i) <==>
            FilledOnceKnown(h, i) || (e.VaultLog? && e.log.FastFilled? && e.log.intentId == i && i in Announced(h))
    ensures SettledOnceKnown(h + [e], i) <==>
            || SettledOnceKnown(h, i)
            || (e.SettlementLog? && OutcomeOf(e.notice).Some? && e.notice.intentId == i && i in Announced(h))
  {
    var g := h + [e];
    assert g[..|h|] == h && g[|h|] == e;
    forall k | 0 <= k < |h|
      ensures g[k] == h[k] && g[..k] == h[..k]
    {}
    if FilledOnceKnown(h, i) {
      var k :| 0 <= k < |h| && h[k].VaultLog? && h[k].log.FastFilled? && h[k].log.intentId == i && i in Announced(h[..k]);
      assert g[k] == h[k] && i in Announced(g[..k]);
    }
    if SettledOnceKnown(h, i) {
      var k :| 0 <= k < |h| && h[k].SettlementLog? && OutcomeOf(h[k].notice).Some? && h[k].notice.intentId == i
               && i in Announced(h[..k]);
      assert g[k] == h[k] && i in Announced(g[..k]);
    }
  }

  lemma IntentAfter(s: Store, e: Event, i: Bytes)
    requires Apply(s, e).Ok? && i in Apply(s, e).store.intents
    requires e.IntentCreated? ==> e.terms.intentId !in s.intents
    ensures var after := Apply(s, e).store.intents[i];
            if i !in s.intents then
              e.IntentCreated? && after.fastStatus == FAST_PENDING && after.canonicalStatus == CANONICAL_PENDING
            else
              && after.fastStatus ==
                 (if e.VaultLog? && e.log.FastFilled? && e.log.intentId == i then FAST_FILLED else s.intents[i].fastStatus)
              && after.canonicalStatus ==
                 (if e.SettlementLog? && OutcomeOf(e.notice).Some? && e.notice.intentId == i then SETTLED
                  else s.intents[i].canonicalStatus)
  {}

  lemma {:induction false} UnknownNeverMarked(h: seq<Event>, i: Bytes)
    requires i !in Announced(h)
    ensures !FilledOnceKnown(h, i) && !SettledOnceKnown(h, i)
    decreases |h|
  {
    if h != [] {
      UnknownNeverMarked(h[..|h| - 1], i);
      Unsnoc(h);
      KnownStep(h[..|h| - 1], h[|h| - 1], i);
    }
  }

  /** An intent reads FAST_FILLED exactly when a fill of it was logged after it was known here, and SETTLED exactly when an outcome was. */
  lemma {:induction false} StatusesAreIndependent(h: seq<Event>, i: Bytes)
    requires Admissible(h)
    ensures Run(h).Ok? && StatusesMatch(Run(h).store, h, i)
    decreases |h|
  {
    AdmissibleRuns(h);
    if h != [] && i in Run(h).store.intents {
      var h', e := h[..|h| - 1], h[|h| - 1];
      Unsnoc(h);
      AdmissibleRuns(h');
      StatusesAreIndependent(h', i);
      KnownStep(h', e, i);
      IntentAfter(Run(h').store, e, i);
      if i !in Run(h').store.intents {
        UnknownNeverMarked(h', i);
      }
    }
  }

  // ----- delivery and fill ---------------------------------------------------

  predicate IsDelivery(log: VaultEvent) {
    log.DeliveredViaSwap? || log.SwapFellBack?
  }

  /** A delivery event and a fill event reach the same store in either order, whichever vaults and intents they name. */
  lemma DeliveryAndFillCommute(s: Store, at: EventStamp, a: Bytes, delivery: VaultEvent, at': EventStamp, b: Bytes, fill: VaultEvent)
    requires IsDelivery(delivery) && fill.FastFilled?
    requires |delivery.intentId| == |fill.intentId|
    ensures Then(ApplyVaultLog(s, at, a, delivery), VaultLog(at', b, fill))
         == Then(ApplyVaultLog(s, at', b, fill), VaultLog(at, a, delivery))
  {
    hide FillsAfter, FillId, ProtocolWith, VaultsWith, SnapshotsWith, IntentsWith;
    if FillId(delivery.intentId, a) == FillId(fill.intentId, b) {
      FillIdInjective(delivery.intentId, a, fill.intentId, b);
    }
    FillsCommute(s.fills, at, a, delivery, at', b, fill);
    DeliveryTouchesFillsOnly(s, at, a, delivery);
    var filled := ApplyVaultLog(s, at', b, fill);
    if filled.Ok? {
      DeliveryTouchesFillsOnly(filled.store, at, a, delivery);
    }
  }

  lemma DeliveryTouchesFillsOnly(s: Store, at: EventStamp, a: Bytes, delivery: VaultEvent)
    requires IsDelivery(delivery)
    ensures ApplyVaultLog(s, at, a, delivery) == Ok(s.(fills := FillsAfter(s.fills, at, a, delivery)))
  {}

  lemma FillsCommute(fills: map<Bytes, Fill>, at: Stamp, a: Bytes, delivery: VaultEvent, at': Stamp, b: Bytes, fill: VaultEvent)
    requires IsDelivery(delivery) && fill.FastFilled?
    requires FillId(delivery.intentId, a) == FillId(fill.intentId, b) ==> delivery.intentId == fill.intentId && a == b
    ensures FillsAfter(FillsAfter(fills, at, a, delivery), at', b, fill)
         == FillsAfter(FillsAfter(fills, at', b, fill), at, a, delivery)
  {}
}
