/** Canonical settlement: what the counters and records mean, over every run. */
module Settlements {
  import opened Options
  import opened ByteStrings
  import opened Entities
  import opened Handlers
  import opened History
  import opened Ledger

  /** Attested bytes arrived for an intent whose outcome was already recorded. */
  ghost predicate Proved(h: seq<Event>, i: Bytes) {
    exists k :: 0 <= k < |h| && h[k].SettlementLog? && h[k].notice.SettledWithProof? && h[k].notice.intentId == i
                && FirstOutcome(h[..k], i).Some?
  }

  /** The vault named by the latest outcome event, when that event parked the funds. */
  function ParkedFor(h: seq<Event>, i: Bytes): Option<Bytes> {
    if h == [] then None
    else if Reported(h[|h| - 1], i).Some? then (if h[|h| - 1].notice.HeldForVault? then Some(h[|h| - 1].notice.vault) else None)
    else ParkedFor(h[..|h| - 1], i)
  }

  /** The nonce of the latest attested bytes that arrived after an outcome. */
  function LastNonce(h: seq<Event>, i: Bytes): Option<Bytes> {
    if h == [] then None
    else
      var front, e := h[..|h| - 1], h[|h| - 1];
      if e.SettlementLog? && e.notice.SettledWithProof? && e.notice.intentId == i && FirstOutcome(front, i).Some?
      then Some(e.notice.cctpNonce)
      else LastNonce(front, i)
  }

  predicate IsProofOf(e: Event, i: Bytes) {
    e.SettlementLog? && e.notice.SettledWithProof? && e.notice.intentId == i
  }

  /** What else a record carries: the amount and place of its latest outcome, and its latest nonce. */
  predicate DetailsMatch(settlements: map<Bytes, Settlement>, h: seq<Event>, i: Bytes) {
    && (i in settlements <==> FirstOutcome(h, i).Some?)
    && (i in settlements <==> LastReport(h, i).Some?)
    && (i in settlements ==>
          var r, e := settlements[i], LastReport(h, i).value;
          && r.amount == e.notice.amount && r.blockNumber == e.at.blockNumber
          && r.timestamp == e.at.timestamp && r.txHash == e.at.txHash
          && r.cctpNonce == LastNonce(h, i))
    && (i !in settlements ==> LastNonce(h, i) == None)
  }

  ghost predicate RecordMatches(s: Store, h: seq<Event>, i: Bytes) {
    && (i in s.settlements <==> FirstOutcome(h, i).Some?)
    && (i in s.settlements ==>
          var r := s.settlements[i];
          && r.intentId == i
          && Some(r.outcome) == LastOutcome(h, i)
          && r.heldForVault == ParkedFor(h, i)
          && (r.heldForVault.Some? <==> r.outcome == HELD_FOR_VAULT)
          && (r.viaProof <==> Proved(h, i))
          && (r.viaProof <==> r.cctpNonce.Some?))
  }

  /** Intents whose first outcome was the direct payment: nobody had fast-filled them. */
  ghost function FirstFellBack(settlements: map<Bytes, Settlement>, h: seq<Event>): set<Bytes> {
    set i | i in settlements && FirstOutcome(h, i) == Some(RECIPIENT_FALLBACK)
  }

  lemma {:induction false} OutcomesAgree(h: seq<Event>, i: Bytes)
    ensures FirstOutcome(h, i).Some? <==> LastOutcome(h, i).Some?
    ensures ParkedFor(h, i).Some? <==> LastOutcome(h, i) == Some(HELD_FOR_VAULT)
    decreases |h|
  {
    if h != [] {
      OutcomesAgree(h[..|h| - 1], i);
    }
  }

  lemma ProvedStep(h: seq<Event>, e: Event, i: Bytes)
    ensures Proved(h + [e], i) <==>
            Proved(h, i) || (e.SettlementLog? && e.notice.SettledWithProof? && e.notice.intentId == i && FirstOutcome(h, i).Some?)
  {
    var g := h + [e];
    assert g[..|h|] == h;
    assert g[|h|] == e;
    forall k | 0 <= k < |h|
      ensures g[k] == h[k] && g[..k] == h[..k]
    {}
    if Proved(h, i) {
      var k :| 0 <= k < |h| && h[k].SettlementLog? && h[k].notice.SettledWithProof? && h[k].notice.intentId == i
               && FirstOutcome(h[..k], i).Some?;
      assert g[k] == h[k] && FirstOutcome(g[..k], i).Some?;
    }
  }

  lemma {:induction false} FirstOutcomeStays(h: seq<Event>, k: nat, i: Bytes)
    requires k <= |h| && FirstOutcome(h[..k], i).Some?
    ensures FirstOutcome(h, i) == FirstOutcome(h[..k], i)
    decreases |h|
  {
    if k == |h| {
      assert h[..k] == h;
    } else {
      assert h[..|h| - 1][..k] == h[..k];
      FirstOutcomeStays(h[..|h| - 1], k, i);
    }
  }

  lemma ProvedNeedsOutcome(h: seq<Event>, i: Bytes)
    requires Proved(h, i)
    ensures FirstOutcome(h, i).Some?
  {
    var k :| 0 <= k < |h| && h[k].SettlementLog? && h[k].notice.SettledWithProof? && h[k].notice.intentId == i
             && FirstOutcome(h[..k], i).Some?;
    FirstOutcomeStays(h, k, i);
  }

  lemma SettlementsAfter(s: Store, e: Event)
    requires Apply(s, e).Ok?
    ensures Apply(s, e).store.settlements ==
            if !e.SettlementLog? then s.settlements
            else
              var next := SettlementAfter(Lookup(s.settlements, e.notice.intentId), e.at, e.notice);
              if next.Some? then s.settlements[e.notice.intentId := next.value] else s.settlements
  {}

  /** One event moves one record. */
  lemma EventKeepsRecord(s: Store, h: seq<Event>, e: Event, i: Bytes)
    requires Apply(s, e).Ok? && RecordMatches(s, h, i)
    ensures RecordMatches(Apply(s, e).store, h + [e], i)
  {
    assert (h + [e])[..|h|] == h;
    OutcomesAgree(h, i);
    OutcomesAgree(h + [e], i);
    ProvedStep(h, e, i);
    if Proved(h, i) {
      ProvedNeedsOutcome(h, i);
    }
    SettlementsAfter(s, e);
  }

  /**
   * Every settlement record says exactly what the history says: it exists once an outcome was
   * reported, carries the latest one, is parked exactly while that is HELD_FOR_VAULT, and is
   * marked as proved (with its nonce) exactly when attested bytes followed an outcome.
   */
  lemma {:induction false} RecordsMatchHistory(h: seq<Event>, i: Bytes)
    requires Run(h).Ok?
    ensures RecordMatches(Run(h).store, h, i)
    decreases |h|
  {
    if h != [] {
      Unsnoc(h);
      RecordsMatchHistory(h[..|h| - 1], i);
      EventKeepsRecord(Run(h[..|h| - 1]).store, h[..|h| - 1], h[|h| - 1], i);
    }
  }

  lemma ReportsAfter(h: seq<Event>, e: Event, i: Bytes)
    ensures var g := h + [e];
            && FirstOutcome(g, i) == (if FirstOutcome(h, i).Some? then FirstOutcome(h, i) else Reported(e, i))
            && LastReport(g, i) == (if Reported(e, i).Some? then Some(e) else LastReport(h, i))
            && LastNonce(g, i) == (if IsProofOf(e, i) && FirstOutcome(h, i).Some? then Some(e.notice.cctpNonce) else LastNonce(h, i))
  {
    assert (h + [e])[..|h|] == h;
  }

  lemma EventKeepsDetails(s: Store, h: seq<Event>, e: Event, i: Bytes)
    requires Apply(s, e).Ok? && DetailsMatch(s.settlements, h, i)
    ensures DetailsMatch(Apply(s, e).store.settlements, h + [e], i)
  {
    hide Apply, FirstOutcome, LastReport, LastNonce;
    ReportsAfter(h, e, i);
    SettlementsAfter(s, e);
  }

  /** A settlement's amount, block, time and transaction are its latest outcome's, and its nonce the latest proof's. */
  lemma {:induction false} DetailsMatchHistory(h: seq<Event>, i: Bytes)
    requires Run(h).Ok?
    ensures DetailsMatch(Run(h).store.settlements, h, i)
    decreases |h|
  {
    if h != [] {
      Unsnoc(h);
      DetailsMatchHistory(h[..|h| - 1], i);
      EventKeepsDetails(Run(h[..|h| - 1]).store, h[..|h| - 1], h[|h| - 1], i);
    }
  }

  ghost predicate CountersMatch(s: Store, h: seq<Event>) {
    && Global(s).intentsSettled == |s.settlements|
    && Global(s).intentsFallenBack == |FirstFellBack(s.settlements, h)|
  }

  lemma CountersAfter(s: Store, e: Event)
    requires Apply(s, e).Ok?
    ensures var p, q := Global(s), Global(Apply(s, e).store);
            var first := IsFirstOutcome(s.settlements.Keys, e);
            && q.intentsSettled == p.intentsSettled + (if first then 1 else 0)
            && q.intentsFallenBack
               == p.intentsFallenBack + (if first && e.notice.RecipientPaidByFallback? then 1 else 0)
            && Apply(s, e).store.settlements.Keys == s.settlements.Keys + if first then {e.notice.intentId} else {}
  {}

  /** The event that gives an intent its first outcome. */
  predicate IsFirstOutcome(settlements: set<Bytes>, e: Event) {
    e.SettlementLog? && !e.notice.SettledWithProof? && e.notice.intentId !in settlements
  }

  lemma FirstOutcomesAfter(settled: set<Bytes>, h: seq<Event>, e: Event)
    requires forall i :: i in settled <==> FirstOutcome(h, i).Some?
    ensures forall i :: i in settled ==> FirstOutcome(h + [e], i) == FirstOutcome(h, i)
    ensures IsFirstOutcome(settled, e) ==> FirstOutcome(h + [e], e.notice.intentId) == OutcomeOf(e.notice)
  {
    assert (h + [e])[..|h|] == h;
  }

  lemma FirstFellBackSets(before: map<Bytes, Settlement>, h: seq<Event>, e: Event, after: map<Bytes, Settlement>)
    requires forall i :: i in before <==> FirstOutcome(h, i).Some?
    requires after.Keys == before.Keys + if IsFirstOutcome(before.Keys, e) then {e.notice.intentId} else {}
    ensures FirstFellBack(after, h + [e])
         == FirstFellBack(before, h)
            + if IsFirstOutcome(before.Keys, e) && e.notice.RecipientPaidByFallback? then {e.notice.intentId} else {}
    ensures FirstFellBack(before, h) <= before.Keys
  {
    hide FirstOutcome;
    FirstOutcomesAfter(before.Keys, h, e);
  }

  lemma FirstFellBackAfter(before: map<Bytes, Settlement>, h: seq<Event>, e: Event, after: map<Bytes, Settlement>)
    requires forall i :: i in before <==> FirstOutcome(h, i).Some?
    requires after.Keys == before.Keys + if IsFirstOutcome(before.Keys, e) then {e.notice.intentId} else {}
    ensures |FirstFellBack(after, h + [e])|
         == |FirstFellBack(before, h)| + if IsFirstOutcome(before.Keys, e) && e.notice.RecipientPaidByFallback? then 1 else 0
    ensures |after| == |before| + if IsFirstOutcome(before.Keys, e) then 1 else 0
  {
    hide FirstOutcome, FirstFellBack;
    FirstFellBackSets(before, h, e, after);
    assert |after| == |after.Keys| && |before| == |before.Keys|;
  }

  lemma EventKeepsCounters(s: Store, h: seq<Event>, e: Event)
    requires Apply(s, e).Ok? && CountersMatch(s, h)
    requires forall i :: i in s.settlements <==> FirstOutcome(h, i).Some?
    ensures CountersMatch(Apply(s, e).store, h + [e])
  {
    CountersAfter(s, e);
    FirstFellBackAfter(s.settlements, h, e, Apply(s, e).store.settlements);
  }

  /** The counters count intents, not events: once per settled intent, and by first outcome only. */
  lemma {:induction false} CountersCountIntents(h: seq<Event>)
    requires Run(h).Ok?
    ensures CountersMatch(Run(h).store, h)
    decreases |h|
  {
    if h == [] {
      assert FirstFellBack(map[], []) == {};
    } else {
      Unsnoc(h);
      var h' := h[..|h| - 1];
      CountersCountIntents(h');
      forall i
        ensures i in Run(h').store.settlements <==> FirstOutcome(h', i).Some?
      {
        RecordsMatchHistory(h', i);
      }
      EventKeepsCounters(Run(h').store, h', h[|h| - 1]);
    }
  }

  /** A proof mark, once made, survives every continuation of the run. */
  lemma {:induction false} ProofIsPermanent(h: seq<Event>, k: seq<Event>, i: Bytes)
    requires Run(h + k).Ok? && Run(h).Ok?
    requires i in Run(h).store.settlements && Run(h).store.settlements[i].viaProof
    ensures i in Run(h + k).store.settlements
    ensures Run(h + k).store.settlements[i].viaProof && Run(h + k).store.settlements[i].cctpNonce.Some?
    decreases |k|
  {
    RecordsMatchHistory(h, i);
    if k == [] {
      assert h + k == h;
    } else {
      var k', e := k[..|k| - 1], k[|k| - 1];
      assert h + k == (h + k') + [e];
      RunStep(EMPTY_STORE, h + k', e);
      ProofIsPermanent(h, k', i);
      SettlementsAfter(Run(h + k').store, e);
    }
  }

  // ----- what the receiver's own order adds ------------------------------------------------

  /** An outcome is final, except that held funds may yet be paid to the vault they were held for. */
  predicate Progressed(first: Option<Outcome>, last: Option<Outcome>) {
    last == first || (first == Some(HELD_FOR_VAULT) && last == Some(LP_REIMBURSED))
  }

  lemma {:induction false} LastReportIsLast(h: seq<Event>, i: Bytes)
    ensures LastReport(h, i).Some? ==> Reported(LastReport(h, i).value, i) == LastOutcome(h, i)
    ensures LastReport(h, i).None? ==> LastOutcome(h, i).None?
  {
    if h != [] {
      LastReportIsLast(h[..|h| - 1], i);
    }
  }

  lemma ProgressStep(h: seq<Event>, e: Event, i: Bytes)
    requires Admits(h, e) && Progressed(FirstOutcome(h, i), LastOutcome(h, i))
    ensures Progressed(FirstOutcome(h + [e], i), LastOutcome(h + [e], i))
    ensures FirstOutcome(h, i).Some? && LastReport(h + [e], i) != LastReport(h, i) ==>
              LastReport(h, i).Some? && LastReport(h + [e], i).value.notice.amount == LastReport(h, i).value.notice.amount
  {
    hide Advances, Created, Announced, VaultMayEmit, InEmissionOrder;
    assert (h + [e])[..|h|] == h;
    OutcomesAgree(h, i);
    LastReportIsLast(h, i);
  }

  /** An intent is settled once: after its first outcome only a retry of held funds can follow. */
  lemma {:induction false} OutcomeIsFinal(h: seq<Event>, i: Bytes)
    requires Admissible(h)
    ensures Progressed(FirstOutcome(h, i), LastOutcome(h, i))
    decreases |h|
  {
    hide Admits;
    if h != [] {
      Unsnoc(h);
      OutcomeIsFinal(h[..|h| - 1], i);
      ProgressStep(h[..|h| - 1], h[|h| - 1], i);
    }
  }

  /** The settlements whose outcome, as it stands, is the direct payment. */
  ghost function FallenBack(settlements: map<Bytes, Settlement>): set<Bytes> {
    set i | i in settlements && settlements[i].outcome == RECIPIENT_FALLBACK
  }

  /** The fallback counter is the number of settlements that stand as paid directly to their recipient. */
  lemma FallbacksCounted(h: seq<Event>)
    requires Admissible(h)
    ensures Run(h).Ok?
    ensures Global(Run(h).store).intentsFallenBack == |FallenBack(Run(h).store.settlements)|
  {
    hide Run, FirstOutcome, LastOutcome, Proved, ParkedFor;
    AdmissibleRuns(h);
    CountersCountIntents(h);
    var settlements := Run(h).store.settlements;
    forall i | i in settlements
      ensures i in FallenBack(settlements) <==> i in FirstFellBack(settlements, h)
    {
      OutcomeIsFinal(h, i);
      RecordsMatchHistory(h, i);
    }
    assert FallenBack(settlements) == FirstFellBack(settlements, h);
  }

  /** The same amount, and the same outcome recorded at the same place unless held funds have been paid out. */
  predicate Later(r: Settlement, t: Settlement) {
    && t.amount == r.amount && Progressed(Some(r.outcome), Some(t.outcome))
    && (t.outcome == r.outcome ==> t.timestamp == r.timestamp && t.txHash == r.txHash && t.blockNumber == r.blockNumber)
  }

  /** One event keeps a stored settlement as it was, marks it proved, or pays out what was held. */
  lemma SettlementMoves(h: seq<Event>, e: Event, i: Bytes)
    requires Admits(h, e) && Run(h).Ok? && Apply(Run(h).store, e).Ok? && i in Run(h).store.settlements
    ensures i in Apply(Run(h).store, e).store.settlements
    ensures Later(Run(h).store.settlements[i], Apply(Run(h).store, e).store.settlements[i])
  {
    hide Run, Advances, Created, Announced, VaultMayEmit, InEmissionOrder, FirstOutcome, LastOutcome, Proved, ParkedFor, Apply,
      LastReport, LastNonce;
    RecordsMatchHistory(h, i);
    DetailsMatchHistory(h, i);
    LastReportIsLast(h, i);
    SettlementsAfter(Run(h).store, e);
  }

  /** Once recorded, a settlement's amount never changes and its outcome only ever goes from held to reimbursed. */
  lemma {:induction false} SettlementsProgress(h: seq<Event>, k: seq<Event>, i: Bytes)
    requires Admissible(h + k) && Run(h).Ok? && i in Run(h).store.settlements
    ensures Run(h + k).Ok? && i in Run(h + k).store.settlements
    ensures Later(Run(h).store.settlements[i], Run(h + k).store.settlements[i])
    decreases |k|
  {
    hide Apply, Admits, RunFrom;
    if k == [] {
      assert h + k == h;
    } else {
      var k', e := k[..|k| - 1], k[|k| - 1];
      assert (h + k)[..|h + k| - 1] == h + k' && h + k == (h + k') + [e];
      SettlementsProgress(h, k', i);
      AdmissibleRuns(h + k);
      RunStep(EMPTY_STORE, h + k', e);
      SettlementMoves(h + k', e, i);
    }
  }

  lemma {:induction false} ProofFollowsOutcome(h: seq<Event>, k: nat, i: Bytes)
    requires Admissible(h) && k < |h| && IsProofOf(h[k], i)
    ensures FirstOutcome(h[..k], i).Some?
    decreases |h|
  {
    hide Advances, Created, Announced, VaultMayEmit, InEmissionOrder;
    var front := h[..|h| - 1];
    if k == |h| - 1 {
      assert h[..k] == front;
    } else {
      assert front[..k] == h[..k];
      ProofFollowsOutcome(front, k, i);
    }
  }

  /** The handler drops attested bytes that find no record; the receiver never sends any that would. */
  lemma ProofNeverMissed(h: seq<Event>, i: Bytes)
    requires Admissible(h)
    ensures Run(h).Ok?
    ensures i in Run(h).store.settlements && Run(h).store.settlements[i].viaProof
            <==> exists k :: 0 <= k < |h| && IsProofOf(h[k], i)
  {
    hide Run, FirstOutcome, LastOutcome, ParkedFor, Admits;
    AdmissibleRuns(h);
    RecordsMatchHistory(h, i);
    if Proved(h, i) {
      var k :| 0 <= k < |h| && h[k].SettlementLog? && h[k].notice.SettledWithProof? && h[k].notice.intentId == i
               && FirstOutcome(h[..k], i).Some?;
      assert IsProofOf(h[k], i);
      ProvedNeedsOutcome(h, i);
    } else if k :| 0 <= k < |h| && IsProofOf(h[k], i) {
      ProofFollowsOutcome(h, k, i);
    }
  }
}
