/**
 * What the page limit hides. A fill on another chain leaves the source's status alone, so intents filled there
 * go on waiting here, and enough of them crowd out every younger one.
 */
module Starvation {
  import opened ByteStrings
  import opened FeePolicy
  import opened Options
  import opened Entities
  import opened Handlers
  import opened History
  import opened RelayText
  import opened Pages
  import opened PendingQuery
  import Hex
  import Records

  /** No event of `k` is a fill, on this chain, of an intent in `stale`. */
  predicate NoneFilledHere(k: seq<Event>, stale: set<Bytes>) {
    forall n :: 0 <= n < |k| ==> !(k[n].VaultLog? && k[n].log.FastFilled? && k[n].log.intentId in stale)
  }

  /** Some vault of the chain with history `g` has filled each of them. */
  ghost predicate AllFilledThere(g: seq<Event>, stale: set<Bytes>) {
    forall j :: j in stale ==> |j| == HASH_LENGTH && exists n, a :: 0 <= n < |g| && Records.IsFillOf(g[n], j, a)
  }

  /** Everything else waiting is behind every one of them. */
  ghost predicate OldestWaiting(s: Store, stale: set<Bytes>) {
    stale <= Waiting(s) && forall i, j :: i in Waiting(s) - stale && j in stale ==> Precedes(s, j, i)
  }

  lemma StaysWaiting(s: Store, h: seq<Event>, e: Event, stale: set<Bytes>)
    requires Apply(s, e).Ok? && Admits(h, e) && s.intents.Keys == Announced(h)
    requires stale <= Waiting(s) && NoneFilledHere([e], stale)
    ensures stale <= Waiting(Apply(s, e).store)
    ensures forall i :: i in stale ==> Apply(s, e).store.intents[i].createdAtTimestamp == s.intents[i].createdAtTimestamp
  {
    assert [e][0] == e;
  }

  /** Intents the source chain does not fill itself wait there for ever, whatever else happens on it. */
  lemma {:induction false} StayWaiting(h: seq<Event>, k: seq<Event>, stale: set<Bytes>)
    requires Admissible(h + k) && NoneFilledHere(k, stale)
    requires Run(h).Ok? && stale <= Waiting(Run(h).store)
    ensures Run(h + k).Ok? && stale <= Waiting(Run(h + k).store)
    ensures forall i :: i in stale ==>
              Run(h + k).store.intents[i].createdAtTimestamp == Run(h).store.intents[i].createdAtTimestamp
    decreases |k|
  {
    hide Apply, Admits, Waiting;
    if k == [] {
      assert h + k == h;
    } else {
      var k', e := k[..|k| - 1], k[|k| - 1];
      assert h + k == (h + k') + [e];
      assert (h + k)[..|h + k| - 1] == h + k';
      StayWaiting(h, k', stale);
      AdmissibleRuns(h + k');
      RunStep(EMPTY_STORE, h + k', e);
      AdmissibleRuns(h + k);
      assert k[|k| - 1] == e && [e][0] == e;
      StaysWaiting(Run(h + k').store, h + k', e, stale);
    }
  }

  /** A full page of the oldest waiting intents holds nothing else. */
  lemma PageIsStale(s: Store, size: nat, page: seq<Bytes>, stale: set<Bytes>)
    requires IsPage(s, size, page) && OldestWaiting(s, stale) && |stale| >= size
    ensures forall i :: i in page ==> i in stale
  {
    forall i | i in page ensures i in stale {
      PageMembership(s, size, page, i);
      if i !in stale {
        SubsetCount(stale, WaitingAhead(s, i));
      }
    }
  }

  lemma FilledThereIsFilled(g: seq<Event>, l: seq<Event>, stale: set<Bytes>, views: seq<Store>, n: nat, j: Bytes)
    requires Admissible(g + l) && n < |views| && Run(g + l) == Ok(views[n])
    requires AllFilledThere(g, stale) && j in stale
    ensures IsFilled(views, Hex.Text(j))
  {
    hide Lower, Hex.Text, Run;
    var m, a :| 0 <= m < |g| && Records.IsFillOf(g[m], j, a);
    assert (g + l)[m] == g[m];
    Records.LastFillFinds(g + l, m, j, a);
    HasFillIff(g + l, j);
    LowerKeepsText(j);
    assert HasFill(views[n], Lower(Hex.Text(j)));
  }

  lemma {:induction false} AllFilledNoneOffered(candidates: seq<Candidate>, views: seq<Store>)
    requires forall k :: 0 <= k < |candidates| ==> IsFilled(views, candidates[k].intentId)
    ensures Unfilled(candidates, views) == []
    decreases |candidates|
  {
    hide IsFilled;
    if candidates != [] {
      AllFilledNoneOffered(candidates[..|candidates| - 1], views);
    }
  }

  /** A page of nothing but filled intents offers none, and lists none of the others. */
  lemma StalePageOffersNone(s: Store, stale: set<Bytes>, size: nat, page: seq<Bytes>, candidates: seq<Candidate>, views: seq<Store>)
    requires OldestWaiting(s, stale) && |stale| >= size && IsPage(s, size, page) && Fetched(s, page, candidates)
    requires forall j :: j in stale ==> IsFilled(views, Hex.Text(j))
    ensures Unfilled(candidates, views) == []
    ensures forall i :: i in Waiting(s) - stale ==> Candidate(Hex.Text(i), s.intents[i]) !in candidates
  {
    hide IsFilled, Hex.Text, Unfilled;
    PageIsStale(s, size, page, stale);
    forall m | 0 <= m < |candidates| ensures IsFilled(views, candidates[m].intentId) {
      assert page[m] in page;
    }
    AllFilledNoneOffered(candidates, views);
    forall i | i in Waiting(s) - stale ensures Candidate(Hex.Text(i), s.intents[i]) !in candidates {
      CandidateIff(s, size, page, candidates, i);
    }
  }

  /**
   * Once a page's worth of the oldest waiting intents has been filled on the other chain, the source's page offers
   * nothing at all, however both chains run on, until the source chain itself fills one of them: every younger
   * intent goes unoffered although it waits and no chain has filled it.
   */
  lemma StaleIntentsHideTheRest(
      h: seq<Event>, k: seq<Event>, g: seq<Event>, l: seq<Event>, stale: set<Bytes>,
      size: nat, page: seq<Bytes>, pages: seq<seq<Candidate>>, p: nat, views: seq<Store>, n: nat)
    requires Admissible(h + k) && Run(h).Ok? && stale <= Waiting(Run(h).store) && NoneFilledHere(k, stale)
    requires Admissible(g + l) && n < |views| && Run(g + l) == Ok(views[n]) && AllFilledThere(g, stale)
    requires |stale| >= size && Run(h + k).Ok?
    requires forall i, j :: i in Waiting(Run(h + k).store) - stale && j in stale ==> Precedes(Run(h + k).store, j, i)
    requires IsPage(Run(h + k).store, size, page) && p < |pages| && Fetched(Run(h + k).store, page, pages[p])
    ensures Unfilled(pages[p], views) == []
    ensures Unfilled(Flat(pages), views) == Unfilled(Flat(pages[..p]), views) + Unfilled(Flat(pages[p + 1..]), views)
    ensures forall i :: i in Waiting(Run(h + k).store) - stale ==>
              Candidate(Hex.Text(i), Run(h + k).store.intents[i]) !in pages[p]
  {
    hide IsFilled, Hex.Text, Run, Unfilled, Flat, IsPage, Fetched, AllFilledThere, Precedes;
    StayWaiting(h, k, stale);
    forall j | j in stale ensures IsFilled(views, Hex.Text(j)) {
      FilledThereIsFilled(g, l, stale, views, n, j);
    }
    StalePageOffersNone(Run(h + k).store, stale, size, page, pages[p], views);
    OffersByPage(pages, p, views);
  }

  /** Whatever waits after a run either waited at its start, as it stands now, or was announced since. */
  lemma {:induction false} WaitedOrAnnounced(h: seq<Event>, k: seq<Event>, i: Bytes)
    requires Admissible(h + k) && Run(h).Ok? && Run(h + k).Ok? && i in Waiting(Run(h + k).store)
    ensures || (i in Waiting(Run(h).store)
                && Run(h + k).store.intents[i].createdAtTimestamp == Run(h).store.intents[i].createdAtTimestamp)
            || Now(h) <= Run(h + k).store.intents[i].createdAtTimestamp
    ensures Now(h) <= Now(h + k)
    decreases |k|
  {
    if k == [] {
      assert h + k == h;
    } else {
      var k', e := k[..|k| - 1], k[|k| - 1];
      var g := h + k';
      assert h + k == g + [e] && (h + k)[..|h + k| - 1] == g;
      AdmissibleRuns(g);
      RunStep(EMPTY_STORE, g, e);
      WaitingStep(Run(g).store, e, i);
      if i in Waiting(Run(g).store) {
        WaitedOrAnnounced(h, k', i);
      } else {
        TimeRuns(h, k');
      }
    }
  }

  lemma WaitingStep(s: Store, e: Event, i: Bytes)
    requires Apply(s, e).Ok? && i in Waiting(Apply(s, e).store)
    ensures || (i in Waiting(s) && Apply(s, e).store.intents[i].createdAtTimestamp == s.intents[i].createdAtTimestamp)
            || Apply(s, e).store.intents[i].createdAtTimestamp == e.at.timestamp
  {}

  lemma {:induction false} TimeRuns(h: seq<Event>, k: seq<Event>)
    requires Admissible(h + k)
    ensures Now(h) <= Now(h + k)
    decreases |k|
  {
    if k == [] {
      assert h + k == h;
    } else {
      assert (h + k)[..|h + k| - 1] == h + k[..|k| - 1];
      TimeRuns(h, k[..|k| - 1]);
    }
  }

  /** First in line at one moment, and announced before it, they stay first in line while they wait. */
  lemma StayOldest(h: seq<Event>, k: seq<Event>, stale: set<Bytes>)
    requires Admissible(h + k) && NoneFilledHere(k, stale)
    requires Run(h).Ok? && OldestWaiting(Run(h).store, stale)
    requires forall j :: j in stale ==> Run(h).store.intents[j].createdAtTimestamp < Now(h)
    ensures Run(h + k).Ok? && OldestWaiting(Run(h + k).store, stale)
  {
    hide Run, Admissible, NoneFilledHere, LexLess;
    StayWaiting(h, k, stale);
    forall i, j | i in Waiting(Run(h + k).store) - stale && j in stale ensures Precedes(Run(h + k).store, j, i) {
      WaitedOrAnnounced(h, k, i);
      if Run(h + k).store.intents[i].createdAtTimestamp < Now(h) {
        assert i in Waiting(Run(h).store) - stale;
        assert Precedes(Run(h).store, j, i);
      }
    }
  }

  /**
   * Only the moment it starts from matters: a page's worth of intents first in line on the source and filled on
   * the other chain keep the source's page empty of offers through every later state of either chain.
   */
  lemma HiddenForGood(
      h: seq<Event>, k: seq<Event>, g: seq<Event>, l: seq<Event>, stale: set<Bytes>,
      size: nat, page: seq<Bytes>, candidates: seq<Candidate>, views: seq<Store>, n: nat)
    requires Admissible(h + k) && Run(h).Ok? && NoneFilledHere(k, stale)
    requires OldestWaiting(Run(h).store, stale) && |stale| >= size
    requires forall j :: j in stale ==> Run(h).store.intents[j].createdAtTimestamp < Now(h)
    requires Admissible(g + l) && n < |views| && Run(g + l) == Ok(views[n]) && AllFilledThere(g, stale)
    requires Run(h + k).Ok? && IsPage(Run(h + k).store, size, page) && Fetched(Run(h + k).store, page, candidates)
    ensures Unfilled(candidates, views) == []
  {
    hide IsFilled, Hex.Text, Run, Unfilled, IsPage, Fetched, AllFilledThere, Precedes;
    StayOldest(h, k, stale);
    forall j | j in stale ensures IsFilled(views, Hex.Text(j)) {
      FilledThereIsFilled(g, l, stale, views, n, j);
    }
    StalePageOffersNone(Run(h + k).store, stale, size, page, candidates, views);
  }

  // ----- it happens ----------------------------------------------------------------------

  const POLICY := Policy(10, 20, 40, 80, 3000, 6000, 8000)

  function Terms(id: Bytes): IntentTerms {
    IntentTerms(id, 1, [], [], [], 100, 1, 2, 50, 1000, 0, ZERO_ADDRESS, 0, [])
  }

  /** Two intents announced on the source chain, one after the other. */
  function SourceRun(older: Bytes, newer: Bytes): seq<Event> {
    [IntentCreated(Stamp(1, 1, [1], 0), Terms(older)), IntentCreated(Stamp(2, 2, [2], 0), Terms(newer))]
  }

  /** A vault of the destination chain fills the older. */
  function DestinationRun(older: Bytes, vault: Bytes): seq<Event> {
    [VaultCreated(Stamp(1, 1, [3], 0), [], VaultCreation(vault, [], "", POLICY, 0, 0, 0)),
     VaultLog(Stamp(2, 2, [4], 0), vault, FastFilled(older, [], [], 100, 99, 1, 10))]
  }

  lemma SourceRuns(older: Bytes, newer: Bytes)
    requires |older| == |newer| == HASH_LENGTH && older != newer
    ensures Admissible(SourceRun(older, newer)) && Run(SourceRun(older, newer)).Ok?
    ensures var s := Run(SourceRun(older, newer)).store;
            && Waiting(s) == {older, newer} && s.fills == map[]
            && s.intents[older].createdAtTimestamp == 1 && s.intents[newer].createdAtTimestamp == 2
  {
    var h := SourceRun(older, newer);
    assert h == [h[0]] + [h[1]] && [h[0]] == [] + [h[0]];
    AdmissibleStep([], h[0]);
    assert [h[0]][..0] == [] && Announced([h[0]]) == {older};
    AdmissibleStep([h[0]], h[1]);
    RunStep(EMPTY_STORE, [], h[0]);
    RunStep(EMPTY_STORE, [h[0]], h[1]);
  }

  lemma DestinationRuns(older: Bytes, vault: Bytes)
    requires |older| == HASH_LENGTH
    ensures Admissible(DestinationRun(older, vault)) && Run(DestinationRun(older, vault)).Ok?
    ensures var s := Run(DestinationRun(older, vault)).store;
            forall f :: f in s.fills ==> s.fills[f].intentId == older
    ensures Records.IsFillOf(DestinationRun(older, vault)[1], older, vault)
  {
    var g := DestinationRun(older, vault);
    assert g == [g[0]] + [g[1]] && [g[0]] == [] + [g[0]];
    AdmissibleStep([], g[0]);
    assert [g[0]][..0] == [] && Created([g[0]]) == {vault} && Advances([g[0]]) == map[];
    AdmissibleStep([g[0]], g[1]);
    RunStep(EMPTY_STORE, [], g[0]);
    RunStep(EMPTY_STORE, [g[0]], g[1]);
  }

  lemma OlderFilledThere(older: Bytes, vault: Bytes)
    requires |older| == HASH_LENGTH
    ensures AllFilledThere(DestinationRun(older, vault), {older})
  {
    assert Records.IsFillOf(DestinationRun(older, vault)[1], older, vault);
  }

  lemma NewerFilledNowhere(views: seq<Store>, older: Bytes, newer: Bytes)
    requires older != newer
    requires forall v, f :: v in views && f in v.fills ==> v.fills[f].intentId == older
    ensures !IsFilled(views, Hex.Text(newer))
  {
    hide Hex.Text, Lower;
    LowerKeepsText(newer);
    if Hex.Text(older) == Hex.Text(newer) {
      Hex.TextInjective(older, newer);
    }
  }

  /** With one intent to a page: the older has been filled, the newer waits and is filled nowhere, and nothing is offered. */
  lemma OneStaleIntentHidesAnother(older: Bytes, newer: Bytes, vault: Bytes, page: seq<Bytes>, candidates: seq<Candidate>)
    requires |older| == |newer| == HASH_LENGTH && older != newer
    requires Run(SourceRun(older, newer)).Ok? && Run(DestinationRun(older, vault)).Ok?
    requires IsPage(Run(SourceRun(older, newer)).store, 1, page) && Fetched(Run(SourceRun(older, newer)).store, page, candidates)
    ensures Admissible(SourceRun(older, newer)) && Admissible(DestinationRun(older, vault))
    ensures var views := [Run(SourceRun(older, newer)).store, Run(DestinationRun(older, vault)).store];
            && newer in Waiting(views[0]) && !IsFilled(views, Hex.Text(newer))
            && Unfilled(candidates, views) == []
  {
    hide Hex.Text, Lower, Run, SourceRun, DestinationRun, IsPage, Fetched, Unfilled, IsFilled, AllFilledThere;
    var h, g := SourceRun(older, newer), DestinationRun(older, vault);
    var views := [Run(h).store, Run(g).store];
    SourceRuns(older, newer);
    DestinationRuns(older, vault);
    OlderFilledThere(older, vault);
    NewerFilledNowhere(views, older, newer);
    assert h + [] == h && g + [] == g;
    StaleIntentsHideTheRest(h, [], g, [], {older}, 1, page, [candidates], 0, views, 1);
  }
}
