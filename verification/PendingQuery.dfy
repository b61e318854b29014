/** Discovery across chains: which pending intents a solver is offered, from several subgraphs at once. */
module PendingQuery {
  import opened Options
  import opened ByteStrings
  import opened Entities
  import opened Handlers
  import opened History
  import opened Pages
  import Hex
  import opened RelayText
  import Records

  /** An intent as fetched: its id is the hexadecimal text the endpoint returns. */
  datatype Candidate = Candidate(intentId: string, intent: Intent)

  /** What one endpoint answers to a fill query for one id. */
  ghost predicate HasFill(s: Store, text: string) {
    exists f :: f in s.fills && Hex.Text(s.fills[f].intentId) == text
  }

  /** An endpoint's reply to the batched document: one answer per alias, in the order asked. */
  ghost predicate Answers(s: Store, variables: seq<string>, reply: seq<bool>) {
    |reply| == |variables| && forall k :: 0 <= k < |variables| ==> (reply[k] <==> HasFill(s, variables[k]))
  }

  /** The single-intent check: any chain's answer will do. */
  ghost predicate IsFilled(views: seq<Store>, intentId: string) {
    exists k :: 0 <= k < |views| && HasFill(views[k], Lower(intentId))
  }

  /** The candidates the single-intent check would let through. */
  ghost function Unfilled(candidates: seq<Candidate>, views: seq<Store>): seq<Candidate> {
    if candidates == [] then []
    else
      var last := candidates[|candidates| - 1];
      Unfilled(candidates[..|candidates| - 1], views) + if IsFilled(views, last.intentId) then [] else [last]
  }

  function Flat(pages: seq<seq<Candidate>>): seq<Candidate> {
    if pages == [] then [] else Flat(pages[..|pages| - 1]) + pages[|pages| - 1]
  }

  // ----- the batched form -----------------------------------------------------------

  method Distinct(intentIds: seq<string>) returns (ids: seq<string>)
    ensures forall id :: id in ids <==> id in intentIds
    ensures forall j, k :: 0 <= j < k < |ids| ==> ids[j] != ids[k]
  {
    ids := [];
    for n := 0 to |intentIds|
      invariant forall id :: id in ids <==> id in intentIds[..n]
      invariant forall j, k :: 0 <= j < k < |ids| ==> ids[j] != ids[k]
    {
      if intentIds[n] !in ids {
        ids := ids + [intentIds[n]];
      }
    }
  }

  method Lowered(ids: seq<string>) returns (variables: seq<string>)
    ensures |variables| == |ids| && forall k :: 0 <= k < |ids| ==> variables[k] == Lower(ids[k])
  {
    variables := [];
    for n := 0 to |ids|
      invariant |variables| == n && forall k :: 0 <= k < n ==> variables[k] == Lower(ids[k])
    {
      variables := variables + [Lower(ids[n])];
    }
  }

  /** The ids any reply says are filled, one request per chain for all of them. */
  method FilledIntentIds(ids: seq<string>, variables: seq<string>, replies: seq<seq<bool>>, ghost views: seq<Store>)
    returns (filled: set<string>)
    requires |variables| == |ids| && forall k :: 0 <= k < |ids| ==> variables[k] == Lower(ids[k])
    requires |replies| == |views| && forall c :: 0 <= c < |views| ==> Answers(views[c], variables, replies[c])
    ensures forall id :: id in filled <==> id in ids && IsFilled(views, id)
  {
    hide Lower, HasFill;
    filled := {};
    for c := 0 to |replies|
      invariant forall id :: id in filled <==> id in ids && IsFilled(views[..c], id)
    {
      ghost var before := filled;
      for k := 0 to |ids|
        invariant forall id :: id in filled <==> id in before || (id in ids[..k] && HasFill(views[c], Lower(id)))
      {
        assert Answers(views[c], variables, replies[c]);
        if replies[c][k] {
          filled := filled + {ids[k]};
        }
      }
      assert ids[..|ids|] == ids;
      forall id ensures IsFilled(views[..c + 1], id) <==> IsFilled(views[..c], id) || HasFill(views[c], Lower(id)) {
        FilledByOneMore(views, c, id);
      }
    }
    assert views[..|views|] == views;
  }

  lemma FilledByOneMore(views: seq<Store>, c: nat, id: string)
    requires c < |views|
    ensures IsFilled(views[..c + 1], id) <==> IsFilled(views[..c], id) || HasFill(views[c], Lower(id))
  {
    hide Lower, HasFill;
    var more, fewer := views[..c + 1], views[..c];
    assert forall k :: 0 <= k < c ==> more[k] == fewer[k];
    assert more[c] == views[c];
    if HasFill(views[c], Lower(id)) {
      assert HasFill(more[c], Lower(id));
    }
    if IsFilled(fewer, id) {
      var k :| 0 <= k < |fewer| && HasFill(fewer[k], Lower(id));
      assert HasFill(more[k], Lower(id));
    }
  }

  /** Keeping what the batch does not call filled is keeping what the single check would, in order and with repeats. */
  method KeepUnfilled(candidates: seq<Candidate>, filled: set<string>, ghost views: seq<Store>) returns (offered: seq<Candidate>)
    requires forall k :: 0 <= k < |candidates| ==>
               (candidates[k].intentId in filled <==> IsFilled(views, candidates[k].intentId))
    ensures offered == Unfilled(candidates, views)
  {
    hide IsFilled;
    offered := [];
    for n := 0 to |candidates|
      invariant offered == Unfilled(candidates[..n], views)
    {
      assert candidates[..n + 1][..n] == candidates[..n];
      if candidates[n].intentId !in filled {
        offered := offered + [candidates[n]];
      }
    }
    assert candidates[..|candidates|] == candidates;
  }

  /** A stand-in for the endpoints: given the variables of the document, each view's reply. */
  datatype Endpoints = Endpoints(ask: seq<string> -> seq<seq<bool>>)

  ghost predicate Faithful(endpoints: Endpoints, views: seq<Store>) {
    forall variables ::
      |endpoints.ask(variables)| == |views|
      && forall c :: 0 <= c < |views| ==> Answers(views[c], variables, endpoints.ask(variables)[c])
  }

  method PendingIntents(pages: seq<seq<Candidate>>, endpoints: Endpoints, ghost views: seq<Store>) returns (offered: seq<Candidate>)
    requires Faithful(endpoints, views)
    ensures offered == Unfilled(Flat(pages), views)
  {
    var candidates := Flat(pages);
    if candidates == [] {
      return [];
    }
    var intentIds := [];
    for n := 0 to |candidates|
      invariant |intentIds| == n && forall k :: 0 <= k < n ==> intentIds[k] == candidates[k].intentId
    {
      intentIds := intentIds + [candidates[n].intentId];
    }
    var ids := Distinct(intentIds);
    var variables := Lowered(ids);
    var filled := FilledIntentIds(ids, variables, endpoints.ask(variables), views);
    forall k | 0 <= k < |candidates|
      ensures candidates[k].intentId in filled <==> IsFilled(views, candidates[k].intentId)
    {
      assert intentIds[k] in intentIds;
    }
    offered := KeepUnfilled(candidates, filled, views);
  }

  // ----- soundness: what is never offered ------------------------------------------------

  lemma {:induction false} UnfilledMembers(candidates: seq<Candidate>, views: seq<Store>)
    ensures forall c :: c in Unfilled(candidates, views) <==> c in candidates && !IsFilled(views, c.intentId)
  {
    hide IsFilled;
    if candidates != [] {
      UnfilledMembers(candidates[..|candidates| - 1], views);
    }
  }

  lemma LowerKeepsText(id: Bytes)
    ensures Lower(Hex.Text(id)) == Hex.Text(id)
  {
    Hex.EncodeIsLowerHex(id);
    var t := Hex.Text(id);
    assert forall k :: 0 <= k < |t| ==> LowerChar(t[k]) == t[k];
  }

  lemma AnswerHasEvent(h: seq<Event>, i: Bytes) returns (a: Bytes)
    requires Admissible(h) && |i| == HASH_LENGTH && Run(h).Ok? && HasFill(Run(h).store, Hex.Text(i))
    ensures Records.LastFill(h, i, a).Some? || Records.LastDelivery(h, i, a).Some?
  {
    hide Hex.Text, Records.LastFill, Records.LastDelivery, Run;
    var s := Run(h).store;
    var f :| f in s.fills && Hex.Text(s.fills[f].intentId) == Hex.Text(i);
    a := s.fills[f].vault;
    Hex.TextInjective(s.fills[f].intentId, i);
    Records.FillsStayKeyed(h);
    Records.FillsMatchHistory(h, i, a);
  }

  lemma EventHasAnswer(h: seq<Event>, i: Bytes, a: Bytes)
    requires Admissible(h) && |i| == HASH_LENGTH && Run(h).Ok?
    requires Records.LastFill(h, i, a).Some? || Records.LastDelivery(h, i, a).Some?
    ensures HasFill(Run(h).store, Hex.Text(i))
  {
    hide Hex.Text, Records.LastFill, Records.LastDelivery, Run;
    Records.FillsMatchHistory(h, i, a);
    assert Hex.Text(Run(h).store.fills[FillId(i, a)].intentId) == Hex.Text(i);
  }

  /** A chain answers yes for an intent exactly when one of its vaults filled it or delivered it. */
  lemma HasFillIff(h: seq<Event>, i: Bytes)
    requires Admissible(h) && |i| == HASH_LENGTH
    ensures Run(h).Ok?
    ensures HasFill(Run(h).store, Hex.Text(i))
            <==> exists a :: Records.LastFill(h, i, a).Some? || Records.LastDelivery(h, i, a).Some?
  {
    hide HasFill, Records.LastFill, Records.LastDelivery, Hex.Text;
    AdmissibleRuns(h);
    if HasFill(Run(h).store, Hex.Text(i)) {
      var a := AnswerHasEvent(h, i);
    }
    if a :| Records.LastFill(h, i, a).Some? || Records.LastDelivery(h, i, a).Some? {
      EventHasAnswer(h, i, a);
    }
  }

  /** An intent filled by any vault on any of the chains read is never offered, in whatever case its id is written. */
  lemma NeverOffersFilled(pages: seq<seq<Candidate>>, views: seq<Store>, k: nat, h: seq<Event>, n: nat, i: Bytes, a: Bytes)
    requires k < |views| && Admissible(h) && Run(h) == Ok(views[k])
    requires n < |h| && Records.IsFillOf(h[n], i, a) && |i| == HASH_LENGTH
    ensures forall c :: c in Unfilled(Flat(pages), views) ==> Lower(c.intentId) != Hex.Text(i)
  {
    hide Lower, Hex.Text;
    Records.LastFillFinds(h, n, i, a);
    HasFillIff(h, i);
    assert forall c: Candidate :: Lower(c.intentId) == Hex.Text(i) ==> IsFilled(views, c.intentId);
    UnfilledMembers(Flat(pages), views);
  }

  // ----- completeness: what the page limit leaves out --------------------------------------

  /** The candidates one page yields. */
  ghost predicate Fetched(s: Store, page: seq<Bytes>, candidates: seq<Candidate>)
    requires forall k :: 0 <= k < |page| ==> page[k] in s.intents
  {
    |candidates| == |page| && forall k :: 0 <= k < |page| ==> candidates[k] == Candidate(Hex.Text(page[k]), s.intents[page[k]])
  }

  /** A waiting intent is a candidate of its chain's page exactly when it is on it. */
  lemma CandidateIff(s: Store, size: nat, page: seq<Bytes>, candidates: seq<Candidate>, i: Bytes)
    requires IsPage(s, size, page) && Fetched(s, page, candidates) && i in Waiting(s)
    ensures Candidate(Hex.Text(i), s.intents[i]) in candidates <==> i in page
  {
    hide Hex.Text;
    if i in page {
      var n :| 0 <= n < |page| && page[n] == i;
      assert candidates[n] == Candidate(Hex.Text(i), s.intents[i]);
    }
    if Candidate(Hex.Text(i), s.intents[i]) in candidates {
      var n :| 0 <= n < |candidates| && candidates[n] == Candidate(Hex.Text(i), s.intents[i]);
      Hex.TextInjective(page[n], i);
    }
  }

  lemma {:induction false} UnfilledConcat(a: seq<Candidate>, b: seq<Candidate>, views: seq<Store>)
    ensures Unfilled(a + b, views) == Unfilled(a, views) + Unfilled(b, views)
    decreases |b|
  {
    hide IsFilled;
    if b == [] {
      assert a + b == a;
    } else {
      assert (a + b)[..|a + b| - 1] == a + b[..|b| - 1];
      UnfilledConcat(a, b[..|b| - 1], views);
    }
  }

  /** What is offered is what each page contributes, page after page. */
  lemma {:induction false} OffersByPage(pages: seq<seq<Candidate>>, k: nat, views: seq<Store>)
    requires k < |pages|
    ensures Unfilled(Flat(pages), views)
         == Unfilled(Flat(pages[..k]), views) + Unfilled(pages[k], views) + Unfilled(Flat(pages[k + 1..]), views)
    decreases |pages|
  {
    hide Unfilled;
    var front, last := pages[..|pages| - 1], pages[|pages| - 1];
    UnfilledConcat(Flat(front), last, views);
    if k == |pages| - 1 {
      assert pages[k + 1..] == [];
      UnfilledConcat([], [], views);
      NothingUnfilled(views);
    } else {
      OffersByPage(front, k, views);
      var rest := pages[k + 1..];
      assert rest[..|rest| - 1] == front[k + 1..] && front[..k] == pages[..k];
      UnfilledConcat(Flat(front[k + 1..]), last, views);
    }
  }

  lemma NothingUnfilled(views: seq<Store>)
    ensures Unfilled([], views) == []
  {}

  /** A waiting intent is offered from its page exactly when it is unfilled and fewer than a page wait ahead of it. */
  lemma OfferedIff(s: Store, size: nat, page: seq<Bytes>, candidates: seq<Candidate>, views: seq<Store>, i: Bytes)
    requires IsPage(s, size, page) && Fetched(s, page, candidates) && i in Waiting(s)
    ensures Candidate(Hex.Text(i), s.intents[i]) in Unfilled(candidates, views)
            <==> |WaitingAhead(s, i)| < size && !IsFilled(views, Hex.Text(i))
  {
    hide IsFilled, Hex.Text, WaitingAhead, IsPage, Fetched;
    PageMembership(s, size, page, i);
    CandidateIff(s, size, page, candidates, i);
    UnfilledMembers(candidates, views);
  }

  /** And so it is among everything offered, from however many chains. */
  lemma OfferedWhenItFits(s: Store, size: nat, page: seq<Bytes>, pages: seq<seq<Candidate>>, k: nat, views: seq<Store>, i: Bytes)
    requires k < |pages| && IsPage(s, size, page) && Fetched(s, page, pages[k])
    requires i in Waiting(s) && |WaitingAhead(s, i)| < size && !IsFilled(views, Hex.Text(i))
    ensures Candidate(Hex.Text(i), s.intents[i]) in Unfilled(Flat(pages), views)
  {
    hide IsFilled, Hex.Text, WaitingAhead, IsPage, Fetched;
    OfferedIff(s, size, page, pages[k], views, i);
    OffersByPage(pages, k, views);
  }
}
