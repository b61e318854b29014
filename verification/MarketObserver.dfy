/** What the load generator sees of the market: one pass over the chains, each of which may not answer. */
module MarketObserver {
  import opened Options
  import opened ByteStrings
  import opened Entities
  import opened Handlers
  import opened History
  import opened Ledger
  import Records
  import ReserveFloor
  import Settlements
  import FeeTiers
  import Sums

  /** A chain's global row as queried; the fallback count may be missing. */
  datatype StateRow = StateRow(created: int, filled: int, fallenBack: Option<int>)

  /**
   * One chain's answers, `None` when the query failed: its vault rows, each `None` when it cannot be
   * converted, and its global row when it has one.
   */
  datatype Reply = Reply(chainId: nat, vaults: Option<seq<Option<Vault>>>, state: Option<Option<StateRow>>)

  /** A vault as seen on the chain that was asked for it. */
  datatype Seen = Seen(chainId: nat, vault: Vault)

  datatype Counts = Counts(created: int, filled: int, fallenBack: int)

  datatype MarketSnapshot = MarketSnapshot(
    at: int,
    vaults: seq<Seen>,
    available: Option<int>,
    exposure: Option<int>,
    counts: Option<Counts>)

  /** The rows read before the first that cannot be converted: the failure abandons the rest, not these. */
  function Readable(rows: seq<Option<Vault>>): seq<Vault> {
    if rows == [] || rows[0].None? then [] else [rows[0].value] + Readable(rows[1..])
  }

  function RowsOf(reply: Reply): seq<Vault> {
    if reply.vaults.Some? then Readable(reply.vaults.value) else []
  }

  predicate HasState(reply: Reply) {
    reply.state.Some? && reply.state.value.Some?
  }

  /** The rows of every chain that answered, chain by chain. */
  function AllRows(replies: seq<Reply>): seq<Vault> {
    if replies == [] then [] else AllRows(replies[..|replies| - 1]) + RowsOf(replies[|replies| - 1])
  }

  function On(chainId: nat, rows: seq<Vault>): seq<Seen> {
    if rows == [] then [] else On(chainId, rows[..|rows| - 1]) + [Seen(chainId, rows[|rows| - 1])]
  }

  /** Those rows, each with the chain it came from. */
  function AllSeen(replies: seq<Reply>): seq<Seen> {
    if replies == [] then []
    else
      var last := replies[|replies| - 1];
      AllSeen(replies[..|replies| - 1]) + On(last.chainId, RowsOf(last))
  }

  function Vaults(seen: seq<Seen>): seq<Vault> {
    if seen == [] then [] else Vaults(seen[..|seen| - 1]) + [seen[|seen| - 1].vault]
  }

  function AllCounts(replies: seq<Reply>): Counts {
    if replies == [] then Counts(0, 0, 0)
    else
      var c, last := AllCounts(replies[..|replies| - 1]), replies[|replies| - 1];
      if !HasState(last) then c
      else
        var p := last.state.value.value;
        Counts(c.created + p.created, c.filled + p.filled, c.fallenBack + if p.fallenBack.Some? then p.fallenBack.value else 0)
  }

  function ExposureIn(rows: seq<Vault>): int {
    if rows == [] then 0 else ExposureIn(rows[..|rows| - 1]) + rows[|rows| - 1].outstandingExposure
  }

  predicate NoneNegative(rows: seq<Vault>) {
    forall k :: 0 <= k < |rows| ==> 0 <= rows[k].outstandingExposure
  }

  predicate SomeVaults(replies: seq<Reply>) {
    exists k :: 0 <= k < |replies| && replies[k].vaults.Some?
  }

  predicate SomeState(replies: seq<Reply>) {
    exists k :: 0 <= k < |replies| && HasState(replies[k])
  }

  /** A chain that cannot answer is left out; a figure nobody could answer for is absent rather than zero. */
  method Snapshot(replies: seq<Reply>, clock: int) returns (snapshot: MarketSnapshot)
    ensures snapshot.at == clock && snapshot.vaults == AllSeen(replies)
    ensures snapshot.available ==
            if SomeVaults(replies) then Some(ReserveFloor.AggregateAvailable(AllRows(replies))) else None
    ensures snapshot.available.Some? && NoneNegative(AllRows(replies)) ==>
              exists parts :: ReserveFloor.EachMost(AllRows(replies), parts) && snapshot.available.value == ReserveFloor.SumOf(parts)
    ensures snapshot.exposure == if SomeVaults(replies) then Some(ExposureIn(AllRows(replies))) else None
    ensures snapshot.counts == if SomeState(replies) then Some(AllCounts(replies)) else None
  {
    hide Readable, On, Vaults, ExposureIn, ReserveFloor.AggregateAvailable, SomeVaults, SomeState, AllRows;
    NoReplies(replies);
    var seen: seq<Seen> := [];
    var created, filled, fallen, haveState, haveVaults := 0, 0, 0, false, false;
    for k := 0 to |replies|
      invariant seen == AllSeen(replies[..k])
      invariant haveVaults <==> SomeVaults(replies[..k])
      invariant haveState <==> SomeState(replies[..k])
      invariant Counts(created, filled, fallen) == AllCounts(replies[..k])
    {
      assert replies[..k + 1][..k] == replies[..k];
      OneMoreReply(replies, k);
      if replies[k].vaults.Some? {
        haveVaults := true;
        var rows := ReadRows(replies[k].chainId, replies[k].vaults.value);
        seen := seen + rows;
      }
      if replies[k].state.Some? {
        var row := replies[k].state.value;
        if row.Some? {
          haveState := true;
          created := created + row.value.created;
          filled := filled + row.value.filled;
          fallen := fallen + if row.value.fallenBack.Some? then row.value.fallenBack.value else 0;
        }
      }
    }
    assert replies[..|replies|] == replies;
    var available, exposure := SumAvailable(seen);
    SeenAreRows(replies);
    if NoneNegative(AllRows(replies)) {
      ghost var parts := ReserveFloor.AggregateIsMost(AllRows(replies));
    }
    snapshot := MarketSnapshot(clock, seen,
                               if haveVaults then Some(available) else None,
                               if haveVaults then Some(exposure) else None,
                               if haveState then Some(Counts(created, filled, fallen)) else None);
  }

  lemma {:induction false} VaultsConcat(a: seq<Seen>, b: seq<Seen>)
    ensures Vaults(a + b) == Vaults(a) + Vaults(b)
    decreases |b|
  {
    if b == [] {
      assert a + b == a;
    } else {
      assert (a + b)[..|a + b| - 1] == a + b[..|b| - 1];
      VaultsConcat(a, b[..|b| - 1]);
    }
  }

  lemma {:induction false} OnChain(chainId: nat, rows: seq<Vault>)
    ensures Vaults(On(chainId, rows)) == rows
  {
    if rows != [] {
      var front, last := rows[..|rows| - 1], Seen(chainId, rows[|rows| - 1]);
      OnChain(chainId, front);
      assert (On(chainId, front) + [last])[..|On(chainId, front)|] == On(chainId, front);
    }
  }

  /** Labelling the rows changes neither which they are nor their order. */
  lemma {:induction false} SeenAreRows(replies: seq<Reply>)
    ensures Vaults(AllSeen(replies)) == AllRows(replies)
  {
    hide On, Vaults, RowsOf;
    if replies == [] {
      OnChain(0, []);
      assert Vaults([]) == [] by { NothingSeen(); }
    } else {
      var front, last := replies[..|replies| - 1], replies[|replies| - 1];
      SeenAreRows(front);
      OnChain(last.chainId, RowsOf(last));
      VaultsConcat(AllSeen(front), On(last.chainId, RowsOf(last)));
    }
  }

  lemma {:induction false} OnLabels(chainId: nat, rows: seq<Vault>)
    ensures |On(chainId, rows)| == |rows| && forall k :: 0 <= k < |rows| ==> On(chainId, rows)[k] == Seen(chainId, rows[k])
  {
    if rows != [] {
      OnLabels(chainId, rows[..|rows| - 1]);
    }
  }

  /** Rows are seen chain after chain in the order asked, each under its own chain. */
  lemma {:induction false} SeenInOrder(a: seq<Reply>, b: seq<Reply>, k: nat)
    requires k < |b|
    ensures AllSeen(a + b) == AllSeen(a) + AllSeen(b)
    ensures AllSeen([b[k]]) == On(b[k].chainId, RowsOf(b[k]))
    ensures |AllSeen([b[k]])| == |RowsOf(b[k])|
    ensures forall j :: 0 <= j < |RowsOf(b[k])| ==> AllSeen([b[k]])[j] == Seen(b[k].chainId, RowsOf(b[k])[j])
    decreases |b|
  {
    hide On, RowsOf;
    SeenConcat(a, b);
    OnLabels(b[k].chainId, RowsOf(b[k]));
    assert [b[k]][..0] == [];
    assert AllSeen([b[k]]) == [] + On(b[k].chainId, RowsOf(b[k]));
  }

  lemma {:induction false} SeenConcat(a: seq<Reply>, b: seq<Reply>)
    ensures AllSeen(a + b) == AllSeen(a) + AllSeen(b)
    decreases |b|
  {
    hide On, RowsOf;
    if b == [] {
      assert a + b == a;
    } else {
      assert (a + b)[..|a + b| - 1] == a + b[..|b| - 1];
      SeenConcat(a, b[..|b| - 1]);
    }
  }

  lemma NothingSeen()
    ensures Vaults([]) == []
  {}

  /** Row by row until one cannot be converted. */
  method ReadRows(chainId: nat, rows: seq<Option<Vault>>) returns (seen: seq<Seen>)
    ensures seen == On(chainId, Readable(rows))
  {
    hide Readable, On;
    ghost var read: seq<Vault> := [];
    seen := [];
    NothingRead(chainId, rows);
    for k := 0 to |rows|
      invariant Readable(rows) == read + Readable(rows[k..]) && seen == On(chainId, read)
    {
      ReadOneMore(chainId, rows, k, read);
      if rows[k].None? {
        return;
      }
      seen := seen + [Seen(chainId, rows[k].value)];
      read := read + [rows[k].value];
    }
    NothingRead(chainId, rows);
    assert read + [] == read;
  }

  lemma NothingRead(chainId: nat, rows: seq<Option<Vault>>)
    ensures On(chainId, []) == [] && Readable(rows[|rows|..]) == []
    ensures Readable(rows) == [] + Readable(rows[0..])
  {
    assert rows[0..] == rows;
  }

  lemma ReadOneMore(chainId: nat, rows: seq<Option<Vault>>, k: nat, read: seq<Vault>)
    requires k < |rows|
    ensures rows[k].None? ==> read + Readable(rows[k..]) == read
    ensures rows[k].Some? ==>
              && read + Readable(rows[k..]) == (read + [rows[k].value]) + Readable(rows[k + 1..])
              && On(chainId, read + [rows[k].value]) == On(chainId, read) + [Seen(chainId, rows[k].value)]
  {
    assert rows[k..][1..] == rows[k + 1..];
    if rows[k].Some? {
      assert (read + [rows[k].value])[..|read|] == read;
    }
  }

  lemma NoReplies(replies: seq<Reply>)
    ensures !SomeVaults(replies[..0]) && !SomeState(replies[..0])
  {}

  lemma OneMoreReply(replies: seq<Reply>, k: nat)
    requires k < |replies|
    ensures SomeVaults(replies[..k + 1]) <==> SomeVaults(replies[..k]) || replies[k].vaults.Some?
    ensures SomeState(replies[..k + 1]) <==> SomeState(replies[..k]) || HasState(replies[k])
    ensures replies[k].vaults.None? ==> On(replies[k].chainId, RowsOf(replies[k])) == []
  {
    var more, fewer := replies[..k + 1], replies[..k];
    assert more[k] == replies[k];
    assert forall j :: 0 <= j < k ==> more[j] == fewer[j];
  }

  lemma OneMoreSeen(seen: seq<Seen>, k: nat)
    requires k < |seen|
    ensures ReserveFloor.AggregateAvailable(Vaults(seen[..k + 1]))
         == ReserveFloor.AggregateAvailable(Vaults(seen[..k])) + ReserveFloor.Available(seen[k].vault)
    ensures ExposureIn(Vaults(seen[..k + 1])) == ExposureIn(Vaults(seen[..k])) + seen[k].vault.outstandingExposure
  {
    hide ReserveFloor.Available;
    var before := Vaults(seen[..k]);
    assert seen[..k + 1][..k] == seen[..k];
    assert Vaults(seen[..k + 1]) == before + [seen[k].vault];
    assert (before + [seen[k].vault])[..|before|] == before;
  }

  lemma NothingToSum()
    ensures ReserveFloor.AggregateAvailable(Vaults([])) == 0 && ExposureIn(Vaults([])) == 0
  {}

  /** The two reductions over the rows, written out as the observer computes them. */
  method SumAvailable(seen: seq<Seen>) returns (available: int, exposure: int)
    ensures available == ReserveFloor.AggregateAvailable(Vaults(seen)) && exposure == ExposureIn(Vaults(seen))
    ensures NoneNegative(Vaults(seen)) ==>
              exists parts :: ReserveFloor.EachMost(Vaults(seen), parts) && available == ReserveFloor.SumOf(parts)
  {
    hide ReserveFloor.EachMost, ReserveFloor.SumOf;
    hide Vaults, ReserveFloor.AggregateAvailable, ExposureIn, ReserveFloor.Floor;
    NothingToSum();
    available, exposure := 0, 0;
    assert seen[..0] == [];
    for k := 0 to |seen|
      invariant available == ReserveFloor.AggregateAvailable(Vaults(seen[..k])) && exposure == ExposureIn(Vaults(seen[..k]))
    {
      OneMoreSeen(seen, k);
      var v := seen[k].vault;
      var lpCash := v.liquidBalance - v.accruedProtocolFees;
      var total := (if lpCash > 0 then lpCash else 0) + v.outstandingExposure;
      var floor := ReserveFloor.Floor(total, v.reserveFloorBps);
      available := available + if lpCash > floor then lpCash - floor else 0;
      exposure := exposure + v.outstandingExposure;
    }
    assert seen[..|seen|] == seen;
    if NoneNegative(Vaults(seen)) {
      ghost var parts := ReserveFloor.AggregateIsMost(Vaults(seen));
    }
  }

  // ----- what a full answer is worth --------------------------------------------

  /** A chain's rows list each of its vaults once, in any order. */
  ghost predicate Lists(rows: seq<Vault>, vaults: map<Bytes, Vault>) {
    && (forall k :: 0 <= k < |rows| ==> rows[k].id in vaults && vaults[rows[k].id] == rows[k])
    && (forall j, k :: 0 <= j < k < |rows| ==> rows[j].id != rows[k].id)
    && |rows| == |vaults|
  }

  lemma {:induction false} ListedTotal(rows: seq<Vault>, vaults: map<Bytes, Vault>)
    requires Lists(rows, vaults)
    ensures ExposureIn(rows) == Total(vaults, Exposure)
    decreases |rows|
  {
    assert |vaults| == |vaults.Keys|;
    if rows == [] {
      assert vaults.Keys == {};
    } else {
      var front, last := rows[..|rows| - 1], rows[|rows| - 1];
      var others := vaults - {last.id};
      assert others.Keys == vaults.Keys - {last.id};
      assert |others| == |others.Keys|;
      ListedTotal(front, others);
      assert vaults == others[last.id := last];
      TotalInsert(others, last.id, last, Exposure);
    }
  }

  /** When a chain answers in full, the exposure summed over its vaults is the pending value its global record keeps. */
  lemma ExposureIsPendingValue(h: seq<Event>, rows: seq<Vault>)
    requires Admissible(h) && Run(h).Ok? && Lists(rows, Run(h).store.vaults)
    ensures ExposureIn(rows) == Global(Run(h).store).pendingSettlementValue == Outstanding(Advances(h))
  {
    BooksBalance(h);
    ListedTotal(rows, Run(h).store.vaults);
  }

  /** A chain that answered did so in full, at some moment of its run; one that did not says nothing. */
  ghost predicate AnswersFrom(reply: Reply, h: seq<Event>) {
    && Admissible(h) && Run(h).Ok?
    && (reply.vaults.Some? ==> Lists(RowsOf(reply), Run(h).store.vaults))
  }

  /** The principal out on the chains that answered. */
  ghost function AnsweredOutstanding(replies: seq<Reply>, runs: seq<seq<Event>>): int
    requires |replies| == |runs|
  {
    if runs == [] then 0
    else
      var n := |runs| - 1;
      AnsweredOutstanding(replies[..n], runs[..n]) + if replies[n].vaults.Some? then Outstanding(Advances(runs[n])) else 0
  }

  lemma {:induction false} ExposureConcat(a: seq<Vault>, b: seq<Vault>)
    ensures ExposureIn(a + b) == ExposureIn(a) + ExposureIn(b)
    decreases |b|
  {
    if b == [] {
      assert a + b == a;
    } else {
      assert (a + b)[..|a + b| - 1] == a + b[..|b| - 1];
      ExposureConcat(a, b[..|b| - 1]);
    }
  }

  /** Reported exposure is exactly the principal of every unreimbursed advance on the chains that answered. */
  lemma {:induction false} ReportedExposureIsOutstanding(replies: seq<Reply>, runs: seq<seq<Event>>)
    requires |replies| == |runs| && forall k :: 0 <= k < |runs| ==> AnswersFrom(replies[k], runs[k])
    ensures ExposureIn(AllRows(replies)) == AnsweredOutstanding(replies, runs) >= 0
    decreases |replies|
  {
    hide Readable;
    if replies != [] {
      var n := |replies| - 1;
      ReportedExposureIsOutstanding(replies[..n], runs[..n]);
      ExposureConcat(AllRows(replies[..n]), RowsOf(replies[n]));
      if replies[n].vaults.Some? {
        ExposureIsPendingValue(runs[n], RowsOf(replies[n]));
        NothingNegative(runs[n]);
      }
    }
  }

  // ----- what the counters count -----------------------------------------------

  /** A chain that gave its global row gave the one its run has reached. */
  ghost predicate CountsFrom(reply: Reply, h: seq<Event>) {
    && Admissible(h) && Run(h).Ok?
    && (HasState(reply) ==>
          var row, state := reply.state.value.value, Global(Run(h).store);
          && row.created == state.intentsCreated && row.filled == state.intentsFilled
          && row.fallenBack == Some(state.intentsFallenBack))
  }

  /** The runs of the chains that gave a global row. */
  ghost function Counted(replies: seq<Reply>, runs: seq<seq<Event>>): seq<seq<Event>>
    requires |replies| == |runs|
  {
    if runs == [] then []
    else
      var n := |runs| - 1;
      Counted(replies[..n], runs[..n]) + if HasState(replies[n]) then [runs[n]] else []
  }

  ghost function Announcements(runs: seq<seq<Event>>): nat {
    if runs == [] then 0 else Announcements(runs[..|runs| - 1]) + |Announced(runs[|runs| - 1])|
  }

  /** The fast fills in a history. */
  function FillsIn(h: seq<Event>): nat {
    if h == [] then 0
    else FillsIn(h[..|h| - 1]) + if h[|h| - 1].VaultLog? && h[|h| - 1].log.FastFilled? then 1 else 0
  }

  ghost function FillsOver(runs: seq<seq<Event>>): nat {
    if runs == [] then 0 else FillsOver(runs[..|runs| - 1]) + FillsIn(runs[|runs| - 1])
  }

  /** The settlements a history leaves standing as direct payments. */
  ghost function FallbacksIn(h: seq<Event>): nat {
    match Run(h)
    case Ok(s) => |Settlements.FallenBack(s.settlements)|
    case UnknownVault(_) => 0
  }

  ghost function FallbacksOver(runs: seq<seq<Event>>): nat {
    if runs == [] then 0 else FallbacksOver(runs[..|runs| - 1]) + FallbacksIn(runs[|runs| - 1])
  }

  lemma {:induction false} FilledCountsFills(h: seq<Event>)
    requires Run(h).Ok?
    ensures Global(Run(h).store).intentsFilled == FillsIn(h)
    decreases |h|
  {
    if h != [] {
      FilledCountsFills(h[..|h| - 1]);
      FilledStep(Run(h[..|h| - 1]).store, h[|h| - 1]);
    }
  }

  lemma FilledStep(s: Store, e: Event)
    requires Apply(s, e).Ok?
    ensures Global(Apply(s, e).store).intentsFilled
         == Global(s).intentsFilled + if e.VaultLog? && e.log.FastFilled? then 1 else 0
  {}

  lemma RowCounts(reply: Reply, h: seq<Event>)
    requires CountsFrom(reply, h) && HasState(reply)
    ensures reply.state.value.value == StateRow(|Announced(h)|, FillsIn(h), Some(FallbacksIn(h)))
  {
    hide RunFrom;
    Records.CountersCountAnnouncements(h);
    AdmissibleRuns(h);
    assert |Run(h).store.intents| == |Run(h).store.intents.Keys|;
    FilledCountsFills(h);
    Settlements.FallbacksCounted(h);
  }

  /**
   * The reported counters count, over the chains that gave their global row: the intents announced, the fast fills,
   * and the settlements that stand as direct payments.
   */
  lemma {:induction false} ReportedCountsAreReal(replies: seq<Reply>, runs: seq<seq<Event>>)
    requires |replies| == |runs| && forall k :: 0 <= k < |runs| ==> CountsFrom(replies[k], runs[k])
    ensures var counted := Counted(replies, runs);
            AllCounts(replies) == Counts(Announcements(counted), FillsOver(counted), FallbacksOver(counted))
    decreases |replies|
  {
    hide CountsFrom, FallbacksIn, FillsIn, Announced;
    if replies != [] {
      var n := |replies| - 1;
      ReportedCountsAreReal(replies[..n], runs[..n]);
      var counted := Counted(replies[..n], runs[..n]);
      assert counted + [] == counted;
      if HasState(replies[n]) {
        assert (counted + [runs[n]])[..|counted|] == counted;
        RowCounts(replies[n], runs[n]);
      }
    }
  }

  /** The rows kept are the longest run from the first that can all be converted. */
  lemma {:induction false} ReadableIsPrefix(rows: seq<Option<Vault>>)
    ensures var kept := Readable(rows);
            && |kept| <= |rows| && (forall k :: 0 <= k < |kept| ==> rows[k] == Some(kept[k]))
            && (|kept| < |rows| ==> rows[|kept|].None?)
    decreases |rows|
  {
    if rows != [] && rows[0].Some? {
      ReadableIsPrefix(rows[1..]);
    }
  }
}
