/**
 * From a block's logs to the rows of the vault-flow index, and from rows to the
 * entity changes a subgraph ingests.
 */
module VaultFlows {
  import opened ByteStrings
  import opened VaultFlowAbi
  import Decimal
  import Hex

  datatype LogView = LogView(log: Log, txHash: Bytes)

  /** `seconds` is the header's signed timestamp, when there is a header that carries one. */
  datatype HeaderTime = Absent | Seconds(seconds: I64)

  type I64 = n: int | -0x8000_0000_0000_0000 <= n < 0x8000_0000_0000_0000

  datatype Block = Block(number: nat, time: HeaderTime, logs: seq<LogView>)

  datatype DepositRow = DepositRow(
    vault: string, sender: string, owner: string, assets: Bytes, shares: Bytes,
    txHash: string, blockNumber: nat, blockTimestamp: nat, logIndex: nat)

  datatype WithdrawRow = WithdrawRow(
    vault: string, sender: string, receiver: string, owner: string, assets: Bytes, shares: Bytes,
    txHash: string, blockNumber: nat, blockTimestamp: nat, logIndex: nat)

  datatype Flows = Flows(deposits: seq<DepositRow>, withdraws: seq<WithdrawRow>)

  /** The signed timestamp reinterpreted as unsigned; zero without a header. */
  function BlockTimestamp(block: Block): (t: nat)
    ensures t < 0x1_0000_0000_0000_0000
    ensures block.time.Absent? ==> t == 0
    ensures block.time.Seconds? ==> (t - block.time.seconds) % 0x1_0000_0000_0000_0000 == 0
    ensures block.time.Seconds? && block.time.seconds >= 0 ==> t == block.time.seconds
  {
    match block.time
    case Absent => 0
    case Seconds(s) => if s < 0 then s + 0x1_0000_0000_0000_0000 else s
  }

  function DepositRowOf(block: Block, view: LogView, d: DecodedDeposit): DepositRow {
    DepositRow(Hex.Text(view.log.address), d.sender, d.owner, d.assets, d.shares, Hex.Text(view.txHash),
               block.number, BlockTimestamp(block), view.log.index)
  }

  function WithdrawRowOf(block: Block, view: LogView, w: DecodedWithdraw): WithdrawRow {
    WithdrawRow(Hex.Text(view.log.address), w.sender, w.receiver, w.owner, w.assets, w.shares, Hex.Text(view.txHash),
                block.number, BlockTimestamp(block), view.log.index)
  }

  // ----- what a block's rows are ------------------------------------------------

  predicate IsDeposit(view: LogView) {
    DecodeDeposit(view.log).Decoded?
  }

  predicate IsWithdraw(view: LogView) {
    DecodeWithdraw(view.log).Decoded?
  }

  /** The logs that decode as deposits, in log order. */
  function DepositViews(logs: seq<LogView>): (views: seq<LogView>)
    ensures forall v :: v in views ==> IsDeposit(v)
  {
    if logs == [] then []
    else DepositViews(logs[..|logs| - 1]) + if IsDeposit(logs[|logs| - 1]) then [logs[|logs| - 1]] else []
  }

  function WithdrawViews(logs: seq<LogView>): (views: seq<LogView>)
    ensures forall v :: v in views ==> IsWithdraw(v)
  {
    if logs == [] then []
    else WithdrawViews(logs[..|logs| - 1]) + if IsWithdraw(logs[|logs| - 1]) then [logs[|logs| - 1]] else []
  }

  function DepositRows(block: Block, logs: seq<LogView>): seq<DepositRow> {
    var views := DepositViews(logs);
    seq(|views|, i requires 0 <= i < |views| => assert views[i] in views; DepositRowOf(block, views[i], DecodeDeposit(views[i].log).value))
  }

  function WithdrawRows(block: Block, logs: seq<LogView>): seq<WithdrawRow> {
    var views := WithdrawViews(logs);
    seq(|views|, i requires 0 <= i < |views| => assert views[i] in views; WithdrawRowOf(block, views[i], DecodeWithdraw(views[i].log).value))
  }

  lemma RowsStep(block: Block, logs: seq<LogView>, view: LogView)
    ensures DepositRows(block, logs + [view])
         == DepositRows(block, logs) + if IsDeposit(view) then [DepositRowOf(block, view, DecodeDeposit(view.log).value)] else []
    ensures WithdrawRows(block, logs + [view])
         == WithdrawRows(block, logs) + if IsWithdraw(view) then [WithdrawRowOf(block, view, DecodeWithdraw(view.log).value)] else []
  {
    assert (logs + [view])[..|logs|] == logs;
  }

  /** One pass over the block: a malformed log is skipped and never fails the block. */
  method ExtractVaultFlows(block: Block) returns (flows: Flows)
    ensures flows.deposits == DepositRows(block, block.logs)
    ensures flows.withdraws == WithdrawRows(block, block.logs)
  {
    var deposits: seq<DepositRow> := [];
    var withdraws: seq<WithdrawRow> := [];
    for i := 0 to |block.logs|
      invariant deposits == DepositRows(block, block.logs[..i])
      invariant withdraws == WithdrawRows(block, block.logs[..i])
    {
      var view := block.logs[i];
      RowsStep(block, block.logs[..i], view);
      assert block.logs[..i + 1] == block.logs[..i] + [view];
      NeverBoth(view.log);
      match DecodeDeposit(view.log) {
        case Decoded(d) => deposits := deposits + [DepositRowOf(block, view, d)];
        case Malformed => continue;
        case Unrelated =>
      }
      match DecodeWithdraw(view.log) {
        case Decoded(w) => withdraws := withdraws + [WithdrawRowOf(block, view, w)];
        case Malformed => continue;
        case Unrelated =>
      }
    }
    assert block.logs[..|block.logs|] == block.logs;
    flows := Flows(deposits, withdraws);
  }

  function CountMatching(logs: seq<LogView>): nat {
    if logs == [] then 0
    else
      CountMatching(logs[..|logs| - 1]) + if IsDeposit(logs[|logs| - 1]) || IsWithdraw(logs[|logs| - 1]) then 1 else 0
  }

  /** Each well-formed matching log is in exactly one of the two lists, and no other log is in either. */
  lemma {:induction false} EachInExactlyOneList(logs: seq<LogView>)
    ensures |DepositViews(logs)| + |WithdrawViews(logs)| == CountMatching(logs)
    ensures forall v :: v in logs ==> (v in DepositViews(logs) <==> IsDeposit(v))
    ensures forall v :: v in logs ==> (v in WithdrawViews(logs) <==> IsWithdraw(v))
    ensures forall v :: !(v in DepositViews(logs) && v in WithdrawViews(logs))
    ensures forall v :: v in DepositViews(logs) || v in WithdrawViews(logs) ==> v in logs
    decreases |logs|
  {
    forall v: LogView
      ensures !(IsDeposit(v) && IsWithdraw(v))
    {
      NeverBoth(v.log);
    }
    if logs != [] {
      EachInExactlyOneList(logs[..|logs| - 1]);
      assert logs == logs[..|logs| - 1] + [logs[|logs| - 1]];
    }
  }

  // ----- entity changes ----------------------------------------------------------

  datatype Value = BytesText(text: string) | BigIntText(text: string)

  datatype Field = Field(name: string, value: Value)

  datatype EntityChange = Create(entity: string, id: string, fields: seq<Field>)

  function BytesField(name: string, hex: string): Field {
    Field(name, BytesText(hex))
  }

  /** Raw big-endian bytes rendered as a decimal string. */
  function BigIntField(name: string, raw: Bytes): Field {
    Field(name, BigIntText(Decimal.Print(ValueOf(raw))))
  }

  function NatField(name: string, n: nat): Field {
    Field(name, BigIntText(Decimal.Print(n)))
  }

  function RowId(txHash: string, logIndex: nat): string {
    txHash + "-" + Decimal.Print(logIndex)
  }

  function DepositChange(d: DepositRow): EntityChange {
    Create("VaultDeposit", RowId(d.txHash, d.logIndex), [
      BytesField("vault", d.vault),
      BytesField("sender", d.sender),
      BytesField("owner", d.owner),
      BigIntField("assets", d.assets),
      BigIntField("shares", d.shares),
      BytesField("txHash", d.txHash),
      NatField("blockNumber", d.blockNumber),
      NatField("blockTimestamp", d.blockTimestamp),
      NatField("logIndex", d.logIndex)])
  }

  function WithdrawChange(w: WithdrawRow): EntityChange {
    Create("VaultWithdraw", RowId(w.txHash, w.logIndex), [
      BytesField("vault", w.vault),
      BytesField("sender", w.sender),
      BytesField("receiver", w.receiver),
      BytesField("owner", w.owner),
      BigIntField("assets", w.assets),
      BigIntField("shares", w.shares),
      BytesField("txHash", w.txHash),
      NatField("blockNumber", w.blockNumber),
      NatField("blockTimestamp", w.blockTimestamp),
      NatField("logIndex", w.logIndex)])
  }

  /** Deposits first, then withdraws, each in order. */
  method BuildEntityChanges(flows: Flows) returns (changes: seq<EntityChange>)
    ensures |changes| == |flows.deposits| + |flows.withdraws|
    ensures forall i :: 0 <= i < |flows.deposits| ==> changes[i] == DepositChange(flows.deposits[i])
    ensures forall i :: 0 <= i < |flows.withdraws| ==> changes[|flows.deposits| + i] == WithdrawChange(flows.withdraws[i])
  {
    hide DepositChange, WithdrawChange;
    changes := [];
    for i := 0 to |flows.deposits|
      invariant |changes| == i
      invariant forall j :: 0 <= j < i ==> changes[j] == DepositChange(flows.deposits[j])
    {
      changes := changes + [DepositChange(flows.deposits[i])];
    }
    for i := 0 to |flows.withdraws|
      invariant |changes| == |flows.deposits| + i
      invariant forall j :: 0 <= j < |flows.deposits| ==> changes[j] == DepositChange(flows.deposits[j])
      invariant forall j :: 0 <= j < i ==> changes[|flows.deposits| + j] == WithdrawChange(flows.withdraws[j])
    {
      changes := changes + [WithdrawChange(flows.withdraws[i])];
    }
  }

  /** The decimal text a change carries for an amount denotes the word the vault logged. */
  predicate Denotes(field: Field, name: string, word: Bytes) {
    && field.name == name
    && field.value.BigIntText?
    && Decimal.AllDigits(field.value.text)
    && Decimal.Parse(field.value.text) == ValueOf(word)
  }

  lemma FieldDenotesWord(name: string, word: Bytes)
    requires |word| == WORD
    ensures Denotes(BigIntField(name, WordToBigInt(word)), name, word)
  {
    TrimmingKeepsValue(word);
    Decimal.ParsePrint(ValueOf(word));
  }

  /** A field whose decimal text reads back as a number. */
  predicate Numbers(field: Field, name: string, n: nat) {
    && field.name == name
    && field.value.BigIntText?
    && Decimal.AllDigits(field.value.text)
    && Decimal.Parse(field.value.text) == n
  }

  /** Where a change says it happened: its id and last four fields. */
  predicate SaysPlace(change: EntityChange, from: nat, block: Block, view: LogView)
    requires from + 4 == |change.fields|
  {
    && change.id == RowId(Hex.Text(view.txHash), view.log.index)
    && change.fields[from] == BytesField("txHash", Hex.Text(view.txHash))
    && Numbers(change.fields[from + 1], "blockNumber", block.number)
    && Numbers(change.fields[from + 2], "blockTimestamp", BlockTimestamp(block))
    && Numbers(change.fields[from + 3], "logIndex", view.log.index)
  }

  /** What a deposit's change must say about what the vault logged. */
  predicate SaysDeposit(change: EntityChange, block: Block, view: LogView, sender: Bytes, owner: Bytes, assets: Bytes, shares: Bytes) {
    && change.entity == "VaultDeposit"
    && |change.fields| == 9
    && change.fields[0] == BytesField("vault", Hex.Text(view.log.address))
    && change.fields[1] == BytesField("sender", Hex.Text(sender))
    && change.fields[2] == BytesField("owner", Hex.Text(owner))
    && Denotes(change.fields[3], "assets", assets)
    && Denotes(change.fields[4], "shares", shares)
    && SaysPlace(change, 5, block, view)
  }

  predicate SaysWithdraw(change: EntityChange, block: Block, view: LogView, sender: Bytes, receiver: Bytes, owner: Bytes,
                         assets: Bytes, shares: Bytes)
  {
    && change.entity == "VaultWithdraw"
    && |change.fields| == 10
    && change.fields[0] == BytesField("vault", Hex.Text(view.log.address))
    && change.fields[1] == BytesField("sender", Hex.Text(sender))
    && change.fields[2] == BytesField("receiver", Hex.Text(receiver))
    && change.fields[3] == BytesField("owner", Hex.Text(owner))
    && Denotes(change.fields[4], "assets", assets)
    && Denotes(change.fields[5], "shares", shares)
    && SaysPlace(change, 6, block, view)
  }

  lemma NatFieldNumbers(name: string, n: nat)
    ensures Numbers(NatField(name, n), name, n)
  {
    Decimal.ParsePrint(n);
  }

  lemma PlaceNumbers(block: Block, view: LogView)
    ensures Numbers(NatField("blockNumber", block.number), "blockNumber", block.number)
    ensures Numbers(NatField("blockTimestamp", BlockTimestamp(block)), "blockTimestamp", BlockTimestamp(block))
    ensures Numbers(NatField("logIndex", view.log.index), "logIndex", view.log.index)
  {
    NatFieldNumbers("blockNumber", block.number);
    NatFieldNumbers("blockTimestamp", BlockTimestamp(block));
    NatFieldNumbers("logIndex", view.log.index);
  }

  /**
   * The whole pipeline preserves meaning: a deposit logged by any vault becomes one change that names the same
   * vault, parties and place, and whose amounts denote the logged 256-bit words.
   */
  lemma DepositEndToEnd(block: Block, view: LogView, sender: Bytes, owner: Bytes, assets: Bytes, shares: Bytes)
    requires AreWords(assets, shares) && |sender| == |owner| == ADDRESS_LENGTH
    requires view.log == DepositLog(view.log.address, sender, owner, assets, shares, view.log.index)
    ensures IsDeposit(view) && !IsWithdraw(view)
    ensures SaysDeposit(DepositChange(DepositRowOf(block, view, DecodeDeposit(view.log).value)),
                        block, view, sender, owner, assets, shares)
  {
    hide Denotes, Numbers, BigIntField, NatField, WordToBigInt, Hex.Text, DepositLog, RowId, BlockTimestamp, DecodeDeposit, DecodeWithdraw;
    DepositRoundTrip(view.log.address, sender, owner, assets, shares, view.log.index);
    NeverBoth(view.log);
    FieldDenotesWord("assets", assets);
    FieldDenotesWord("shares", shares);
    PlaceNumbers(block, view);
  }

  lemma WithdrawEndToEnd(block: Block, view: LogView, sender: Bytes, receiver: Bytes, owner: Bytes, assets: Bytes, shares: Bytes)
    requires AreWords(assets, shares) && |sender| == |receiver| == |owner| == ADDRESS_LENGTH
    requires view.log == WithdrawLog(view.log.address, sender, receiver, owner, assets, shares, view.log.index)
    ensures IsWithdraw(view) && !IsDeposit(view)
    ensures SaysWithdraw(WithdrawChange(WithdrawRowOf(block, view, DecodeWithdraw(view.log).value)),
                         block, view, sender, receiver, owner, assets, shares)
  {
    hide Denotes, Numbers, BigIntField, NatField, WordToBigInt, Hex.Text, WithdrawLog, RowId, BlockTimestamp, DecodeDeposit, DecodeWithdraw;
    WithdrawRoundTrip(view.log.address, sender, receiver, owner, assets, shares, view.log.index);
    NeverBoth(view.log);
    FieldDenotesWord("assets", assets);
    FieldDenotesWord("shares", shares);
    PlaceNumbers(block, view);
  }

  /** Rows of different transactions or log positions get different entity ids. */
  lemma RowIdInjective(t1: Bytes, i1: nat, t2: Bytes, i2: nat)
    requires |t1| == |t2|
    requires RowId(Hex.Text(t1), i1) == RowId(Hex.Text(t2), i2)
    ensures t1 == t2 && i1 == i2
  {
    var n := |Hex.Text(t1)|;
    assert Hex.Text(t1) == RowId(Hex.Text(t1), i1)[..n] == RowId(Hex.Text(t2), i2)[..n] == Hex.Text(t2);
    Hex.TextInjective(t1, t2);
    assert Decimal.Print(i1) == RowId(Hex.Text(t1), i1)[n + 1..] == RowId(Hex.Text(t2), i2)[n + 1..] == Decimal.Print(i2);
    Decimal.PrintInjective(i1, i2);
  }
}
