/** What each event writes, and the signed token-flow totals that readers derive from the rows. */
module Records {
  import opened Prelude
  import opened Tables

  function LowerChar(ch: char): char {
    if 'A' <= ch <= 'Z' then ((ch as int) + 32) as char else ch
  }

  /** `toLowerCase` on hashes and addresses. */
  function Lower(s: string): (r: string)
    ensures |r| == |s|
  {
    seq(|s|, k requires 0 <= k < |s| => LowerChar(s[k]))
  }

  /** Letters are turned to lower case and everything else stays. */
  lemma LowerOnlyLetters(s: string, k: nat)
    requires k < |s|
    ensures !('A' <= Lower(s)[k] <= 'Z')
    ensures if 'A' <= s[k] <= 'Z' then Lower(s)[k] as int == s[k] as int + 32 else Lower(s)[k] == s[k]
  {
  }

  datatype Side = Buy | Sell | LiquidateBuy | LiquidateSell

  datatype TradeEvent = TradeEvent(
    trader: string, perpetualId: int, orderDigest: string, fFeeCC: int, fPnlCC: int, fB2C: int, price: int,
    newPositionSizeBC: int, fAmount: int, brokerFeeTbps: int, brokerAddr: string, flags: int, leverageTDR: int)

  datatype LiquidateEvent = LiquidateEvent(
    trader: string, perpetualId: int, fFeeCC: int, fPnlCC: int, liquidationPrice: int, amountLiquidatedBC: int,
    newPositionSizeBC: int)

  /** The order digest, or the liquidation id, whose hash is taken as injective in the parts it is built from. */
  datatype TradeKey = OrderDigest(digest: string)
                    | LiquidationId(trader: string, perpetualId: int, blockNumber: nat, positionTail: string)

  datatype TradeColumns = TradeColumns(
    chainId: int, fee: int, brokerFeeTbps: int, brokerAddr: string, perpetualId: int, price: int, quantity: int,
    quantityCC: Option<int>, realizedProfit: int, newPosBC: int, side: Side, orderFlags: int, txHash: string,
    trader: string, leverage: Option<int>)

  function TradeDelivery(chainId: int, e: TradeEvent, txHash: string, byEvent: bool, ts: int, at: int)
    : Delivery<TradeKey, TradeColumns, ()>
  {
    Delivery(
      OrderDigest(e.orderDigest),
      TradeColumns(chainId, e.fFeeCC, e.brokerFeeTbps, Lower(e.brokerAddr), e.perpetualId, e.price, e.fAmount,
                   Some(DivTrunc(e.fB2C * e.fAmount, ONE_64x64)), e.fPnlCC, e.newPositionSizeBC,
                   if e.fAmount > 0 then Buy else Sell, e.flags, Lower(txHash), Lower(e.trader), Some(e.leverageTDR)),
      (), ts * 1000, byEvent, at)
  }

  /** `tail` is the end of the new position's decimal print that enters the id; the schema's defaults fill the rest. */
  function LiquidationDelivery(chainId: int, e: LiquidateEvent, tail: string, txHash: string, byEvent: bool,
                               ts: int, block: nat, at: int): Delivery<TradeKey, TradeColumns, ()>
  {
    Delivery(
      LiquidationId(e.trader, e.perpetualId, block, tail),
      TradeColumns(chainId, e.fFeeCC, 0, "", e.perpetualId, e.liquidationPrice, e.amountLiquidatedBC, None,
                   e.fPnlCC, e.newPositionSizeBC, if e.amountLiquidatedBC > 0 then LiquidateBuy else LiquidateSell,
                   0, Lower(txHash), Lower(e.trader), None),
      (), ts * 1000, byEvent, at)
  }

  /** What `insertTradeHistoryRecord` is given: a fill of an order, or a liquidation. */
  datatype Execution =
    | Fill(trade: TradeEvent, tx: string, ts: int)
    | Liquidation(event: LiquidateEvent, tail: string, block: nat, tx: string, ts: int)

  function ExecutionDelivery(chainId: int, x: Execution, byEvent: bool, at: int): Delivery<TradeKey, TradeColumns, ()> {
    match x
    case Fill(e, tx, ts) => TradeDelivery(chainId, e, tx, byEvent, ts, at)
    case Liquidation(e, tail, block, tx, ts) => LiquidationDelivery(chainId, e, tail, tx, byEvent, ts, block, at)
  }

  function TradeRow(chainId: int, x: Execution): Content<TradeColumns, ()> {
    ContentOf(ExecutionDelivery(chainId, x, false, 0))
  }

  function RowKey(x: Execution): TradeKey {
    ExecutionDelivery(0, x, false, 0).key
  }

  // ---------------------------------------------------------------- what a trade's row says, in terms of the event

  /** The quantity of a fill or a liquidation. */
  function Amount(x: Execution): int {
    match x
    case Fill(e, _, _) => e.fAmount
    case Liquidation(e, _, _, _, _) => e.amountLiquidatedBC
  }

  /** Buys are those with a positive quantity, and fills and liquidations have sides of their own. */
  lemma SideTells(chainId: int, x: Execution)
    ensures var side := TradeRow(chainId, x).fixed.side;
            && (side == Buy || side == LiquidateBuy <==> Amount(x) > 0)
            && (side == Buy || side == Sell <==> x.Fill?)
  {
  }

  /** Fee, profit, price, position, quantity and perpetual are the event's own; hashes and addresses in lower case. */
  lemma CommonColumns(chainId: int, x: Execution)
    ensures var row := TradeRow(chainId, x);
            && row.fixed.quantity == Amount(x) && row.fixed.chainId == chainId
            && row.fixed.txHash == Lower(x.tx) && row.timestamp == x.ts * 1000
            && match x
               case Fill(e, _, _) =>
                 row.fixed.fee == e.fFeeCC && row.fixed.realizedProfit == e.fPnlCC && row.fixed.price == e.price
                 && row.fixed.newPosBC == e.newPositionSizeBC && row.fixed.perpetualId == e.perpetualId
                 && row.fixed.trader == Lower(e.trader)
               case Liquidation(e, _, _, _, _) =>
                 row.fixed.fee == e.fFeeCC && row.fixed.realizedProfit == e.fPnlCC
                 && row.fixed.price == e.liquidationPrice && row.fixed.newPosBC == e.newPositionSizeBC
                 && row.fixed.perpetualId == e.perpetualId && row.fixed.trader == Lower(e.trader)
  {
  }

  /** A fill's order columns are its own; a liquidation has no broker, no leverage and no quote quantity. */
  lemma OrderColumns(chainId: int, x: Execution)
    ensures var row := TradeRow(chainId, x).fixed;
            match x
            case Fill(e, _, _) =>
              row.brokerFeeTbps == e.brokerFeeTbps && row.brokerAddr == Lower(e.brokerAddr) && row.orderFlags == e.flags
              && row.leverage == Some(e.leverageTDR) && row.quantityCC.Some?
            case Liquidation(_, _, _, _, _) =>
              row.brokerFeeTbps == 0 && row.leverage.None? && row.quantityCC.None?
  {
  }

  /** A fill's quantity in collateral currency is fB2C * fAmount / 2^64, cut off toward zero. */
  lemma QuoteQuantity(chainId: int, x: Execution)
    requires x.Fill?
    ensures var product := x.trade.fB2C * x.trade.fAmount;
            var q := TradeRow(chainId, x).fixed.quantityCC;
            && q.Some? && CutOff(product, 0x1_0000_0000_0000_0000, q.value)
  {
    CutOffDivision(x.trade.fB2C * x.trade.fAmount, ONE_64x64);
  }

  /** q is x / unit cut off toward zero. */
  predicate CutOff(x: int, unit: nat, q: int) {
    Abs(q) * unit <= Abs(x) < (Abs(q) + 1) * unit && (q > 0 ==> x > 0) && (q < 0 ==> x < 0)
  }

  lemma CutOffDivision(x: int, unit: nat)
    requires unit > 0
    ensures CutOff(x, unit, DivTrunc(x, unit))
  {
    var a := Abs(x);
    assert a == a / unit * unit + a % unit;
    assert DivTrunc(x, unit) == if x < 0 then -(a / unit) else a / unit;
    assert Abs(DivTrunc(x, unit)) == a / unit;
    assert (a / unit + 1) * unit == a / unit * unit + unit;
  }

  /** Two executions share a row exactly if they are fills of one order, or liquidations alike in the parts of the id. */
  lemma SameRowIff(x: Execution, y: Execution)
    ensures RowKey(x) == RowKey(y) <==>
              if x.Fill? then y.Fill? && x.trade.orderDigest == y.trade.orderDigest
              else y.Liquidation? && x.event.trader == y.event.trader && x.event.perpetualId == y.event.perpetualId
                   && x.block == y.block && x.tail == y.tail
  {
  }

  /** A delivery of the execution: live or backfilled, at any time. */
  predicate IsDelivery(chainId: int, x: Execution, d: Delivery<TradeKey, TradeColumns, ()>) {
    d == ExecutionDelivery(chainId, x, d.isCollectedByEvent, d.at)
  }

  function TradeRecord(chainId: int, x: Execution): Record<TradeKey, TradeColumns, ()> {
    (RowKey(x), TradeRow(chainId, x))
  }

  /** Every delivery of an execution comes to the same key and content. */
  lemma DeliveryIsRecord(chainId: int, x: Execution, d: Delivery<TradeKey, TradeColumns, ()>)
    requires IsDelivery(chainId, x, d)
    ensures (d.key, ContentOf(d)) == TradeRecord(chainId, x)
  {
  }

  /** ds delivers the executions xs, each once or more, and nothing else. */
  ghost predicate DeliversExecutions(chainId: int, xs: set<Execution>, ds: seq<Delivery<TradeKey, TradeColumns, ()>>) {
    (forall d :: d in ds ==> IsDelivered(chainId, xs, d)) && (forall x :: x in xs ==> HasDelivery(chainId, x, ds))
  }

  ghost predicate IsDelivered(chainId: int, xs: set<Execution>, d: Delivery<TradeKey, TradeColumns, ()>) {
    exists x :: x in xs && IsDelivery(chainId, x, d)
  }

  ghost predicate HasDelivery(chainId: int, x: Execution, ds: seq<Delivery<TradeKey, TradeColumns, ()>>) {
    exists d :: d in ds && IsDelivery(chainId, x, d)
  }

  /** The executions' rows. */
  function TradeRecords(chainId: int, xs: set<Execution>): set<Record<TradeKey, TradeColumns, ()>> {
    set x | x in xs :: TradeRecord(chainId, x)
  }

  lemma DeliveredIsRecorded(chainId: int, xs: set<Execution>, d: Delivery<TradeKey, TradeColumns, ()>)
    requires IsDelivered(chainId, xs, d)
    ensures (d.key, ContentOf(d)) in TradeRecords(chainId, xs)
  {
    var x :| x in xs && IsDelivery(chainId, x, d);
    DeliveryIsRecord(chainId, x, d);
  }

  lemma RecordIsDelivered(chainId: int, x: Execution, ds: seq<Delivery<TradeKey, TradeColumns, ()>>)
    requires HasDelivery(chainId, x, ds)
    ensures exists d :: d in ds && (d.key, ContentOf(d)) == TradeRecord(chainId, x)
  {
    var d :| d in ds && IsDelivery(chainId, x, d);
    DeliveryIsRecord(chainId, x, d);
  }

  lemma ExecutionsAreRecords(chainId: int, xs: set<Execution>, ds: seq<Delivery<TradeKey, TradeColumns, ()>>)
    requires DeliversExecutions(chainId, xs, ds)
    ensures Delivers(TradeRecords(chainId, xs), ds)
  {
    forall d | d in ds ensures (d.key, ContentOf(d)) in TradeRecords(chainId, xs) {
      DeliveredIsRecorded(chainId, xs, d);
    }
    forall e | e in TradeRecords(chainId, xs) ensures exists d :: d in ds && (d.key, ContentOf(d)) == e {
      var x :| x in xs && TradeRecord(chainId, x) == e;
      RecordIsDelivered(chainId, x, ds);
    }
  }

  /** Two executions that go to the same row are recorded alike. */
  ghost predicate RecordedAlike(chainId: int, xs: set<Execution>) {
    forall x, y :: x in xs && y in xs && RowKey(x) == RowKey(y) ==> TradeRow(chainId, x) == TradeRow(chainId, y)
  }

  ghost predicate Recorded(chainId: int, xs: set<Execution>, k: TradeKey, row: Content<TradeColumns, ()>) {
    exists x :: x in xs && TradeRecord(chainId, x) == (k, row)
  }

  lemma RecordedIff(chainId: int, xs: set<Execution>)
    ensures forall k, row :: (k, row) in TradeRecords(chainId, xs) <==> Recorded(chainId, xs, k, row)
  {
  }

  lemma FunctionalIff(chainId: int, xs: set<Execution>)
    ensures RecordedAlike(chainId, xs) <==> Functional(TradeRecords(chainId, xs))
  {
    if RecordedAlike(chainId, xs) {
      forall e, f | e in TradeRecords(chainId, xs) && f in TradeRecords(chainId, xs) && e.0 == f.0 ensures e == f {
        var x :| x in xs && TradeRecord(chainId, x) == e;
        var y :| y in xs && TradeRecord(chainId, y) == f;
      }
    }
    if Functional(TradeRecords(chainId, xs)) {
      forall x, y | x in xs && y in xs && RowKey(x) == RowKey(y) ensures TradeRow(chainId, x) == TradeRow(chainId, y) {
        assert TradeRecord(chainId, x) in TradeRecords(chainId, xs);
        assert TradeRecord(chainId, y) in TradeRecords(chainId, xs);
      }
    }
  }

  /**
   * The trade table, for any deliveries of fills and liquidations, repeated, reordered and from either source: the
   * deliveries agree exactly if executions with one key are recorded alike, and then each execution has its row with
   * all its columns and no other row is there.
   */
  lemma ExecutionsDetermineTrades(chainId: int, xs: set<Execution>, ds: seq<Delivery<TradeKey, TradeColumns, ()>>)
    requires DeliversExecutions(chainId, xs, ds)
    ensures Consistent(ds) <==> RecordedAlike(chainId, xs)
    ensures RecordedAlike(chainId, xs) ==>
              forall k, row ::
                k in Replay(ds) && Contents(Replay(ds))[k] == row <==> Recorded(chainId, xs, k, row)
  {
    ExecutionsAreRecords(chainId, xs, ds);
    FunctionalIff(chainId, xs);
    RecordsDetermineTable(TradeRecords(chainId, xs), ds);
    RecordedIff(chainId, xs);
  }

  // ---------------------------------------------------------------- the two watermark queries on the trade table

  /** `side = 'buy' OR side = 'sell'`, and the same for liquidations. */
  predicate SelectsFills(row: TradeColumns) {
    row.side == Buy || row.side == Sell
  }

  predicate SelectsLiquidations(row: TradeColumns) {
    row.side == LiquidateBuy || row.side == LiquidateSell
  }

  /** What a watermark query returns: an hour before the newest backfilled row that is selected, or nothing. */
  ghost predicate IsLatest<K(!new), F(!new), V(!new)>(rows: map<K, Row<F, V>>, selects: F -> bool, w: Option<int>) {
    match w
    case None => forall k :: !Eligible(rows, selects, k)
    case Some(t) =>
      && (exists k :: Eligible(rows, selects, k) && rows[k].timestamp - 3_600_000 == t)
      && forall k :: Eligible(rows, selects, k) ==> rows[k].timestamp - 3_600_000 <= t
  }

  predicate Eligible<K, F, V>(rows: map<K, Row<F, V>>, selects: F -> bool, k: K) {
    k in rows && selects(rows[k].fixed) && !rows[k].isCollectedByEvent
  }

  /** `findFirst` in descending order of time, less an hour. */
  method LatestTimestamp<K(==, !new), F(!new), V(!new)>(rows: map<K, Row<F, V>>, selects: F -> bool)
    returns (w: Option<int>)
    ensures IsLatest(rows, selects, w)
  {
    w := None;
    var todo := rows.Keys;
    while todo != {}
      invariant todo <= rows.Keys
      invariant w.Some? ==> exists k :: Eligible(rows, selects, k) && rows[k].timestamp - 3_600_000 == w.value
      invariant forall k :: Eligible(rows, selects, k) && k !in todo ==>
                  w.Some? && rows[k].timestamp - 3_600_000 <= w.value
      decreases todo
    {
      var k :| k in todo;
      todo := todo - {k};
      if Eligible(rows, selects, k) && (w.None? || w.value < rows[k].timestamp - 3_600_000) {
        w := Some(rows[k].timestamp - 3_600_000);
      }
    }
  }

  /** The execution has its row, and a backfill wrote that last. */
  ghost predicate BackfilledExecution(rows: map<TradeKey, Row<TradeColumns, ()>>, x: Execution) {
    RowKey(x) in rows && !rows[RowKey(x)].isCollectedByEvent
  }

  /** Whatever is delivered, the rows selected by side are those of orders, and those of liquidation ids. */
  lemma SidesByKey(chainId: int, xs: set<Execution>, ds: seq<Delivery<TradeKey, TradeColumns, ()>>, k: TradeKey)
    requires DeliversExecutions(chainId, xs, ds) && k in Replay(ds)
    ensures SelectsFills(Replay(ds)[k].fixed) <==> k.OrderDigest?
    ensures SelectsLiquidations(Replay(ds)[k].fixed) <==> k.LiquidationId?
  {
    var d := FixedIsDelivered(ds, k);
    assert IsDelivered(chainId, xs, d);
    var x :| x in xs && IsDelivery(chainId, x, d);
    SidesOfDelivery(chainId, x, d);
  }

  lemma SidesOfDelivery(chainId: int, x: Execution, d: Delivery<TradeKey, TradeColumns, ()>)
    requires IsDelivery(chainId, x, d)
    ensures SelectsFills(d.fixed) <==> d.key.OrderDigest?
    ensures SelectsLiquidations(d.fixed) <==> d.key.LiquidationId?
    ensures x.Fill? <==> d.key.OrderDigest?
  {
  }

  lemma ExecutionStored(chainId: int, xs: set<Execution>, ds: seq<Delivery<TradeKey, TradeColumns, ()>>, x: Execution)
    requires DeliversExecutions(chainId, xs, ds) && RecordedAlike(chainId, xs) && x in xs
    ensures RowKey(x) in Replay(ds) && Contents(Replay(ds))[RowKey(x)] == TradeRow(chainId, x)
  {
    ExecutionsDetermineTrades(chainId, xs, ds);
    assert Recorded(chainId, xs, RowKey(x), TradeRow(chainId, x));
  }

  /** So, where executions with one key are recorded alike, the selected rows are those of fills, or of liquidations. */
  lemma SidesSelect(chainId: int, xs: set<Execution>, ds: seq<Delivery<TradeKey, TradeColumns, ()>>, x: Execution)
    requires DeliversExecutions(chainId, xs, ds) && RecordedAlike(chainId, xs) && x in xs
    ensures var rows := Replay(ds);
            && RowKey(x) in rows && rows[RowKey(x)].timestamp == x.ts * 1000
            && (SelectsFills(rows[RowKey(x)].fixed) <==> x.Fill?)
            && (SelectsLiquidations(rows[RowKey(x)].fixed) <==> x.Liquidation?)
  {
    ExecutionStored(chainId, xs, ds, x);
    SidesByKey(chainId, xs, ds, RowKey(x));
    KeyAndTime(chainId, x);
  }

  lemma KeyAndTime(chainId: int, x: Execution)
    ensures TradeRow(chainId, x).timestamp == x.ts * 1000
    ensures (x.Fill? <==> RowKey(x).OrderDigest?) && (x.Liquidation? <==> RowKey(x).LiquidationId?)
  {
  }

  /** Every row is that of an execution. */
  lemma RowHasExecution(chainId: int, xs: set<Execution>, ds: seq<Delivery<TradeKey, TradeColumns, ()>>, k: TradeKey)
    returns (x: Execution)
    requires DeliversExecutions(chainId, xs, ds) && RecordedAlike(chainId, xs) && k in Replay(ds)
    ensures x in xs && RowKey(x) == k
  {
    ExecutionsDetermineTrades(chainId, xs, ds);
    assert Recorded(chainId, xs, k, Contents(Replay(ds))[k]);
    x :| x in xs && TradeRecord(chainId, x) == (k, Contents(Replay(ds))[k]);
  }

  /** An hour before the newest backfilled execution among the fills, or the liquidations; nothing if there is none. */
  ghost predicate NewestOf(rows: map<TradeKey, Row<TradeColumns, ()>>, xs: set<Execution>, fills: bool, w: Option<int>) {
    match w
    case None => forall x :: x in xs && x.Fill? == fills ==> !BackfilledExecution(rows, x)
    case Some(t) =>
      && (exists x :: x in xs && x.Fill? == fills && BackfilledExecution(rows, x) && x.ts * 1000 - 3_600_000 == t)
      && forall x :: x in xs && x.Fill? == fills && BackfilledExecution(rows, x) ==> x.ts * 1000 - 3_600_000 <= t
  }

  /** The watermark of trades is that of the newest backfilled fill, whatever is delivered and in whatever order. */
  lemma FillQueryFindsNewestFill(chainId: int, xs: set<Execution>, ds: seq<Delivery<TradeKey, TradeColumns, ()>>,
                                 w: Option<int>)
    requires DeliversExecutions(chainId, xs, ds) && RecordedAlike(chainId, xs)
    requires IsLatest(Replay(ds), SelectsFills, w)
    ensures NewestOf(Replay(ds), xs, true, w)
  {
    QueryFindsNewest(chainId, xs, ds, SelectsFills, true, w);
  }

  /** And that of liquidations is that of the newest backfilled liquidation. */
  lemma LiquidationQueryFindsNewest(chainId: int, xs: set<Execution>, ds: seq<Delivery<TradeKey, TradeColumns, ()>>,
                                    w: Option<int>)
    requires DeliversExecutions(chainId, xs, ds) && RecordedAlike(chainId, xs)
    requires IsLatest(Replay(ds), SelectsLiquidations, w)
    ensures NewestOf(Replay(ds), xs, false, w)
  {
    QueryFindsNewest(chainId, xs, ds, SelectsLiquidations, false, w);
  }

  lemma QueryFindsNewest(chainId: int, xs: set<Execution>, ds: seq<Delivery<TradeKey, TradeColumns, ()>>,
                         selects: TradeColumns -> bool, fills: bool, w: Option<int>)
    requires DeliversExecutions(chainId, xs, ds) && RecordedAlike(chainId, xs)
    requires selects == (if fills then SelectsFills else SelectsLiquidations) && IsLatest(Replay(ds), selects, w)
    ensures NewestOf(Replay(ds), xs, fills, w)
  {
    var rows := Replay(ds);
    forall x | x in xs
      ensures Eligible(rows, selects, RowKey(x)) <==> x.Fill? == fills && BackfilledExecution(rows, x)
      ensures RowKey(x) in rows && rows[RowKey(x)].timestamp == x.ts * 1000
    {
      SidesSelect(chainId, xs, ds, x);
    }
    if w.Some? {
      var k :| Eligible(rows, selects, k) && rows[k].timestamp - 3_600_000 == w.value;
      var x := RowHasExecution(chainId, xs, ds, k);
    }
  }

  /**
   * An order filled in several parts has one row only: it keeps the quantity, price and fee of the part delivered
   * first, and takes over nothing but the time of the part delivered last.
   */
  lemma OneOrderOneFill(chainId: int, x: Execution, rest: seq<Delivery<TradeKey, TradeColumns, ()>>, y: Execution,
                        d: Delivery<TradeKey, TradeColumns, ()>, last: Delivery<TradeKey, TradeColumns, ()>)
    requires x.Fill? && y.Fill? && x.trade.orderDigest == y.trade.orderDigest
    requires IsDelivery(chainId, x, d) && IsDelivery(chainId, y, last)
    ensures var rows := Contents(Replay([d] + rest + [last]));
            && RowKey(x) in rows
            && rows[RowKey(x)] == TradeRow(chainId, x).(timestamp := y.ts * 1000)
            && rows[RowKey(x)].fixed.quantity == x.trade.fAmount
  {
    assert [d] + rest + [last] == [d] + (rest + [last]);
    FirstFixedStays(d, rest + [last]);
    LastWriteWins([d] + rest, last);
  }

  datatype SettleEvent = SettleEvent(trader: string, perpetualId: int, amount: int, cash: int)
  datatype SettleKey = SettleKey(trader: string, perpetualId: int, txHash: string)
  datatype SettleAmounts = SettleAmounts(cash: int, quantity: int)

  /** A settlement overwrites its amounts as well. */
  function SettleDelivery(chainId: int, e: SettleEvent, txHash: string, byEvent: bool, ts: int, at: int)
    : Delivery<SettleKey, int, SettleAmounts>
  {
    Delivery(SettleKey(Lower(e.trader), e.perpetualId, Lower(txHash)), chainId,
             SettleAmounts(e.cash, e.amount - e.cash), ts * 1000, byEvent, at)
  }

  /** What was received is what was settled less the cash on the account, to the last unit, at the block's time. */
  lemma SettlementAddsUp(chainId: int, e: SettleEvent, txHash: string, byEvent: bool, ts: int, at: int)
    ensures var d := SettleDelivery(chainId, e, txHash, byEvent, ts, at);
            && d.latest.quantity + d.latest.cash == e.amount && d.latest.cash == e.cash
            && d.timestamp == ts * 1000 && d.isCollectedByEvent == byEvent && d.fixed == chainId
  {
  }

  /** Two settlements share a row exactly if trader and transaction agree up to case, and the perpetual. */
  lemma SameSettlementIff(chainId: int, e: SettleEvent, f: SettleEvent, tx: string, ux: string, ts: int, at: int)
    ensures SettleDelivery(chainId, e, tx, false, ts, at).key == SettleDelivery(chainId, f, ux, false, ts, at).key <==>
            Lower(e.trader) == Lower(f.trader) && e.perpetualId == f.perpetualId && Lower(tx) == Lower(ux)
  {
  }

  datatype FlowEvent = FlowEvent(trader: string, perpetualId: int, amountCC: int)
  datatype FlowKey = FlowKey(trader: string, perpetualId: int, txHash: string, deposit: bool)
  datatype FlowColumns = FlowColumns(chainId: int, amountCC: int)

  /** Withdrawals are stored with the sign turned. */
  function FlowDelivery(chainId: int, e: FlowEvent, deposit: bool, txHash: string, byEvent: bool, ts: int, at: int)
    : Delivery<FlowKey, FlowColumns, ()>
  {
    Delivery(FlowKey(Lower(e.trader), e.perpetualId, Lower(txHash), deposit),
             FlowColumns(chainId, if deposit then e.amountCC else -e.amountCC), (), ts * 1000, byEvent, at)
  }

  /** V1 and V2 events of one settlement share a row, and agree on it only if no cash was reported. */
  lemma SettleVersionsAgreeIff(chainId: int, e: SettleEvent, tx: string, byEvent: bool, ts: int, at: int)
    ensures Consistent([SettleDelivery(chainId, e.(cash := 0), tx, byEvent, ts, at),
                        SettleDelivery(chainId, e, tx, byEvent, ts, at)])
            <==> e.cash == 0
  {
    var v1, v2 := SettleDelivery(chainId, e.(cash := 0), tx, byEvent, ts, at),
                  SettleDelivery(chainId, e, tx, byEvent, ts, at);
    assert v1 in [v1, v2] && v2 in [v1, v2];
  }

  // ---------------------------------------------------------------- token-flow totals

  type FlowRows = map<FlowKey, Row<FlowColumns, ()>>

  /** The signed total over some of a table's rows. */
  ghost function SumOver(rows: FlowRows, keys: set<FlowKey>): int
    requires keys <= rows.Keys
  {
    if keys == {} then 0 else
      var k :| k in keys;
      rows[k].fixed.amountCC + SumOver(rows, keys - {k})
  }

  lemma {:induction false} SumSplits(rows: FlowRows, keys: set<FlowKey>, k: FlowKey)
    requires keys <= rows.Keys && k in keys
    ensures SumOver(rows, keys) == rows[k].fixed.amountCC + SumOver(rows, keys - {k})
    decreases keys
  {
    var j :| j in keys && SumOver(rows, keys) == rows[j].fixed.amountCC + SumOver(rows, keys - {j});
    if j != k {
      SumSplits(rows, keys - {j}, k);
      SumSplits(rows, keys - {k}, j);
      assert keys - {j} - {k} == keys - {k} - {j};
    }
  }

  lemma {:induction false} SumSame(x: FlowRows, y: FlowRows, keys: set<FlowKey>)
    requires keys <= x.Keys && keys <= y.Keys
    requires forall k :: k in keys ==> x[k].fixed.amountCC == y[k].fixed.amountCC
    ensures SumOver(x, keys) == SumOver(y, keys)
    decreases keys
  {
    if keys != {} {
      var k :| k in keys;
      SumSplits(x, keys, k);
      SumSplits(y, keys, k);
      SumSame(x, y, keys - {k});
    }
  }

  ghost function KeysOf(rows: FlowRows, trader: string, tx: string): set<FlowKey> {
    set k | k in rows && k.trader == trader && k.txHash == tx
  }

  /** A trader's net flow in one transaction. */
  ghost function NetFlow(rows: FlowRows, trader: string, tx: string): int {
    SumOver(rows, KeysOf(rows, trader, tx))
  }

  lemma UpsertMovesNetFlow(rows: FlowRows, d: Delivery<FlowKey, FlowColumns, ()>, trader: string, tx: string)
    ensures NetFlow(Upserted(rows, d), trader, tx) == NetFlow(rows, trader, tx)
            + if d.key !in rows && d.key.trader == trader && d.key.txHash == tx then d.fixed.amountCC else 0
  {
    var after := Upserted(rows, d);
    var keys := KeysOf(rows, trader, tx);
    SumSame(rows, after, keys);
    if d.key !in rows && d.key.trader == trader && d.key.txHash == tx {
      assert KeysOf(after, trader, tx) == keys + {d.key};
      SumSplits(after, keys + {d.key}, d.key);
      assert keys + {d.key} - {d.key} == keys;
    } else {
      assert KeysOf(after, trader, tx) == keys;
    }
  }

  /**
   * A deposit adds its amount to its trader's net flow in the transaction and a withdrawal takes its amount off, the
   * first time it is delivered; it moves nothing ever after, and no other trader's or transaction's flow.
   */
  lemma DeliveryMovesNetFlowOnce(rows: FlowRows, chainId: int, e: FlowEvent, deposit: bool, txHash: string,
                                 byEvent: bool, ts: int, at: int, trader: string, tx: string)
    ensures var d := FlowDelivery(chainId, e, deposit, txHash, byEvent, ts, at);
            NetFlow(Upserted(rows, d), trader, tx) == NetFlow(rows, trader, tx)
            + if d.key in rows || Lower(e.trader) != trader || Lower(txHash) != tx then 0
              else if deposit then e.amountCC
              else -e.amountCC
  {
    UpsertMovesNetFlow(rows, FlowDelivery(chainId, e, deposit, txHash, byEvent, ts, at), trader, tx);
  }

  /** A deposit or withdrawal as `insertTokenFlowRecord` is given it. */
  datatype Flow = Flow(event: FlowEvent, deposit: bool, tx: string, ts: int)

  predicate IsFlowDelivery(chainId: int, f: Flow, d: Delivery<FlowKey, FlowColumns, ()>) {
    d == FlowDelivery(chainId, f.event, f.deposit, f.tx, d.isCollectedByEvent, f.ts, d.at)
  }

  /** The flow's amount, if it is a deposit of the trader in the transaction; negative if it is a withdrawal. */
  function Signed(f: Flow, trader: string, tx: string): int {
    if Lower(f.event.trader) != trader || Lower(f.tx) != tx then 0
    else if f.deposit then f.event.amountCC
    else -f.event.amountCC
  }

  function FlowKeyOf(f: Flow): FlowKey {
    FlowKey(Lower(f.event.trader), f.event.perpetualId, Lower(f.tx), f.deposit)
  }

  /** The trader's deposits less withdrawals in the transaction, with every flow of the list. */
  function Total(fs: seq<Flow>, trader: string, tx: string): int {
    if fs == [] then 0 else Total(fs[..|fs| - 1], trader, tx) + Signed(fs[|fs| - 1], trader, tx)
  }

  predicate KeyOccurs(fs: seq<Flow>, k: FlowKey) {
    exists i :: 0 <= i < |fs| && FlowKeyOf(fs[i]) == k
  }

  /** The part of it that comes from flows whose key has occurred before. */
  function Repeated(fs: seq<Flow>, trader: string, tx: string): int {
    if fs == [] then 0
    else
      var front, last := fs[..|fs| - 1], fs[|fs| - 1];
      Repeated(front, trader, tx) + if KeyOccurs(front, FlowKeyOf(last)) then Signed(last, trader, tx) else 0
  }

  lemma {:induction false} KeysDelivered(chainId: int, fs: seq<Flow>, ds: seq<Delivery<FlowKey, FlowColumns, ()>>,
                                         k: FlowKey)
    requires |ds| == |fs| && forall i :: 0 <= i < |fs| ==> IsFlowDelivery(chainId, fs[i], ds[i])
    ensures k in Replay(ds) <==> KeyOccurs(fs, k)
  {
    if fs != [] {
      var n := |fs| - 1;
      assert IsFlowDelivery(chainId, fs[n], ds[n]);
      KeysDelivered(chainId, fs[..n], ds[..n], k);
      if i :| 0 <= i < n && FlowKeyOf(fs[..n][i]) == k { assert FlowKeyOf(fs[i]) == k; }
      if i :| 0 <= i < |fs| && FlowKeyOf(fs[i]) == k { assert i < n ==> FlowKeyOf(fs[..n][i]) == k; }
    }
  }

  /**
   * The net flow in the table is what was deposited less what was withdrawn, less every flow whose key has occurred
   * before: repeats of one flow, but also a second deposit of the trader and perpetual in the same transaction.
   */
  lemma {:induction false} NetFlowIsDepositsLessWithdrawals(
    chainId: int, fs: seq<Flow>, ds: seq<Delivery<FlowKey, FlowColumns, ()>>, trader: string, tx: string)
    requires |ds| == |fs| && forall i :: 0 <= i < |fs| ==> IsFlowDelivery(chainId, fs[i], ds[i])
    ensures NetFlow(Replay(ds), trader, tx) == Total(fs, trader, tx) - Repeated(fs, trader, tx)
  {
    if fs != [] {
      var n := |fs| - 1;
      NetFlowIsDepositsLessWithdrawals(chainId, fs[..n], ds[..n], trader, tx);
      assert IsFlowDelivery(chainId, fs[n], ds[n]);
      KeysDelivered(chainId, fs[..n], ds[..n], ds[n].key);
      UpsertMovesNetFlow(Replay(ds[..n]), ds[n], trader, tx);
    }
  }

  /** With different keys nothing is dropped. */
  lemma {:induction false} NothingRepeated(fs: seq<Flow>, trader: string, tx: string)
    requires forall i, j :: 0 <= i < j < |fs| ==> FlowKeyOf(fs[i]) != FlowKeyOf(fs[j])
    ensures Repeated(fs, trader, tx) == 0
  {
    if fs != [] { NothingRepeated(fs[..|fs| - 1], trader, tx); }
  }

  lemma OneFlow(f: Flow, trader: string, tx: string)
    ensures Total([f], trader, tx) == Signed(f, trader, tx) && Repeated([f], trader, tx) == 0
  {
    assert [f][..0] == [];
    assert Total([], trader, tx) == 0;
    NothingRepeated([f], trader, tx);
  }

  /** Two deposits, or two withdrawals, of one trader and perpetual in one transaction: only the first counts. */
  lemma SecondFlowIsDropped(chainId: int, f: Flow, g: Flow, d: Delivery<FlowKey, FlowColumns, ()>,
                            e: Delivery<FlowKey, FlowColumns, ()>, trader: string, tx: string)
    requires IsFlowDelivery(chainId, f, d) && IsFlowDelivery(chainId, g, e) && FlowKeyOf(f) == FlowKeyOf(g)
    ensures NetFlow(Replay([d, e]), trader, tx) == Signed(f, trader, tx)
    ensures NetFlow(Replay([d, e]), trader, tx) == Total([f, g], trader, tx) <==> Signed(g, trader, tx) == 0
  {
    assert [f, g][..1] == [f];
    OneFlow(f, trader, tx);
    assert KeyOccurs([f], FlowKeyOf(g)) by { assert FlowKeyOf([f][0]) == FlowKeyOf(g); }
    NetFlowIsDepositsLessWithdrawals(chainId, [f, g], [d, e], trader, tx);
  }

  /** Replays of the same deposits and withdrawals, in any order and number, leave the same net flows. */
  lemma NetFlowsDependOnEventsOnly(ds: seq<Delivery<FlowKey, FlowColumns, ()>>,
                                   es: seq<Delivery<FlowKey, FlowColumns, ()>>, trader: string, tx: string)
    requires Consistent(ds) && Consistent(es) && EventsWithin(ds, es) && EventsWithin(es, ds)
    ensures NetFlow(Replay(ds), trader, tx) == NetFlow(Replay(es), trader, tx)
  {
    SameEventsSameContents(ds, es);
    var x, y := Replay(ds), Replay(es);
    forall k ensures k in x <==> k in y { assert k in Contents(x) <==> k in Contents(y); }
    forall k | k in x ensures x[k].fixed == y[k].fixed { assert Contents(x)[k] == Contents(y)[k]; }
    assert KeysOf(x, trader, tx) == KeysOf(y, trader, tx);
    SumSame(x, y, KeysOf(x, trader, tx));
  }
}
