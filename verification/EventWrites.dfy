/** What the handlers of a backfill write for each event (`backfillRunner.ts`), and which watermark query reads it back. */
module EventWrites {
  import opened Chain
  import opened CrashResume
  import opened Prelude
  import opened Records
  import opened Tables

  /** The decoded arguments of a log; the tail is the part of a liquidation's position that enters its id. */
  datatype Payload =
    | TradeArgs(trade: TradeEvent)
    | LiquidateArgs(liquidation: LiquidateEvent, tail: string)
    | SettleArgs(settlement: SettleEvent)
    | FlowArgs(flow: FlowEvent)
    | OtherArgs

  /** A write to one of the three tables. */
  datatype Write =
    | ToTrades(trade: Delivery<TradeKey, TradeColumns, ()>)
    | ToSettlements(settlement: Delivery<SettleKey, int, SettleAmounts>)
    | ToTokenFlows(flow: Delivery<FlowKey, FlowColumns, ()>)

  /** Where a log comes from. */
  datatype Origin = Origin(chainId: int, tx: string, block: nat, ts: int)

  /** The arguments are those of the event. */
  predicate Fits(name: EventName, p: Payload) {
    match name
    case Trade => p.TradeArgs?
    case Liquidate => p.LiquidateArgs?
    case Settle => p.SettleArgs?
    case SettleV2 => p.SettleArgs?
    case TokensDeposited => p.FlowArgs?
    case TokensWithdrawn => p.FlowArgs?
    case _ => p.OtherArgs?
  }

  /** The handler of each event; the first version of a settlement reports no cash. */
  function WriteOf(name: EventName, p: Payload, o: Origin, byEvent: bool, at: int): Option<Write>
    requires Fits(name, p)
  {
    match name
    case Trade => Some(ToTrades(TradeDelivery(o.chainId, p.trade, o.tx, byEvent, o.ts, at)))
    case Liquidate =>
      Some(ToTrades(LiquidationDelivery(o.chainId, p.liquidation, p.tail, o.tx, byEvent, o.ts, o.block, at)))
    case Settle => Some(ToSettlements(SettleDelivery(o.chainId, p.settlement.(cash := 0), o.tx, byEvent, o.ts, at)))
    case SettleV2 => Some(ToSettlements(SettleDelivery(o.chainId, p.settlement, o.tx, byEvent, o.ts, at)))
    case TokensDeposited => Some(ToTokenFlows(FlowDelivery(o.chainId, p.flow, true, o.tx, byEvent, o.ts, at)))
    case TokensWithdrawn => Some(ToTokenFlows(FlowDelivery(o.chainId, p.flow, false, o.tx, byEvent, o.ts, at)))
    case _ => None
  }

  /** The watermark query of the group selects the row that is written. */
  predicate ReadBackBy(g: Group, w: Write) {
    match g
    case Trades => w.ToTrades? && SelectsFills(w.trade.fixed)
    case Liquidations => w.ToTrades? && SelectsLiquidations(w.trade.fixed)
    case Settlements => w.ToSettlements?
    case TokenFlows => w.ToTokenFlows?
  }

  /** An event belongs to a group of the crash-and-resume machine iff what it writes is read back by the group's query. */
  lemma GroupReadsBack(name: EventName, p: Payload, o: Origin, byEvent: bool, at: int, g: Group)
    requires Fits(name, p)
    ensures GroupOf(name) == Some(g) <==>
            WriteOf(name, p, o, byEvent, at).Some? && ReadBackBy(g, WriteOf(name, p, o, byEvent, at).value)
  {
  }

  /** The six events that are written to the three tables are just those that the machine follows. */
  lemma WrittenIff(name: EventName, p: Payload, o: Origin, byEvent: bool, at: int)
    requires Fits(name, p)
    ensures WriteOf(name, p, o, byEvent, at).Some? <==>
            name in {Trade, Liquidate, Settle, SettleV2, TokensDeposited, TokensWithdrawn}
    ensures WriteOf(name, p, o, byEvent, at).Some? <==> GroupOf(name).Some?
  {
  }

  /** The two writes go to one table and are read back by one query. */
  predicate Together(v: Write, w: Write) {
    match v
    case ToTrades(d) => w.ToTrades? && (SelectsFills(d.fixed) <==> SelectsFills(w.trade.fixed))
    case ToSettlements(_) => w.ToSettlements?
    case ToTokenFlows(_) => w.ToTokenFlows?
  }

  /** Two events share a group iff their rows go to the same table, and there to the same kind of row. */
  lemma SameGroupIff(x: EventName, p: Payload, o: Origin, y: EventName, q: Payload, r: Origin, at: int)
    requires Fits(x, p) && Fits(y, q)
    requires x in {Trade, Liquidate, Settle, SettleV2, TokensDeposited, TokensWithdrawn}
    requires y in {Trade, Liquidate, Settle, SettleV2, TokensDeposited, TokensWithdrawn}
    ensures WriteOf(x, p, o, false, at).Some? && WriteOf(y, q, r, false, at).Some?
    ensures GroupOf(x) == GroupOf(y) <==> Together(WriteOf(x, p, o, false, at).value, WriteOf(y, q, r, false, at).value)
  {
  }

  /** Every write carries the block's time, the hash in lower case, and whether a backfill made it. */
  lemma WriteIsStamped(name: EventName, p: Payload, o: Origin, byEvent: bool, at: int)
    requires Fits(name, p) && WriteOf(name, p, o, byEvent, at).Some?
    ensures match WriteOf(name, p, o, byEvent, at).value
            case ToTrades(d) => d.timestamp == o.ts * 1000 && d.isCollectedByEvent == byEvent && d.fixed.txHash == Lower(o.tx)
            case ToSettlements(d) =>
              d.timestamp == o.ts * 1000 && d.isCollectedByEvent == byEvent && d.key.txHash == Lower(o.tx)
            case ToTokenFlows(d) =>
              d.timestamp == o.ts * 1000 && d.isCollectedByEvent == byEvent && d.key.txHash == Lower(o.tx)
  {
  }

  /** Deposits count up and withdrawals down; the first version of a settlement gives its whole amount as quantity. */
  lemma AmountsOf(p: Payload, o: Origin, byEvent: bool, at: int)
    ensures p.FlowArgs? ==>
              && WriteOf(TokensDeposited, p, o, byEvent, at).value.flow.fixed.amountCC == p.flow.amountCC
              && WriteOf(TokensWithdrawn, p, o, byEvent, at).value.flow.fixed.amountCC == -p.flow.amountCC
    ensures p.SettleArgs? ==>
              && WriteOf(Settle, p, o, byEvent, at).value.settlement.latest == SettleAmounts(0, p.settlement.amount)
              && WriteOf(SettleV2, p, o, byEvent, at).value.settlement.latest
                 == SettleAmounts(p.settlement.cash, p.settlement.amount - p.settlement.cash)
  {
  }
}
