/** One history backfill: watermarks, start date, start block, scan and filter (`backfillRunner.ts`). */
module Backfill {
  import opened Chain
  import opened BlockSearch
  import opened LogScan
  import opened Prelude

  /** What the eight watermark queries return, in milliseconds. */
  datatype Watermarks = Watermarks(
    trade: Option<int>, liquidate: Option<int>, settle: Option<int>, tokenFlow: Option<int>,
    funding: Option<int>, earnings: Option<int>, lpWithdrawal: Option<int>, oracle: Option<int>)
  {
    /** The query that an event's watermark comes from. */
    function Of(name: EventName): Option<int> {
      match name
      case Trade => trade
      case Liquidate => liquidate
      case Settle => settle
      case SettleV2 => settle
      case TokensDeposited => tokenFlow
      case TokensWithdrawn => tokenFlow
      case UpdateMarginAccount => funding
      case LiquidityAdded => earnings
      case LiquidityRemoved => earnings
      case LiquidityWithdrawalInitiated => lpWithdrawal
      case SetOracles => oracle
    }
  }

  /** The map holds exactly the watermarks known to w. */
  ghost predicate Represents(m: map<EventName, int>, w: Watermarks) {
    forall n: EventName :: if w.Of(n).Some? then n in m && m[n] == w.Of(n).value else n !in m
  }

  /** The order in which the map is filled. */
  function Rank(name: EventName): (k: nat)
    ensures k < 11
  {
    match name
    case Trade => 0
    case Liquidate => 1
    case Settle => 2
    case SettleV2 => 3
    case TokensDeposited => 4
    case TokensWithdrawn => 5
    case UpdateMarginAccount => 6
    case LiquidityAdded => 7
    case LiquidityRemoved => 8
    case LiquidityWithdrawalInitiated => 9
    case SetOracles => 10
  }

  /** The map holds exactly the known watermarks among the first k events. */
  ghost predicate Holds(m: map<EventName, int>, w: Watermarks, k: nat) {
    forall n: EventName :: if Rank(n) < k && w.Of(n).Some? then n in m && m[n] == w.Of(n).value else n !in m
  }

  method SetIfKnown(m: map<EventName, int>, name: EventName, ts: Option<int>, ghost w: Watermarks)
    returns (r: map<EventName, int>)
    requires Holds(m, w, Rank(name)) && ts == w.Of(name)
    ensures Holds(r, w, Rank(name) + 1)
  {
    r := if ts.Some? then m[name := ts.value] else m;
  }

  /** The event's entry is the watermark, if there is one. */
  predicate Entry(m: map<EventName, int>, name: EventName, ts: Option<int>) {
    if ts.Some? then name in m && m[name] == ts.value else name !in m
  }

  /** The map of event watermarks, filled query by query. */
  method EventTimestamps(w: Watermarks) returns (m: map<EventName, int>)
    ensures Represents(m, w)
    ensures Entry(m, Trade, w.trade) && Entry(m, Liquidate, w.liquidate)
    ensures Entry(m, Settle, w.settle) && Entry(m, SettleV2, w.settle)
    ensures Entry(m, TokensDeposited, w.tokenFlow) && Entry(m, TokensWithdrawn, w.tokenFlow)
    ensures Entry(m, UpdateMarginAccount, w.funding)
    ensures Entry(m, LiquidityAdded, w.earnings) && Entry(m, LiquidityRemoved, w.earnings)
    ensures Entry(m, LiquidityWithdrawalInitiated, w.lpWithdrawal) && Entry(m, SetOracles, w.oracle)
  {
    m := map[];
    m := SetIfKnown(m, Trade, w.trade, w);
    m := SetIfKnown(m, Liquidate, w.liquidate, w);
    m := SetIfKnown(m, Settle, w.settle, w);
    m := SetIfKnown(m, SettleV2, w.settle, w);
    m := SetIfKnown(m, TokensDeposited, w.tokenFlow, w);
    m := SetIfKnown(m, TokensWithdrawn, w.tokenFlow, w);
    m := SetIfKnown(m, UpdateMarginAccount, w.funding, w);
    m := SetIfKnown(m, LiquidityAdded, w.earnings, w);
    m := SetIfKnown(m, LiquidityRemoved, w.earnings, w);
    m := SetIfKnown(m, LiquidityWithdrawalInitiated, w.lpWithdrawal, w);
    m := SetIfKnown(m, SetOracles, w.oracle, w);
  }

  /** The earliest of the watermarks and the default date. */
  ghost predicate IsStartDate(m: map<EventName, int>, defaultMs: int, ts: int) {
    && ts <= defaultMs
    && (forall n :: n in m ==> ts <= m[n])
    && (ts == defaultMs || exists n :: n in m && ts == m[n])
  }

  /** There is one start date, the default one if nothing is older. */
  lemma StartDateUnique(m: map<EventName, int>, defaultMs: int, ts: int, ts': int)
    requires IsStartDate(m, defaultMs, ts) && IsStartDate(m, defaultMs, ts')
    ensures ts == ts'
    ensures ts == defaultMs <==> forall n :: n in m ==> defaultMs <= m[n]
  {
  }

  lemma StartDateStep(m: map<EventName, int>, n: EventName, t: int, defaultMs: int, ts: int)
    requires IsStartDate(m, defaultMs, ts) && n !in m
    ensures IsStartDate(m[n := t], defaultMs, if t < ts then t else ts)
  {
    if ts != defaultMs && ts <= t {
      var k :| k in m && ts == m[k];
      assert k in m[n := t] && m[n := t][k] == ts;
    }
    assert m[n := t][n] == t;
  }

  method StartDate(m: map<EventName, int>, defaultMs: int) returns (ts: int)
    ensures IsStartDate(m, defaultMs, ts)
  {
    ts := defaultMs;
    var todo := m.Keys;
    while todo != {}
      invariant todo <= m.Keys
      invariant IsStartDate(map n | n in m && n !in todo :: m[n], defaultMs, ts)
      decreases todo
    {
      var n :| n in todo;
      ghost var seen := map k | k in m && k !in todo :: m[k];
      todo := todo - {n};
      assert (map k | k in m && k !in todo :: m[k]) == seen[n := m[n]];
      StartDateStep(seen, n, m[n], defaultMs, ts);
      if m[n] < ts { ts := m[n]; }
    }
    assert (map n | n in m && n !in todo :: m[n]) == m;
  }

  /** The oldest time of an event that a run is answerable for. */
  function Threshold(m: map<EventName, int>, defaultMs: int, name: EventName): int {
    if name in m then m[name] else defaultMs
  }

  // ---------------------------------------------------------------- the filter

  lemma {:induction false} KeptMembers(watermarks: map<EventName, int>, sent: seq<Sent>)
    ensures forall x :: x in Kept(watermarks, sent) <==> x in sent && !UpToDate(watermarks, x)
  {
    if sent != [] {
      KeptMembers(watermarks, sent[..|sent| - 1]);
      assert sent == sent[..|sent| - 1] + [sent[|sent| - 1]];
    }
  }

  lemma {:induction false} KeptOrdered(watermarks: map<EventName, int>, sent: seq<Sent>)
    requires Ordered(sent)
    ensures Ordered(Kept(watermarks, sent))
  {
    if sent != [] {
      var front, last := sent[..|sent| - 1], sent[|sent| - 1];
      KeptOrdered(watermarks, front);
      KeptMembers(watermarks, front);
      var kept := Kept(watermarks, front);
      forall k | 0 <= k < |kept| ensures Before(kept[k].log, last.log) {
        assert kept[k] in front;
        var j :| 0 <= j < |front| && front[j] == kept[k];
        assert Before(sent[j].log, sent[|sent| - 1].log);
      }
    }
  }

  /** The handler calls of a run that scans from `start` to the head. */
  function Handled(c: Chain, m: map<EventName, int>, skip: bool, start: nat, replies: seq<Reply>): seq<Sent>
    requires Known(c, c.logs) && c.times != []
  {
    Kept(if skip then m else map[], Scan(c, c.Head(), Init(start), replies).state.sent)
  }

  /** In chain order, so at most once each, and with skipping on nothing older than its watermark. */
  ghost predicate Orderly(m: map<EventName, int>, skip: bool, handled: seq<Sent>) {
    && Ordered(handled)
    && (skip ==> forall x :: x in handled && x.log.name in m ==> x.ts * 1000 >= m[x.log.name])
  }

  /** Every log below the head that is not older than its threshold has been handed over. */
  ghost predicate Complete(c: Chain, m: map<EventName, int>, defaultMs: int, handled: seq<Sent>)
    requires c.Valid()
  {
    forall log :: log in c.logs && log.block < c.Head() && c.TimeMs(log) >= Threshold(m, defaultMs, log.name) ==>
      Sent(log, c.times[log.block]) in handled
  }

  /** However a run goes, cut and failed runs included. */
  lemma RunIsOrderly(c: Chain, m: map<EventName, int>, skip: bool, start: nat, replies: seq<Reply>)
    requires c.Valid() && start <= c.Head()
    ensures Orderly(m, skip, Handled(c, m, skip, start, replies))
    ensures Genuine(c, Handled(c, m, skip, start, replies), start, |c.times|)
  {
    var sent := Scan(c, c.Head(), Init(start), replies).state.sent;
    ScanSendsAtMostOnce(c, start, c.Head(), replies);
    KeptMembers(if skip then m else map[], sent);
    KeptOrdered(if skip then m else map[], sent);
    var handled := Handled(c, m, skip, start, replies);
    forall k | 0 <= k < |handled| ensures handled[k] in sent {
      assert handled[k] in handled;
    }
  }

  lemma SentIffAsked(c: Chain, start: nat, replies: seq<Reply>, log: Log)
    requires c.Valid() && start <= c.Head() && log in c.logs && log.block < c.Head()
    requires var o := Scan(c, c.Head(), Init(start), replies); o.exit.Finished? && !o.state.dropped
    ensures Sent(log, c.times[log.block]) in Scan(c, c.Head(), Init(start), replies).state.sent <==> start <= log.block
  {
    var o := Scan(c, c.Head(), Init(start), replies);
    ScanSendsAtMostOnce(c, start, c.Head(), replies);
    if start <= log.block {
      var asked := Asked(c, start, c.Head(), o.state);
      ScanCompleteIff(c, start, c.Head(), replies);
      assert log in asked;
      var k :| 0 <= k < |asked| && asked[k] == log;
      assert Stamped(c, asked)[k] == Sent(log, c.times[log.block]);
    }
  }

  /** Which logs below the head such a run hands over: all from its start block on that it does not skip. */
  lemma HandedOverIff(c: Chain, m: map<EventName, int>, skip: bool, start: nat, replies: seq<Reply>, log: Log)
    requires c.Valid() && start <= c.Head() && log in c.logs && log.block < c.Head()
    requires var o := Scan(c, c.Head(), Init(start), replies); o.exit.Finished? && !o.state.dropped
    ensures Sent(log, c.times[log.block]) in Handled(c, m, skip, start, replies) <==>
            start <= log.block && !(skip && log.name in m && c.TimeMs(log) < m[log.name])
  {
    SentIffAsked(c, start, replies, log);
    KeptMembers(if skip then m else map[], Scan(c, c.Head(), Init(start), replies).state.sent);
  }

  /** A finished run in which no `saveEvents` threw is complete, from any safe start block for its start date. */
  lemma RunIsComplete(c: Chain, m: map<EventName, int>, defaultMs: int, skip: bool, ts: int, start: nat,
                      replies: seq<Reply>)
    requires c.Valid() && IsStartDate(m, defaultMs, ts) && SafeStart(c.times, ts, start)
    requires var o := Scan(c, c.Head(), Init(start), replies); o.exit.Finished? && !o.state.dropped
    ensures Complete(c, m, defaultMs, Handled(c, m, skip, start, replies))
    ensures !skip ==> forall log :: log in c.logs && log.block < c.Head() && c.TimeMs(log) >= ts ==>
              Sent(log, c.times[log.block]) in Handled(c, m, skip, start, replies)
  {
    NothingMissedBelow(c, ts, start);
    forall log | log in c.logs && log.block < c.Head() && c.TimeMs(log) >= ts
      ensures start <= log.block
      ensures !(skip && log.name in m && c.TimeMs(log) < m[log.name]) ==>
                Sent(log, c.times[log.block]) in Handled(c, m, skip, start, replies)
    {
      HandedOverIff(c, m, skip, start, replies, log);
    }
  }

  /**
   * `runHistoricalDataFilterers` for the proxy events: the run's handler calls are orderly however it ends,
   * and complete if it finishes without a throw out of `saveEvents`.
   */
  method RunHistoricalDataFilterers(c: Chain, w: Watermarks, startTimestampSec: int, skipUpToDate: bool,
                                    replies: seq<Reply>)
    returns (exit: Exit, handled: seq<Sent>, m: map<EventName, int>, ghost start: nat, ghost dropped: bool)
    requires c.Valid()
    ensures Represents(m, w)
    ensures exists ts :: IsStartDate(m, startTimestampSec * 1000, ts) && SafeStart(c.times, ts, start)
    ensures handled == Handled(c, m, skipUpToDate, start, replies)
    ensures var o := Scan(c, c.Head(), Init(start), replies); exit == o.exit && dropped == o.state.dropped
    ensures Orderly(m, skipUpToDate, handled) && Genuine(c, handled, start, |c.times|)
    ensures exit.Finished? && !dropped ==> Complete(c, m, startTimestampSec * 1000, handled)
    ensures Mild(replies) ==> !exit.Failed? && !dropped
  {
    var defaultDate := startTimestampSec * 1000;
    m := EventTimestamps(w);
    var ts := StartDate(m, defaultDate);
    var fromBlock, head, _, _, _ := CalculateBlockFromTime(c, ts, true);
    start := fromBlock;
    var hd := new Filterer(c, if skipUpToDate then m else map[], replies);
    ghost var state;
    exit, state := hd.GenericFilterer(fromBlock, head);
    handled, dropped := hd.handled, state.dropped;
    RunIsOrderly(c, m, skipUpToDate, start, replies);
    if exit.Finished? && !dropped {
      RunIsComplete(c, m, defaultDate, skipUpToDate, ts, start, replies);
    }
    if Mild(replies) {
      MildScanLosesNothing(c, head, Init(start), replies);
    }
  }
}
