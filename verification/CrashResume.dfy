/**
 * Backfills that overlap, throw and die in crashes, with writes that finish in any order, against the
 * watermarks that the next run reads back from the tables.
 */
module CrashResume {
  import opened Chain
  import opened BlockSearch
  import opened LogScan
  import opened Backfill
  import opened Prelude
  import opened Tables

  /** The tables whose watermark is the newest backfilled row less one hour. */
  datatype Group = Trades | Liquidations | Settlements | TokenFlows

  const OVERLAP_MS := 3_600_000

  function GroupOf(name: EventName): Option<Group> {
    match name
    case Trade => Some(Trades)
    case Liquidate => Some(Liquidations)
    case Settle => Some(Settlements)
    case SettleV2 => Some(Settlements)
    case TokensDeposited => Some(TokenFlows)
    case TokensWithdrawn => Some(TokenFlows)
    case _ => None
  }

  /** The events of each table. */
  predicate InTable(g: Group, name: EventName) {
    match g
    case Trades => name == Trade
    case Liquidations => name == Liquidate
    case Settlements => name == Settle || name == SettleV2
    case TokenFlows => name == TokensDeposited || name == TokensWithdrawn
  }

  lemma TableOfEvent(g: Group, name: EventName)
    ensures GroupOf(name) == Some(g) <==> InTable(g, name)
  {
  }

  type RowKey = (Group, nat)
  type Rows = map<RowKey, Row<(), ()>>

  function KeyOf(log: Log): RowKey
    requires GroupOf(log.name).Some?
  {
    (GroupOf(log.name).value, log.key)
  }

  /** A backfill under way: its watermarks, and the position of the next log in the chain's log list. */
  datatype Run = Run(m: map<EventName, int>, skip: bool, head: nat, pos: nat)

  /**
   * `pending` are the logs handed to a write that has not finished; `horizon` counts the logs that lay
   * below the head of a run that has finished since the last crash.
   */
  datatype World = World(rows: Rows, pending: multiset<nat>, runs: map<nat, Run>, horizon: nat)

  ghost predicate BackfilledRow(rows: Rows, k: RowKey, g: Group) {
    k in rows && k.0 == g && !rows[k].isCollectedByEvent
  }

  /** What the watermark queries of the four tables return for these rows; other events may have any. */
  ghost predicate Queried(rows: Rows, m: map<EventName, int>) {
    forall n: EventName :: GroupOf(n).Some? ==> IsWatermark(rows, m, n)
  }

  ghost predicate IsWatermark(rows: Rows, m: map<EventName, int>, n: EventName)
    requires GroupOf(n).Some?
  {
    var g := GroupOf(n).value;
    && (n !in m <==> forall k :: !BackfilledRow(rows, k, g))
    && (n in m ==> exists k :: BackfilledRow(rows, k, g) && m[n] == rows[k].timestamp - OVERLAP_MS)
    && (n in m ==> forall k :: BackfilledRow(rows, k, g) ==> rows[k].timestamp - OVERLAP_MS <= m[n])
  }

  // ---------------------------------------------------------------- steps

  ghost predicate Start(c: Chain, s: World, t: World, id: nat, m: map<EventName, int>, skip: bool,
                        defaultMs: int, ts: int, start: nat, head: nat) {
    && id !in s.runs && Queried(s.rows, m) && IsStartDate(m, defaultMs, ts)
    && SafeStart(c.times, ts, start) && start <= head < |c.times|
    && t == s.(runs := s.runs[id := Run(m, skip, head, CountBelow(c.logs, start))])
  }

  /** The next log is handed to its write, or skipped as older than its watermark. */
  ghost predicate Dispatch(c: Chain, s: World, t: World, id: nat) {
    && id in s.runs && s.runs[id].pos < |c.logs|
    && var r := s.runs[id];
    var log := c.logs[r.pos];
    && log.block <= r.head && log.block < |c.times|
    && var skipped := GroupOf(log.name).None? || (r.skip && log.name in r.m && c.TimeMs(log) < r.m[log.name]);
    t == s.(runs := s.runs[id := r.(pos := r.pos + 1)],
            pending := if skipped then s.pending else s.pending + multiset{r.pos})
  }

  function Stored(c: Chain, rows: Rows, j: nat, byEvent: bool, at: int): Rows
    requires Known(c, c.logs) && j < |c.logs| && GroupOf(c.logs[j].name).Some?
  {
    Upserted(rows, Delivery(KeyOf(c.logs[j]), (), (), c.TimeMs(c.logs[j]), byEvent, at))
  }

  /** A backfill's write finishes. */
  ghost predicate Write(c: Chain, s: World, t: World, j: nat, at: int)
    requires Known(c, c.logs)
  {
    && j in s.pending && j < |c.logs| && GroupOf(c.logs[j].name).Some?
    && t == s.(rows := Stored(c, s.rows, j, false, at), pending := s.pending - multiset{j})
  }

  /** The live listener writes any log. */
  ghost predicate Live(c: Chain, s: World, t: World, j: nat, at: int)
    requires Known(c, c.logs)
  {
    && j < |c.logs| && GroupOf(c.logs[j].name).Some?
    && t == s.(rows := Stored(c, s.rows, j, true, at))
  }

  /** A run throws; writes it has started go on. */
  ghost predicate Abort(s: World, t: World, id: nat) {
    id in s.runs && t == s.(runs := s.runs - {id})
  }

  /** A run has passed every log below its head. */
  ghost predicate Finish(c: Chain, s: World, t: World, id: nat) {
    && id in s.runs && CountBelow(c.logs, s.runs[id].head) <= s.runs[id].pos
    && t == s.(runs := s.runs - {id}, horizon := Max(s.horizon, CountBelow(c.logs, s.runs[id].head)))
  }

  /** The process dies with all its runs and unfinished writes. */
  ghost predicate Crash(s: World, t: World) {
    t == World(s.rows, multiset{}, map[], 0)
  }

  /** The table's events have no watermark: none of its rows was backfilled. */
  predicate Unmarked(g: Group, m: map<EventName, int>) {
    exists n: EventName :: GroupOf(n) == Some(g) && n !in m
  }

  /** A run that starts while the table has no watermark has no missing log of the table below its start block. */
  ghost predicate PassesNone(c: Chain, g: Group, sinceMs: int, s: World, m: map<EventName, int>, start: nat) {
    Unmarked(g, m) ==>
      forall j: nat | Relevant(c, g, sinceMs, j) && c.logs[j].block < start :: Covered(c, s, j)
  }

  /** Every log of the table whose write is lost lies within one hour of the table's newest backfilled row. */
  ghost predicate LossesRecent(c: Chain, g: Group, sinceMs: int, s: World) {
    forall j: nat, k | Relevant(c, g, sinceMs, j) && j in s.pending
                  && KeyOf(c.logs[j]) !in s.rows && BackfilledRow(s.rows, k, g) ::
      s.rows[k].timestamp - c.TimeMs(c.logs[j]) <= OVERLAP_MS
  }

  ghost predicate StartsSafely(c: Chain, g: Group, sinceMs: int, s: World, t: World) {
    exists id, m, skip, defaultMs, ts, start, head ::
      Start(c, s, t, id, m, skip, defaultMs, ts, start, head) && PassesNone(c, g, sinceMs, s, m, start)
  }

  ghost predicate Dispatches(c: Chain, s: World, t: World) {
    exists id :: Dispatch(c, s, t, id)
  }

  ghost predicate Writes(c: Chain, s: World, t: World)
    requires Known(c, c.logs)
  {
    exists j, at :: Write(c, s, t, j, at) || Live(c, s, t, j, at)
  }

  ghost predicate Leaves(c: Chain, s: World, t: World) {
    exists id :: Abort(s, t, id) || Finish(c, s, t, id)
  }

  /** A step of the service in which starting runs pass over no log of the table, and its losses are recent. */
  ghost predicate Next(c: Chain, g: Group, sinceMs: int, s: World, t: World)
    requires Known(c, c.logs)
  {
    || StartsSafely(c, g, sinceMs, s, t)
    || Dispatches(c, s, t)
    || Writes(c, s, t)
    || Leaves(c, s, t)
    || (Crash(s, t) && LossesRecent(c, g, sinceMs, s))
  }

  // ---------------------------------------------------------------- the invariant

  /** A log of the table, not older than `since`. */
  predicate Relevant(c: Chain, g: Group, sinceMs: int, j: nat) {
    && j < |c.logs| && c.logs[j].block < |c.times|
    && GroupOf(c.logs[j].name) == Some(g) && sinceMs <= c.TimeMs(c.logs[j])
  }

  predicate Covered(c: Chain, s: World, j: nat)
    requires j < |c.logs| && GroupOf(c.logs[j].name).Some?
  {
    KeyOf(c.logs[j]) in s.rows || j in s.pending
  }

  /** Whatever is more than an hour older than a backfilled row of its table is covered. */
  ghost predicate BehindRows(c: Chain, g: Group, sinceMs: int, s: World) {
    forall j: nat, k | Relevant(c, g, sinceMs, j) && BackfilledRow(s.rows, k, GroupOf(c.logs[j].name).value)
                  && c.TimeMs(c.logs[j]) < s.rows[k].timestamp - OVERLAP_MS :: Covered(c, s, j)
  }

  /** Whatever a run has passed, or will skip, is covered. */
  ghost predicate BehindRuns(c: Chain, g: Group, sinceMs: int, s: World) {
    forall id: nat, j: nat | id in s.runs && Relevant(c, g, sinceMs, j) && Behind(c, s.runs[id], j) :: Covered(c, s, j)
  }

  predicate Behind(c: Chain, r: Run, j: nat)
    requires j < |c.logs| && c.logs[j].block < |c.times|
  {
    j < r.pos || (c.logs[j].name in r.m && c.TimeMs(c.logs[j]) < r.m[c.logs[j].name])
  }

  /** Whatever is older than an unfinished write is covered. */
  ghost predicate BehindWrites(c: Chain, g: Group, sinceMs: int, s: World) {
    forall j: nat, p: nat | Relevant(c, g, sinceMs, j) && p in s.pending && p < |c.logs| && c.logs[p].block < |c.times|
                  && c.TimeMs(c.logs[j]) < c.TimeMs(c.logs[p]) :: Covered(c, s, j)
  }

  ghost predicate BehindHorizon(c: Chain, g: Group, sinceMs: int, s: World) {
    forall j: nat :: Relevant(c, g, sinceMs, j) && j < s.horizon ==> Covered(c, s, j)
  }

  ghost predicate Inv(c: Chain, g: Group, sinceMs: int, s: World) {
    BehindRows(c, g, sinceMs, s) && BehindRuns(c, g, sinceMs, s) && BehindWrites(c, g, sinceMs, s)
    && BehindHorizon(c, g, sinceMs, s)
  }

  /** A run that starts finds everything covered that it will not hand over. */
  lemma BehindStart(c: Chain, g: Group, sinceMs: int, s: World, m: map<EventName, int>, ts: int, start: nat, r: Run,
                    j: nat)
    requires c.Valid() && BehindRows(c, g, sinceMs, s) && Queried(s.rows, m) && PassesNone(c, g, sinceMs, s, m, start)
    requires SafeStart(c.times, ts, start) && start < |c.times|
    requires forall n :: n in m ==> ts <= m[n]
    requires r.m == m && r.pos == CountBelow(c.logs, start)
    requires Relevant(c, g, sinceMs, j) && Behind(c, r, j)
    ensures Covered(c, s, j)
  {
    var log := c.logs[j];
    CountBelowSplits(c.logs, start);
    if log.name in m {
      if log.block < start {
        assert c.times[log.block] <= c.times[start];
        assert c.TimeMs(log) < ts;
      }
      assert IsWatermark(s.rows, m, log.name);
      var k :| BackfilledRow(s.rows, k, g) && m[log.name] == s.rows[k].timestamp - OVERLAP_MS;
    }
  }

  /** So it is with a start date that is not after `since`. */
  lemma EarlyStartPassesNone(c: Chain, g: Group, sinceMs: int, s: World, m: map<EventName, int>, ts: int, start: nat)
    requires c.Valid() && SafeStart(c.times, ts, start) && start < |c.times|
    requires Unmarked(g, m) ==> ts <= sinceMs
    ensures PassesNone(c, g, sinceMs, s, m, start)
  {
    forall j: nat | Relevant(c, g, sinceMs, j) && c.logs[j].block < start ensures !Unmarked(g, m) {
      assert c.times[c.logs[j].block] <= c.times[start];
    }
  }

  lemma RunJoins(c: Chain, g: Group, sinceMs: int, s: World, id: nat, r: Run)
    requires c.Valid() && Inv(c, g, sinceMs, s)
    requires forall j: nat | Relevant(c, g, sinceMs, j) && Behind(c, r, j) :: Covered(c, s, j)
    ensures Inv(c, g, sinceMs, s.(runs := s.runs[id := r]))
  {
    var t := s.(runs := s.runs[id := r]);
    forall j: nat | Relevant(c, g, sinceMs, j) && Covered(c, s, j) ensures Covered(c, t, j) { }
  }

  lemma StartKeeps(c: Chain, g: Group, sinceMs: int, s: World, t: World, id: nat, m: map<EventName, int>, skip: bool,
                   defaultMs: int, ts: int, start: nat, head: nat)
    requires c.Valid() && Inv(c, g, sinceMs, s)
    requires Start(c, s, t, id, m, skip, defaultMs, ts, start, head) && PassesNone(c, g, sinceMs, s, m, start)
    ensures Inv(c, g, sinceMs, t)
  {
    var r := t.runs[id];
    forall j: nat | Relevant(c, g, sinceMs, j) && Behind(c, r, j) ensures Covered(c, s, j) {
      BehindStart(c, g, sinceMs, s, m, ts, start, r, j);
    }
    RunJoins(c, g, sinceMs, s, id, r);
  }

  lemma DispatchCovers(c: Chain, s: World, t: World, id: nat, j: nat)
    requires c.Valid() && Dispatch(c, s, t, id) && j < |c.logs| && GroupOf(c.logs[j].name).Some? && Covered(c, s, j)
    ensures Covered(c, t, j)
  {
  }

  /** Whatever is older than the log handed over has been passed, and the log itself is covered from now on. */
  lemma DispatchPasses(c: Chain, g: Group, sinceMs: int, s: World, t: World, id: nat, j: nat)
    requires c.Valid() && BehindRuns(c, g, sinceMs, s) && Dispatch(c, s, t, id) && Relevant(c, g, sinceMs, j)
    requires j <= s.runs[id].pos || c.TimeMs(c.logs[j]) < c.TimeMs(c.logs[s.runs[id].pos])
    ensures Covered(c, t, j)
  {
    if j != s.runs[id].pos || j !in t.pending {
      assert Behind(c, s.runs[id], j);
      DispatchCovers(c, s, t, id, j);
    }
  }

  lemma DispatchKeeps(c: Chain, g: Group, sinceMs: int, s: World, t: World, id: nat)
    requires c.Valid() && Inv(c, g, sinceMs, s) && Dispatch(c, s, t, id)
    ensures Inv(c, g, sinceMs, t)
  {
    forall j: nat | Relevant(c, g, sinceMs, j) && Covered(c, s, j) ensures Covered(c, t, j) {
      DispatchCovers(c, s, t, id, j);
    }
    forall j: nat | Relevant(c, g, sinceMs, j)
                    && (j <= s.runs[id].pos || c.TimeMs(c.logs[j]) < c.TimeMs(c.logs[s.runs[id].pos]))
      ensures Covered(c, t, j)
    {
      DispatchPasses(c, g, sinceMs, s, t, id, j);
    }
  }

  lemma StoreKeeps(c: Chain, g: Group, sinceMs: int, s: World, t: World, p: nat, byEvent: bool, at: int)
    requires c.Valid() && Inv(c, g, sinceMs, s) && p < |c.logs| && GroupOf(c.logs[p].name).Some?
    requires byEvent || p in s.pending
    requires t == s.(rows := Stored(c, s.rows, p, byEvent, at),
                     pending := if byEvent then s.pending else s.pending - multiset{p})
    ensures Inv(c, g, sinceMs, t)
  {
    forall j: nat | Relevant(c, g, sinceMs, j) && Covered(c, s, j) ensures Covered(c, t, j) { }
    forall q | q in t.pending ensures q in s.pending { }
    forall j: nat, k | Relevant(c, g, sinceMs, j) && BackfilledRow(t.rows, k, GroupOf(c.logs[j].name).value)
      && c.TimeMs(c.logs[j]) < t.rows[k].timestamp - OVERLAP_MS
      ensures Covered(c, t, j)
    {
      if k != KeyOf(c.logs[p]) { assert BackfilledRow(s.rows, k, GroupOf(c.logs[j].name).value); }
    }
  }

  lemma LeaveKeeps(c: Chain, g: Group, sinceMs: int, s: World, t: World)
    requires c.Valid() && Inv(c, g, sinceMs, s) && Leaves(c, s, t)
    ensures Inv(c, g, sinceMs, t) && t.rows == s.rows
  {
    var id :| Abort(s, t, id) || Finish(c, s, t, id);
    var r := s.runs[id];
    forall j: nat | Relevant(c, g, sinceMs, j) ensures Covered(c, s, j) <==> Covered(c, t, j) { }
    if Finish(c, s, t, id) {
      forall j: nat | Relevant(c, g, sinceMs, j) && j < CountBelow(c.logs, r.head) ensures Covered(c, s, j) {
        assert Behind(c, r, j);
      }
    }
  }

  lemma CrashKeeps(c: Chain, g: Group, sinceMs: int, s: World, t: World)
    requires c.Valid() && Inv(c, g, sinceMs, s) && Crash(s, t) && LossesRecent(c, g, sinceMs, s)
    ensures Inv(c, g, sinceMs, t)
  {
    assert BehindRows(c, g, sinceMs, t);
  }

  lemma StartsKeep(c: Chain, g: Group, sinceMs: int, s: World, t: World)
    requires c.Valid() && Inv(c, g, sinceMs, s) && StartsSafely(c, g, sinceMs, s, t)
    ensures Inv(c, g, sinceMs, t)
  {
    var id, m, skip, defaultMs, ts, start, head :|
      Start(c, s, t, id, m, skip, defaultMs, ts, start, head) && PassesNone(c, g, sinceMs, s, m, start);
    StartKeeps(c, g, sinceMs, s, t, id, m, skip, defaultMs, ts, start, head);
  }

  lemma WritesKeep(c: Chain, g: Group, sinceMs: int, s: World, t: World)
    requires c.Valid() && Inv(c, g, sinceMs, s) && Writes(c, s, t)
    ensures Inv(c, g, sinceMs, t)
  {
    var j, at :| Write(c, s, t, j, at) || Live(c, s, t, j, at);
    if Write(c, s, t, j, at) {
      StoreKeeps(c, g, sinceMs, s, t, j, false, at);
    } else {
      StoreKeeps(c, g, sinceMs, s, t, j, true, at);
    }
  }

  lemma NextKeeps(c: Chain, g: Group, sinceMs: int, s: World, t: World)
    requires c.Valid() && Inv(c, g, sinceMs, s) && Next(c, g, sinceMs, s, t)
    ensures Inv(c, g, sinceMs, t)
  {
    if StartsSafely(c, g, sinceMs, s, t) {
      StartsKeep(c, g, sinceMs, s, t);
    } else if Writes(c, s, t) {
      WritesKeep(c, g, sinceMs, s, t);
    } else if Leaves(c, s, t) {
      LeaveKeeps(c, g, sinceMs, s, t);
    } else if Dispatches(c, s, t) {
      var id :| Dispatch(c, s, t, id);
      DispatchKeeps(c, g, sinceMs, s, t, id);
    } else {
      CrashKeeps(c, g, sinceMs, s, t);
    }
  }

  lemma WritesAddRows(c: Chain, s: World, t: World)
    requires c.Valid() && Writes(c, s, t)
    ensures s.rows.Keys <= t.rows.Keys && s.horizon == t.horizon
  {
  }

  lemma RunsLeaveRows(c: Chain, g: Group, sinceMs: int, s: World, t: World)
    requires c.Valid() && (StartsSafely(c, g, sinceMs, s, t) || Dispatches(c, s, t) || Leaves(c, s, t))
    ensures s.rows == t.rows && s.horizon <= t.horizon
  {
  }

  lemma RowsStay(c: Chain, g: Group, sinceMs: int, s: World, t: World)
    requires c.Valid() && Next(c, g, sinceMs, s, t)
    ensures s.rows.Keys <= t.rows.Keys
    ensures Crash(s, t) || s.horizon <= t.horizon
  {
    if Writes(c, s, t) {
      WritesAddRows(c, s, t);
    } else if !Crash(s, t) {
      RunsLeaveRows(c, g, sinceMs, s, t);
    }
  }

  // ---------------------------------------------------------------- whole histories

  function Empty(): World {
    World(map[], multiset{}, map[], 0)
  }

  /** A history of the service from empty tables. */
  ghost predicate History(c: Chain, g: Group, sinceMs: int, tr: seq<World>)
    requires Known(c, c.logs)
  {
    && tr != [] && tr[0] == Empty()
    && forall i :: 0 <= i < |tr| - 1 ==> Next(c, g, sinceMs, tr[i], tr[i + 1])
  }

  lemma EmptyHolds(c: Chain, g: Group, sinceMs: int)
    ensures Inv(c, g, sinceMs, Empty())
  {
  }

  lemma {:induction false} HistoryKeeps(c: Chain, g: Group, sinceMs: int, tr: seq<World>, n: nat)
    requires c.Valid() && History(c, g, sinceMs, tr) && n < |tr|
    ensures Inv(c, g, sinceMs, tr[n])
  {
    if n == 0 {
      EmptyHolds(c, g, sinceMs);
    } else {
      HistoryKeeps(c, g, sinceMs, tr, n - 1);
      HistoryStep(c, g, sinceMs, tr, n - 1);
    }
  }

  lemma HistoryStep(c: Chain, g: Group, sinceMs: int, tr: seq<World>, n: nat)
    requires c.Valid() && History(c, g, sinceMs, tr) && n + 1 < |tr| && Inv(c, g, sinceMs, tr[n])
    ensures Inv(c, g, sinceMs, tr[n + 1])
  {
    var s, t := tr[n], tr[n + 1];
    assert Next(c, g, sinceMs, s, t);
    NextKeeps(c, g, sinceMs, s, t);
  }

  /** No step takes a key from the tables, and none but a crash lowers the horizon. */
  ghost predicate Grows(tr: seq<World>) {
    forall i :: 0 <= i < |tr| - 1 ==>
      tr[i].rows.Keys <= tr[i + 1].rows.Keys && (Crash(tr[i], tr[i + 1]) || tr[i].horizon <= tr[i + 1].horizon)
  }

  lemma HistoryGrows(c: Chain, g: Group, sinceMs: int, tr: seq<World>)
    requires c.Valid() && History(c, g, sinceMs, tr)
    ensures Grows(tr)
  {
    forall i | 0 <= i < |tr| - 1
      ensures tr[i].rows.Keys <= tr[i + 1].rows.Keys && (Crash(tr[i], tr[i + 1]) || tr[i].horizon <= tr[i + 1].horizon)
    {
      RowsStay(c, g, sinceMs, tr[i], tr[i + 1]);
    }
  }

  lemma {:induction false} GrownRows(tr: seq<World>, i: nat, k: nat)
    requires Grows(tr) && i <= k < |tr|
    ensures tr[i].rows.Keys <= tr[k].rows.Keys
    ensures (forall n :: i <= n < k ==> !Crash(tr[n], tr[n + 1])) ==> tr[i].horizon <= tr[k].horizon
  {
    if i < k { GrownRows(tr, i, k - 1); }
  }

  /**
   * Crash-resume safety, table by table. Runs may overlap, throw and be killed, writes may finish in any order,
   * live rows may come at any time: once a run has finished and its writes are through, every log of the table
   * since `since` and below that run's head is stored, and stays stored.
   */
  lemma NoLogIsLost(c: Chain, g: Group, sinceMs: int, tr: seq<World>, i: nat, id: nat, k: nat)
    requires c.Valid() && History(c, g, sinceMs, tr) && i < k < |tr|
    requires Finish(c, tr[i], tr[i + 1], id)
    requires forall n :: i < n < k ==> !Crash(tr[n], tr[n + 1])
    requires tr[k].pending == multiset{}
    ensures forall j: nat, n | k <= n < |tr| && Relevant(c, g, sinceMs, j) && c.logs[j].block < tr[i].runs[id].head ::
              KeyOf(c.logs[j]) in tr[n].rows
  {
    HistoryKeeps(c, g, sinceMs, tr, k);
    HistoryGrows(c, g, sinceMs, tr);
    GrownRows(tr, i + 1, k);
    var head := tr[i].runs[id].head;
    CountBelowSplits(c.logs, head);
    forall j: nat, n | k <= n < |tr| && Relevant(c, g, sinceMs, j) && c.logs[j].block < head
      ensures KeyOf(c.logs[j]) in tr[n].rows
    {
      assert j < tr[k].horizon;
      assert Covered(c, tr[k], j);
      GrownRows(tr, k, n);
    }
  }

  /** All four tables: every trade, liquidation, settlement and token flow is stored. */
  lemma NoTableLosesALog(c: Chain, sinceMs: int, tr: seq<World>, i: nat, id: nat, k: nat)
    requires c.Valid() && (forall g: Group :: History(c, g, sinceMs, tr)) && i < k < |tr|
    requires Finish(c, tr[i], tr[i + 1], id)
    requires forall n :: i < n < k ==> !Crash(tr[n], tr[n + 1])
    requires tr[k].pending == multiset{}
    ensures forall log, n | k <= n < |tr| && log in c.logs && sinceMs <= c.TimeMs(log)
                            && log.block < tr[i].runs[id].head ::
              && (log.name == Trade ==> (Trades, log.key) in tr[n].rows)
              && (log.name == Liquidate ==> (Liquidations, log.key) in tr[n].rows)
              && (log.name == Settle || log.name == SettleV2 ==> (Settlements, log.key) in tr[n].rows)
              && (log.name == TokensDeposited || log.name == TokensWithdrawn ==> (TokenFlows, log.key) in tr[n].rows)
  {
    forall log, n, g | k <= n < |tr| && log in c.logs && sinceMs <= c.TimeMs(log) && log.block < tr[i].runs[id].head
                       && InTable(g, log.name)
      ensures (g, log.key) in tr[n].rows
    {
      TableOfEvent(g, log.name);
      NoLogIsLost(c, g, sinceMs, tr, i, id, k);
      var j :| 0 <= j < |c.logs| && c.logs[j] == log;
      assert Relevant(c, g, sinceMs, j);
    }
    forall log: Log ensures log.name == Trade ==> InTable(Trades, log.name) { }
  }

  // ---------------------------------------------------------------- the machine's runs are the scan's

  /**
   * Without a throw out of `saveEvents`, a scan hands over the chain's log list from the start block on, one
   * after the other, and a finished one has passed every log below its end: the steps `Dispatch` and `Finish`.
   */
  lemma ScanWalksTheLogs(c: Chain, start: nat, end: nat, replies: seq<Reply>)
    requires c.Valid() && start <= end < |c.times|
    requires !Scan(c, end, Init(start), replies).state.dropped
    ensures var o := Scan(c, end, Init(start), replies);
            var first, n := CountBelow(c.logs, start), |o.state.sent|;
            && first + n <= |c.logs|
            && (forall k :: 0 <= k < n ==>
                  o.state.sent[k] == Sent(c.logs[first + k], c.times[c.logs[first + k].block])
                  && c.logs[first + k].block <= end)
            && (o.exit.Finished? ==> CountBelow(c.logs, end) <= first + n)
  {
    var o := Scan(c, end, Init(start), replies);
    var upto := Reached(o.state, end);
    InitAtHead(c, start, end);
    ScanKeeps(c, start, end, Init(start), replies);
    CountBelowMonotone(c.logs, start, upto);
    CountBelowSplits(c.logs, upto);
    var asked, n := Asked(c, start, end, o.state), |o.state.sent|;
    forall k | 0 <= k < n
      ensures o.state.sent[k] == Sent(asked[k], c.times[asked[k].block])
    {
      assert o.state.sent[k] == Stamped(c, asked)[..n][k];
    }
    if o.exit.Finished? { CountBelowMonotone(c.logs, end, upto); }
  }

  /**
   * What a lost write's time decides: the next finished, skipping run hands the log over again exactly if it is
   * no more than one hour older than every backfilled row of its table.
   */
  lemma RedeliveredIffRecent(c: Chain, rows: Rows, m: map<EventName, int>, defaultMs: int, ts: int, start: nat,
                             replies: seq<Reply>, log: Log)
    requires c.Valid() && Queried(rows, m) && IsStartDate(m, defaultMs, ts) && SafeStart(c.times, ts, start)
    requires var o := Scan(c, c.Head(), Init(start), replies); o.exit.Finished? && !o.state.dropped
    requires log in c.logs && log.block < c.Head() && GroupOf(log.name).Some? && log.name in m
    ensures Sent(log, c.times[log.block]) in Handled(c, m, true, start, replies) <==>
            forall k :: BackfilledRow(rows, k, GroupOf(log.name).value) ==>
              rows[k].timestamp - c.TimeMs(log) <= 3_600_000
  {
    assert IsWatermark(rows, m, log.name);
    HandedOverIff(c, m, true, start, replies, log);
    NothingMissedBelow(c, ts, start);
    if c.TimeMs(log) >= m[log.name] {
      assert start <= log.block;
    }
  }

  // ---------------------------------------------------------------- watermarks read back from the tables

  /** An hour before the table's newest backfilled row, or nothing if it has none. */
  ghost predicate NewestRow(rows: Rows, g: Group, w: Option<int>) {
    match w
    case None => forall k :: !BackfilledRow(rows, k, g)
    case Some(t) =>
      && (exists k :: BackfilledRow(rows, k, g) && rows[k].timestamp - 3_600_000 == t)
      && forall k :: BackfilledRow(rows, k, g) ==> rows[k].timestamp - 3_600_000 <= t
  }

  method QueryNewest(rows: Rows, g: Group) returns (w: Option<int>)
    ensures NewestRow(rows, g, w)
  {
    w := None;
    var todo := rows.Keys;
    while todo != {}
      invariant todo <= rows.Keys
      invariant w.Some? ==> exists k :: BackfilledRow(rows, k, g) && rows[k].timestamp - 3_600_000 == w.value
      invariant forall k :: BackfilledRow(rows, k, g) && k !in todo ==>
                  w.Some? && rows[k].timestamp - 3_600_000 <= w.value
      decreases todo
    {
      var k :| k in todo;
      todo := todo - {k};
      if k.0 == g && !rows[k].isCollectedByEvent && (w.None? || w.value < rows[k].timestamp - 3_600_000) {
        w := Some(rows[k].timestamp - 3_600_000);
        assert BackfilledRow(rows, k, g);
      }
    }
  }

  /** The first four watermarks are those of the four tables. */
  ghost predicate ReadFrom(w: Watermarks, rows: Rows) {
    && NewestRow(rows, Trades, w.trade) && NewestRow(rows, Liquidations, w.liquidate)
    && NewestRow(rows, Settlements, w.settle) && NewestRow(rows, TokenFlows, w.tokenFlow)
  }

  /** Then each event's entry in the map is the watermark of its own table, as the machine's runs have it. */
  lemma WatermarksAreQueried(rows: Rows, w: Watermarks, m: map<EventName, int>)
    requires Represents(m, w) && ReadFrom(w, rows)
    ensures Queried(rows, m)
  {
    forall n: EventName | GroupOf(n).Some? ensures IsWatermark(rows, m, n) {
      assert w.Of(n).Some? ==> n in m && m[n] == w.Of(n).value;
    }
  }

  /**
   * A skipping run on tables that hold `rows`: its watermarks come from them, so if it finishes without a throw out of
   * `saveEvents`, a log of a table with a backfilled row is handed over exactly if it is at most an hour older than all
   * such rows.
   */
  method ResumedRun(c: Chain, rows: Rows, funding: Option<int>, earnings: Option<int>, lpWithdrawal: Option<int>,
                    oracle: Option<int>, startTimestampSec: int, replies: seq<Reply>)
    returns (exit: Exit, handled: seq<Sent>, m: map<EventName, int>, ghost dropped: bool)
    requires c.Valid()
    ensures Queried(rows, m)
    ensures Entry(m, UpdateMarginAccount, funding) && Entry(m, LiquidityAdded, earnings)
    ensures Entry(m, LiquidityRemoved, earnings) && Entry(m, LiquidityWithdrawalInitiated, lpWithdrawal)
    ensures Entry(m, SetOracles, oracle)
    ensures exit.Finished? && !dropped ==>
              forall g: Group, log | log in c.logs && log.block < c.Head() && InTable(g, log.name)
                                     && (exists k :: BackfilledRow(rows, k, g)) ::
                Sent(log, c.times[log.block]) in handled <==>
                  forall k :: BackfilledRow(rows, k, g) ==> rows[k].timestamp - c.TimeMs(log) <= 3_600_000
  {
    var trade := QueryNewest(rows, Trades);
    var liquidate := QueryNewest(rows, Liquidations);
    var settle := QueryNewest(rows, Settlements);
    var tokenFlow := QueryNewest(rows, TokenFlows);
    var w := Watermarks(trade, liquidate, settle, tokenFlow, funding, earnings, lpWithdrawal, oracle);
    ghost var start;
    exit, handled, m, start, dropped := RunHistoricalDataFilterers(c, w, startTimestampSec, true, replies);
    WatermarksAreQueried(rows, w, m);
    OtherEntries(m, w);
    if exit.Finished? && !dropped {
      ghost var ts :| IsStartDate(m, startTimestampSec * 1000, ts) && SafeStart(c.times, ts, start);
      forall g: Group, log | log in c.logs && log.block < c.Head() && InTable(g, log.name)
                      && exists k :: BackfilledRow(rows, k, g)
        ensures Sent(log, c.times[log.block]) in handled <==>
                  forall k :: BackfilledRow(rows, k, g) ==> rows[k].timestamp - c.TimeMs(log) <= 3_600_000
      {
        TableOfEvent(g, log.name);
        assert IsWatermark(rows, m, log.name);
        RedeliveredIffRecent(c, rows, m, startTimestampSec * 1000, ts, start, replies, log);
      }
    }
  }

  lemma OtherEntries(m: map<EventName, int>, w: Watermarks)
    requires Represents(m, w)
    ensures Entry(m, UpdateMarginAccount, w.funding) && Entry(m, LiquidityAdded, w.earnings)
    ensures Entry(m, LiquidityRemoved, w.earnings) && Entry(m, LiquidityWithdrawalInitiated, w.lpWithdrawal)
    ensures Entry(m, SetOracles, w.oracle)
  {
    assert forall n: EventName :: if w.Of(n).Some? then n in m && m[n] == w.Of(n).value else n !in m;
  }

  // ---------------------------------------------------------------- why both conditions are needed

  /** A step that is neither the start of a run nor a crash. */
  ghost predicate OnwardNext(c: Chain, s: World, t: World)
    requires Known(c, c.logs)
  {
    Dispatches(c, s, t) || Writes(c, s, t) || Leaves(c, s, t)
  }

  /** A history from s to t in which no run starts and nothing crashes. */
  ghost predicate Onward(c: Chain, tr: seq<World>, s: World, t: World)
    requires Known(c, c.logs)
  {
    && tr != [] && tr[0] == s && tr[|tr| - 1] == t
    && forall i :: 0 <= i < |tr| - 1 ==> OnwardNext(c, tr[i], tr[i + 1])
  }

  lemma Extended(c: Chain, tr: seq<World>, s: World, t: World, u: World)
    requires Known(c, c.logs) && Onward(c, tr, s, t) && OnwardNext(c, t, u)
    ensures Onward(c, tr + [u], s, u)
  {
  }

  /** A log of one of the four tables. */
  predicate Tabled(c: Chain, j: nat) {
    j < |c.logs| && c.logs[j].block < |c.times| && GroupOf(c.logs[j].name).Some?
  }

  /** No other log is stored under this one's key. */
  ghost predicate OwnKey(c: Chain, j: nat) {
    Tabled(c, j) && forall q: nat | Tabled(c, q) && KeyOf(c.logs[q]) == KeyOf(c.logs[j]) :: q == j
  }

  /** The run will not hand the log over any more. */
  predicate Passed(c: Chain, r: Run, j: nat)
    requires Tabled(c, j)
  {
    j < r.pos || (r.skip && c.logs[j].name in r.m && c.TimeMs(c.logs[j]) < r.m[c.logs[j].name])
  }

  ghost predicate PendingTabled(c: Chain, s: World) {
    forall q: nat :: q in s.pending ==> Tabled(c, q)
  }

  /** The log is not stored, its write is not under way, and no run will hand it over. */
  ghost predicate Forgotten(c: Chain, s: World, j: nat) {
    && OwnKey(c, j) && !Covered(c, s, j) && PendingTabled(c, s)
    && forall id :: id in s.runs ==> Passed(c, s.runs[id], j)
  }

  /** The log's row, as a backfill wrote it. */
  ghost predicate Backfilled(c: Chain, s: World, p: nat) {
    && OwnKey(c, p) && BackfilledRow(s.rows, KeyOf(c.logs[p]), GroupOf(c.logs[p].name).value)
    && s.rows[KeyOf(c.logs[p])].timestamp == c.TimeMs(c.logs[p])
  }

  /** A forgotten log, and a backfilled one of its table that is more than an hour newer. */
  ghost predicate Lost(c: Chain, s: World, j: nat, p: nat) {
    && Forgotten(c, s, j) && Backfilled(c, s, p) && GroupOf(c.logs[j].name) == GroupOf(c.logs[p].name)
    && c.TimeMs(c.logs[p]) - c.TimeMs(c.logs[j]) > OVERLAP_MS
  }

  /** Any step, crashes included, but runs skip what is older than their watermarks, and no live row is j's or p's. */
  ghost predicate SkippingNext(c: Chain, s: World, t: World, j: nat, p: nat)
    requires Known(c, c.logs)
  {
    || (exists id, m, defaultMs, ts, start, head :: Start(c, s, t, id, m, true, defaultMs, ts, start, head))
    || Dispatches(c, s, t) || Leaves(c, s, t) || Crash(s, t)
    || (exists q, at :: Write(c, s, t, q, at) || (Live(c, s, t, q, at) && q != j && q != p))
  }

  lemma SkippingStartPasses(c: Chain, s: World, t: World, j: nat, p: nat, id: nat, m: map<EventName, int>,
                            defaultMs: int, ts: int, start: nat, head: nat)
    requires c.Valid() && Lost(c, s, j, p) && Start(c, s, t, id, m, true, defaultMs, ts, start, head)
    ensures Lost(c, t, j, p)
  {
    assert IsWatermark(s.rows, m, c.logs[j].name);
    assert Passed(c, t.runs[id], j);
  }

  lemma WriteLeavesLost(c: Chain, s: World, t: World, j: nat, p: nat, q: nat, at: int)
    requires c.Valid() && Lost(c, s, j, p)
    requires Write(c, s, t, q, at) || (Live(c, s, t, q, at) && q != j && q != p)
    ensures Lost(c, t, j, p)
  {
    assert KeyOf(c.logs[q]) != KeyOf(c.logs[j]);
    forall n: nat | n in t.pending ensures n in s.pending { }
  }

  lemma DispatchLeavesLost(c: Chain, s: World, t: World, j: nat, p: nat, id: nat)
    requires c.Valid() && Lost(c, s, j, p) && Dispatch(c, s, t, id)
    ensures Lost(c, t, j, p)
  {
    forall n: nat | n in t.pending ensures n in s.pending || n == s.runs[id].pos { }
  }

  lemma LostStays(c: Chain, s: World, t: World, j: nat, p: nat)
    requires c.Valid() && Lost(c, s, j, p) && SkippingNext(c, s, t, j, p)
    ensures Lost(c, t, j, p)
  {
    if id :| Dispatch(c, s, t, id) {
      DispatchLeavesLost(c, s, t, j, p, id);
    } else if Leaves(c, s, t) || Crash(s, t) {
    } else if q, at :| Write(c, s, t, q, at) || (Live(c, s, t, q, at) && q != j && q != p) {
      WriteLeavesLost(c, s, t, j, p, q, at);
    } else {
      var id, m, defaultMs, ts, start, head :| Start(c, s, t, id, m, true, defaultMs, ts, start, head);
      SkippingStartPasses(c, s, t, j, p, id, m, defaultMs, ts, start, head);
    }
  }

  /** However many skipping runs follow, from whatever start date, the log is not made good. */
  lemma {:induction false} LostForGood(c: Chain, tr: seq<World>, j: nat, p: nat, n: nat)
    requires c.Valid() && n < |tr| && Lost(c, tr[0], j, p)
    requires forall i :: 0 <= i < |tr| - 1 ==> SkippingNext(c, tr[i], tr[i + 1], j, p)
    ensures Lost(c, tr[n], j, p) && KeyOf(c.logs[j]) !in tr[n].rows
  {
    if n > 0 {
      LostForGood(c, tr, j, p, n - 1);
      LostStays(c, tr[n - 1], tr[n], j, p);
    }
  }

  /** Without the condition on losses: a crash loses every unfinished write an hour behind a backfilled row for good. */
  lemma CrashLosesOldWrites(c: Chain, s: World, t: World, j: nat, p: nat)
    requires c.Valid() && Crash(s, t) && OwnKey(c, j) && j in s.pending && KeyOf(c.logs[j]) !in s.rows
    requires Backfilled(c, s, p) && GroupOf(c.logs[j].name) == GroupOf(c.logs[p].name)
    requires c.TimeMs(c.logs[p]) - c.TimeMs(c.logs[j]) > OVERLAP_MS
    ensures Lost(c, t, j, p)
  {
  }

  /** Since t, run id has gone on to position pos, and nothing else has happened. */
  ghost predicate GoneOn(c: Chain, t: World, u: World, id: nat, pos: nat)
    requires id in t.runs
  {
    var r := t.runs[id];
    && r.pos <= pos && PendingTabled(c, u)
    && u.rows == t.rows && u.runs == t.runs[id := r.(pos := pos)] && u.horizon == t.horizon
    && (forall q: nat | q in u.pending :: q in t.pending || r.pos <= q)
    && (forall q: nat | r.pos <= q < pos && Tabled(c, q) && c.logs[q].name !in r.m :: q in u.pending)
  }

  /** The run's next step. */
  lemma HandsOver(c: Chain, u: World, id: nat) returns (v: World)
    requires c.Valid() && id in u.runs && PendingTabled(c, u) && u.runs[id].pos < |c.logs|
    requires c.logs[u.runs[id].pos].block <= u.runs[id].head < |c.times|
    ensures OnwardNext(c, u, v) && PendingTabled(c, v)
    ensures var r := u.runs[id];
            && v.rows == u.rows && v.horizon == u.horizon && v.runs == u.runs[id := r.(pos := r.pos + 1)]
            && (forall q: nat :: q in u.pending ==> q in v.pending)
            && (forall q: nat :: q in v.pending ==> q in u.pending || q == r.pos)
            && (Tabled(c, r.pos) && c.logs[r.pos].name !in r.m ==> r.pos in v.pending)
  {
    var r := u.runs[id];
    var log := c.logs[r.pos];
    var skipped := GroupOf(log.name).None? || (r.skip && log.name in r.m && c.TimeMs(log) < r.m[log.name]);
    v := u.(runs := u.runs[id := r.(pos := r.pos + 1)],
            pending := if skipped then u.pending else u.pending + multiset{r.pos});
    assert Dispatch(c, u, v, id);
  }

  lemma GoesOn(c: Chain, t: World, u: World, id: nat, pos: nat) returns (v: World)
    requires c.Valid() && id in t.runs && GoneOn(c, t, u, id, pos)
    requires pos < |c.logs| && c.logs[pos].block <= t.runs[id].head < |c.times|
    ensures OnwardNext(c, u, v) && GoneOn(c, t, v, id, pos + 1)
  {
    v := HandsOver(c, u, id);
  }

  /** The run goes on undisturbed up to its head. */
  lemma {:induction false} RunsToHead(c: Chain, tr: seq<World>, s: World, t: World, id: nat, end: nat)
    returns (tr': seq<World>, u: World)
    requires c.Valid() && Onward(c, tr, s, t) && id in t.runs && PendingTabled(c, t)
    requires t.runs[id].head < |c.times| && t.runs[id].pos <= end <= |c.logs|
    requires forall q :: 0 <= q < end ==> c.logs[q].block <= t.runs[id].head
    ensures Onward(c, tr', s, u) && GoneOn(c, t, u, id, end)
  {
    if t.runs[id].pos == end {
      tr', u := tr, t;
    } else {
      var front, v := RunsToHead(c, tr, s, t, id, end - 1);
      u := GoesOn(c, t, v, id, end - 1);
      Extended(c, front, s, v, u);
      tr' := front + [u];
    }
  }

  /** And is over. */
  lemma RunsThrough(c: Chain, tr: seq<World>, s: World, t: World, id: nat) returns (tr': seq<World>, u: World)
    requires c.Valid() && Onward(c, tr, s, t) && id in t.runs && PendingTabled(c, t)
    requires t.runs[id].head < |c.times| && t.runs[id].pos <= CountBelow(c.logs, t.runs[id].head)
    ensures Onward(c, tr', s, u) && PendingTabled(c, u)
    ensures u.rows == t.rows && u.runs == t.runs - {id} && u.horizon >= CountBelow(c.logs, t.runs[id].head)
    ensures forall q: nat | q in u.pending :: q in t.pending || t.runs[id].pos <= q
    ensures forall q: nat | t.runs[id].pos <= q < CountBelow(c.logs, t.runs[id].head) && Tabled(c, q)
                         && c.logs[q].name !in t.runs[id].m :: q in u.pending
  {
    var end := CountBelow(c.logs, t.runs[id].head);
    CountBelowSplits(c.logs, t.runs[id].head);
    var v;
    tr', v := RunsToHead(c, tr, s, t, id, end);
    u := v.(runs := v.runs - {id}, horizon := Max(v.horizon, end));
    assert Finish(c, v, u, id);
    Extended(c, tr', s, v, u);
    tr' := tr' + [u];
  }

  /** All unfinished writes finish. */
  lemma WritesFinish(c: Chain, tr: seq<World>, s: World, t: World) returns (tr': seq<World>, u: World)
    requires c.Valid() && Onward(c, tr, s, t) && PendingTabled(c, t)
    ensures Onward(c, tr', s, u) && u.pending == multiset{} && u.runs == t.runs && u.horizon == t.horizon
    ensures forall j: nat | OwnKey(c, j) && !Covered(c, t, j) :: !Covered(c, u, j)
    ensures forall q: nat | OwnKey(c, q) && (q in t.pending || Backfilled(c, t, q)) :: Backfilled(c, u, q)
  {
    tr', u := tr, t;
    while u.pending != multiset{}
      invariant Onward(c, tr', s, u) && PendingTabled(c, u) && u.runs == t.runs && u.horizon == t.horizon
      invariant forall j: nat | OwnKey(c, j) && !Covered(c, t, j) :: !Covered(c, u, j)
      invariant forall q: nat | OwnKey(c, q) && (q in t.pending || Backfilled(c, t, q)) ::
                  q in u.pending || Backfilled(c, u, q)
      decreases |u.pending|
    {
      var v := OneWriteFinishes(c, u);
      Extended(c, tr', s, u, v);
      tr', u := tr' + [v], v;
    }
  }

  lemma OneWriteFinishes(c: Chain, s: World) returns (t: World)
    requires c.Valid() && PendingTabled(c, s) && s.pending != multiset{}
    ensures OnwardNext(c, s, t) && PendingTabled(c, t) && |t.pending| < |s.pending|
    ensures t.runs == s.runs && t.horizon == s.horizon
    ensures forall j: nat | OwnKey(c, j) && !Covered(c, s, j) :: !Covered(c, t, j)
    ensures forall q: nat | OwnKey(c, q) && (q in s.pending || Backfilled(c, s, q)) ::
              q in t.pending || Backfilled(c, t, q)
  {
    var p :| p in s.pending;
    t := s.(rows := Stored(c, s.rows, p, false, 0), pending := s.pending - multiset{p});
    assert Write(c, s, t, p, 0);
    forall q: nat | q in t.pending ensures q in s.pending { }
  }

  /** A log of j's table in blocks start..head-1, more than an hour newer. */
  ghost predicate Overtakes(c: Chain, j: nat, p: nat, start: nat, head: nat) {
    && OwnKey(c, j) && OwnKey(c, p) && GroupOf(c.logs[p].name) == GroupOf(c.logs[j].name)
    && start <= c.logs[p].block < head && c.TimeMs(c.logs[p]) - c.TimeMs(c.logs[j]) > OVERLAP_MS
  }

  /** All runs but one throw. */
  lemma OthersLeave(c: Chain, s: World, id: nat) returns (tr: seq<World>, t: World)
    requires c.Valid() && id in s.runs
    ensures Onward(c, tr, s, t) && t == s.(runs := map[id := s.runs[id]])
  {
    tr, t := [s], s;
    var others := s.runs.Keys - {id};
    while others != {}
      invariant Onward(c, tr, s, t) && t == s.(runs := t.runs)
      invariant others == t.runs.Keys - {id} && id in t.runs && t.runs[id] == s.runs[id]
      decreases others
    {
      var other :| other in others;
      var u := t.(runs := t.runs - {other});
      assert Abort(t, u, other);
      Extended(c, tr, s, t, u);
      tr, t, others := tr + [u], u, others - {other};
    }
    forall k | k in t.runs ensures k == id { assert k !in others; }
    assert t.runs == map[id := s.runs[id]];
  }

  /** A run that started above log j when nothing of j's table was backfilled. */
  ghost predicate StartedAbove(c: Chain, s: World, id: nat, j: nat, start: nat, head: nat) {
    && OwnKey(c, j) && c.logs[j].block < start <= head < |c.times| && id in s.runs
    && s.runs[id].head == head && s.runs[id].pos == CountBelow(c.logs, start)
    && forall n: EventName :: GroupOf(n) == GroupOf(c.logs[j].name) ==> n !in s.runs[id].m
  }

  lemma RunPassesBy(c: Chain, s: World, id: nat, j: nat, start: nat, head: nat)
    returns (tr: seq<World>, u: World)
    requires c.Valid() && StartedAbove(c, s, id, j, start, head) && !Covered(c, s, j) && PendingTabled(c, s)
    ensures Onward(c, tr, s, u)
    ensures u.runs == map[] && j < CountBelow(c.logs, head) <= u.horizon && Forgotten(c, u, j)
    ensures forall p: nat | Overtakes(c, j, p, start, head) :: p in u.pending
  {
    CountBelowSplits(c.logs, start);
    CountBelowSplits(c.logs, head);
    CountBelowMonotone(c.logs, start, head);
    var t;
    tr, t := OthersLeave(c, s, id);
    tr, u := RunsThrough(c, tr, s, t, id);
  }

  /** And the unfinished writes finish. */
  lemma RunLosesALog(c: Chain, s: World, id: nat, j: nat, start: nat, head: nat)
    returns (tr: seq<World>, u: World)
    requires c.Valid() && StartedAbove(c, s, id, j, start, head) && !Covered(c, s, j) && PendingTabled(c, s)
    ensures Onward(c, tr, s, u)
    ensures u.pending == multiset{} && j < CountBelow(c.logs, head) <= u.horizon && Forgotten(c, u, j)
    ensures forall p: nat | Overtakes(c, j, p, start, head) :: Lost(c, u, j, p)
  {
    var v;
    tr, v := RunPassesBy(c, s, id, j, start, head);
    tr, u := WritesFinish(c, tr, s, v);
  }

  /**
   * Without the condition on starting runs: if a run starts while the table has no watermark, and a log of it below
   * the start block is neither stored nor being written, then the service can go on, without a crash and without
   * another start, to where that run has finished, no write is under way, and the log is missing. Other runs may be
   * under way. If the run meets a log of the table that is more than an hour newer, the log is lost for good.
   */
  lemma UnsafeStartLosesALog(c: Chain, s: World, t: World, id: nat, m: map<EventName, int>, skip: bool,
                             defaultMs: int, ts: int, start: nat, head: nat, j: nat)
    returns (tr: seq<World>, u: World)
    requires c.Valid() && Start(c, s, t, id, m, skip, defaultMs, ts, start, head) && PendingTabled(c, s)
    requires OwnKey(c, j) && !Covered(c, s, j)
    requires c.logs[j].block < start && Unmarked(GroupOf(c.logs[j].name).value, m)
    ensures Onward(c, tr, t, u)
    ensures u.pending == multiset{} && j < CountBelow(c.logs, head) <= u.horizon && Forgotten(c, u, j)
    ensures forall p: nat | Overtakes(c, j, p, start, head) :: Lost(c, u, j, p)
  {
    var g := GroupOf(c.logs[j].name).value;
    forall n: EventName | GroupOf(n) == Some(g) ensures n !in m { SameTableUnmarked(s.rows, m, g, n); }
    tr, u := RunLosesALog(c, t, id, j, start, head);
  }

  lemma {:induction false} OnwardKeeps(c: Chain, g: Group, sinceMs: int, tr: seq<World>, s: World, t: World, n: nat)
    requires c.Valid() && Onward(c, tr, s, t) && Inv(c, g, sinceMs, s) && n < |tr|
    ensures Inv(c, g, sinceMs, tr[n])
  {
    if n > 0 {
      OnwardKeeps(c, g, sinceMs, tr, s, t, n - 1);
      OnwardStep(c, g, sinceMs, tr[n - 1], tr[n]);
    }
  }

  lemma OnwardStep(c: Chain, g: Group, sinceMs: int, s: World, t: World)
    requires c.Valid() && OnwardNext(c, s, t) && Inv(c, g, sinceMs, s)
    ensures Inv(c, g, sinceMs, t)
  {
    NextKeeps(c, g, sinceMs, s, t);
  }

  /** Below the head of every finished run, all logs of the table are stored. */
  ghost predicate AllStored(c: Chain, g: Group, sinceMs: int, s: World) {
    forall j: nat :: Relevant(c, g, sinceMs, j) && j < s.horizon ==> KeyOf(c.logs[j]) in s.rows
  }

  /** However the service goes on without a crash or another start, once writes are through all logs are stored. */
  ghost predicate EndsWell(c: Chain, g: Group, sinceMs: int, s: World)
    requires Known(c, c.logs)
  {
    forall tr, u :: Onward(c, tr, s, u) && u.pending == multiset{} ==> AllStored(c, g, sinceMs, u)
  }

  lemma KeptEndsWell(c: Chain, g: Group, sinceMs: int, s: World)
    requires c.Valid() && Inv(c, g, sinceMs, s)
    ensures EndsWell(c, g, sinceMs, s)
  {
    forall tr, u | Onward(c, tr, s, u) && u.pending == multiset{} ensures AllStored(c, g, sinceMs, u) {
      OnwardKeeps(c, g, sinceMs, tr, s, u, |tr| - 1);
      forall j: nat | Relevant(c, g, sinceMs, j) && j < u.horizon ensures KeyOf(c.logs[j]) in u.rows {
        assert Covered(c, u, j);
      }
    }
  }

  /**
   * The condition on starting runs is exact: where no two logs share a key, a run that starts in a state with the
   * invariant passes no missing log of the table if and only if the service cannot go on to lose one.
   */
  lemma SafeStartIff(c: Chain, g: Group, sinceMs: int, s: World, t: World, id: nat, m: map<EventName, int>, skip: bool,
                     defaultMs: int, ts: int, start: nat, head: nat)
    requires c.Valid() && Start(c, s, t, id, m, skip, defaultMs, ts, start, head) && PendingTabled(c, s)
    requires Inv(c, g, sinceMs, s) && forall j: nat | Tabled(c, j) :: OwnKey(c, j)
    ensures PassesNone(c, g, sinceMs, s, m, start) <==> EndsWell(c, g, sinceMs, t)
  {
    if PassesNone(c, g, sinceMs, s, m, start) {
      StartKeeps(c, g, sinceMs, s, t, id, m, skip, defaultMs, ts, start, head);
      KeptEndsWell(c, g, sinceMs, t);
    } else {
      var j: nat :| Relevant(c, g, sinceMs, j) && c.logs[j].block < start && !Covered(c, s, j);
      var tr, u := UnsafeStartLosesALog(c, s, t, id, m, skip, defaultMs, ts, start, head, j);
      assert !AllStored(c, g, sinceMs, u);
    }
  }

  lemma SameTableUnmarked(rows: Rows, m: map<EventName, int>, g: Group, n: EventName)
    requires Queried(rows, m) && Unmarked(g, m) && GroupOf(n) == Some(g)
    ensures n !in m
  {
    var k: EventName :| GroupOf(k) == Some(g) && k !in m;
    assert IsWatermark(rows, m, k) && IsWatermark(rows, m, n);
  }

  /** The first run of all, from block `start`, on empty tables. */
  function FirstRun(c: Chain, start: nat, head: nat): World {
    Empty().(runs := map[0 := Run(map[], true, head, CountBelow(c.logs, start))])
  }

  /** As in every chain with two logs of one table, more than an hour apart, where the first run starts between them. */
  lemma LateStartLosesALog(c: Chain, ts: int, start: nat, head: nat, j: nat, p: nat) returns (tr: seq<World>, u: World)
    requires c.Valid() && SafeStart(c.times, ts, start) && start <= head < |c.times|
    requires Overtakes(c, j, p, start, head) && c.logs[j].block < start
    ensures Start(c, Empty(), FirstRun(c, start, head), 0, map[], true, ts, ts, start, head)
    ensures Onward(c, tr, FirstRun(c, start, head), u)
    ensures u.pending == multiset{} && j < CountBelow(c.logs, head) <= u.horizon && Lost(c, u, j, p)
  {
    tr, u := UnsafeStartLosesALog(c, Empty(), FirstRun(c, start, head), 0, map[], true, ts, ts, start, head, j);
  }

  /**
   * And in every chain with two such logs, where one run hands over both: the later write finishes, the process dies,
   * and the older log is lost for good.
   */
  lemma OldLossIsNotMadeGood(c: Chain, ts: int, start: nat, head: nat, j: nat, p: nat)
    returns (tr: seq<World>, u: World, v: World)
    requires c.Valid() && SafeStart(c.times, ts, start) && start <= head < |c.times|
    requires Overtakes(c, j, p, start, head) && start <= c.logs[j].block
    ensures Start(c, Empty(), FirstRun(c, start, head), 0, map[], true, ts, ts, start, head)
    ensures Onward(c, tr, FirstRun(c, start, head), u) && Crash(u, v) && Lost(c, v, j, p)
  {
    var t := FirstRun(c, start, head);
    CountBelowSplits(c.logs, start);
    CountBelowSplits(c.logs, head);
    CountBelowMonotone(c.logs, start, head);
    if c.logs[p].block <= c.logs[j].block {
      NotNewer(c, p, j);
      assert false;
    }
    var w;
    tr, w := RunsThrough(c, [t], t, t, 0);
    u := w.(rows := Stored(c, w.rows, p, false, 0), pending := w.pending - multiset{p});
    assert Write(c, w, u, p, 0);
    Extended(c, tr, t, w, u);
    tr := tr + [u];
    v := World(u.rows, multiset{}, map[], 0);
    CrashLosesOldWrites(c, u, v, j, p);
  }

  lemma NotNewer(c: Chain, p: nat, j: nat)
    requires c.Valid() && Tabled(c, p) && Tabled(c, j) && c.logs[p].block <= c.logs[j].block
    ensures c.TimeMs(c.logs[p]) <= c.TimeMs(c.logs[j])
  {
  }
}
