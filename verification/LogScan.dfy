/**
 * The adaptive scan of `historicalDataFilterer.ts`: `genericFilterer` reads the logs in chunks
 * whose size follows the RPC's errors, `saveEvents` looks up block times and calls back.
 *
 * Every RPC call takes the next entry of one reply stream. A stream that runs out stands for a
 * process that stops there, so a statement about all streams covers every cut of every run.
 */
module LogScan {
  import opened Chain
  import opened Prelude

  /** An RPC error, by the two tests the code makes on its message. */
  datatype Cause = Cause(is413: bool, isRate: bool)
  datatype Reply = Ok | Fail(cause: Cause)

  /** A call back: the log and the block time handed over with it. */
  datatype Sent = Sent(log: Log, ts: nat)

  datatype Stop = Completed | Threw(cause: Cause) | Cut

  const MAX_DELTA := 9_999
  const MIN_DELTA := 100
  const MAX_WAIT := 32

  // ---------------------------------------------------------------- saveEvents

  datatype Fetched = Fetched(stop: Stop, rest: seq<Reply>)

  /** The `getBlock` loop: up to five rate-limit errors are retried, anything else is thrown. */
  function Fetch(replies: seq<Reply>, retries: nat): (f: Fetched)
    ensures |f.rest| <= |replies|
  {
    if replies == [] then Fetched(Cut, [])
    else if replies[0].Ok? then Fetched(Completed, replies[1..])
    else if replies[0].cause.isRate && retries < 5 then Fetch(replies[1..], retries + 1)
    else Fetched(Threw(replies[0].cause), replies[1..])
  }

  datatype Saved = Saved(stop: Stop, sent: seq<Sent>, cache: map<nat, nat>, rest: seq<Reply>)

  /** `saveEvents`: one call back per log, in order, until a block time cannot be had. */
  function Save(c: Chain, logs: seq<Log>, cache: map<nat, nat>, replies: seq<Reply>): (r: Saved)
    requires Known(c, logs)
    ensures |r.rest| <= |replies|
  {
    if logs == [] then Saved(Completed, [], cache, replies)
    else
      var b := logs[0].block;
      var f := if b in cache then Fetched(Completed, replies) else Fetch(replies, 0);
      if !f.stop.Completed? then Saved(f.stop, [], cache, f.rest)
      else
        var known := if b in cache then cache else cache[b := c.times[b]];
        var r := Save(c, logs[1..], known, f.rest);
        r.(sent := [Sent(logs[0], known[b])] + r.sent)
  }

  function Stamped(c: Chain, logs: seq<Log>): (r: seq<Sent>)
    requires Known(c, logs)
  {
    seq(|logs|, k requires 0 <= k < |logs| => Sent(logs[k], c.times[logs[k].block]))
  }

  /** Every cached block time is the block's time. */
  ghost predicate CacheRight(c: Chain, cache: map<nat, nat>) {
    forall b :: b in cache ==> b < |c.times| && cache[b] == c.times[b]
  }

  /** `saveEvents` sends a prefix of its logs, each with its block's time; all of them iff it completes. */
  lemma {:induction false} SaveSendsPrefix(c: Chain, logs: seq<Log>, cache: map<nat, nat>, replies: seq<Reply>)
    requires Known(c, logs)
    requires CacheRight(c, cache)
    ensures var r := Save(c, logs, cache, replies);
            && |r.sent| <= |logs|
            && r.sent == Stamped(c, logs)[..|r.sent|]
            && (r.stop.Completed? <==> |r.sent| == |logs|)
            && CacheRight(c, r.cache)
  {
    if logs != [] {
      var b := logs[0].block;
      var f := if b in cache then Fetched(Completed, replies) else Fetch(replies, 0);
      if f.stop.Completed? {
        var known := if b in cache then cache else cache[b := c.times[b]];
        SaveSendsPrefix(c, logs[1..], known, f.rest);
        assert Stamped(c, logs) == [Sent(logs[0], c.times[b])] + Stamped(c, logs[1..]);
      }
    }
  }

  // ---------------------------------------------------------------- genericFilterer

  /** The loop variables, with a record of the ranges read and of throws out of `saveEvents`. */
  datatype State = State(
    i: nat, delta: nat, wait: nat, cache: map<nat, nat>, sent: seq<Sent>,
    ranges: seq<(int, int)>, dropped: bool)

  function Init(from: nat): State {
    State(from, MAX_DELTA, 2, map[], [], [], false)
  }

  /** `Math.round(d * 0.75)`, not below 100. */
  function Shrunk(delta: nat): (r: nat)
    ensures if 3 * delta < 4 * MIN_DELTA + 2 then r == MIN_DELTA else -2 < 4 * r - 3 * delta <= 2
    ensures r >= MIN_DELTA
  {
    Max(MIN_DELTA, (3 * delta + 2) / 4)
  }

  /** `Math.round(d * 1.25)`, not above 9999, when d is below three quarters of 9999. */
  function Grown(delta: nat): (r: nat)
    ensures 4 * delta >= 3 * MAX_DELTA ==> r == delta
    ensures 4 * delta < 3 * MAX_DELTA ==>
              r <= MAX_DELTA && if 5 * delta >= 4 * MAX_DELTA - 2 then r == MAX_DELTA else -2 < 4 * r - 5 * delta <= 2
  {
    if 4 * delta < 3 * MAX_DELTA then Min(MAX_DELTA, (5 * delta + 2) / 4) else delta
  }

  /** The last block of the next chunk. */
  function ChunkEnd(s: State, end: nat): int {
    Min(end, s.i + s.delta - 1)
  }

  /** What a successful `queryFilter` changes before `saveEvents` is called. */
  function Advanced(s: State, end: nat): State {
    s.(i := s.i + s.delta, wait := 2, delta := Grown(s.delta),
       ranges := s.ranges + [(s.i, ChunkEnd(s, end))])
  }

  /** The state after a successful query and what `saveEvents` did with it. */
  function AfterChunk(s: State, end: nat, r: Saved): State {
    Advanced(s, end).(cache := r.cache, sent := s.sent + r.sent, dropped := s.dropped || r.stop.Threw?)
  }

  /** The catch block; `None` where it throws. */
  function Caught(s: State, cause: Cause): Option<State> {
    if cause.is413 then Some(s.(delta := Shrunk(s.delta)))
    else if cause.isRate then Some(s.(wait := Min(2 * s.wait, MAX_WAIT)))
    else if MAX_WAIT > s.wait then Some(s.(wait := 2 * s.wait))
    else None
  }

  datatype Exit = Finished | Failed | Interrupted
  datatype Outcome = Outcome(exit: Exit, state: State)

  /** `genericFilterer` from state s on. The block number moves on before `saveEvents` is called. */
  function Scan(c: Chain, end: nat, s: State, replies: seq<Reply>): Outcome
    requires Known(c, c.logs)
    decreases |replies|, 0
  {
    if end <= s.i then Outcome(Finished, s)
    else if replies == [] then Outcome(Interrupted, s)
    else if replies[0].Fail? then Resume(c, end, s, replies[0].cause, replies[1..])
    else
      var r := Save(c, LogsIn(c, s.i, ChunkEnd(s, end)), s.cache, replies[1..]);
      var t := AfterChunk(s, end, r);
      match r.stop
      case Completed => Scan(c, end, t, r.rest)
      case Cut => Outcome(Interrupted, t)
      case Threw(cause) => Resume(c, end, t, cause, r.rest)
  }

  /** The scan goes on after an error, or throws it. */
  function Resume(c: Chain, end: nat, s: State, cause: Cause, replies: seq<Reply>): Outcome
    requires Known(c, c.logs)
    decreases |replies|, 1
  {
    match Caught(s, cause)
    case None => Outcome(Failed, s)
    case Some(t) => Scan(c, end, t, replies)
  }

  // ---------------------------------------------------------------- what every scan keeps

  predicate Bounded(s: State) {
    MIN_DELTA <= s.delta <= MAX_DELTA && s.wait in {2, 4, 8, 16, 32}
  }

  /** The first block not yet asked for. */
  function Reached(s: State, end: nat): int {
    Min(s.i, end + 1)
  }

  /** The ranges read lie side by side from `from` up to the block reached, each 100 to 9999 wide. */
  ghost predicate Tiled(ranges: seq<(int, int)>, i: nat, from: nat, end: nat) {
    && (ranges == [] ==> i == from)
    && (ranges != [] ==>
          var last := ranges[|ranges| - 1];
          ranges[0].0 == from && last.1 == Min(i, end + 1) - 1 && i - last.0 >= MIN_DELTA)
    && (forall k :: 0 <= k < |ranges| ==>
          ranges[k].0 < end && ranges[k].0 <= ranges[k].1 <= end && ranges[k].1 - ranges[k].0 < MAX_DELTA)
    && (forall k :: 0 < k < |ranges| ==>
          ranges[k].0 == ranges[k - 1].1 + 1 && ranges[k].0 - ranges[k - 1].0 >= MIN_DELTA)
  }

  /** Call backs come in chain order, so no log comes twice. */
  ghost predicate Ordered(sent: seq<Sent>) {
    forall j, k :: 0 <= j < k < |sent| ==> Before(sent[j].log, sent[k].log)
  }

  /** Call backs are logs of the chain in blocks from..upto-1, handed over with their block time. */
  ghost predicate Genuine(c: Chain, sent: seq<Sent>, from: int, upto: int) {
    forall k :: 0 <= k < |sent| ==>
      && sent[k].log in c.logs && from <= sent[k].log.block < upto
      && sent[k].log.block < |c.times| && sent[k].ts == c.times[sent[k].log.block]
  }

  ghost predicate Sound(c: Chain, from: nat, end: nat, s: State) {
    Bounded(s) && from <= s.i && Tiled(s.ranges, s.i, from, end) && Ordered(s.sent) && Genuine(c, s.sent, from, Reached(s, end))
  }

  /** The logs of all blocks asked for so far. */
  function Asked(c: Chain, from: nat, end: nat, s: State): seq<Log>
    requires Known(c, c.logs)
  {
    LogsIn(c, from, Reached(s, end) - 1)
  }

  /** At the head of the loop, a scan without drops has sent all it asked for, and one with drops less. */
  ghost predicate AtHead(c: Chain, from: nat, end: nat, s: State)
    requires Known(c, c.logs)
  {
    && Sound(c, from, end, s) && CacheRight(c, s.cache)
    && |s.sent| <= |Asked(c, from, end, s)|
    && (s.dropped ==> |s.sent| < |Asked(c, from, end, s)|)
    && (!s.dropped ==> s.sent == Stamped(c, Asked(c, from, end, s)))
  }

  /** Nothing has been passed over: what was sent is the beginning of what was asked for. */
  ghost predicate InOrder(c: Chain, from: nat, end: nat, s: State)
    requires Known(c, c.logs)
  {
    && |s.sent| <= |Asked(c, from, end, s)|
    && s.sent == Stamped(c, Asked(c, from, end, s))[..|s.sent|]
  }

  lemma AskedGrows(c: Chain, from: nat, end: nat, s: State)
    requires c.Valid() && Bounded(s) && from <= s.i < end
    ensures Asked(c, from, end, Advanced(s, end)) == Asked(c, from, end, s) + LogsIn(c, s.i, ChunkEnd(s, end))
  {
    CountBelowMonotone(c.logs, from, s.i);
    CountBelowMonotone(c.logs, s.i, ChunkEnd(s, end) + 1);
  }

  lemma TilesGrow(ranges: seq<(int, int)>, i: nat, delta: nat, from: nat, end: nat)
    requires MIN_DELTA <= delta <= MAX_DELTA && from <= i < end && Tiled(ranges, i, from, end)
    ensures Tiled(ranges + [(i, Min(end, i + delta - 1))], i + delta, from, end)
  {
  }

  lemma ChunkOrdered(c: Chain, logs: seq<Log>, more: seq<Sent>, first: int, last: int)
    requires c.Valid() && logs == LogsIn(c, first, last)
    requires |more| <= |logs| && more == Stamped(c, logs)[..|more|]
    ensures Ordered(more) && Genuine(c, more, first, last + 1)
  {
    LogsInExact(c, first, last);
    forall k | 0 <= k < |more|
      ensures more[k] == Sent(logs[k], c.times[logs[k].block]) && logs[k] in c.logs && first <= logs[k].block <= last
    {
      assert logs[k] in logs;
    }
  }

  /** Call backs of a later chunk extend those of earlier blocks. */
  lemma Appended(c: Chain, earlier: seq<Sent>, more: seq<Sent>, from: int, mid: int, upto: int)
    requires from <= mid <= upto
    requires Ordered(earlier) && Genuine(c, earlier, from, mid)
    requires Ordered(more) && Genuine(c, more, mid, upto)
    ensures Ordered(earlier + more) && Genuine(c, earlier + more, from, upto)
  {
  }

  lemma GrownBounded(delta: nat)
    requires MIN_DELTA <= delta <= MAX_DELTA
    ensures delta <= Grown(delta) <= MAX_DELTA
  {
  }

  lemma ChunkBounded(s: State, end: nat)
    requires Bounded(s)
    ensures Bounded(Advanced(s, end))
  {
    GrownBounded(s.delta);
  }

  lemma ChunkTiles(s: State, from: nat, end: nat)
    requires MIN_DELTA <= s.delta <= MAX_DELTA && from <= s.i < end && Tiled(s.ranges, s.i, from, end)
    ensures Tiled(Advanced(s, end).ranges, Advanced(s, end).i, from, end)
  {
    TilesGrow(s.ranges, s.i, s.delta, from, end);
    assert ChunkEnd(s, end) == Min(end, s.i + s.delta - 1);
  }

  lemma ChunkReaches(s: State, end: nat)
    requires s.delta > 0 && s.i < end
    ensures Reached(s, end) == s.i && Reached(Advanced(s, end), end) == ChunkEnd(s, end) + 1
  {
  }

  lemma ChunkSound(c: Chain, from: nat, end: nat, s: State, r: Saved)
    requires c.Valid() && Sound(c, from, end, s) && s.i < end
    requires |r.sent| <= |LogsIn(c, s.i, ChunkEnd(s, end))|
    requires r.sent == Stamped(c, LogsIn(c, s.i, ChunkEnd(s, end)))[..|r.sent|]
    ensures Sound(c, from, end, AfterChunk(s, end, r))
  {
    ChunkBounded(s, end);
    ChunkTiles(s, from, end);
    ChunkReaches(s, end);
    ChunkOrdered(c, LogsIn(c, s.i, ChunkEnd(s, end)), r.sent, s.i, ChunkEnd(s, end));
    Appended(c, s.sent, r.sent, from, s.i, ChunkEnd(s, end) + 1);
  }

  /** One successful query with what `saveEvents` sent of it. */
  lemma ChunkKeeps(c: Chain, from: nat, end: nat, s: State, replies: seq<Reply>)
    requires c.Valid() && AtHead(c, from, end, s) && s.i < end
    ensures var r := Save(c, LogsIn(c, s.i, ChunkEnd(s, end)), s.cache, replies);
            var t := AfterChunk(s, end, r);
            && Sound(c, from, end, t)
            && (!r.stop.Cut? ==> AtHead(c, from, end, t))
            && (!t.dropped ==> InOrder(c, from, end, t))
  {
    var chunk := LogsIn(c, s.i, ChunkEnd(s, end));
    var r := Save(c, chunk, s.cache, replies);
    var t := AfterChunk(s, end, r);
    SaveSendsPrefix(c, chunk, s.cache, replies);
    ChunkSound(c, from, end, s, r);
    var asked := Asked(c, from, end, s);
    assert Asked(c, from, end, t) == asked + chunk by { AskedGrows(c, from, end, s); }
    StampedParts(c, asked, chunk, |r.sent|);
  }

  lemma StampedParts(c: Chain, x: seq<Log>, y: seq<Log>, n: nat)
    requires Known(c, x) && Known(c, y) && Known(c, x + y) && n <= |y|
    ensures Stamped(c, x + y)[..|x| + n] == Stamped(c, x) + Stamped(c, y)[..n]
    ensures n == |y| ==> Stamped(c, x + y) == Stamped(c, x) + Stamped(c, y)[..n]
  {
  }

  lemma CaughtKeeps(c: Chain, from: nat, end: nat, s: State, t: State, cause: Cause)
    requires c.Valid() && AtHead(c, from, end, s) && Caught(s, cause) == Some(t)
    ensures AtHead(c, from, end, t)
  {
    assert Asked(c, from, end, t) == Asked(c, from, end, s);
  }

  /** What holds of any outcome: finished, thrown or cut. */
  ghost predicate Ends(c: Chain, from: nat, end: nat, o: Outcome)
    requires Known(c, c.logs)
  {
    && Sound(c, from, end, o.state)
    && (!o.state.dropped ==> InOrder(c, from, end, o.state))
    && (o.exit.Finished? ==> AtHead(c, from, end, o.state) && end <= o.state.i)
  }

  lemma HeadEnds(c: Chain, from: nat, end: nat, s: State, exit: Exit)
    requires c.Valid() && AtHead(c, from, end, s) && (exit.Finished? ==> end <= s.i)
    ensures Ends(c, from, end, Outcome(exit, s))
  {
  }

  lemma {:induction false} ScanKeeps(c: Chain, from: nat, end: nat, s: State, replies: seq<Reply>)
    requires c.Valid() && AtHead(c, from, end, s)
    ensures Ends(c, from, end, Scan(c, end, s, replies))
    decreases |replies|, 0
  {
    if end <= s.i || replies == [] {
      HeadEnds(c, from, end, s, if end <= s.i then Finished else Interrupted);
    } else if replies[0].Fail? {
      ResumeKeeps(c, from, end, s, replies[0].cause, replies[1..]);
    } else {
      var r := Save(c, LogsIn(c, s.i, ChunkEnd(s, end)), s.cache, replies[1..]);
      var t := AfterChunk(s, end, r);
      ChunkKeeps(c, from, end, s, replies[1..]);
      match r.stop
      case Completed => ScanKeeps(c, from, end, t, r.rest);
      case Cut => assert Ends(c, from, end, Outcome(Interrupted, t));
      case Threw(cause) => ResumeKeeps(c, from, end, t, cause, r.rest);
    }
  }

  lemma {:induction false} ResumeKeeps(c: Chain, from: nat, end: nat, s: State, cause: Cause, replies: seq<Reply>)
    requires c.Valid() && AtHead(c, from, end, s)
    ensures Ends(c, from, end, Resume(c, end, s, cause, replies))
    decreases |replies|, 1
  {
    match Caught(s, cause)
    case None => HeadEnds(c, from, end, s, Failed);
    case Some(t) =>
      CaughtKeeps(c, from, end, s, t, cause);
      ScanKeeps(c, from, end, t, replies);
  }

  // ---------------------------------------------------------------- what a whole scan does

  lemma InitAtHead(c: Chain, from: nat, end: nat)
    requires c.Valid() && from <= end
    ensures AtHead(c, from, end, Init(from))
  {
    CountBelowMonotone(c.logs, from, from);
  }

  lemma {:induction false} RangesAscend(ranges: seq<(int, int)>, i: nat, from: nat, end: nat, j: nat, k: nat)
    requires Tiled(ranges, i, from, end) && j < k < |ranges|
    ensures ranges[j].1 < ranges[k].0
    ensures ranges[k].0 - ranges[j].0 >= MIN_DELTA * (k - j)
    decreases k - j
  {
    if k > j + 1 { RangesAscend(ranges, i, from, end, j, k - 1); }
  }

  predicate Covers(ranges: seq<(int, int)>, b: int) {
    exists k :: 0 <= k < |ranges| && ranges[k].0 <= b <= ranges[k].1
  }

  lemma {:induction false} RangesCover(ranges: seq<(int, int)>, i: nat, from: nat, end: nat, b: int, n: nat)
    requires Tiled(ranges, i, from, end) && n < |ranges| && from <= b <= ranges[n].1
    ensures Covers(ranges, b)
  {
    if b < ranges[n].0 { RangesCover(ranges, i, from, end, b, n - 1); }
  }

  /**
   * Whatever the RPC answers and wherever the run stops, the ranges read are disjoint, ascending and
   * contiguous from `from`, never pass the end block and number at most ceil((end - from) / 100). The chunk size
   * stays within 100 and 9999 and the back-off within 2, 4, 8, 16 and 32 seconds.
   */
  lemma ScanTiles(c: Chain, from: nat, end: nat, replies: seq<Reply>)
    requires c.Valid() && from <= end
    ensures var o := Scan(c, end, Init(from), replies);
            var rs := o.state.ranges;
            && (forall k :: 0 <= k < |rs| ==> from <= rs[k].0 <= rs[k].1 <= end)
            && (forall j, k :: 0 <= j < k < |rs| ==> rs[j].1 < rs[k].0)
            && (forall k :: 0 < k < |rs| ==> rs[k].0 == rs[k - 1].1 + 1)
            && (rs != [] ==> rs[0].0 == from)
            && |rs| <= (end - from + 99) / 100
            && 100 <= o.state.delta <= 9_999 && o.state.wait in {2, 4, 8, 16, 32}
  {
    var o := Scan(c, end, Init(from), replies);
    var s, rs := o.state, o.state.ranges;
    InitAtHead(c, from, end);
    ScanKeeps(c, from, end, Init(from), replies);
    forall j, k | 0 <= j < k < |rs| ensures rs[j].1 < rs[k].0 { RangesAscend(rs, s.i, from, end, j, k); }
    forall k | 0 <= k < |rs| ensures from <= rs[k].0 {
      if k > 0 { RangesAscend(rs, s.i, from, end, 0, k); }
    }
    if |rs| > 1 { RangesAscend(rs, s.i, from, end, 0, |rs| - 1); }
  }

  /** A finished scan has read every block below the end, and the end block iff the last step went past it. */
  lemma ScanCovers(c: Chain, from: nat, end: nat, replies: seq<Reply>)
    requires c.Valid() && from < end
    requires Scan(c, end, Init(from), replies).exit.Finished?
    ensures var s := Scan(c, end, Init(from), replies).state;
            && (forall b :: from <= b < end ==> Covers(s.ranges, b))
            && (Covers(s.ranges, end) <==> end < s.i)
  {
    var s := Scan(c, end, Init(from), replies).state;
    InitAtHead(c, from, end);
    ScanKeeps(c, from, end, Init(from), replies);
    var last := |s.ranges| - 1;
    forall b | from <= b < end ensures Covers(s.ranges, b) {
      RangesCover(s.ranges, s.i, from, end, b, last);
    }
    if Covers(s.ranges, end) {
      var k :| 0 <= k < |s.ranges| && s.ranges[k].0 <= end <= s.ranges[k].1;
      if k < last { RangesAscend(s.ranges, s.i, from, end, k, last); }
    }
    if end < s.i { RangesCover(s.ranges, s.i, from, end, end, last); }
  }

  // ---------------------------------------------------------------- which scans read the end block

  /** No reply is a 413; other errors may come. */
  predicate No413(replies: seq<Reply>) {
    forall k :: 0 <= k < |replies| && replies[k].Fail? ==> !replies[k].cause.is413
  }

  lemma {:induction false} FetchNo413(replies: seq<Reply>, retries: nat)
    requires No413(replies)
    ensures var f := Fetch(replies, retries); No413(f.rest) && (f.stop.Threw? ==> !f.stop.cause.is413)
    decreases |replies|
  {
    if replies != [] && replies[0].Fail? && replies[0].cause.isRate && retries < 5 {
      FetchNo413(replies[1..], retries + 1);
    }
  }

  lemma {:induction false} SaveNo413(c: Chain, logs: seq<Log>, cache: map<nat, nat>, replies: seq<Reply>)
    requires Known(c, logs) && No413(replies)
    ensures var r := Save(c, logs, cache, replies); No413(r.rest) && (r.stop.Threw? ==> !r.stop.cause.is413)
  {
    if logs != [] {
      var b := logs[0].block;
      FetchNo413(replies, 0);
      var f := if b in cache then Fetched(Completed, replies) else Fetch(replies, 0);
      if f.stop.Completed? {
        SaveNo413(c, logs[1..], if b in cache then cache else cache[b := c.times[b]], f.rest);
      }
    }
  }

  /** All steps so far were full chunks, the last of them from below the end. */
  predicate FullSteps(s: State, from: nat, end: nat) {
    s.delta == MAX_DELTA && from <= s.i < end + MAX_DELTA && (s.i - from) % MAX_DELTA == 0
  }

  lemma FullStep(s: State, from: nat, end: nat)
    requires FullSteps(s, from, end) && s.i < end
    ensures FullSteps(Advanced(s, end), from, end)
  {
  }

  lemma {:induction false} ScanFullSteps(c: Chain, from: nat, end: nat, s: State, replies: seq<Reply>)
    requires Known(c, c.logs) && FullSteps(s, from, end) && No413(replies)
    ensures FullSteps(Scan(c, end, s, replies).state, from, end)
    decreases |replies|, 0
  {
    if s.i < end && replies != [] {
      if replies[0].Fail? {
        ResumeFullSteps(c, from, end, s, replies[0].cause, replies[1..]);
      } else {
        var chunk := LogsIn(c, s.i, ChunkEnd(s, end));
        var r := Save(c, chunk, s.cache, replies[1..]);
        var t := AfterChunk(s, end, r);
        FullStep(s, from, end);
        SaveNo413(c, chunk, s.cache, replies[1..]);
        match r.stop
        case Completed => ScanFullSteps(c, from, end, t, r.rest);
        case Cut =>
        case Threw(cause) => ResumeFullSteps(c, from, end, t, cause, r.rest);
      }
    }
  }

  lemma {:induction false} ResumeFullSteps(c: Chain, from: nat, end: nat, s: State, cause: Cause, replies: seq<Reply>)
    requires Known(c, c.logs) && FullSteps(s, from, end) && No413(replies) && !cause.is413
    ensures FullSteps(Resume(c, end, s, cause, replies).state, from, end)
    decreases |replies|, 1
  {
    match Caught(s, cause)
    case None =>
    case Some(t) => ScanFullSteps(c, from, end, t, replies);
  }

  lemma FullStepsPast(i: nat, from: nat, end: nat)
    requires from <= end <= i < end + MAX_DELTA && (i - from) % MAX_DELTA == 0
    ensures end < i <==> (end - from) % MAX_DELTA != 0
  {
  }

  /** Without a 413, a finished scan has read the end block exactly if the way there is no multiple of 9999 blocks. */
  lemma EndReadIff(c: Chain, from: nat, end: nat, replies: seq<Reply>)
    requires c.Valid() && from < end && No413(replies)
    requires Scan(c, end, Init(from), replies).exit.Finished?
    ensures Covers(Scan(c, end, Init(from), replies).state.ranges, end) <==> (end - from) % 9_999 != 0
  {
    var s := Scan(c, end, Init(from), replies).state;
    ScanCovers(c, from, end, replies);
    ScanFullSteps(c, from, end, Init(from), replies);
    InitAtHead(c, from, end);
    ScanKeeps(c, from, end, Init(from), replies);
    FullStepsPast(s.i, from, end);
  }

  /** The head block itself can stay unread: here it is 9999 blocks on, and the first chunk ends just below it. */
  lemma HeadCanBeMissed()
    ensures var c := Chain(seq(10_000, _ => 0), [Log(9_999, 0, Trade, 0)]);
            var o := Scan(c, c.Head(), Init(0), [Ok]);
            c.Valid() && c.Head() == 9_999 && o.exit.Finished? && !o.state.dropped && o.state.sent == []
  {
    var c := Chain(seq(10_000, _ => 0), [Log(9_999, 0, Trade, 0)]);
    assert LogsIn(c, 0, ChunkEnd(Init(0), 9_999)) == [];
    var t := AfterChunk(Init(0), 9_999, Save(c, [], map[], []));
    assert Scan(c, 9_999, Init(0), [Ok]) == Scan(c, 9_999, t, []);
  }

  /** At most once, in chain order, with the right block time: for every scan, also one that drops or throws. */
  lemma ScanSendsAtMostOnce(c: Chain, from: nat, end: nat, replies: seq<Reply>)
    requires c.Valid() && from <= end
    ensures var sent := Scan(c, end, Init(from), replies).state.sent;
            Ordered(sent) && Genuine(c, sent, from, end + 1)
  {
    InitAtHead(c, from, end);
    ScanKeeps(c, from, end, Init(from), replies);
  }

  /**
   * A finished scan has sent every log of the blocks it read, which include all blocks below the end,
   * exactly if no `saveEvents` threw. A scan cut short without such a throw has sent a beginning of them.
   */
  lemma ScanCompleteIff(c: Chain, from: nat, end: nat, replies: seq<Reply>)
    requires c.Valid() && from <= end
    ensures var o := Scan(c, end, Init(from), replies);
            && (o.exit.Finished? ==>
                  && (o.state.sent == Stamped(c, Asked(c, from, end, o.state)) <==> !o.state.dropped)
                  && forall log :: log in c.logs && from <= log.block < end ==> log in Asked(c, from, end, o.state))
            && (!o.state.dropped ==> InOrder(c, from, end, o.state))
  {
    var o := Scan(c, end, Init(from), replies);
    InitAtHead(c, from, end);
    ScanKeeps(c, from, end, Init(from), replies);
    LogsInExact(c, from, Reached(o.state, end) - 1);
  }

  /** So a log of the end block is sent, without 413 and without a throw out of `saveEvents`, exactly then. */
  lemma EndLogSentIff(c: Chain, from: nat, end: nat, replies: seq<Reply>, log: Log)
    requires c.Valid() && from < end && No413(replies) && log in c.logs && log.block == end < |c.times|
    requires var o := Scan(c, end, Init(from), replies); o.exit.Finished? && !o.state.dropped
    ensures Sent(log, c.times[end]) in Scan(c, end, Init(from), replies).state.sent <==> (end - from) % 9_999 != 0
  {
    var s := Scan(c, end, Init(from), replies).state;
    ScanCovers(c, from, end, replies);
    EndReadIff(c, from, end, replies);
    ScanCompleteIff(c, from, end, replies);
    var asked := Asked(c, from, end, s);
    LogsInExact(c, from, Reached(s, end) - 1);
    if k :| 0 <= k < |asked| && asked[k] == log { assert s.sent[k] == Sent(log, c.times[end]); }
    if k :| 0 <= k < |s.sent| && s.sent[k] == Sent(log, c.times[end]) { assert asked[k] == log; }
  }

  // ---------------------------------------------------------------- back-off and patience

  /** How many more errors that double the wait are survived from this wait on. */
  function WaitLeft(wait: nat): nat {
    if wait <= 2 then 4 else if wait <= 4 then 3 else if wait <= 8 then 2 else if wait <= 16 then 1 else 0
  }

  predicate Other(r: Reply) {
    r.Fail? && !r.cause.is413 && !r.cause.isRate
  }

  /** Errors that double the wait: all but 413. */
  function Backoffs(fails: seq<Reply>): nat {
    if fails == [] then 0
    else (if fails[0].Fail? && !fails[0].cause.is413 then 1 else 0) + Backoffs(fails[1..])
  }

  /** An "other" error with at least n back-offs before it. */
  ghost predicate LateOther(fails: seq<Reply>, n: int) {
    exists k :: 0 <= k < |fails| && Other(fails[k]) && Backoffs(fails[..k]) >= n
  }

  lemma LateOtherStep(fails: seq<Reply>, n: nat)
    requires fails != [] && fails[0].Fail?
    ensures LateOther(fails, n) <==>
            (Other(fails[0]) && n == 0) || LateOther(fails[1..], if fails[0].cause.is413 || n == 0 then n else n - 1)
  {
    var step := if fails[0].cause.is413 then 0 else 1;
    forall k | 0 < k < |fails| ensures Backoffs(fails[..k]) == step + Backoffs(fails[1..][..k - 1]) {
      assert fails[..k][1..] == fails[1..][..k - 1];
    }
    if k :| 0 <= k < |fails| && Other(fails[k]) && Backoffs(fails[..k]) >= n {
      if k > 0 { assert Other(fails[1..][k - 1]); }
    }
    var m := if fails[0].cause.is413 || n == 0 then n else n - 1;
    if j :| 0 <= j < |fails[1..]| && Other(fails[1..][j]) && Backoffs(fails[1..][..j]) >= m {
      assert Other(fails[j + 1]);
    }
  }

  /**
   * Between two successful queries the scan throws exactly at an error that is neither 413 nor rate limit
   * and comes after as many back-offs as the wait has left: four right after a success.
   */
  lemma {:induction false} ThrowsExactly(c: Chain, end: nat, s: State, fails: seq<Reply>)
    requires Known(c, c.logs) && Bounded(s) && s.i < end
    requires forall k :: 0 <= k < |fails| ==> fails[k].Fail?
    ensures Scan(c, end, s, fails).exit == if LateOther(fails, WaitLeft(s.wait)) then Failed else Interrupted
    decreases |fails|
  {
    if fails != [] {
      LateOtherStep(fails, WaitLeft(s.wait));
      var t := Caught(s, fails[0].cause);
      if t.Some? {
        ThrowsExactly(c, end, t.value, fails[1..]);
      }
    }
  }

  // ---------------------------------------------------------------- widths, waits and patience, in numbers

  /** d reduced n times: three quarters, rounded half up, but not below 100. */
  function Reduced(d: nat, n: nat): nat {
    if n == 0 then d else Max(100, (Reduced(d, n - 1) as real * 0.75 + 0.5).Floor)
  }

  /** A width below three quarters of 9999 grows by a quarter, rounded half up, but not above 9999. */
  function Widened(d: nat): nat {
    if d as real < 9_999.0 * 0.75 then Min(9_999, (d as real * 1.25 + 0.5).Floor) else d
  }

  /** A wait doubled n times, but not above 32 seconds. */
  function Doubled(wait: nat, n: nat): nat {
    if n == 0 then wait else Min(32, 2 * Doubled(wait, n - 1))
  }

  function Count413(fails: seq<Reply>): nat {
    if fails == [] then 0 else (if fails[0].Fail? && fails[0].cause.is413 then 1 else 0) + Count413(fails[1..])
  }

  lemma {:induction false} ReducedOnce(d: nat, n: nat)
    requires d >= 100
    ensures Reduced(d, n) >= 100 && Reduced(Shrunk(d), n) == Reduced(d, n + 1)
  {
    if n > 0 {
      ReducedOnce(d, n - 1);
    } else {
      assert Reduced(d, 0) == d;
      ShrunkIsReduced(d);
    }
  }

  lemma ShrunkIsReduced(d: nat)
    ensures Shrunk(d) == Max(100, (d as real * 0.75 + 0.5).Floor)
  {
    assert (d as real * 0.75 + 0.5) == (3 * d + 2) as real / 4.0;
    FloorOfQuarters(3 * d + 2);
  }

  lemma GrownIsWidened(d: nat)
    ensures Grown(d) == Widened(d)
  {
    assert (d as real * 1.25 + 0.5) == (5 * d + 2) as real / 4.0;
    FloorOfQuarters(5 * d + 2);
  }

  lemma FloorOfQuarters(n: nat)
    ensures (n as real / 4.0).Floor == n / 4
  {
    var q, r := n / 4, n % 4;
    assert n as real / 4.0 == q as real + r as real / 4.0;
  }

  lemma {:induction false} DoubledOnce(wait: nat, n: nat)
    ensures Doubled(Min(32, 2 * wait), n) == Doubled(wait, n + 1)
  {
    if n > 0 { DoubledOnce(wait, n - 1); }
  }

  /** The state after a series of errors that the scan survives. */
  function Endured(s: State, fails: seq<Reply>): State {
    s.(delta := Reduced(s.delta, Count413(fails)), wait := Doubled(s.wait, Backoffs(fails)))
  }

  lemma ErrorEndured(s: State, fails: seq<Reply>)
    requires Bounded(s) && fails != [] && fails[0].Fail? && Caught(s, fails[0].cause).Some?
    ensures var t := Caught(s, fails[0].cause).value;
            Bounded(t) && t.i == s.i && t.ranges == s.ranges && Endured(t, fails[1..]) == Endured(s, fails)
  {
    var t := Caught(s, fails[0].cause).value;
    if fails[0].cause.is413 {
      ReducedOnce(s.delta, Count413(fails[1..]));
    } else {
      assert t == s.(wait := Min(32, 2 * s.wait));
      DoubledOnce(s.wait, Backoffs(fails[1..]));
    }
  }

  /**
   * After errors none of which comes too late, the scan is where it was: each 413 has taken a quarter off the chunk,
   * each other error has doubled the wait.
   */
  lemma {:induction false} ErrorsEndured(c: Chain, end: nat, s: State, fails: seq<Reply>, rest: seq<Reply>)
    requires Known(c, c.logs) && Bounded(s) && s.i < end
    requires (forall k :: 0 <= k < |fails| ==> fails[k].Fail?) && !LateOther(fails, WaitLeft(s.wait))
    ensures Bounded(Endured(s, fails))
    ensures Scan(c, end, s, fails + rest) == Scan(c, end, Endured(s, fails), rest)
    decreases |fails|
  {
    if fails == [] {
      assert fails + rest == rest && Endured(s, fails) == s;
    } else {
      LateOtherStep(fails, WaitLeft(s.wait));
      ErrorEndured(s, fails);
      var t := Caught(s, fails[0].cause).value;
      assert (fails + rest)[1..] == fails[1..] + rest;
      ErrorsEndured(c, end, t, fails[1..], rest);
    }
  }

  /** A scan only adds to the ranges read. */
  lemma {:induction false} RangesStay(c: Chain, end: nat, s: State, replies: seq<Reply>)
    requires Known(c, c.logs)
    ensures s.ranges <= Scan(c, end, s, replies).state.ranges
    decreases |replies|, 0
  {
    if s.i < end && replies != [] {
      if replies[0].Fail? {
        RangesStayAfter(c, end, s, replies[0].cause, replies[1..]);
      } else {
        var r := Save(c, LogsIn(c, s.i, ChunkEnd(s, end)), s.cache, replies[1..]);
        var t := AfterChunk(s, end, r);
        match r.stop
        case Completed => RangesStay(c, end, t, r.rest);
        case Cut =>
        case Threw(cause) => RangesStayAfter(c, end, t, cause, r.rest);
      }
    }
  }

  lemma {:induction false} RangesStayAfter(c: Chain, end: nat, s: State, cause: Cause, replies: seq<Reply>)
    requires Known(c, c.logs)
    ensures s.ranges <= Resume(c, end, s, cause, replies).state.ranges
    decreases |replies|, 1
  {
    match Caught(s, cause)
    case None =>
    case Some(t) => RangesStay(c, end, t, replies);
  }

  /** The next range read after a series of errors. */
  function RangeAfter(s: State, end: nat, fails: seq<Reply>): (int, int) {
    (s.i, Min(end, s.i + Reduced(s.delta, Count413(fails)) - 1))
  }

  /** After n 413s, other errors among them or not, the next range is as wide as the chunk reduced n times. */
  lemma NextRange(c: Chain, end: nat, s: State, fails: seq<Reply>, rest: seq<Reply>)
    requires Known(c, c.logs) && Bounded(s) && s.i < end
    requires (forall k :: 0 <= k < |fails| ==> fails[k].Fail?) && !LateOther(fails, WaitLeft(s.wait))
    ensures s.ranges + [RangeAfter(s, end, fails)] <= Scan(c, end, s, fails + [Ok] + rest).state.ranges
  {
    assert fails + [Ok] + rest == fails + ([Ok] + rest);
    ErrorsEndured(c, end, s, fails, [Ok] + rest);
    var t := Endured(s, fails);
    assert ([Ok] + rest)[1..] == rest;
    var r := Save(c, LogsIn(c, t.i, ChunkEnd(t, end)), t.cache, rest);
    var u := AfterChunk(t, end, r);
    match r.stop
    case Completed => RangesStay(c, end, u, r.rest);
    case Cut =>
    case Threw(cause) => RangesStayAfter(c, end, u, cause, r.rest);
  }

  /** A scan begins with a range of 9999 blocks, or up to the end block, less a quarter per 413 before it. */
  lemma FirstRange(c: Chain, from: nat, end: nat, fails: seq<Reply>, rest: seq<Reply>)
    requires Known(c, c.logs) && from < end
    requires (forall k :: 0 <= k < |fails| ==> fails[k].Fail?) && !LateOther(fails, 4)
    ensures [(from as int, Min(end, from + Reduced(9_999, Count413(fails)) - 1))] <=
            Scan(c, end, Init(from), fails + [Ok] + rest).state.ranges
  {
    NextRange(c, end, Init(from), fails, rest);
  }

  /** A successful query moves on by its chunk, ends the wait and widens the chunk. */
  lemma ChunkMovesOn(s: State, end: nat, r: Saved)
    ensures var t := AfterChunk(s, end, r);
            && t.i == s.i + s.delta && t.wait == 2 && t.delta == Widened(s.delta)
            && t.ranges == s.ranges + [(s.i, Min(end, s.i + s.delta - 1))]
            && t.sent == s.sent + r.sent && (t.dropped <==> s.dropped || r.stop.Threw?)
  {
    GrownIsWidened(s.delta);
  }

  /** A successful query whose events are saved, and the errors that follow it. */
  ghost predicate SavedThen(c: Chain, end: nat, s: State, replies: seq<Reply>, fails: seq<Reply>, rest: seq<Reply>)
    requires Known(c, c.logs)
  {
    && s.i < end && Bounded(s) && replies != [] && replies[0].Ok?
    && var r := Save(c, LogsIn(c, s.i, ChunkEnd(s, end)), s.cache, replies[1..]);
    && r.stop.Completed? && r.rest == fails + rest && forall k :: 0 <= k < |fails| ==> fails[k].Fail?
  }

  lemma SavedGoesOn(c: Chain, end: nat, s: State, replies: seq<Reply>, fails: seq<Reply>, rest: seq<Reply>)
    requires Known(c, c.logs) && SavedThen(c, end, s, replies, fails, rest)
    ensures var t := AfterChunk(s, end, Save(c, LogsIn(c, s.i, ChunkEnd(s, end)), s.cache, replies[1..]));
            Bounded(t) && Scan(c, end, s, replies) == Scan(c, end, t, fails + rest)
  {
    ChunkBounded(s, end);
  }

  /** After a success the scan throws exactly at an error neither 413 nor rate limit with four back-offs before it. */
  lemma ThrowsAfterFour(c: Chain, end: nat, s: State, replies: seq<Reply>, fails: seq<Reply>)
    requires Known(c, c.logs) && SavedThen(c, end, s, replies, fails, []) && s.i + s.delta < end
    ensures Scan(c, end, s, replies).exit == if LateOther(fails, 4) then Failed else Interrupted
  {
    var r := Save(c, LogsIn(c, s.i, ChunkEnd(s, end)), s.cache, replies[1..]);
    SavedGoesOn(c, end, s, replies, fails, []);
    ChunkMovesOn(s, end, r);
    assert fails + [] == fails;
    ThrowsExactly(c, end, AfterChunk(s, end, r), fails);
  }

  /** Else its next range begins where the last one ended, widened, less a quarter per 413 in between. */
  lemma RangeAfterSuccess(c: Chain, end: nat, s: State, replies: seq<Reply>, fails: seq<Reply>, rest: seq<Reply>)
    requires Known(c, c.logs) && SavedThen(c, end, s, replies, fails, [Ok] + rest) && s.i + s.delta < end && !LateOther(fails, 4)
    ensures s.ranges + [(s.i, s.i + s.delta - 1),
                        (s.i + s.delta,
                         Min(end, s.i + s.delta + Reduced(Widened(s.delta), Count413(fails)) - 1))] <=
            Scan(c, end, s, replies).state.ranges
  {
    var r := Save(c, LogsIn(c, s.i, ChunkEnd(s, end)), s.cache, replies[1..]);
    var t := AfterChunk(s, end, r);
    SavedGoesOn(c, end, s, replies, fails, [Ok] + rest);
    ChunkMovesOn(s, end, r);
    assert fails + ([Ok] + rest) == fails + [Ok] + rest;
    NextRange(c, end, t, fails, rest);
    assert s.ranges + [(s.i, s.i + s.delta - 1), RangeAfter(t, end, fails)] == t.ranges + [RangeAfter(t, end, fails)];
  }

  // ---------------------------------------------------------------- block times, in numbers

  predicate RateLimit(r: Reply) {
    r.Fail? && r.cause.isRate
  }

  /** After n rate limits the next reply decides; the sixth rate limit in a row is thrown. */
  lemma {:induction false} FetchExactly(replies: seq<Reply>, n: nat, retries: nat)
    requires n <= |replies| && forall k :: 0 <= k < n ==> RateLimit(replies[k])
    requires n + retries <= 6 && retries <= 5
    requires n < |replies| && n + retries < 6 ==> !RateLimit(replies[n])
    ensures n + retries == 6 ==>
              RateLimit(replies[n - 1]) && Fetch(replies, retries) == Fetched(Threw(replies[n - 1].cause), replies[n..])
    ensures n + retries < 6 ==>
              Fetch(replies, retries) ==
                if n == |replies| then Fetched(Cut, [])
                else if replies[n].Ok? then Fetched(Completed, replies[n + 1..])
                else Fetched(Threw(replies[n].cause), replies[n + 1..])
  {
    if n > 0 && retries < 5 {
      FetchExactly(replies[1..], n - 1, retries + 1);
      assert replies[1..][n - 1..] == replies[n..];
      assert n < |replies| ==> replies[1..][n..] == replies[n + 1..];
    }
  }

  /** A block's time is asked for once: known ones cost no reply, and those of all saved logs are known. */
  lemma {:induction false} TimesAskedOnce(c: Chain, logs: seq<Log>, cache: map<nat, nat>, replies: seq<Reply>)
    requires Known(c, logs)
    ensures var r := Save(c, logs, cache, replies);
            && cache.Keys <= r.cache.Keys
            && (r.stop.Completed? ==> forall k :: 0 <= k < |logs| ==> logs[k].block in r.cache)
            && ((forall k :: 0 <= k < |logs| ==> logs[k].block in cache) ==>
                  r.stop.Completed? && r.rest == replies && r.cache == cache)
  {
    if logs != [] {
      var b := logs[0].block;
      var f := if b in cache then Fetched(Completed, replies) else Fetch(replies, 0);
      var known := if b in cache then cache else cache[b := c.times[b]];
      if f.stop.Completed? { TimesAskedOnce(c, logs[1..], known, f.rest); }
    }
  }

  /** And the time of one new block costs the replies that `Fetch` uses, no more. */
  lemma NewTimeCosts(c: Chain, log: Log, cache: map<nat, nat>, replies: seq<Reply>)
    requires log.block < |c.times| && log.block !in cache
    ensures var r, f := Save(c, [log], cache, replies), Fetch(replies, 0);
            && r.stop == f.stop && r.rest == f.rest
            && (f.stop.Completed? ==> r.cache == cache[log.block := c.times[log.block]])
  {
    assert [log][1..] == [];
  }

  // ---------------------------------------------------------------- termination

  /** Replies other than 413 and rate-limit errors. */
  function Plain(replies: seq<Reply>): nat {
    if replies == [] then 0
    else (if replies[0].Ok? || Other(replies[0]) then 1 else 0) + Plain(replies[1..])
  }

  /** How many plain replies a scan can still use. */
  function Budget(c: Chain, end: nat, s: State): int {
    5 * ((Max(0, end - s.i) + MIN_DELTA - 1) / MIN_DELTA) + WaitLeft(s.wait) + LogsAhead(c, s.i)
  }

  function LogsAhead(c: Chain, b: nat): nat {
    |c.logs| - CountBelow(c.logs, b)
  }

  lemma {:induction false} FetchUses(replies: seq<Reply>, retries: nat)
    ensures var f := Fetch(replies, retries);
            Plain(replies) <= Plain(f.rest) + (if f.stop.Cut? then 0 else 1)
  {
    if replies != [] && replies[0].Fail? && replies[0].cause.isRate && retries < 5 {
      FetchUses(replies[1..], retries + 1);
    }
  }

  lemma {:induction false} SaveUses(c: Chain, logs: seq<Log>, cache: map<nat, nat>, replies: seq<Reply>)
    requires Known(c, logs)
    ensures var r := Save(c, logs, cache, replies);
            && Plain(replies) <= |logs| + Plain(r.rest)
            && (r.stop.Cut? ==> r.rest == [])
  {
    if logs != [] {
      var b := logs[0].block;
      FetchUses(replies, 0);
      FetchCutsAtEnd(replies, 0);
      var f := if b in cache then Fetched(Completed, replies) else Fetch(replies, 0);
      if f.stop.Completed? {
        SaveUses(c, logs[1..], if b in cache then cache else cache[b := c.times[b]], f.rest);
      }
    }
  }

  lemma {:induction false} FetchCutsAtEnd(replies: seq<Reply>, retries: nat)
    ensures var f := Fetch(replies, retries); f.stop.Cut? ==> f.rest == []
  {
    if replies != [] && replies[0].Fail? && replies[0].cause.isRate && retries < 5 {
      FetchCutsAtEnd(replies[1..], retries + 1);
    }
  }

  /** A successful query pays for its own reply, its logs and the renewed patience for other errors. */
  lemma ChunkPays(c: Chain, end: nat, s: State)
    requires c.Valid() && Bounded(s) && s.i < end
    ensures Budget(c, end, Advanced(s, end)) + 1 + |LogsIn(c, s.i, ChunkEnd(s, end))| <= Budget(c, end, s)
  {
    var t := Advanced(s, end);
    CountBelowMonotone(c.logs, s.i, ChunkEnd(s, end) + 1);
    CountBelowMonotone(c.logs, ChunkEnd(s, end) + 1, t.i);
    ChunksLeftDrop(end, s.i, s.delta);
  }

  lemma ChunksLeftDrop(end: nat, i: nat, delta: nat)
    requires i < end && MIN_DELTA <= delta
    ensures (Max(0, end - (i + delta)) + MIN_DELTA - 1) / MIN_DELTA + 1 <= (Max(0, end - i) + MIN_DELTA - 1) / MIN_DELTA
  {
  }

  /**
   * A scan ends by itself: however many 413 and rate-limit errors are mixed in, it uses at most
   * 5 * ceil((end - from) / 100) + 4 + (number of logs ahead) other replies before it finishes or throws.
   */
  lemma {:induction false} ScanTerminates(c: Chain, end: nat, s: State, replies: seq<Reply>)
    requires c.Valid() && Bounded(s)
    ensures Scan(c, end, s, replies).exit.Interrupted? ==> Plain(replies) <= Budget(c, end, s)
    decreases |replies|, 0
  {
    if s.i < end && replies != [] {
      if replies[0].Fail? {
        ResumeTerminates(c, end, s, replies[0].cause, replies[1..]);
      } else {
        var logs := LogsIn(c, s.i, ChunkEnd(s, end));
        var r := Save(c, logs, s.cache, replies[1..]);
        var t := AfterChunk(s, end, r);
        SaveUses(c, logs, s.cache, replies[1..]);
        ChunkPays(c, end, s);
        assert Budget(c, end, t) == Budget(c, end, Advanced(s, end));
        match r.stop
        case Completed => ScanTerminates(c, end, t, r.rest);
        case Cut =>
        case Threw(cause) => ResumeTerminates(c, end, t, cause, r.rest);
      }
    }
  }

  /** An error uses up patience only if it is neither a 413 nor a rate limit. */
  lemma {:induction false} ResumeTerminates(c: Chain, end: nat, s: State, cause: Cause, replies: seq<Reply>)
    requires c.Valid() && Bounded(s)
    ensures Resume(c, end, s, cause, replies).exit.Interrupted? ==>
              Plain(replies) + (if Other(Fail(cause)) then 1 else 0) <= Budget(c, end, s)
    decreases |replies|, 1
  {
    match Caught(s, cause)
    case None =>
    case Some(t) => ScanTerminates(c, end, t, replies);
  }

  /** Rate limits are the only errors, and no six come in a row. */
  ghost predicate Mild(replies: seq<Reply>) {
    && (forall k :: 0 <= k < |replies| && replies[k].Fail? ==> replies[k].cause.isRate && !replies[k].cause.is413)
    && (forall k :: 0 <= k ==> OkWithin(replies, k, 6))
  }

  /** If the stream is that long, one of the n replies from k on is good. */
  ghost predicate OkWithin(replies: seq<Reply>, k: nat, n: nat) {
    k + n <= |replies| ==> exists j :: k <= j < k + n && replies[j].Ok?
  }

  lemma MildTail(replies: seq<Reply>)
    requires Mild(replies) && replies != []
    ensures Mild(replies[1..])
  {
    var tail := replies[1..];
    forall k | 0 <= k ensures OkWithin(tail, k, 6) {
      assert OkWithin(replies, k + 1, 6);
      if k + 6 <= |tail| {
        var j :| k + 1 <= j < k + 7 && replies[j].Ok?;
        assert tail[j - 1].Ok?;
      }
    }
  }

  lemma {:induction false} FetchMild(replies: seq<Reply>, retries: nat)
    requires Mild(replies) && retries <= 5 && OkWithin(replies, 0, 6 - retries)
    ensures var f := Fetch(replies, retries); !f.stop.Threw? && Mild(f.rest)
  {
    if replies != [] {
      MildTail(replies);
      if replies[0].Fail? && retries < 5 {
        if 6 - retries <= |replies| {
          var j :| 0 <= j < 6 - retries && replies[j].Ok?;
          assert replies[1..][j - 1].Ok?;
        }
        FetchMild(replies[1..], retries + 1);
      }
    }
  }

  lemma {:induction false} SaveMild(c: Chain, logs: seq<Log>, cache: map<nat, nat>, replies: seq<Reply>)
    requires Known(c, logs) && Mild(replies)
    ensures var r := Save(c, logs, cache, replies); !r.stop.Threw? && Mild(r.rest)
  {
    if logs != [] {
      var b := logs[0].block;
      assert OkWithin(replies, 0, 6);
      FetchMild(replies, 0);
      var f := if b in cache then Fetched(Completed, replies) else Fetch(replies, 0);
      if f.stop.Completed? {
        SaveMild(c, logs[1..], if b in cache then cache else cache[b := c.times[b]], f.rest);
      }
    }
  }

  /** Under rate limits that never hold for six calls in a row, a scan neither drops a log nor throws. */
  lemma {:induction false} MildScanLosesNothing(c: Chain, end: nat, s: State, replies: seq<Reply>)
    requires Known(c, c.logs) && Mild(replies)
    ensures var o := Scan(c, end, s, replies); !o.exit.Failed? && o.state.dropped == s.dropped
    decreases |replies|, 0
  {
    if s.i < end && replies != [] {
      MildTail(replies);
      if replies[0].Fail? {
        MildScanLosesNothing(c, end, Caught(s, replies[0].cause).value, replies[1..]);
      } else {
        var logs := LogsIn(c, s.i, ChunkEnd(s, end));
        var r := Save(c, logs, s.cache, replies[1..]);
        SaveMild(c, logs, s.cache, replies[1..]);
        if r.stop.Completed? { MildScanLosesNothing(c, end, AfterChunk(s, end, r), r.rest); }
      }
    }
  }

  // ---------------------------------------------------------------- the loops themselves

  /** Call backs whose block time is not older than the watermark of their event. */
  function Kept(c: map<EventName, int>, sent: seq<Sent>): (r: seq<Sent>) {
    if sent == [] then []
    else
      var last := sent[|sent| - 1];
      Kept(c, sent[..|sent| - 1]) + (if UpToDate(c, last) then [] else [last])
  }

  /** Older than its event's watermark, if that has one. */
  predicate UpToDate(watermarks: map<EventName, int>, x: Sent) {
    x.log.name in watermarks && x.ts * 1000 < watermarks[x.log.name]
  }

  function Following(done: seq<Sent>, r: Saved): Saved {
    r.(sent := done + r.sent)
  }

  /** One log's turn in `saveEvents`. */
  lemma SaveTurn(c: Chain, logs: seq<Log>, i: nat, cache: map<nat, nat>, replies: seq<Reply>, done: seq<Sent>)
    requires Known(c, logs) && i < |logs|
    ensures var one := Save(c, [logs[i]], cache, replies);
            && Following(done, Save(c, logs[i..], cache, replies)) ==
               Following(done + one.sent, if one.stop.Completed? then Save(c, logs[i + 1..], one.cache, one.rest)
                                          else one.(sent := []))
            && (!one.stop.Completed? ==> one.sent == [])
  {
    var one := Save(c, [logs[i]], cache, replies);
    assert logs[i..][1..] == logs[i + 1..] && [logs[i]][1..] == [];
    if one.stop.Completed? {
      var r := Save(c, logs[i + 1..], one.cache, one.rest);
      assert (done + one.sent) + r.sent == done + (one.sent + r.sent);
    }
  }

  class Filterer {
    const chain: Chain
    const watermarks: map<EventName, int>   // empty when nothing is to be skipped
    var replies: seq<Reply>                 // what the RPC is going to answer
    var blockTimestamp: map<nat, nat>
    var handled: seq<Sent>                  // handler calls, in order
    ghost var sent: seq<Sent>               // call backs, in order

    ghost predicate Valid()
      reads this
    {
      handled == Kept(watermarks, sent)
    }

    constructor (chain: Chain, watermarks: map<EventName, int>, replies: seq<Reply>)
      ensures Valid() && this.chain == chain && this.watermarks == watermarks
      ensures this.replies == replies && sent == [] && blockTimestamp == map[]
    {
      this.chain, this.watermarks, this.replies := chain, watermarks, replies;
      blockTimestamp, handled, sent := map[], [], [];
    }

    /** The call back of `filterProxyEvents`. */
    method OnLog(log: Log, ts: nat)
      requires Valid()
      modifies this`handled, this`sent
      ensures Valid() && sent == old(sent) + [Sent(log, ts)]
    {
      sent := sent + [Sent(log, ts)];
      assert sent[..|sent| - 1] == old(sent);
      if log.name in watermarks && ts * 1000 < watermarks[log.name] {
        return;
      }
      handled := handled + [Sent(log, ts)];
    }

    /** `event.getBlock()` with its retries. */
    method GetBlockTime(b: nat) returns (stop: Stop)
      requires Valid() && b < |chain.times|
      modifies this`replies, this`blockTimestamp
      ensures Valid()
      ensures stop == Fetch(old(replies), 0).stop && replies == Fetch(old(replies), 0).rest
      ensures blockTimestamp == if stop.Completed? then old(blockTimestamp)[b := chain.times[b]] else old(blockTimestamp)
    {
      var retries := 0;
      while replies != []
        invariant blockTimestamp == old(blockTimestamp) && retries <= 5
        invariant Fetch(replies, retries) == Fetch(old(replies), 0)
        decreases |replies|
      {
        var reply := replies[0];
        replies := replies[1..];
        if reply.Ok? {
          blockTimestamp := blockTimestamp[b := chain.times[b]];
          return Completed;
        }
        if reply.cause.isRate && retries < 5 {
          retries := retries + 1;
        } else {
          return Threw(reply.cause);
        }
      }
      return Cut;
    }

    /** One turn of the loop: look up the block time, unless it is known, and call back. */
    method SaveEvent(log: Log) returns (stop: Stop)
      requires Valid() && log.block < |chain.times|
      modifies this
      ensures Valid()
      ensures var one := Save(chain, [log], old(blockTimestamp), old(replies));
              stop == one.stop && sent == old(sent) + one.sent && blockTimestamp == one.cache && replies == one.rest
    {
      if log.block !in blockTimestamp {
        stop := GetBlockTime(log.block);
        if !stop.Completed? {
          return;
        }
      }
      OnLog(log, blockTimestamp[log.block]);
      return Completed;
    }

    method SaveEvents(logs: seq<Log>) returns (stop: Stop)
      requires Valid() && Known(chain, logs)
      modifies this
      ensures Valid()
      ensures var r := Save(chain, logs, old(blockTimestamp), old(replies));
              stop == r.stop && sent == old(sent) + r.sent && blockTimestamp == r.cache && replies == r.rest
    {
      ghost var whole := Following(sent, Save(chain, logs, blockTimestamp, replies));
      var i := 0;
      assert logs[0..] == logs;
      while i < |logs|
        invariant 0 <= i <= |logs| && Valid()
        invariant whole == Following(sent, Save(chain, logs[i..], blockTimestamp, replies))
      {
        SaveTurn(chain, logs, i, blockTimestamp, replies, sent);
        stop := SaveEvent(logs[i]);
        if !stop.Completed? {
          return;
        }
        i := i + 1;
      }
      return Completed;
    }

    /** The catch block of `genericFilterer`: smaller chunks, a longer wait, or a throw. */
    static method OnError(cause: Cause, deltaBlocks: nat, lastWaitSeconds: nat, ghost s: State)
      returns (thrown: bool, delta: nat, wait: nat)
      requires s.delta == deltaBlocks && s.wait == lastWaitSeconds
      ensures Caught(s, cause) == if thrown then None else Some(s.(delta := delta, wait := wait))
    {
      thrown, delta, wait := false, deltaBlocks, lastWaitSeconds;
      if cause.is413 {
        delta := Max(MIN_DELTA, (3 * deltaBlocks + 2) / 4);
      } else if cause.isRate {
        wait := Min(2 * lastWaitSeconds, MAX_WAIT);
      } else if MAX_WAIT > lastWaitSeconds {
        wait := 2 * lastWaitSeconds;
      } else {
        thrown := true;
      }
    }

    /** The try block of `genericFilterer`: query a chunk, move on, save its events. */
    method QueryChunk(i: nat, deltaBlocks: nat, lastWaitSeconds: nat, endBlock: nat, ghost s: State)
      returns (stop: Stop, i': nat, delta: nat, wait: nat, ghost t: State)
      requires Valid() && Known(chain, chain.logs) && replies != []
      requires s.i == i && s.delta == deltaBlocks && s.wait == lastWaitSeconds
      requires s.sent == sent && s.cache == blockTimestamp
      modifies this
      ensures Valid()
      ensures t.i == i' && t.delta == delta && t.wait == wait && t.sent == sent && t.cache == blockTimestamp
      ensures match old(replies)[0]
              case Fail(cause) => stop == Threw(cause) && t == s && replies == old(replies)[1..]
              case Ok =>
                var r := Save(chain, LogsIn(chain, s.i, ChunkEnd(s, endBlock)), s.cache, old(replies)[1..]);
                t == AfterChunk(s, endBlock, r) && stop == r.stop && replies == r.rest
    {
      i', delta, wait, t := i, deltaBlocks, lastWaitSeconds, s;
      var reply := replies[0];
      replies := replies[1..];
      if reply.Fail? {
        return Threw(reply.cause), i', delta, wait, t;
      }
      var events := LogsIn(chain, i, Min(endBlock, i + deltaBlocks - 1));
      i' := i + deltaBlocks;
      wait := 2;
      if 4 * deltaBlocks < 3 * MAX_DELTA {
        delta := Min(MAX_DELTA, (5 * deltaBlocks + 2) / 4);
      }
      t := AfterChunk(s, endBlock, Save(chain, events, blockTimestamp, replies));
      stop := SaveEvents(events);
    }

    /** The scan from `fromBlock` to `endBlock`. */
    method GenericFilterer(fromBlock: nat, endBlock: nat) returns (exit: Exit, ghost state: State)
      requires Valid() && Known(chain, chain.logs) && sent == [] && blockTimestamp == map[]
      modifies this
      ensures Valid()
      ensures Outcome(exit, state) == Scan(chain, endBlock, Init(fromBlock), old(replies))
      ensures sent == state.sent
    {
      var i, deltaBlocks, lastWaitSeconds := fromBlock, MAX_DELTA, 2;
      state := Init(fromBlock);
      while i < endBlock && replies != []
        invariant Valid()
        invariant state.i == i && state.delta == deltaBlocks && state.wait == lastWaitSeconds
        invariant state.sent == sent && state.cache == blockTimestamp
        invariant Scan(chain, endBlock, state, replies) == Scan(chain, endBlock, Init(fromBlock), old(replies))
        decreases |replies|
      {
        var stop;
        stop, i, deltaBlocks, lastWaitSeconds, state :=
          QueryChunk(i, deltaBlocks, lastWaitSeconds, endBlock, state);
        if stop.Cut? {
          return Interrupted, state;
        }
        if stop.Threw? {
          var thrown;
          thrown, deltaBlocks, lastWaitSeconds := OnError(stop.cause, deltaBlocks, lastWaitSeconds, state);
          if thrown {
            return Failed, state;
          }
          state := state.(delta := deltaBlocks, wait := lastWaitSeconds);
        }
      }
      exit := if endBlock <= i then Finished else Interrupted;
    }
  }
}
