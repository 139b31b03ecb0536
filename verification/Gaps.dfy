/** Gap detection and repair (`gaps.ts`): runs without rows, and the backfills issued for them. */
module Gaps {
  import opened Chain
  import opened BlockSearch
  import opened LogScan
  import opened Backfill
  import opened Prelude

  /** Two neighbouring backfilled rows of a table, in milliseconds. */
  datatype GapRow = GapRow(gapStart: nat, gapEnd: nat)

  /** b is the next timestamp after a. */
  predicate Neighbours(rows: set<nat>, a: nat, b: nat) {
    a in rows && b in rows && a < b && forall r :: r in rows ==> !(a < r < b)
  }

  /** The rows of `detectGaps`: neighbours more than the threshold apart (`LEAD ... > $1`). */
  ghost predicate IsGap(rows: set<nat>, thresholdSeconds: nat, g: GapRow) {
    Neighbours(rows, g.gapStart, g.gapEnd) && g.gapEnd - g.gapStart > thresholdSeconds * 1000
  }

  ghost predicate RowWithin(rows: set<nat>, u: nat, v: nat) {
    exists r :: r in rows && u < r < v
  }

  lemma {:induction false} LatestUpTo(rows: set<nat>, some: nat, u: nat) returns (a: nat)
    requires some in rows && some <= u
    ensures a in rows && a <= u && forall r :: r in rows && r <= u ==> r <= a
    decreases u - some
  {
    if r :| r in rows && some < r <= u {
      a := LatestUpTo(rows, r, u);
    } else {
      a := some;
    }
  }

  lemma {:induction false} EarliestAfter(rows: set<nat>, some: nat, u: nat) returns (b: nat)
    requires some in rows && u < some
    ensures b in rows && u < b && forall r :: r in rows && u < r ==> b <= r
    decreases some
  {
    if r :| r in rows && u < r < some {
      b := EarliestAfter(rows, r, u);
    } else {
      b := some;
    }
  }

  /** No gap is reported exactly if every window longer than the threshold, first row to last, has a row in it. */
  lemma NoGapIff(rows: set<nat>, thresholdSeconds: nat, first: nat, last: nat)
    requires first in rows && last in rows && forall r :: r in rows ==> first <= r <= last
    ensures (forall g :: !IsGap(rows, thresholdSeconds, g)) <==>
            forall u: nat, v: nat :: first <= u && v <= last && v > u + thresholdSeconds * 1000 ==> RowWithin(rows, u, v)
  {
    if forall g :: !IsGap(rows, thresholdSeconds, g) {
      forall u: nat, v: nat | first <= u && v <= last && v > u + thresholdSeconds * 1000
        ensures RowWithin(rows, u, v)
      {
        var a := LatestUpTo(rows, first, u);
        var b := EarliestAfter(rows, last, u);
        assert !IsGap(rows, thresholdSeconds, GapRow(a, b));
      }
    }
    if g :| IsGap(rows, thresholdSeconds, g) {
      assert !RowWithin(rows, g.gapStart, g.gapEnd);
    }
  }

  // ---------------------------------------------------------------- repair

  ghost predicate Descending(s: seq<nat>) {
    forall j, k :: 0 <= j < k < |s| ==> s[j] > s[k]
  }

  function Seconds(g: GapRow): (sec: nat)
    ensures sec * 1000 <= g.gapStart < (sec + 1) * 1000
  {
    g.gapStart / 1000
  }

  /** The start seconds of all gaps found; a table whose query failed (`None`) has none. */
  ghost predicate Collected(detected: seq<Option<seq<GapRow>>>, starts: set<nat>) {
    forall sec :: sec in starts <==> StartsAt(detected, sec)
  }

  ghost predicate StartsAt(detected: seq<Option<seq<GapRow>>>, sec: nat) {
    exists i, j :: 0 <= i < |detected| && detected[i].Some? && 0 <= j < |detected[i].value|
                   && Seconds(detected[i].value[j]) == sec
  }

  method CollectStarts(detected: seq<Option<seq<GapRow>>>) returns (starts: set<nat>)
    ensures Collected(detected, starts)
  {
    starts := {};
    for i := 0 to |detected|
      invariant forall sec :: sec in starts <==> StartsAt(detected[..i], sec)
    {
      ghost var before := starts;
      if detected[i].Some? {
        var gaps := detected[i].value;
        for j := 0 to |gaps|
          invariant forall sec :: sec in starts <==> sec in before || StartsAt([Some(gaps[..j])], sec)
        {
          OneMoreGap(gaps, j);
          starts := starts + {Seconds(gaps[j])};
        }
        assert gaps[..|gaps|] == gaps;
      }
      OneMoreTable(detected, i);
    }
    assert detected[..|detected|] == detected;
  }

  lemma OneMoreGap(gaps: seq<GapRow>, j: nat)
    requires j < |gaps|
    ensures forall sec :: StartsAt([Some(gaps[..j + 1])], sec) <==>
              StartsAt([Some(gaps[..j])], sec) || sec == Seconds(gaps[j])
  {
    var x, y := [Some(gaps[..j])], [Some(gaps[..j + 1])];
    forall sec ensures StartsAt(y, sec) <==> StartsAt(x, sec) || sec == Seconds(gaps[j]) {
      if i, k :| 0 <= i < |x| && x[i].Some? && 0 <= k < |x[i].value| && Seconds(x[i].value[k]) == sec {
        assert y[i].value[k] == x[i].value[k];
      }
      assert y[0].value[j] == gaps[j];
      if i, k :| 0 <= i < |y| && y[i].Some? && 0 <= k < |y[i].value| && Seconds(y[i].value[k]) == sec {
        if k < j { assert x[i].value[k] == y[i].value[k]; }
      }
    }
  }

  lemma OneMoreTable(detected: seq<Option<seq<GapRow>>>, i: nat)
    requires i < |detected|
    ensures forall sec :: StartsAt(detected[..i + 1], sec) <==>
              StartsAt(detected[..i], sec) || StartsAt([detected[i]], sec)
  {
    var x, y, z := detected[..i], detected[..i + 1], [detected[i]];
    forall sec ensures StartsAt(y, sec) <==> StartsAt(x, sec) || StartsAt(z, sec) {
      if n, k :| 0 <= n < |x| && x[n].Some? && 0 <= k < |x[n].value| && Seconds(x[n].value[k]) == sec {
        assert y[n] == x[n];
      }
      if n, k :| 0 <= n < |z| && z[n].Some? && 0 <= k < |z[n].value| && Seconds(z[n].value[k]) == sec {
        assert y[i] == z[n];
      }
      if n, k :| 0 <= n < |y| && y[n].Some? && 0 <= k < |y[n].value| && Seconds(y[n].value[k]) == sec {
        if n < i { assert x[n] == y[n]; } else { assert z[0] == y[n]; }
      }
    }
  }

  /** `sort((a, b) => b - a)` of the set. */
  method SortDescending(starts: set<nat>) returns (sorted: seq<nat>)
    ensures Descending(sorted) && forall sec :: sec in sorted <==> sec in starts
  {
    sorted := [];
    var todo := starts;
    while todo != {}
      invariant todo <= starts && Descending(sorted)
      invariant forall sec :: sec in sorted <==> sec in starts - todo
      decreases todo
    {
      var x :| x in todo;
      assert x !in sorted;
      sorted := InsertDescending(sorted, x);
      todo := todo - {x};
    }
  }

  lemma InsertedDescends(s: seq<nat>, k: nat, x: nat)
    requires Descending(s) && x !in s && k <= |s|
    requires (forall j :: 0 <= j < k ==> s[j] > x) && (k < |s| ==> s[k] <= x)
    ensures Descending(s[..k] + [x] + s[k..])
    ensures forall y :: y in s[..k] + [x] + s[k..] <==> y in s || y == x
  {
    var r := s[..k] + [x] + s[k..];
    forall i, j | 0 <= i < j < |r| ensures r[i] > r[j] {
      if j > k {
        assert r[j] == s[j - 1] && s[j - 1] in s;
        assert s[j - 1] <= s[k];
        if i > k { assert r[i] == s[i - 1]; }
      }
    }
    assert s == s[..k] + s[k..];
  }

  method InsertDescending(s: seq<nat>, x: nat) returns (r: seq<nat>)
    requires Descending(s) && x !in s
    ensures Descending(r) && forall y :: y in r <==> y in s || y == x
  {
    var k := 0;
    while k < |s| && s[k] > x
      invariant 0 <= k <= |s| && forall j :: 0 <= j < k ==> s[j] > x
    {
      k := k + 1;
    }
    r := s[..k] + [x] + s[k..];
    InsertedDescends(s, k, x);
  }

  /**
   * `detectAndFillGaps`: a backfill per distinct gap start, most recent first, from no earlier than
   * `startTimestampSec`. `throwsAt` is the backfill that throws, which ends the repair.
   */
  method DetectAndFillGaps(detected: seq<Option<seq<GapRow>>>, startTimestampSec: nat, throwsAt: Option<nat>)
    returns (issued: seq<nat>, sorted: seq<nat>)
    ensures Descending(sorted) && forall sec :: sec in sorted <==> StartsAt(detected, sec)
    ensures |issued| == if throwsAt.Some? && throwsAt.value < |sorted| then throwsAt.value + 1 else |sorted|
    ensures forall k :: 0 <= k < |issued| ==> issued[k] == Max(sorted[k], startTimestampSec)
  {
    var starts := CollectStarts(detected);
    var order := SortDescending(starts);
    sorted, issued := order, [];
    for k := 0 to |order|
      invariant |issued| == k && (throwsAt.None? || k <= throwsAt.value)
      invariant forall j :: 0 <= j < k ==> issued[j] == Max(order[j], startTimestampSec)
    {
      issued := issued + [Max(order[k], startTimestampSec)];
      if throwsAt == Some(k) {
        return;
      }
    }
  }

  /**
   * Every reported gap whose backfill is issued is rescanned, from its start or from the clamp: that backfill, if it
   * finishes without a throw out of `saveEvents`, hands over, skipping nothing, every log from then on, so every log
   * of the gap. All gaps are among these unless a backfill throws; then the gaps that start before its gap are not.
   */
  lemma GapIsRescanned(c: Chain, detected: seq<Option<seq<GapRow>>>, clampSec: nat, issued: seq<nat>, sorted: seq<nat>,
                       i: nat, j: nat)
    returns (k: nat)
    requires c.Valid() && |issued| <= |sorted| && Descending(sorted)
    requires forall sec :: sec in sorted <==> StartsAt(detected, sec)
    requires forall n :: 0 <= n < |issued| ==> issued[n] == Max(sorted[n], clampSec)
    requires i < |detected| && detected[i].Some? && j < |detected[i].value|
    ensures k < |sorted| && sorted[k] == Seconds(detected[i].value[j])
    ensures k < |issued| <==> |issued| == |sorted| || Seconds(detected[i].value[j]) > sorted[|issued|]
    ensures k < |issued| ==>
              && issued[k] == Max(Seconds(detected[i].value[j]), clampSec)
              && forall m, ts, start, replies, log ::
                   RescanFinished(c, m, issued[k], ts, start, replies) && log in c.logs && log.block < c.Head()
                   && c.TimeMs(log) >= Max(detected[i].value[j].gapStart, clampSec * 1000) ==>
                     Sent(log, c.times[log.block]) in Handled(c, m, false, start, replies)
  {
    var g := detected[i].value[j];
    assert StartsAt(detected, Seconds(g));
    k :| 0 <= k < |sorted| && sorted[k] == Seconds(g);
    if k < |issued| {
      forall m, ts, start, replies, log |
        RescanFinished(c, m, issued[k], ts, start, replies) && log in c.logs && log.block < c.Head()
        && c.TimeMs(log) >= Max(g.gapStart, clampSec * 1000)
        ensures Sent(log, c.times[log.block]) in Handled(c, m, false, start, replies)
      {
        RunIsComplete(c, m, issued[k] * 1000, false, ts, start, replies);
      }
    }
  }

  /** A backfill from second `sec`, not skipping, that has finished without a throw out of `saveEvents`. */
  ghost predicate RescanFinished(c: Chain, m: map<EventName, int>, sec: nat, ts: int, start: nat, replies: seq<Reply>)
    requires c.Valid()
  {
    && IsStartDate(m, sec * 1000, ts) && SafeStart(c.times, ts, start)
    && var o := Scan(c, c.Head(), Init(start), replies);
    o.exit.Finished? && !o.state.dropped
  }
}
