/**
 * The table `perpetual_long_id` of `set_oracles.ts`: which name a perpetual id had, and from when to when.
 * An insert is four database calls, each awaited on its own; inserts and alignments interleave freely.
 */
module PerpetualNames {
  import opened Prelude

  /** `new Date("9999-12-31")` in milliseconds: the end of an interval that is still open. */
  const FAR := 253_402_214_400_000

  /** A transaction hash in lower case. */
  type Tx = nat

  datatype Event = Event(perp: int, name: string, from: int, tx: Tx)
  datatype Row = Row(perp: int, name: string, validFrom: int, validTo: int)
  type Rows = map<Tx, Row>

  function RowOf(e: Event, validTo: int): Row {
    Row(e.perp, e.name, e.from, validTo)
  }

  // ---------------------------------------------------------------- the database calls

  /** An open interval of the event's perpetual that began before the event. */
  predicate Candidate(rows: Rows, e: Event, tx: Tx) {
    tx in rows && rows[tx].validTo == FAR && rows[tx].validFrom < e.from && rows[tx].perp == e.perp
  }

  /** What `findFirst` may return: the candidate that began last. */
  ghost predicate IsPredecessor(rows: Rows, e: Event, p: Option<Tx>) {
    match p
    case None => forall tx :: !Candidate(rows, e, tx)
    case Some(q) =>
      Candidate(rows, e, q) && forall tx :: Candidate(rows, e, tx) ==> rows[tx].validFrom <= rows[q].validFrom
  }

  function Closed(rows: Rows, p: Option<Tx>, at: int): Rows {
    if p.Some? && p.value in rows then rows[p.value := rows[p.value].(validTo := at)] else rows
  }

  /** A second row for the same hash violates the primary key; the error is caught. */
  function Created(rows: Rows, e: Event): Rows {
    if e.tx in rows then rows else rows[e.tx := RowOf(e, FAR)]
  }

  /** A later row of the same perpetual. */
  predicate Later(rows: Rows, tx: Tx, ux: Tx) {
    tx in rows && ux in rows && rows[tx].perp == rows[ux].perp && rows[tx].validFrom < rows[ux].validFrom
  }

  /** The row that begins next after tx's. */
  ghost predicate IsNext(rows: Rows, tx: Tx, ux: Tx) {
    Later(rows, tx, ux) && forall vx :: Later(rows, tx, vx) ==> rows[ux].validFrom <= rows[vx].validFrom
  }

  /** Another row of the perpetual begins at the same instant. */
  predicate Twins(rows: Rows, tx: Tx, ux: Tx) {
    && tx in rows && ux in rows && tx != ux
    && rows[tx].perp == rows[ux].perp && rows[tx].validFrom == rows[ux].validFrom
  }

  /**
   * The end that `LEAD(valid_from)` gives a row: the next start, or the end it has if there is none. Rows that begin
   * together are matched with each other's successors too, one of which is that same instant.
   */
  ghost predicate AlignedTo(rows: Rows, tx: Tx, at: int)
    requires tx in rows
  {
    if exists ux :: Twins(rows, tx, ux) then
      at == rows[tx].validFrom || exists ux :: IsNext(rows, tx, ux) && at == rows[ux].validFrom
    else
      && (forall ux :: IsNext(rows, tx, ux) ==> at == rows[ux].validFrom)
      && ((forall ux :: !Later(rows, tx, ux)) ==> at == rows[tx].validTo)
  }

  ghost predicate Aligned(rows: Rows, after: Rows) {
    && after.Keys == rows.Keys
    && forall tx :: tx in rows ==>
         after[tx] == rows[tx].(validTo := after[tx].validTo) && AlignedTo(rows, tx, after[tx].validTo)
  }

  class PerpetualLongIds {
    var rows: Rows

    method FindPredecessor(e: Event) returns (p: Option<Tx>)
      ensures IsPredecessor(rows, e, p)
    {
      p := None;
      var todo := rows.Keys;
      while todo != {}
        invariant todo <= rows.Keys
        invariant p.Some? ==> Candidate(rows, e, p.value)
        invariant forall tx :: Candidate(rows, e, tx) && tx !in todo ==>
                    p.Some? && rows[tx].validFrom <= rows[p.value].validFrom
        decreases todo
      {
        var tx :| tx in todo;
        todo := todo - {tx};
        if Candidate(rows, e, tx) && (p.None? || rows[p.value].validFrom < rows[tx].validFrom) {
          p := Some(tx);
        }
      }
    }

    /** `insertPerpetualLongId` undisturbed. */
    method Insert(e: Event) returns (ghost p: Option<Tx>)
      modifies this
      ensures Inserts(old(rows), e, p, rows)
    {
      var predecessor := FindPredecessor(e);
      p := predecessor;
      if e.tx !in rows {
        if predecessor.Some? {
          rows := rows[predecessor.value := rows[predecessor.value].(validTo := e.from)];
        }
        if e.tx !in rows {
          rows := rows[e.tx := Row(e.perp, e.name, e.from, FAR)];
        }
      }
    }

    /** `alignTimestamps`. */
    method AlignTimestamps()
      modifies this
      ensures Aligned(old(rows), rows)
    {
      ghost var before := rows;
      var todo := rows.Keys;
      while todo != {}
        invariant todo <= before.Keys && rows.Keys == before.Keys
        invariant forall tx :: tx in before ==> rows[tx] == before[tx].(validTo := rows[tx].validTo)
        invariant forall tx :: tx in todo ==> rows[tx] == before[tx]
        invariant forall tx :: tx in before && tx !in todo ==> AlignedTo(before, tx, rows[tx].validTo)
        decreases todo
      {
        var tx :| tx in todo;
        todo := todo - {tx};
        var next := FindNext(tx);
        SameStarts(before, rows, tx, if next.Some? then rows[next.value].validFrom else rows[tx].validTo);
        if next.Some? {
          rows := rows[tx := rows[tx].(validTo := rows[next.value].validFrom)];
        }
      }
    }

    /** The row that comes after tx's when its perpetual's rows are ordered by start. */
    method FindNext(tx: Tx) returns (next: Option<Tx>)
      requires tx in rows
      ensures next.Some? ==> next.value in rows && AlignedTo(rows, tx, rows[next.value].validFrom)
      ensures next.None? ==> AlignedTo(rows, tx, rows[tx].validTo)
    {
      next := None;
      var todo := rows.Keys;
      while todo != {}
        invariant todo <= rows.Keys
        invariant next.Some? ==> Later(rows, tx, next.value) || Twins(rows, tx, next.value)
        invariant forall ux :: (Later(rows, tx, ux) || Twins(rows, tx, ux)) && ux !in todo ==>
                    next.Some? && rows[next.value].validFrom <= rows[ux].validFrom
        decreases todo
      {
        var ux :| ux in todo;
        todo := todo - {ux};
        if (Later(rows, tx, ux) || Twins(rows, tx, ux))
           && (next.None? || rows[ux].validFrom < rows[next.value].validFrom) {
          next := Some(ux);
        }
      }
    }
  }

  /** Ends do not matter for who follows whom. */
  lemma SameStarts(rows: Rows, now: Rows, tx: Tx, at: int)
    requires now.Keys == rows.Keys && tx in rows && now[tx] == rows[tx]
    requires forall ux :: ux in rows ==> now[ux] == rows[ux].(validTo := now[ux].validTo)
    ensures AlignedTo(now, tx, at) <==> AlignedTo(rows, tx, at)
  {
    forall ux ensures Later(now, tx, ux) <==> Later(rows, tx, ux) { }
    forall ux ensures Twins(now, tx, ux) <==> Twins(rows, tx, ux) { }
    forall ux ensures IsNext(now, tx, ux) <==> IsNext(rows, tx, ux) { }
  }

  // ---------------------------------------------------------------- one insert after the other

  /** What `Insert` may do to the table. */
  ghost predicate Inserts(rows: Rows, e: Event, p: Option<Tx>, rows': Rows) {
    IsPredecessor(rows, e, p) && rows' == if e.tx in rows then rows else Created(Closed(rows, p, e.from), e)
  }

  /** The row ends where the next one of its perpetual begins; the last one is open. */
  ghost predicate TidyRow(rows: Rows, tx: Tx)
    requires tx in rows
  {
    && (forall ux :: IsNext(rows, tx, ux) ==> rows[tx].validTo == rows[ux].validFrom)
    && ((forall ux :: !Later(rows, tx, ux)) ==> rows[tx].validTo == FAR)
  }

  ghost predicate Tidy(rows: Rows) {
    forall tx :: tx in rows ==> TidyRow(rows, tx)
  }

  /** All starts are before the far date, and different within a perpetual, also from a new event's. */
  ghost predicate DistinctStarts(rows: Rows, e: Event) {
    && e.from < FAR
    && (forall tx :: tx in rows ==> rows[tx].validFrom < FAR && (rows[tx].perp == e.perp ==> rows[tx].validFrom != e.from))
    && (forall tx, ux :: tx in rows && ux in rows && tx != ux && rows[tx].perp == rows[ux].perp ==>
          rows[tx].validFrom != rows[ux].validFrom)
  }

  lemma TidyLastRow(rows: Rows, e: Event, tx: Tx)
    requires Tidy(rows) && DistinctStarts(rows, e) && tx in rows
    ensures rows[tx].validTo == FAR <==> forall ux :: !Later(rows, tx, ux)
  {
    assert TidyRow(rows, tx);
    var next := NextExists(rows, tx);
  }

  /** The event is new and begins after all rows of its perpetual. */
  ghost predicate InOrder(rows: Rows, e: Event) {
    forall ux :: ux in rows && rows[ux].perp == e.perp ==> rows[ux].validFrom < e.from
  }

  /** With an event in order, the later rows are those there were, and the new one for its perpetual. */
  lemma LaterAfterInsert(rows: Rows, e: Event, p: Option<Tx>, rows': Rows, tx: Tx, ux: Tx)
    requires e.tx !in rows && Inserts(rows, e, p, rows') && InOrder(rows, e)
    ensures Later(rows', tx, ux) <==> Later(rows, tx, ux) || (tx in rows && ux == e.tx && rows[tx].perp == e.perp)
  {
  }

  lemma ClosedRowTidy(rows: Rows, e: Event, p: Option<Tx>, rows': Rows, tx: Tx)
    requires e.tx !in rows && Inserts(rows, e, p, rows') && InOrder(rows, e)
    requires p == Some(tx) && forall ux :: !Later(rows, tx, ux)
    ensures TidyRow(rows', tx)
  {
    LaterAfterInsert(rows, e, p, rows', tx, e.tx);
    forall ux | IsNext(rows', tx, ux) ensures ux == e.tx {
      LaterAfterInsert(rows, e, p, rows', tx, ux);
    }
  }

  lemma NextStaysNext(rows: Rows, e: Event, p: Option<Tx>, rows': Rows, tx: Tx, next: Tx)
    requires e.tx !in rows && Inserts(rows, e, p, rows') && InOrder(rows, e) && IsNext(rows, tx, next)
    ensures IsNext(rows', tx, next) && rows'[next].validFrom == rows[next].validFrom
  {
    LaterAfterInsert(rows, e, p, rows', tx, next);
    forall vx | Later(rows', tx, vx) ensures rows'[next].validFrom <= rows'[vx].validFrom {
      LaterAfterInsert(rows, e, p, rows', tx, vx);
    }
  }

  lemma OtherRowTidy(rows: Rows, e: Event, p: Option<Tx>, rows': Rows, tx: Tx, next: Option<Tx>)
    requires e.tx !in rows && Inserts(rows, e, p, rows') && InOrder(rows, e)
    requires tx in rows && TidyRow(rows, tx) && p != Some(tx)
    requires if next.Some? then IsNext(rows, tx, next.value)
             else rows[tx].perp != e.perp && forall ux :: !Later(rows, tx, ux)
    ensures TidyRow(rows', tx)
  {
    if next.Some? {
      NextStaysNext(rows, e, p, rows', tx, next.value);
    } else {
      forall ux ensures !Later(rows', tx, ux) {
        LaterAfterInsert(rows, e, p, rows', tx, ux);
      }
    }
  }

  lemma OrderedInsertRow(rows: Rows, e: Event, p: Option<Tx>, rows': Rows, tx: Tx)
    requires Tidy(rows) && DistinctStarts(rows, e) && e.tx !in rows && Inserts(rows, e, p, rows') && InOrder(rows, e)
    requires tx in rows
    ensures TidyRow(rows', tx)
  {
    TidyLastRow(rows, e, tx);
    if p == Some(tx) {
      ClosedRowTidy(rows, e, p, rows', tx);
    } else {
      if rows[tx].perp == e.perp && rows[tx].validTo == FAR {
        assert Candidate(rows, e, tx);
        TidyLastRow(rows, e, p.value);
        assert Later(rows, tx, p.value);
      }
      assert TidyRow(rows, tx);
      var next := NextExists(rows, tx);
      OtherRowTidy(rows, e, p, rows', tx, next);
    }
  }

  lemma LateInsertIsUntidy(rows: Rows, e: Event, p: Option<Tx>, rows': Rows, ux: Tx)
    requires DistinctStarts(rows, e) && e.tx !in rows && Inserts(rows, e, p, rows')
    requires ux in rows && rows[ux].perp == e.perp && rows[ux].validFrom >= e.from
    ensures !Tidy(rows')
  {
    assert Later(rows', e.tx, ux);
    var next := NextExists(rows', e.tx);
    assert rows'[e.tx].validTo == FAR && rows'[next.value].validFrom < FAR;
    assert !TidyRow(rows', e.tx);
  }

  /** An undisturbed insert keeps the table tidy exactly if it comes in order; otherwise alignment is needed. */
  lemma InsertKeepsTidyIff(rows: Rows, e: Event, p: Option<Tx>, rows': Rows)
    requires Tidy(rows) && DistinctStarts(rows, e) && e.tx !in rows && Inserts(rows, e, p, rows')
    ensures Tidy(rows') <==> InOrder(rows, e)
  {
    if InOrder(rows, e) {
      forall tx | tx in rows' ensures TidyRow(rows', tx) {
        if tx in rows {
          OrderedInsertRow(rows, e, p, rows', tx);
        } else {
          NewRowTidy(rows, e, p, rows');
        }
      }
    } else {
      var ux :| ux in rows && rows[ux].perp == e.perp && rows[ux].validFrom >= e.from;
      LateInsertIsUntidy(rows, e, p, rows', ux);
    }
  }

  lemma NewRowTidy(rows: Rows, e: Event, p: Option<Tx>, rows': Rows)
    requires e.tx !in rows && Inserts(rows, e, p, rows') && InOrder(rows, e)
    ensures TidyRow(rows', e.tx)
  {
    forall ux ensures !Later(rows', e.tx, ux) {
      LaterAfterInsert(rows, e, p, rows', e.tx, ux);
    }
  }

  /**
   * An insert, row by row: a known hash changes nothing; otherwise the event's row is new and open till the year 9999,
   * at most one other row changes, and that one was open, of the event's perpetual, began before the event and later
   * than all other such rows, and now ends with it.
   */
  lemma InsertExact(rows: Rows, e: Event, p: Option<Tx>, rows': Rows)
    requires Inserts(rows, e, p, rows')
    ensures e.tx in rows ==> rows' == rows
    ensures e.tx !in rows ==> e.tx in rows' && rows'[e.tx] == Row(e.perp, e.name, e.from, 253_402_214_400_000)
    ensures rows'.Keys == rows.Keys + {e.tx}
    ensures forall tx :: tx in rows && rows'[tx] != rows[tx] ==>
              && rows[tx].validTo == 253_402_214_400_000 && rows[tx].perp == e.perp && rows[tx].validFrom < e.from
              && rows'[tx] == Row(e.perp, rows[tx].name, rows[tx].validFrom, e.from)
              && forall ux :: OpenBefore(rows, ux, e) ==> rows[ux].validFrom <= rows[tx].validFrom
    ensures e.tx !in rows && e.from != 253_402_214_400_000 && (exists ux :: OpenBefore(rows, ux, e)) ==>
              exists tx :: tx in rows && rows'[tx] != rows[tx]
  {
    assert rows'.Keys == rows.Keys + {e.tx};
    forall ux ensures OpenBefore(rows, ux, e) <==> Candidate(rows, e, ux) { }
  }

  predicate OpenBefore(rows: Rows, tx: Tx, e: Event) {
    tx in rows && rows[tx].perp == e.perp && rows[tx].validTo == 253_402_214_400_000 && rows[tx].validFrom < e.from
  }

  // ---------------------------------------------------------------- interleaved inserts

  /** Where an insert stands: before its first, second, third, fourth call, or through. */
  datatype Stage = Check | Find | Close(predecessor: Option<Tx>) | Create | Done
  datatype Task = Task(event: Event, stage: Stage)
  datatype World = World(rows: Rows, tasks: seq<Task>)

  ghost predicate TaskStep(rows: Rows, t: Task, rows': Rows, t': Task) {
    var e := t.event;
    match t.stage
    case Check => rows' == rows && t' == t.(stage := if e.tx in rows then Done else Find)
    case Find => rows' == rows && exists p :: IsPredecessor(rows, e, p) && t' == t.(stage := Close(p))
    case Close(p) => rows' == Closed(rows, p, e.from) && t' == t.(stage := Create)
    case Create => rows' == Created(rows, e) && t' == t.(stage := Done)
    case Done => false
  }

  /** A new delivery arrives, some insert makes its next call, or the table is aligned. */
  ghost predicate Next(s: World, s': World) {
    || (exists e :: s' == World(s.rows, s.tasks + [Task(e, Check)]))
    || (exists i: nat, t' ::
          i < |s.tasks| && s'.tasks == s.tasks[i := t'] && TaskStep(s.rows, s.tasks[i], s'.rows, t'))
    || (Aligned(s.rows, s'.rows) && s'.tasks == s.tasks)
  }

  /** Four calls that nothing comes between do what the method `Insert` does; a known hash ends after the first. */
  lemma FourCallsInsert(rows: Rows, e: Event, t1: Task, t2: Task, t3: Task, t4: Task,
                        rows1: Rows, rows2: Rows, rows3: Rows, rows4: Rows)
    requires TaskStep(rows, Task(e, Check), rows1, t1)
    requires t1.stage != Done ==>
               TaskStep(rows1, t1, rows2, t2) && TaskStep(rows2, t2, rows3, t3) && TaskStep(rows3, t3, rows4, t4)
    ensures t1.stage == Done <==> e.tx in rows
    ensures if t1.stage == Done then rows1 == rows
            else t4 == Task(e, Done) && exists p :: Inserts(rows, e, p, rows4)
  {
    if t1.stage != Done {
      var p :| IsPredecessor(rows, e, p) && t2 == t1.(stage := Close(p));
      assert Inserts(rows, e, p, rows4);
    }
  }

  ghost predicate History(tr: seq<World>) {
    && tr != [] && tr[0] == World(map[], [])
    && forall i :: 0 <= i < |tr| - 1 ==> Next(tr[i], tr[i + 1])
  }

  /** The history ends in state s. */
  ghost predicate Ends(tr: seq<World>, s: World) {
    History(tr) && s == tr[|tr| - 1]
  }

  ghost predicate SameEvents(s: World, s': World) {
    forall e :: Delivered(s, e) <==> Delivered(s', e)
  }

  ghost predicate Delivered(s: World, e: Event) {
    exists i :: 0 <= i < |s.tasks| && s.tasks[i].event == e
  }

  /** Two events of one perpetual that begin at the same instant. */
  predicate AreTwins(e: Event, f: Event) {
    e != f && e.perp == f.perp && e.from == f.from
  }

  ghost predicate Twinned(s: World, e: Event) {
    exists f :: Delivered(s, f) && AreTwins(e, f)
  }

  /** f begins after e in the same perpetual. */
  predicate Follows(e: Event, f: Event) {
    e.perp == f.perp && e.from < f.from
  }

  ghost predicate OnePerTransaction(s: World) {
    forall e, f :: Delivered(s, e) && Delivered(s, f) && e.tx == f.tx ==> e == f
  }

  /** One event per transaction, nothing starts in the far future, and nothing follows events that begin together. */
  ghost predicate Unambiguous(s: World) {
    && OnePerTransaction(s)
    && (forall e :: Delivered(s, e) ==> e.from < FAR)
    && (forall e, f :: Delivered(s, e) && Twinned(s, e) && Delivered(s, f) ==> !Follows(e, f))
  }

  /** Insert i, which has closed its predecessor, belongs after or beside the row tx and begins at `at`. */
  ghost predicate Closer(s: World, i: int, tx: Tx, at: int)
    requires tx in s.rows
  {
    && 0 <= i < |s.tasks| && (s.tasks[i].stage.Create? || s.tasks[i].stage.Done?)
    && s.tasks[i].event.perp == s.rows[tx].perp && s.rows[tx].validFrom <= at == s.tasks[i].event.from
    && (s.rows[tx].validFrom == at ==> s.tasks[i].event.tx != tx)
  }

  ghost predicate EndsAt(s: World, tx: Tx, at: int)
    requires tx in s.rows
  {
    exists i :: Closer(s, i, tx, at)
  }

  /** Insert i is through and its event has the row tx. */
  ghost predicate Creator(s: World, i: int, tx: Tx)
    requires tx in s.rows
  {
    && 0 <= i < |s.tasks| && s.tasks[i].stage.Done? && s.tasks[i].event.tx == tx
    && s.rows[tx] == RowOf(s.tasks[i].event, s.rows[tx].validTo)
  }

  /** Every row was created by an insert that is through. */
  ghost predicate RowsGenuine(s: World) {
    forall tx :: tx in s.rows ==> RowGenuine(s, tx)
  }

  ghost predicate RowGenuine(s: World, tx: Tx)
    requires tx in s.rows
  {
    exists i :: Creator(s, i, tx)
  }

  /** Every closed row ends where another row of its perpetual begins, not before it, or is about to be created. */
  ghost predicate EndsGenuine(s: World) {
    forall tx :: tx in s.rows && s.rows[tx].validTo != FAR ==> EndsAt(s, tx, s.rows[tx].validTo)
  }

  ghost predicate TaskGenuine(rows: Rows, t: Task) {
    && (t.stage.Done? ==> t.event.tx in rows)
    && (t.stage.Close? && t.stage.predecessor.Some? ==>
          var p := t.stage.predecessor.value;
          p in rows && rows[p].perp == t.event.perp && rows[p].validFrom < t.event.from)
  }

  ghost predicate Inv(s: World) {
    RowsGenuine(s) && EndsGenuine(s) && forall i :: 0 <= i < |s.tasks| ==> TaskGenuine(s.rows, s.tasks[i])
  }

  /** Rows stay and keep all but their end; insert i moves on, the others stand still. */
  ghost predicate Moves(s: World, s': World) {
    && (forall tx :: tx in s.rows ==> tx in s'.rows && s'.rows[tx] == s.rows[tx].(validTo := s'.rows[tx].validTo))
    && |s.tasks| <= |s'.tasks|
    && (forall i :: 0 <= i < |s.tasks| ==>
          s'.tasks[i].event == s.tasks[i].event
          && (s.tasks[i].stage.Done? ==> s'.tasks[i].stage.Done?)
          && (s.tasks[i].stage.Create? ==> s'.tasks[i].stage.Create? || s'.tasks[i].stage.Done?))
  }

  lemma MovesKeeps(s: World, s': World)
    requires Inv(s) && Moves(s, s')
    ensures forall tx :: tx in s.rows ==> RowGenuine(s', tx)
    ensures forall tx, at :: tx in s.rows && EndsAt(s, tx, at) ==> EndsAt(s', tx, at)
    ensures forall i :: 0 <= i < |s.tasks| ==> TaskGenuine(s'.rows, s.tasks[i])
  {
    forall tx | tx in s.rows ensures RowGenuine(s', tx) {
      assert RowGenuine(s, tx);
      var i :| Creator(s, i, tx);
      assert Creator(s', i, tx);
    }
    forall tx, at | tx in s.rows && EndsAt(s, tx, at) ensures EndsAt(s', tx, at) {
      var i :| Closer(s, i, tx, at);
      assert Closer(s', i, tx, at);
    }
  }

  lemma ArriveKeeps(s: World, s': World, e: Event)
    requires Inv(s) && s' == World(s.rows, s.tasks + [Task(e, Check)])
    ensures Inv(s')
  {
    MovesKeeps(s, s');
  }

  ghost predicate TaskMoves(s: World, s': World, i: nat, t': Task) {
    i < |s.tasks| && s'.tasks == s.tasks[i := t'] && TaskStep(s.rows, s.tasks[i], s'.rows, t')
  }

  lemma TaskKeepsRows(s: World, s': World, i: nat, t': Task)
    requires Inv(s) && TaskMoves(s, s', i, t') && Moves(s, s')
    ensures RowsGenuine(s')
  {
    MovesKeeps(s, s');
    forall tx | tx in s'.rows ensures RowGenuine(s', tx) {
      if tx !in s.rows { assert Creator(s', i, tx); }
    }
  }

  lemma TaskKeepsEnds(s: World, s': World, i: nat, t': Task)
    requires Inv(s) && TaskMoves(s, s', i, t') && Moves(s, s')
    ensures EndsGenuine(s')
  {
    MovesKeeps(s, s');
    assert TaskGenuine(s.rows, s.tasks[i]);
    forall tx | tx in s'.rows && s'.rows[tx].validTo != FAR ensures EndsAt(s', tx, s'.rows[tx].validTo) {
      if tx in s.rows && s'.rows[tx] == s.rows[tx] {
        assert EndsAt(s, tx, s.rows[tx].validTo);
      } else {
        assert Closer(s', i, tx, s'.rows[tx].validTo);
      }
    }
  }

  lemma TaskKeeps(s: World, s': World, i: nat, t': Task)
    requires Inv(s) && TaskMoves(s, s', i, t')
    ensures Inv(s')
  {
    assert TaskGenuine(s.rows, s.tasks[i]);
    assert Moves(s, s');
    TaskKeepsRows(s, s', i, t');
    TaskKeepsEnds(s, s', i, t');
    MovesKeeps(s, s');
    assert TaskGenuine(s'.rows, t');
  }

  /** ux is in the set and no other row in it begins earlier. */
  predicate Least(rows: Rows, among: set<Tx>, ux: Tx)
    requires among <= rows.Keys
  {
    ux in among && forall vx :: vx in among ==> rows[ux].validFrom <= rows[vx].validFrom
  }

  lemma {:induction false} LeastExists(rows: Rows, among: set<Tx>) returns (least: Tx)
    requires among != {} && among <= rows.Keys
    ensures Least(rows, among, least)
    decreases among
  {
    least :| least in among;
    var rest := among - {least};
    if rest != {} {
      var other := LeastExists(rows, rest);
      assert forall vx :: vx in among ==> vx == least || vx in rest;
      if rows[other].validFrom < rows[least].validFrom { least := other; }
    } else {
      assert among == {least};
    }
  }

  /** Every row is the last of its perpetual or has a next one. */
  lemma NextExists(rows: Rows, tx: Tx) returns (next: Option<Tx>)
    ensures next.Some? ==> IsNext(rows, tx, next.value)
    ensures next.None? ==> forall ux :: !Later(rows, tx, ux)
  {
    next := None;
    var among := set ux | ux in rows && Later(rows, tx, ux);
    if among != {} {
      var ux := LeastExists(rows, among);
      forall vx | Later(rows, tx, vx) ensures rows[ux].validFrom <= rows[vx].validFrom {
        assert vx in among;
      }
      next := Some(ux);
    } else {
      forall ux ensures !Later(rows, tx, ux) {
        assert ux !in among;
      }
    }
  }

  lemma AlignKeeps(s: World, s': World)
    requires Inv(s) && Aligned(s.rows, s'.rows) && s'.tasks == s.tasks
    ensures Inv(s')
  {
    MovesKeeps(s, s');
    forall tx | tx in s'.rows && s'.rows[tx].validTo != FAR ensures EndsAt(s', tx, s'.rows[tx].validTo) {
      AlignedEnd(s, s', tx);
    }
  }

  lemma AlignedEnd(s: World, s': World, tx: Tx)
    requires RowsGenuine(s) && EndsGenuine(s) && Aligned(s.rows, s'.rows) && s'.tasks == s.tasks
    requires tx in s'.rows && s'.rows[tx].validTo != FAR
    ensures EndsAt(s', tx, s'.rows[tx].validTo)
  {
    var at := s'.rows[tx].validTo;
    if ux :| Twins(s.rows, tx, ux) && at == s.rows[tx].validFrom {
      EndsThere(s, s', tx, ux);
    } else {
      var next := NextExists(s.rows, tx);
      if next.Some? {
        EndsThere(s, s', tx, next.value);
      } else {
        var i :| Closer(s, i, tx, s.rows[tx].validTo);
        assert Closer(s', i, tx, at);
      }
    }
  }

  lemma EndsThere(s: World, s': World, tx: Tx, ux: Tx)
    requires RowsGenuine(s) && Aligned(s.rows, s'.rows) && s'.tasks == s.tasks
    requires Later(s.rows, tx, ux) || Twins(s.rows, tx, ux)
    requires s'.rows[tx].validTo == s.rows[ux].validFrom
    ensures EndsAt(s', tx, s'.rows[tx].validTo)
  {
    assert RowGenuine(s, ux);
    var i :| Creator(s, i, ux);
    assert Closer(s', i, tx, s'.rows[tx].validTo);
  }

  lemma NextKeeps(s: World, s': World)
    requires Inv(s) && Next(s, s')
    ensures Inv(s')
  {
    if e :| s' == World(s.rows, s.tasks + [Task(e, Check)]) {
      ArriveKeeps(s, s', e);
    } else if Aligned(s.rows, s'.rows) && s'.tasks == s.tasks {
      AlignKeeps(s, s');
    } else {
      var i: nat, t' :| i < |s.tasks| && s'.tasks == s.tasks[i := t'] && TaskStep(s.rows, s.tasks[i], s'.rows, t');
      TaskKeeps(s, s', i, t');
    }
  }

  lemma {:induction false} HistoryKeeps(tr: seq<World>, n: nat)
    requires History(tr) && n < |tr|
    ensures Inv(tr[n])
  {
    if n > 0 {
      HistoryKeeps(tr, n - 1);
      NextKeeps(tr[n - 1], tr[n]);
    }
  }

  // ---------------------------------------------------------------- the table once all is quiet

  ghost predicate Quiet(s: World) {
    forall i :: 0 <= i < |s.tasks| ==> s.tasks[i].stage.Done?
  }

  /** A history that ends quietly in s. */
  ghost predicate QuietEnd(tr: seq<World>, s: World) {
    Ends(tr, s) && Quiet(s)
  }

  /** Where an event's interval must end: where the next one begins, or never; at once if another begins with it. */
  ghost predicate ProperEnd(s: World, e: Event, at: int) {
    if Twinned(s, e) then at == e.from
    else if exists f :: Delivered(s, f) && Follows(e, f) then
      (exists f :: Delivered(s, f) && Follows(e, f) && f.from == at)
      && forall f :: Delivered(s, f) && Follows(e, f) ==> at <= f.from
    else at == FAR
  }

  /** The table that the delivered events determine. */
  ghost predicate Canonical(s: World, rows: Rows) {
    && (forall e :: Delivered(s, e) ==> HasProperRow(s, rows, e))
    && (forall tx :: tx in rows ==> exists e :: Delivered(s, e) && e.tx == tx)
  }

  ghost predicate HasProperRow(s: World, rows: Rows, e: Event) {
    e.tx in rows && rows[e.tx] == RowOf(e, rows[e.tx].validTo) && ProperEnd(s, e, rows[e.tx].validTo)
  }

  lemma QuietRow(s: World, e: Event)
    requires Inv(s) && Quiet(s) && OnePerTransaction(s) && Delivered(s, e)
    ensures e.tx in s.rows && s.rows[e.tx] == RowOf(e, s.rows[e.tx].validTo)
  {
    var i :| 0 <= i < |s.tasks| && s.tasks[i].event == e;
    assert TaskGenuine(s.rows, s.tasks[i]);
    assert RowGenuine(s, e.tx);
    var j :| Creator(s, j, e.tx);
    assert Delivered(s, s.tasks[j].event);
  }

  lemma RowsEvent(s: World, tx: Tx) returns (e: Event)
    requires Inv(s) && tx in s.rows
    ensures Delivered(s, e) && e.tx == tx && s.rows[tx] == RowOf(e, s.rows[tx].validTo)
  {
    assert RowGenuine(s, tx);
    var i :| Creator(s, i, tx);
    e := s.tasks[i].event;
  }

  /** The last row of a perpetual is open: an insert that closed it would have a row after it, or beside it. */
  lemma LastRowIsOpen(s: World, e: Event)
    requires Inv(s) && Quiet(s) && OnePerTransaction(s) && Delivered(s, e) && e.tx in s.rows && !Twinned(s, e)
    requires forall f :: Delivered(s, f) ==> !Follows(e, f)
    ensures s.rows[e.tx].validTo == FAR
  {
    QuietRow(s, e);
    if s.rows[e.tx].validTo != FAR {
      assert EndsAt(s, e.tx, s.rows[e.tx].validTo);
      var i :| Closer(s, i, e.tx, s.rows[e.tx].validTo);
      assert Delivered(s, s.tasks[i].event);
      assert false;
    }
  }

  /** Rows begin together exactly if their events do. */
  lemma TwinRowsIff(s: World, e: Event)
    requires Inv(s) && Quiet(s) && OnePerTransaction(s) && Delivered(s, e)
    ensures Twinned(s, e) <==> exists ux :: Twins(s.rows, e.tx, ux)
  {
    QuietRow(s, e);
    if f :| Delivered(s, f) && AreTwins(e, f) {
      QuietRow(s, f);
      assert Twins(s.rows, e.tx, f.tx);
    }
    if ux :| Twins(s.rows, e.tx, ux) {
      var f := RowsEvent(s, ux);
      assert AreTwins(e, f);
    }
  }

  lemma FollowersAreLater(s: World, e: Event, f: Event)
    requires Inv(s) && Quiet(s) && OnePerTransaction(s) && Delivered(s, e) && Delivered(s, f) && Follows(e, f)
    ensures Later(s.rows, e.tx, f.tx) && s.rows[f.tx].validFrom == f.from
  {
    QuietRow(s, e);
    QuietRow(s, f);
  }

  lemma LaterFollows(s: World, e: Event, ux: Tx) returns (f: Event)
    requires Inv(s) && Quiet(s) && OnePerTransaction(s) && Delivered(s, e) && Later(s.rows, e.tx, ux)
    ensures Delivered(s, f) && Follows(e, f) && f.from == s.rows[ux].validFrom
  {
    QuietRow(s, e);
    f := RowsEvent(s, ux);
  }

  lemma NextEndsProperly(s: World, e: Event, ux: Tx)
    requires Inv(s) && Quiet(s) && OnePerTransaction(s) && Delivered(s, e) && !Twinned(s, e) && IsNext(s.rows, e.tx, ux)
    ensures ProperEnd(s, e, s.rows[ux].validFrom)
  {
    var f := LaterFollows(s, e, ux);
    forall g | Delivered(s, g) && Follows(e, g) ensures f.from <= g.from {
      FollowersAreLater(s, e, g);
    }
  }

  lemma LastEndsProperly(s: World, e: Event)
    requires Inv(s) && Quiet(s) && OnePerTransaction(s) && Delivered(s, e) && !Twinned(s, e) && e.tx in s.rows
    requires forall ux :: !Later(s.rows, e.tx, ux)
    ensures ProperEnd(s, e, s.rows[e.tx].validTo)
  {
    forall g | Delivered(s, g) ensures !Follows(e, g) {
      if Follows(e, g) { FollowersAreLater(s, e, g); }
    }
    LastRowIsOpen(s, e);
  }

  lemma UntiedEnd(rows: Rows, after: Rows, tx: Tx) returns (next: Option<Tx>)
    requires Aligned(rows, after) && tx in rows && forall ux :: !Twins(rows, tx, ux)
    ensures next.Some? ==> IsNext(rows, tx, next.value) && after[tx].validTo == rows[next.value].validFrom
    ensures next.None? ==> (forall ux :: !Later(rows, tx, ux)) && after[tx].validTo == rows[tx].validTo
  {
    next := NextExists(rows, tx);
    assert AlignedTo(rows, tx, after[tx].validTo);
  }

  /** Rows that begin together end at that same instant, if no row follows them. */
  lemma TwinsEndAtOnce(rows: Rows, after: Rows, tx: Tx, ux: Tx)
    requires Aligned(rows, after) && Twins(rows, tx, ux) && forall vx :: !Later(rows, tx, vx)
    ensures after[tx].validTo == rows[tx].validFrom
  {
    assert AlignedTo(rows, tx, after[tx].validTo);
  }

  lemma TwinEndsProperly(s: World, rows: Rows, e: Event)
    requires Inv(s) && Quiet(s) && Unambiguous(s) && Aligned(s.rows, rows) && Delivered(s, e) && Twinned(s, e)
    requires e.tx in s.rows
    ensures rows[e.tx].validTo == e.from
  {
    TwinRowsIff(s, e);
    QuietRow(s, e);
    var ux :| Twins(s.rows, e.tx, ux);
    forall vx ensures !Later(s.rows, e.tx, vx) {
      if Later(s.rows, e.tx, vx) { var f := LaterFollows(s, e, vx); }
    }
    TwinsEndAtOnce(s.rows, rows, e.tx, ux);
  }

  lemma EndsProperly(s: World, rows: Rows, e: Event)
    requires Inv(s) && Quiet(s) && Unambiguous(s) && Aligned(s.rows, rows) && Delivered(s, e) && e.tx in s.rows
    ensures ProperEnd(s, e, rows[e.tx].validTo)
  {
    if Twinned(s, e) {
      TwinEndsProperly(s, rows, e);
    } else {
      TwinRowsIff(s, e);
      var next := UntiedEnd(s.rows, rows, e.tx);
      if next.Some? {
        NextEndsProperly(s, e, next.value);
      } else {
        LastEndsProperly(s, e);
      }
    }
  }

  lemma QuietAndAligned(s: World, rows: Rows)
    requires Inv(s) && Quiet(s) && Unambiguous(s) && Aligned(s.rows, rows)
    ensures Canonical(s, rows)
  {
    forall e | Delivered(s, e) ensures HasProperRow(s, rows, e) {
      QuietRow(s, e);
      EndsProperly(s, rows, e);
    }
    forall tx | tx in rows ensures exists e :: Delivered(s, e) && e.tx == tx {
      var e := RowsEvent(s, tx);
    }
  }

  /**
   * Whatever the interleaving of inserts, repeated deliveries and alignments: once every insert is through, one
   * alignment gives each perpetual's rows ends that meet the next row's start, the last one open.
   */
  lemma AlignedTableIsCanonical(tr: seq<World>, s: World, rows: Rows)
    requires QuietEnd(tr, s) && Unambiguous(s) && Aligned(s.rows, rows)
    ensures Canonical(s, rows)
  {
    HistoryKeeps(tr, |tr| - 1);
    QuietAndAligned(s, rows);
  }

  predicate Within(rows: Rows, rows': Rows) {
    forall tx :: tx in rows ==> tx in rows' && rows[tx] == rows'[tx]
  }

  lemma WithinBothWays(rows: Rows, rows': Rows)
    requires Within(rows, rows') && Within(rows', rows)
    ensures rows == rows'
  {
  }

  lemma CanonicalWithin(s: World, rows: Rows, s': World, rows': Rows)
    requires Canonical(s, rows) && Canonical(s', rows')
    requires SameEvents(s, s')
    ensures Within(rows, rows')
  {
    forall tx | tx in rows ensures tx in rows' && rows[tx] == rows'[tx] {
      var e :| Delivered(s, e) && e.tx == tx;
      assert HasProperRow(s, rows, e) && HasProperRow(s', rows', e);
      ProperEndUnique(s, s', e, rows[tx].validTo, rows'[tx].validTo);
    }
  }

  lemma ProperEndUnique(s: World, s': World, e: Event, x: int, y: int)
    requires SameEvents(s, s') && ProperEnd(s, e, x) && ProperEnd(s', e, y)
    ensures x == y
  {
  }

  /** Confluence: two histories that delivered the same events end, once quiet and aligned, in the same table. */
  lemma SameEventsSameTable(tr: seq<World>, s: World, rows: Rows, tr': seq<World>, s': World, rows': Rows)
    requires QuietEnd(tr, s) && Unambiguous(s) && Aligned(s.rows, rows)
    requires QuietEnd(tr', s') && Unambiguous(s') && Aligned(s'.rows, rows')
    requires SameEvents(s, s')
    ensures rows == rows'
  {
    assert Canonical(s, rows) by { AlignedTableIsCanonical(tr, s, rows); }
    assert Canonical(s', rows') by { AlignedTableIsCanonical(tr', s', rows'); }
    CanonicalWithin(s, rows, s', rows');
    CanonicalWithin(s', rows', s, rows);
    WithinBothWays(rows, rows');
  }

  lemma Arrive(tr: seq<World>, s: World, e: Event) returns (tr': seq<World>, s': World)
    requires Ends(tr, s)
    ensures s' == World(s.rows, s.tasks + [Task(e, Check)]) && Ends(tr', s')
  {
    s' := World(s.rows, s.tasks + [Task(e, Check)]);
    assert Next(s, s');
    tr' := tr + [s'];
  }

  lemma Advance(tr: seq<World>, s: World, i: nat, rows: Rows, t: Task) returns (tr': seq<World>, s': World)
    requires Ends(tr, s) && i < |s.tasks| && TaskStep(s.rows, s.tasks[i], rows, t)
    ensures s' == World(rows, s.tasks[i := t]) && Ends(tr', s')
  {
    s' := World(rows, s.tasks[i := t]);
    assert Next(s, s');
    tr' := tr + [s'];
  }

  // ---------------------------------------------------------------- why one event per transaction

  /** All rows stay and keep all but their end. */
  ghost predicate Persist(rows: Rows, rows': Rows) {
    forall tx :: tx in rows ==> tx in rows' && rows'[tx] == rows[tx].(validTo := rows'[tx].validTo)
  }

  /** Of all events of a transaction the one whose row is created first has the row, in every history, for good. */
  lemma {:induction false} FirstOfTransactionWins(tr: seq<World>, i: nat, k: nat)
    requires History(tr) && i <= k < |tr|
    ensures Persist(tr[i].rows, tr[k].rows)
  {
    if i < k {
      FirstOfTransactionWins(tr, i, k - 1);
      var s, s' := tr[k - 1], tr[k];
      assert Next(s, s');
      StepPersists(s, s');
    }
  }

  lemma StepPersists(s: World, s': World)
    requires Next(s, s')
    ensures Persist(s.rows, s'.rows)
  {
  }

  lemma {:induction false} LatestExists(rows: Rows, among: set<Tx>) returns (latest: Tx)
    requires among != {} && among <= rows.Keys
    ensures latest in among && forall vx :: vx in among ==> rows[vx].validFrom <= rows[latest].validFrom
    decreases among
  {
    latest :| latest in among;
    var rest := among - {latest};
    if rest != {} {
      var other := LatestExists(rows, rest);
      assert forall vx :: vx in among ==> vx == latest || vx in rest;
      if rows[latest].validFrom < rows[other].validFrom { latest := other; }
    } else {
      assert among == {latest};
    }
  }

  lemma PredecessorExists(rows: Rows, e: Event) returns (p: Option<Tx>)
    ensures IsPredecessor(rows, e, p)
  {
    var among := set tx | tx in rows && Candidate(rows, e, tx);
    if among == {} {
      p := None;
      forall tx ensures !Candidate(rows, e, tx) { assert tx !in among; }
    } else {
      var latest := LatestExists(rows, among);
      p := Some(latest);
      forall tx | Candidate(rows, e, tx) ensures rows[tx].validFrom <= rows[latest].validFrom { assert tx in among; }
    }
  }

  /** An event is delivered and its insert runs through undisturbed. */
  lemma InsertsInTurn(tr: seq<World>, s: World, e: Event) returns (tr': seq<World>, s': World)
    requires QuietEnd(tr, s)
    ensures QuietEnd(tr', s') && s'.tasks == s.tasks + [Task(e, Done)] && Persist(s.rows, s'.rows)
    ensures e.tx in s'.rows && (e.tx !in s.rows ==> s'.rows[e.tx] == RowOf(e, FAR))
  {
    var n := |s.tasks|;
    tr', s' := Arrive(tr, s, e);
    if e.tx in s.rows {
      tr', s' := Advance(tr', s', n, s.rows, Task(e, Done));
    } else {
      tr', s' := Advance(tr', s', n, s.rows, Task(e, Find));
      var p := PredecessorExists(s.rows, e);
      tr', s' := Advance(tr', s', n, s.rows, Task(e, Close(p)));
      tr', s' := Advance(tr', s', n, Closed(s.rows, p, e.from), Task(e, Create));
      tr', s' := Advance(tr', s', n, Created(Closed(s.rows, p, e.from), e), Task(e, Done));
    }
    assert s'.tasks == s.tasks + [Task(e, Done)];
  }

  lemma DeliveredMore(s: World, s': World, e: Event)
    requires s'.tasks == s.tasks + [Task(e, Done)]
    ensures forall x :: Delivered(s', x) <==> Delivered(s, x) || x == e
  {
    forall x ensures Delivered(s', x) <==> Delivered(s, x) || x == e {
      if i :| 0 <= i < |s.tasks| && s.tasks[i].event == x { assert s'.tasks[i].event == x; }
      assert s'.tasks[|s.tasks|].event == e;
    }
  }

  lemma {:induction false} InsertAllInTurn(tr: seq<World>, s: World, es: seq<Event>) returns (tr': seq<World>, s': World)
    requires QuietEnd(tr, s)
    ensures QuietEnd(tr', s') && Persist(s.rows, s'.rows)
    ensures forall x :: Delivered(s', x) <==> Delivered(s, x) || x in es
  {
    tr', s' := tr, s;
    if es != [] {
      var n := |es| - 1;
      assert es == es[..n] + [es[n]];
      var front, t := InsertAllInTurn(tr, s, es[..n]);
      tr', s' := InsertsInTurn(front, t, es[n]);
      DeliveredMore(t, s', es[n]);
    }
  }

  lemma AlignedToSome(rows: Rows, tx: Tx)
    requires tx in rows
    ensures exists at :: AlignedTo(rows, tx, at)
  {
    if exists ux :: Twins(rows, tx, ux) {
      assert AlignedTo(rows, tx, rows[tx].validFrom);
    } else {
      var next := NextExists(rows, tx);
      assert AlignedTo(rows, tx, if next.Some? then rows[next.value].validFrom else rows[tx].validTo);
    }
  }

  ghost function AnEnd(rows: Rows, tx: Tx): (at: int)
    requires tx in rows
    ensures AlignedTo(rows, tx, at)
  {
    AlignedToSome(rows, tx);
    var at :| AlignedTo(rows, tx, at);
    at
  }

  lemma AlignmentExists(rows: Rows) returns (after: Rows)
    ensures Aligned(rows, after)
  {
    after := map tx | tx in rows :: rows[tx].(validTo := AnEnd(rows, tx));
  }

  ghost predicate DeliveredExactly(s: World, es: seq<Event>) {
    forall e :: Delivered(s, e) <==> e in es
  }

  /** A table that these events can leave, once all inserts are through and it is aligned. */
  ghost predicate Outcome(es: seq<Event>, rows: Rows) {
    exists tr, s :: QuietEnd(tr, s) && DeliveredExactly(s, es) && Aligned(s.rows, rows)
  }

  ghost predicate OneOutcome(es: seq<Event>) {
    forall rows, rows' :: Outcome(es, rows) && Outcome(es, rows') ==> rows == rows'
  }

  ghost predicate OneEventPerTransaction(es: seq<Event>) {
    forall e, f :: e in es && f in es && e.tx == f.tx ==> e == f
  }

  /** No event of a perpetual begins after two that begin together. */
  ghost predicate TwinsLast(es: seq<Event>) {
    forall e, f, h :: e in es && f in es && AreTwins(e, f) && h in es ==> !Follows(e, h)
  }

  ghost predicate StartsNear(es: seq<Event>) {
    forall e :: e in es ==> e.from < FAR
  }

  /** Each of the events can be the one that its transaction's row is for. */
  lemma CanWin(es: seq<Event>, e: Event) returns (rows: Rows)
    requires e in es
    ensures Outcome(es, rows) && e.tx in rows && rows[e.tx] == RowOf(e, rows[e.tx].validTo)
  {
    var empty := World(map[], []);
    assert QuietEnd([empty], empty);
    var tr, s := InsertsInTurn([empty], empty, e);
    DeliveredMore(empty, s, e);
    var tr', s' := InsertAllInTurn(tr, s, es);
    assert DeliveredExactly(s', es);
    rows := AlignmentExists(s'.rows);
  }

  /** Events that share a transaction and differ have more than one outcome, whatever else is delivered with them. */
  lemma SharedTransactionBreaksConfluence(es: seq<Event>, e: Event, f: Event) returns (rows: Rows, rows': Rows)
    requires e in es && f in es && e.tx == f.tx && e != f
    ensures Outcome(es, rows) && Outcome(es, rows') && rows != rows'
  {
    rows := CanWin(es, e);
    rows' := CanWin(es, f);
  }

  lemma OutcomeUnique(es: seq<Event>, rows: Rows, rows': Rows)
    requires StartsNear(es) && OneEventPerTransaction(es) && TwinsLast(es) && Outcome(es, rows) && Outcome(es, rows')
    ensures rows == rows'
  {
    var tr, s :| QuietEnd(tr, s) && DeliveredExactly(s, es) && Aligned(s.rows, rows);
    var tr', s' :| QuietEnd(tr', s') && DeliveredExactly(s', es) && Aligned(s'.rows, rows');
    DeliveredUnambiguously(s, es);
    DeliveredUnambiguously(s', es);
    SameEventsSameTable(tr, s, rows, tr', s', rows');
  }

  lemma DeliveredUnambiguously(s: World, es: seq<Event>)
    requires StartsNear(es) && OneEventPerTransaction(es) && TwinsLast(es) && DeliveredExactly(s, es)
    ensures Unambiguous(s)
  {
  }

  /** Every end that alignment may give a row is one it gives in some outcome. */
  lemma AlignmentWith(rows: Rows, tx: Tx, at: int) returns (after: Rows)
    requires tx in rows && AlignedTo(rows, tx, at)
    ensures Aligned(rows, after) && after[tx].validTo == at
  {
    var some := AlignmentExists(rows);
    after := some[tx := some[tx].(validTo := at)];
  }

  /** Events that begin together before another of their perpetual: alignment may end one of them in two ways. */
  lemma TwinsBreakConfluence(es: seq<Event>, e: Event, f: Event, h: Event) returns (rows: Rows, rows': Rows)
    requires OneEventPerTransaction(es) && e in es && f in es && h in es && AreTwins(e, f) && Follows(e, h)
    ensures Outcome(es, rows) && Outcome(es, rows') && rows != rows'
  {
    var empty := World(map[], []);
    assert QuietEnd([empty], empty);
    var tr, s := InsertAllInTurn([empty], empty, es);
    assert DeliveredExactly(s, es);
    HistoryKeeps(tr, |tr| - 1);
    TwinRowsIff(s, e);
    assert Twinned(s, e);
    FollowersAreLater(s, e, h);
    QuietRow(s, e);
    var next := NextExists(s.rows, e.tx);
    rows := AlignmentWith(s.rows, e.tx, s.rows[e.tx].validFrom);
    rows' := AlignmentWith(s.rows, e.tx, s.rows[next.value].validFrom);
  }

  /**
   * Confluence, exactly: the events determine the table iff no two of them share a transaction, and none of a
   * perpetual begins after two that begin together.
   */
  lemma OneOutcomeIff(es: seq<Event>)
    requires StartsNear(es)
    ensures OneOutcome(es) <==> OneEventPerTransaction(es) && TwinsLast(es)
  {
    if !OneEventPerTransaction(es) {
      var e, f :| e in es && f in es && e.tx == f.tx && e != f;
      var rows, rows' := SharedTransactionBreaksConfluence(es, e, f);
    } else if !TwinsLast(es) {
      var e, f, h :| e in es && f in es && AreTwins(e, f) && h in es && Follows(e, h);
      var rows, rows' := TwinsBreakConfluence(es, e, f, h);
    } else {
      forall rows, rows' | Outcome(es, rows) && Outcome(es, rows') ensures rows == rows' {
        OutcomeUnique(es, rows, rows');
      }
    }
  }

  // ---------------------------------------------------------------- the trades view

  /** The join condition of `trades_view`. */
  predicate Joins(rows: Rows, perp: int, time: int, tx: Tx) {
    tx in rows && rows[tx].perp == perp && rows[tx].validFrom <= time < rows[tx].validTo
  }

  /** The event began by then. */
  predicate Begun(e: Event, perp: int, time: int) {
    e.perp == perp && e.from <= time
  }

  lemma {:induction false} LatestBegun(tasks: seq<Task>, perp: int, time: int, n: nat) returns (best: int)
    requires n <= |tasks|
    ensures best == -1 ==> forall i :: 0 <= i < n ==> !Begun(tasks[i].event, perp, time)
    ensures best != -1 ==>
              && 0 <= best < n && Begun(tasks[best].event, perp, time)
              && forall i :: 0 <= i < n && Begun(tasks[i].event, perp, time) ==>
                   tasks[i].event.from <= tasks[best].event.from
  {
    best := -1;
    if n > 0 {
      best := LatestBegun(tasks, perp, time, n - 1);
      var last := tasks[n - 1].event;
      if Begun(last, perp, time) && (best == -1 || tasks[best].event.from < last.from) { best := n - 1; }
    }
  }

  /** The event is the latest of its perpetual that has begun, and no other began with it. */
  ghost predicate AloneAt(s: World, e: Event, perp: int, time: int) {
    && Delivered(s, e) && Begun(e, perp, time) && !Twinned(s, e)
    && forall f :: Delivered(s, f) && Begun(f, perp, time) ==> f.from <= e.from
  }

  /** A name holds from the very instant it begins, and no longer at the instant it ends. */
  lemma JoinsFromItsStart(s: World, rows: Rows, e: Event)
    requires Canonical(s, rows) && Unambiguous(s) && Delivered(s, e) && !Twinned(s, e)
    ensures e.tx in rows && Joins(rows, e.perp, e.from, e.tx)
    ensures !Joins(rows, e.perp, rows[e.tx].validTo, e.tx)
  {
    assert HasProperRow(s, rows, e);
  }

  lemma JoinsAtMostOne(s: World, rows: Rows, perp: int, time: int, tx: Tx, ux: Tx)
    requires Canonical(s, rows) && Joins(rows, perp, time, tx) && Joins(rows, perp, time, ux)
    ensures tx == ux
  {
    var e := JoinedIsAlone(s, rows, perp, time, tx);
    var f := JoinedIsAlone(s, rows, perp, time, ux);
    assert e.from == f.from;
    assert !AreTwins(e, f);
  }

  lemma JoinedIsAlone(s: World, rows: Rows, perp: int, time: int, tx: Tx) returns (e: Event)
    requires Canonical(s, rows) && Joins(rows, perp, time, tx)
    ensures AloneAt(s, e, perp, time) && e.tx == tx
  {
    e :| Delivered(s, e) && e.tx == tx;
    assert HasProperRow(s, rows, e);
    forall f | Delivered(s, f) && Begun(f, perp, time) ensures f.from <= e.from {
      assert !Follows(e, f);
    }
  }

  lemma NearEnd(s: World, e: Event, at: int)
    requires ProperEnd(s, e, at) && forall f :: Delivered(s, f) ==> f.from < FAR
    requires Delivered(s, e)
    ensures at <= FAR
  {
  }

  lemma AloneIsJoined(s: World, rows: Rows, perp: int, time: int, e: Event)
    requires Canonical(s, rows) && time < FAR && AloneAt(s, e, perp, time)
    ensures Joins(rows, perp, time, e.tx)
  {
    assert HasProperRow(s, rows, e);
    forall f | Delivered(s, f) && Follows(e, f) ensures time < f.from {
      assert !Begun(f, perp, time);
    }
  }

  /**
   * In the canonical table a trade joins at most one row, and joins one exactly if its perpetual has begun by then,
   * the far date is not reached, and the event that began last began alone.
   */
  lemma TradeJoinsOneNameIff(s: World, rows: Rows, perp: int, time: int)
    requires Canonical(s, rows) && Unambiguous(s)
    ensures forall tx, ux :: Joins(rows, perp, time, tx) && Joins(rows, perp, time, ux) ==> tx == ux
    ensures (exists tx :: Joins(rows, perp, time, tx)) <==> time < FAR && exists e :: AloneAt(s, e, perp, time)
  {
    forall tx, ux | Joins(rows, perp, time, tx) && Joins(rows, perp, time, ux) ensures tx == ux {
      JoinsAtMostOne(s, rows, perp, time, tx, ux);
    }
    forall tx | Joins(rows, perp, time, tx) ensures time < FAR && exists e :: AloneAt(s, e, perp, time) {
      var e := JoinedIsAlone(s, rows, perp, time, tx);
      assert HasProperRow(s, rows, e);
      NearEnd(s, e, rows[tx].validTo);
    }
    if e :| time < FAR && AloneAt(s, e, perp, time) {
      AloneIsJoined(s, rows, perp, time, e);
    }
  }

  /** Without twins, some event is that exactly if the perpetual has begun. */
  lemma AloneIff(s: World, perp: int, time: int)
    requires forall e :: Delivered(s, e) ==> !Twinned(s, e)
    ensures (exists e :: AloneAt(s, e, perp, time)) <==> exists e :: Delivered(s, e) && Begun(e, perp, time)
  {
    if exists e :: Delivered(s, e) && Begun(e, perp, time) {
      var best := LatestBegun(s.tasks, perp, time, |s.tasks|);
      assert AloneAt(s, s.tasks[best].event, perp, time);
    }
  }
}
