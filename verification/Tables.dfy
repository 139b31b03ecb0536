/**
 * The upserts of `trading_history.ts`, `settle_history.ts` and `token_flow.ts`. All three create a row with
 * every column or, if the key is there, overwrite some columns; they differ in which.
 */
module Tables {

  /** `fixed` columns are written on creation only, `latest` ones and the timestamp on every write. */
  datatype Row<F, V> = Row(fixed: F, latest: V, timestamp: int, isCollectedByEvent: bool, updatedAt: int)

  datatype Delivery<K, F, V> = Delivery(
    key: K, fixed: F, latest: V, timestamp: int, isCollectedByEvent: bool, at: int)

  function Upserted<K(==), F, V>(rows: map<K, Row<F, V>>, d: Delivery<K, F, V>): map<K, Row<F, V>> {
    if d.key in rows then
      rows[d.key := rows[d.key].(latest := d.latest, timestamp := d.timestamp,
                                 isCollectedByEvent := d.isCollectedByEvent, updatedAt := d.at)]
    else
      rows[d.key := Row(d.fixed, d.latest, d.timestamp, d.isCollectedByEvent, d.at)]
  }

  /** The table after a run of deliveries, oldest first. */
  function Replay<K(==), F, V>(ds: seq<Delivery<K, F, V>>): map<K, Row<F, V>> {
    if ds == [] then map[] else Upserted(Replay(ds[..|ds| - 1]), ds[|ds| - 1])
  }

  /** All columns but `is_collected_by_event` and `updated_at`. */
  datatype Content<F, V> = Content(fixed: F, latest: V, timestamp: int)

  function ContentOf<K, F, V>(d: Delivery<K, F, V>): Content<F, V> {
    Content(d.fixed, d.latest, d.timestamp)
  }

  function Contents<K, F, V>(rows: map<K, Row<F, V>>): map<K, Content<F, V>> {
    map k | k in rows :: Content(rows[k].fixed, rows[k].latest, rows[k].timestamp)
  }

  /** Deliveries with equal keys carry equal payloads. */
  ghost predicate Consistent<K(!new), F(!new), V(!new)>(ds: seq<Delivery<K, F, V>>) {
    forall d, e :: d in ds && e in ds && d.key == e.key ==> ContentOf(d) == ContentOf(e)
  }

  /** Each delivery's content is in the table under its key, and nothing else is. */
  ghost predicate StoresExactly<K(!new), F(!new), V(!new)>(rows: map<K, Row<F, V>>, ds: seq<Delivery<K, F, V>>) {
    && (forall d :: d in ds ==> d.key in rows && Contents(rows)[d.key] == ContentOf(d))
    && (forall k :: k in rows ==> exists d :: d in ds && d.key == k)
  }

  lemma {:induction false} ReplayStores<K(!new), F(!new), V(!new)>(ds: seq<Delivery<K, F, V>>)
    requires Consistent(ds)
    ensures StoresExactly(Replay(ds), ds)
  {
    if ds != [] {
      var front, last := ds[..|ds| - 1], ds[|ds| - 1];
      assert ds == front + [last];
      ReplayStores(front);
      var before := Replay(front);
      forall k | k in Replay(ds) ensures exists d :: d in ds && d.key == k {
        if k in before {
          var d :| d in front && d.key == k;
          assert d in ds;
        } else {
          assert last in ds;
        }
      }
      if last.key in before {
        var d :| d in front && d.key == last.key;
        assert ContentOf(d) == ContentOf(last);
      }
    }
  }

  /** Every event among ds is also among es; source and write time may differ. */
  ghost predicate EventsWithin<K(!new), F(!new), V(!new)>(ds: seq<Delivery<K, F, V>>, es: seq<Delivery<K, F, V>>) {
    forall d :: d in ds ==> exists e :: e in es && SameEvent(d, e)
  }

  predicate SameEvent<K(==), F(==), V(==)>(d: Delivery<K, F, V>, e: Delivery<K, F, V>) {
    d.key == e.key && ContentOf(d) == ContentOf(e)
  }

  lemma ContentsWithin<K(!new), F(!new), V(!new)>(ds: seq<Delivery<K, F, V>>, es: seq<Delivery<K, F, V>>)
    requires Consistent(ds) && Consistent(es) && EventsWithin(ds, es)
    ensures forall k :: k in Contents(Replay(ds)) ==>
              k in Contents(Replay(es)) && Contents(Replay(es))[k] == Contents(Replay(ds))[k]
  {
    ReplayStores(ds);
    ReplayStores(es);
    forall k | k in Contents(Replay(ds))
      ensures k in Contents(Replay(es)) && Contents(Replay(es))[k] == Contents(Replay(ds))[k]
    {
      var d :| d in ds && d.key == k;
      var e :| e in es && SameEvent(d, e);
    }
  }

  /** What is stored depends only on the set of events delivered: not on order, repetition or source. */
  lemma SameEventsSameContents<K(!new), F(!new), V(!new)>(ds: seq<Delivery<K, F, V>>, es: seq<Delivery<K, F, V>>)
    requires Consistent(ds) && Consistent(es) && EventsWithin(ds, es) && EventsWithin(es, ds)
    ensures Contents(Replay(ds)) == Contents(Replay(es))
  {
    ContentsWithin(ds, es);
    ContentsWithin(es, ds);
  }

  /** A row's fixed columns come from a delivery of its key. */
  lemma {:induction false} FixedIsDelivered<K(!new), F(!new), V(!new)>(ds: seq<Delivery<K, F, V>>, k: K)
    returns (d: Delivery<K, F, V>)
    requires k in Replay(ds)
    ensures d in ds && d.key == k && Replay(ds)[k].fixed == d.fixed
  {
    var n := |ds| - 1;
    if k in Replay(ds[..n]) {
      d := FixedIsDelivered(ds[..n], k);
    } else {
      d := ds[n];
    }
  }

  /** What an event comes to: its row's key and content. */
  type Record<K, F, V> = (K, Content<F, V>)

  /** ds delivers these records, each any number of times, and nothing else. */
  ghost predicate Delivers<K(!new), F(!new), V(!new)>(events: set<Record<K, F, V>>, ds: seq<Delivery<K, F, V>>) {
    && (forall d :: d in ds ==> (d.key, ContentOf(d)) in events)
    && (forall e :: e in events ==> exists d :: d in ds && (d.key, ContentOf(d)) == e)
  }

  /** No key has two contents. */
  ghost predicate Functional<K(!new), F(!new), V(!new)>(events: set<Record<K, F, V>>) {
    forall e, f :: e in events && f in events && e.0 == f.0 ==> e == f
  }

  /** However they are delivered, records without a conflict make up the table. */
  lemma RecordsDetermineTable<K(!new), F(!new), V(!new)>(events: set<Record<K, F, V>>, ds: seq<Delivery<K, F, V>>)
    requires Delivers(events, ds)
    ensures Consistent(ds) <==> Functional(events)
    ensures Functional(events) ==> forall k, x :: (k, x) in events <==> k in Replay(ds) && Contents(Replay(ds))[k] == x
  {
    if Consistent(ds) {
      forall e, f | e in events && f in events && e.0 == f.0 ensures e == f {
        var d :| d in ds && (d.key, ContentOf(d)) == e;
        var d' :| d' in ds && (d'.key, ContentOf(d')) == f;
      }
      ReplayStores(ds);
      forall k, x | (k, x) in events ensures k in Replay(ds) && Contents(Replay(ds))[k] == x {
        var d :| d in ds && (d.key, ContentOf(d)) == (k, x);
      }
      forall k | k in Replay(ds) ensures (k, Contents(Replay(ds))[k]) in events {
        var d :| d in ds && d.key == k;
      }
    } else {
      var d, d' :| d in ds && d' in ds && d.key == d'.key && ContentOf(d) != ContentOf(d');
      assert (d.key, ContentOf(d)) in events && (d'.key, ContentOf(d')) in events;
    }
  }

  /** The first delivery has set the fixed columns for good. */
  lemma {:induction false} FirstFixedStays<K, F, V>(d: Delivery<K, F, V>, rest: seq<Delivery<K, F, V>>)
    ensures var rows := Replay([d] + rest); d.key in rows && rows[d.key].fixed == d.fixed
  {
    if rest == [] {
      assert ([d] + rest)[..0] == [];
    } else {
      FirstFixedStays(d, rest[..|rest| - 1]);
      assert ([d] + rest)[..|rest|] == [d] + rest[..|rest| - 1];
    }
  }

  /** The last delivery has set every column but the fixed ones. */
  lemma LastWriteWins<K, F, V>(rest: seq<Delivery<K, F, V>>, d: Delivery<K, F, V>)
    ensures var rows := Replay(rest + [d]);
            d.key in rows
            && rows[d.key] == Row(rows[d.key].fixed, d.latest, d.timestamp, d.isCollectedByEvent, d.at)
  {
    assert (rest + [d])[..|rest|] == rest;
  }

  /** Some order of the deliveries in which the i-th comes first, or last. */
  function Moved<T>(s: seq<T>, i: nat, first: bool): (r: seq<T>)
    requires i < |s|
  {
    if first then [s[i]] + (s[..i] + s[i + 1..]) else (s[..i] + s[i + 1..]) + [s[i]]
  }

  lemma MovedIsReordering<T>(s: seq<T>, i: nat, first: bool)
    requires i < |s|
    ensures multiset(Moved(s, i, first)) == multiset(s)
  {
    assert s == s[..i] + ([s[i]] + s[i + 1..]);
  }

  lemma SameElements<T>(s: seq<T>, t: seq<T>)
    requires multiset(s) == multiset(t)
    ensures forall x :: x in s <==> x in t
  {
    assert forall x :: x in s <==> x in multiset(s);
    assert forall x :: x in t <==> x in multiset(t);
  }

  /** All orders of the deliveries leave the same contents exactly if equal keys carry equal payloads. */
  lemma OrderIrrelevantIff<K(!new), F(!new), V(!new)>(ds: seq<Delivery<K, F, V>>)
    ensures Consistent(ds) <==>
            forall es :: multiset(es) == multiset(ds) ==> Contents(Replay(es)) == Contents(Replay(ds))
  {
    if Consistent(ds) {
      forall es | multiset(es) == multiset(ds) ensures Contents(Replay(es)) == Contents(Replay(ds)) {
        SameElements(es, ds);
        assert forall d :: d in ds ==> SameEvent(d, d);
        SameEventsSameContents(es, ds);
      }
    } else {
      var d, e :| d in ds && e in ds && d.key == e.key && ContentOf(d) != ContentOf(e);
      var i :| 0 <= i < |ds| && ds[i] == d;
      var j :| 0 <= j < |ds| && ds[j] == e;
      var first := d.fixed != e.fixed;
      var x, y := Moved(ds, i, first), Moved(ds, j, first);
      MovedIsReordering(ds, i, first);
      MovedIsReordering(ds, j, first);
      if first {
        FirstFixedStays(d, ds[..i] + ds[i + 1..]);
        FirstFixedStays(e, ds[..j] + ds[j + 1..]);
      } else {
        LastWriteWins(ds[..i] + ds[i + 1..], d);
        LastWriteWins(ds[..j] + ds[j + 1..], e);
      }
      assert Contents(Replay(x))[d.key] != Contents(Replay(y))[d.key];
    }
  }

  // ---------------------------------------------------------------- the table as the service keeps it

  class Table<K(==,!new), F(!new), V(!new)> {
    var rows: map<K, Row<F, V>>
    ghost var delivered: seq<Delivery<K, F, V>>

    ghost predicate Valid()
      reads this
    {
      rows == Replay(delivered)
    }

    constructor ()
      ensures Valid() && delivered == []
    {
      rows, delivered := map[], [];
    }

    /** Other rows stay; this one gets the delivery's content, except for fixed columns it already has. */
    method Upsert(d: Delivery<K, F, V>)
      requires Valid()
      modifies this
      ensures Valid() && delivered == old(delivered) + [d]
      ensures rows.Keys == old(rows).Keys + {d.key}
      ensures forall k :: k in old(rows) && k != d.key ==> rows[k] == old(rows)[k]
      ensures rows[d.key].fixed == if d.key in old(rows) then old(rows)[d.key].fixed else d.fixed
      ensures rows[d.key] == Row(rows[d.key].fixed, d.latest, d.timestamp, d.isCollectedByEvent, d.at)
    {
      assert (delivered + [d])[..|delivered|] == delivered;
      if d.key in rows {
        var row := rows[d.key];
        rows := rows[d.key := Row(row.fixed, d.latest, d.timestamp, d.isCollectedByEvent, d.at)];
      } else {
        rows := rows[d.key := Row(d.fixed, d.latest, d.timestamp, d.isCollectedByEvent, d.at)];
      }
      delivered := delivered + [d];
    }

    /** Deliveries one after the other: if equal keys carry equal payloads, their contents are all there, and no more. */
    method UpsertAll(ds: seq<Delivery<K, F, V>>)
      requires Valid()
      modifies this
      ensures Valid() && delivered == old(delivered) + ds
      ensures Consistent(delivered) ==> StoresExactly(rows, delivered)
    {
      for k := 0 to |ds|
        invariant Valid() && delivered == old(delivered) + ds[..k]
      {
        Upsert(ds[k]);
        assert ds[..k + 1] == ds[..k] + [ds[k]];
      }
      assert ds[..|ds|] == ds;
      if Consistent(delivered) { ReplayStores(delivered); }
    }
  }
}
