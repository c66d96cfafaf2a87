/** Whole runs of a table: inserts and expiry sweeps, then queries. */
module TableRuns {
  import opened Keys
  import opened Values
  import opened KeyOrder
  import opened TableSpec
  import RowStore

  // The machine can hold the event's times and values.
  predicate Representable(e: Event, ttl: nat) {
    e.Add? ==> Bounded(Datetime(ExpiryAt(e.now, ttl))) && forall i :: 0 <= i < |e.row| ==> Bounded(e.row[i])
  }

  // An insert of a row that the schema rejects changes nothing.
  predicate Effective(columns: Schema, e: Event) { e.Add? ==> ValidRow(columns, e.row) }

  function EffectiveEvents(columns: Schema, events: seq<Event>): seq<Event> {
    if events == [] then [] else
      var init := EffectiveEvents(columns, events[..|events| - 1]);
      if Effective(columns, events[|events| - 1]) then init + [events[|events| - 1]] else init
  }

  lemma {:induction false} EffectiveFrom(columns: Schema, events: seq<Event>)
    ensures forall i :: 0 <= i < |EffectiveEvents(columns, events)| ==> EffectiveEvents(columns, events)[i] in events
    ensures Forward(events) ==> Forward(EffectiveEvents(columns, events))
  {
    if events != [] {
      var init := events[..|events| - 1];
      EffectiveFrom(columns, init);
      var es := EffectiveEvents(columns, init);
      assert Forward(events) ==> Forward(init);
      forall i | 0 <= i < |es| && Forward(events) ensures es[i].now <= events[|events| - 1].now {
        var j :| 0 <= j < |init| && init[j] == es[i];
        assert events[j] == init[j];
      }
    }
  }

  lemma HistorySnoc(ttl: nat, events: seq<Event>, e: Event)
    ensures History(ttl, events + [e]) == After(History(ttl, events), ttl, e)
  {
    assert (events + [e])[..|events|] == events;
  }

  lemma NoHistory(columns: Schema, ttl: nat)
    ensures History(ttl, EffectiveEvents(columns, [])) == []
  {
  }

  lemma EventStep(columns: Schema, ttl: nat, events: seq<Event>, i: nat)
    requires i < |events|
    ensures var stored := History(ttl, EffectiveEvents(columns, events[..i]));
            History(ttl, EffectiveEvents(columns, events[..i + 1])) ==
            if Effective(columns, events[i]) then After(stored, ttl, events[i]) else stored
  {
    hide After, Effective;
    assert events[..i + 1][..i] == events[..i];
    HistorySnoc(ttl, EffectiveEvents(columns, events[..i]), events[i]);
  }

  method RunEvent(t: RowStore.Table, e: Event)
    requires t.Valid() && Representable(e, t.ttl)
    modifies t.Footprint()
    ensures t.Valid() && fresh(t.Footprint() - old(t.Footprint()))
    ensures t.stored == if Effective(t.columns, e) then After(old(t.stored), t.ttl, e) else old(t.stored)
  {
    hide ValidRow, RowStore.Table.Valid, After;
    match e {
      case Add(row, now) => var ok := t.Insert(row, now);
      case Clean(now) => var n := t.CleanupExpired(now);
    }
  }

  // Run the events on a new table.
  method RunEvents(columns: Schema, ttl: nat, events: seq<Event>) returns (t: RowStore.Table)
    requires ValidSchema(columns) && forall i :: 0 <= i < |events| ==> Representable(events[i], ttl)
    ensures t.Valid() && fresh(t.Footprint()) && t.columns == columns && t.ttl == ttl
    ensures t.stored == History(ttl, EffectiveEvents(columns, events))
  {
    hide ValidRow, RowStore.Table.Valid, After, History, EffectiveEvents, Representable;
    hide Effective, ValidSchema;
    NoHistory(columns, ttl);
    t := new RowStore.Table(columns, ttl);
    for i := 0 to |events|
      invariant t.Valid() && fresh(t.Footprint()) && t.columns == columns && t.ttl == ttl
      invariant t.stored == History(ttl, EffectiveEvents(columns, events[..i]))
    {
      RunEvent(t, events[i]);
      EventStep(columns, ttl, events, i);
    }
    assert events[..|events|] == events;
  }

  // After any run of a table under a clock that does not go back: the row counter counts the valid flags; a scan
  // returns every accepted row that has not expired, unchanged, in insertion order; and a condition on the primary
  // key returns, in key order, the last of these for each key that satisfies it.
  method RunAndQuery(columns: Schema, ttl: nat, events: seq<Event>, op: CmpOp, v: Value, now: int)
    returns (scan: seq<Row>, answer: seq<Row>, count: nat)
    requires ValidSchema(columns) && forall i :: 0 <= i < |events| ==>
             Representable(events[i], ttl) && events[i].now <= now
    requires Forward(events) && now >= 0
    ensures scan == LiveRows(Added(ttl, EffectiveEvents(columns, events)), now)
    ensures answer == Filter(RowOrder(scan), OnKey(op, KeyOf(v)))
    ensures count == CountValid(History(ttl, EffectiveEvents(columns, events)))
  {
    hide Representable, History, Added, LiveRows, CountValid, RowOrder, Filter, EffectiveEvents;
    hide RowStore.Table.Holding, RowStore.Table.Indexes, RowStore.Table.Apart;
    var t := RunEvents(columns, ttl, events);
    ghost var es := EffectiveEvents(columns, events);
    EffectiveFrom(columns, events);
    forall i | 0 <= i < |es| ensures es[i].now <= now { assert es[i] in events; }
    ScanIsHistory(ttl, es, now);
    HistoryAging(ttl, es, now);
    AgingLasts(t.stored, now, op, KeyOf(v));
    scan := t.ScanAll(now);
    answer := t.IndexRange(op, v, [], now);
    count := t.rowCount;
  }
}
