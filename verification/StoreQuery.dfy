/** SELECT over the stored tables: what exec_select answers at a given time, from rows in the arena and the index. */
module StoreQuery {
  import opened Keys
  import opened Values
  import opened Lexer
  import opened Parser
  import opened Executor
  import opened BPTreeContents
  import BPTreeScan
  import opened KeyOrder
  import opened TableSpec
  import opened Query
  import RowStore

  type Tables = map<string, RowStore.Table>

  // What a stored table shows at a time: its live rows in insertion order.
  ghost function View(t: RowStore.Table, now: int): Table
    reads t
  {
    Table(t.columns, LiveRows(t.stored, now))
  }

  ghost function Views(tables: Tables, now: int): Db
    reads tables.Values
  {
    map n | n in tables :: View(tables[n], now)
  }

  lemma {:induction false} LiveFrom(stored: seq<Stored>, now: int, x: Row)
    requires x in LiveRows(stored, now)
    ensures exists i :: 0 <= i < |stored| && stored[i].row == x
  {
    hide Live;
    var n := |stored| - 1;
    if x in LiveRows(stored[..n], now) {
      LiveFrom(stored[..n], now, x);
      var i :| 0 <= i < n && stored[..n][i].row == x;
      assert stored[i].row == x;
    } else {
      assert stored[n].row == x;
    }
  }

  lemma ViewOk(t: RowStore.Table, now: int)
    requires t.Stores()
    ensures RowsOk(View(t, now))
  {
    hide LiveRows, ValidRow;
    var rows := LiveRows(t.stored, now);
    forall k | 0 <= k < |rows| ensures ValidRow(t.columns, rows[k]) {
      LiveFrom(t.stored, now, rows[k]);
      var i :| 0 <= i < |t.stored| && t.stored[i].row == rows[k];
      assert t.RowOk(i);
    }
  }

  // The rows the table's own scans find: through the index when the column is the primary key.
  ghost function StoredRows(t: RowStore.Table, where: Option<WhereClause>, stod: Stod, now: int): Option<seq<Row>>
    reads t
  {
    match where
    case None => Some(LiveRows(t.stored, now))
    case Some(w) =>
      var col := FindColumn(t.columns, UpperAll(w.column.column));
      if col < 0 then None else
      match ParseLiteral(w.literal, t.columns[col].kind, stod)
      case None => None
      case Some(v) => Some(if col == 0 then IndexRows(t, w.op, KeyOf(v), now)
                           else Filter(LiveRows(t.stored, now), OnColumn(col, w.op, v)))
  }

  ghost function IndexRows(t: RowStore.Table, op: CmpOp, key: Key, now: int): seq<Row>
    reads t
  {
    Gather(t.stored, now, BPTreeScan.Select(EntryOrder(PkEntries(AllRows(t.stored))), op, key))
  }

  // Where the index is asked, the last row of each matching key is live if any row of that key is.
  ghost predicate Answerable(t: RowStore.Table, where: Option<WhereClause>, stod: Stod, now: int)
    reads t
  {
    match where
    case None => true
    case Some(w) =>
      var col := FindColumn(t.columns, UpperAll(w.column.column));
      col == 0 ==>
        match ParseLiteral(w.literal, t.columns[0].kind, stod)
        case None => true
        case Some(v) => LastsLive(t.stored, now, w.op, KeyOf(v))
  }

  lemma IndexRowsIff(t: RowStore.Table, op: CmpOp, key: Key, now: int)
    ensures IndexRows(t, op, key, now) == Filter(RowOrder(LiveRows(t.stored, now)), OnKey(op, key))
            <==> LastsLive(t.stored, now, op, key)
  {
    hide Gather, BPTreeScan.Select, EntryOrder, PkEntries, RowOrder, LiveRows, Filter, LastsLive, Ascending, ToMap;
    var s := PkEntries(AllRows(t.stored));
    EntryOrderMap(s);
    IndexAnswerIff(t.stored, now, EntryOrder(s), op, key);
  }

  // The scans find what the table shows if and only if the index can answer.
  lemma StoredRowsIff(t: RowStore.Table, where: Option<WhereClause>, stod: Stod, now: int)
    ensures StoredRows(t, where, stod, now) == WhereRows(View(t, now), where, stod) <==> Answerable(t, where, stod, now)
  {
    hide FindColumn, ParseLiteral, UpperAll, RowOrder, Filter, LiveRows, LastsLive, IndexRows;
    if where.Some? {
      var w := where.value;
      var col := FindColumn(t.columns, UpperAll(w.column.column));
      if col == 0 {
        var v := ParseLiteral(w.literal, t.columns[0].kind, stod);
        if v.Some? { IndexRowsIff(t, w.op, KeyOf(v.value), now); }
      }
    }
  }

  // A table whose rows only age can always answer.
  lemma AgingAnswers(t: RowStore.Table, where: Option<WhereClause>, stod: Stod, now: int)
    requires Aging(t.stored, now)
    ensures Answerable(t, where, stod, now)
  {
    hide FindColumn, ParseLiteral, UpperAll, LastsLive, Aging;
    if where.Some? {
      var v := ParseLiteral(where.value.literal, if t.columns == [] then INT else t.columns[0].kind, stod);
      if v.Some? { AgingLasts(t.stored, now, where.value.op, KeyOf(v.value)); }
    }
  }

  lemma StoredFull(t: RowStore.Table, where: Option<WhereClause>, stod: Stod, now: int)
    requires t.Stores() && StoredRows(t, where, stod, now).Some?
    ensures forall i :: 0 <= i < |StoredRows(t, where, stod, now).value| ==>
              |StoredRows(t, where, stod, now).value[i]| == |t.columns|
  {
    hide FindColumn, ParseLiteral, UpperAll, Filter, LiveRows, IndexRows, OnColumn;
    ViewOk(t, now);
    var rows := StoredRows(t, where, stod, now).value;
    forall i | 0 <= i < |rows| ensures |rows[i]| == |t.columns| { FoundFrom(t, where, stod, now, rows[i]); }
  }

  lemma FoundFrom(t: RowStore.Table, where: Option<WhereClause>, stod: Stod, now: int, x: Row)
    requires StoredRows(t, where, stod, now).Some? && x in StoredRows(t, where, stod, now).value
    ensures x in LiveRows(t.stored, now)
  {
    hide FindColumn, ParseLiteral, UpperAll, Filter, LiveRows, IndexRows, OnColumn;
    if where.Some? {
      var w := where.value;
      var col := FindColumn(t.columns, UpperAll(w.column.column));
      var v := ParseLiteral(w.literal, t.columns[col].kind, stod).value;
      if col == 0 {
        IndexFrom(t, w.op, KeyOf(v), now, x);
      } else {
        FilterFrom(LiveRows(t.stored, now), OnColumn(col, w.op, v), x);
      }
    }
  }

  lemma IndexFrom(t: RowStore.Table, op: CmpOp, key: Key, now: int, x: Row)
    requires x in IndexRows(t, op, key, now)
    ensures x in LiveRows(t.stored, now)
  {
    hide Gather, BPTreeScan.Select, EntryOrder, PkEntries, LiveRows;
    GatherFrom(t.stored, now, BPTreeScan.Select(EntryOrder(PkEntries(AllRows(t.stored))), op, key), x);
  }

  lemma {:induction false} GatherFrom(stored: seq<Stored>, now: int, ids: seq<nat>, x: Row)
    requires x in Gather(stored, now, ids)
    ensures x in LiveRows(stored, now)
  {
    hide LiveRows, Live;
    var n := |ids| - 1;
    if x in Gather(stored, now, ids[..n]) {
      GatherFrom(stored, now, ids[..n], x);
    } else {
      LiveHasKey(stored, now, ids[n]);
    }
  }

  // executor.cpp exec_select: the rows of a single table.
  method FindRows(t: RowStore.Table, where: Option<WhereClause>, stod: Stod, now: int) returns (rows: Option<seq<Row>>)
    requires t.Valid()
    ensures rows == StoredRows(t, where, stod, now)
  {
    hide FindColumn, ParseLiteral, UpperAll, RowOrder, Filter, LiveRows, LastsLive, Gather, EntryOrder, PkEntries;
    if where.None? {
      var all := t.ScanAll(now);
      return Some(all);
    }
    var w := where.value;
    var col := FindColumn(t.columns, UpperAll(w.column.column));
    if col < 0 { return None; }
    var v := ParseLiteral(w.literal, t.columns[col].kind, stod);
    if v.None? { return None; }
    var found;
    if col == 0 {
      found := t.IndexRange(w.op, v.value, [], now);
    } else {
      found := t.ScanWhere(col, w.op, v.value, [], now);
    }
    return Some(found);
  }

  ghost function StoredAnswer(tables: Tables, q: SelectStmt, stod: Stod, now: int): Answer
    reads tables.Values
  {
    var name := UpperAll(q.table);
    if name !in tables then Failed else
    match q.join
    case None => StoredOne(tables[name], q, stod, now)
    case Some(j) =>
      var right := UpperAll(j.rightTable);
      if right !in tables then Failed else SelectTwo(View(tables[name], now), View(tables[right], now), q, j, stod)
  }

  ghost function StoredOne(t: RowStore.Table, q: SelectStmt, stod: Stod, now: int): Answer
    reads t
  {
    var names := SelectedNames(q, t.columns);
    match Positions(t.columns, names)
    case None => Failed
    case Some(ids) =>
      match StoredRows(t, q.where, stod, now)
      case None => Failed
      case Some(rows) => Answer(names, Project(rows, ids))
  }

  // executor.cpp exec_select without the cache
  method ExecStored(tables: Tables, q: SelectStmt, stod: Stod, now: int) returns (a: Answer)
    requires forall n :: n in tables ==> tables[n].Valid()
    ensures a == StoredAnswer(tables, q, stod, now)
  {
    hide StoredOne, SelectTwo, UpperAll, LiveRows, RowStore.Table.Valid;
    var name := UpperAll(q.table);
    if name !in tables { return Failed; }
    if q.join.Some? {
      var right := UpperAll(q.join.value.rightTable);
      if right !in tables { return Failed; }
      a := JoinStored(tables[name], tables[right], q, q.join.value, stod, now);
    } else {
      a := SelectStored(tables[name], q, stod, now);
    }
  }

  method SelectStored(t: RowStore.Table, q: SelectStmt, stod: Stod, now: int) returns (a: Answer)
    requires t.Valid()
    ensures a == StoredOne(t, q, stod, now)
  {
    hide Positions, StoredRows, LiveRows, SelectedNames, Project, Pick;
    var names := SelectedNames(q, t.columns);
    var ids := ResolvePositions(t.columns, names);
    if ids.None? { return Failed; }
    var rows := FindRows(t, q.where, stod, now);
    if rows.None? { return Failed; }
    StoredFull(t, q.where, stod, now);
    var projected := ProjectRows(t.columns, rows.value, ids.value);
    a := Answer(names, projected);
  }

  method JoinStored(lt: RowStore.Table, rt: RowStore.Table, q: SelectStmt, j: JoinClause, stod: Stod, now: int)
    returns (a: Answer)
    requires lt.Valid() && rt.Valid()
    ensures a == SelectTwo(View(lt, now), View(rt, now), q, j, stod)
  {
    hide SelectTwo, LiveRows, RowsOk, RowStore.Table.Indexes, RowStore.Table.Apart, RowStore.Table.Holding;
    var left := lt.ScanAll(now);
    var right := rt.ScanAll(now);
    ViewOk(lt, now);
    ViewOk(rt, now);
    a := ExecJoin(Table(lt.columns, left), Table(rt.columns, right), q, j, stod);
  }

  // The answer from arena and index is the answer of the tables shown at that time, as far as the index can answer.
  lemma StoredIsShown(tables: Tables, q: SelectStmt, stod: Stod, now: int)
    requires q.join.None? && UpperAll(q.table) in tables ==> Answerable(tables[UpperAll(q.table)], q.where, stod, now)
    ensures StoredAnswer(tables, q, stod, now) == SelectAnswer(Views(tables, now), q, stod)
  {
    hide Positions, StoredRows, WhereRows, SelectTwo, UpperAll, LiveRows, SelectedNames, Answerable;
    if q.join.None? && UpperAll(q.table) in tables { StoredRowsIff(tables[UpperAll(q.table)], q.where, stod, now); }
  }

  // After any inserts and sweeps under a clock that does not go back, a single-table SELECT answers from the rows that
  // were inserted and have not expired.
  lemma SelectOfHistory(t: RowStore.Table, events: seq<Event>, q: SelectStmt, stod: Stod, now: int)
    requires t.stored == History(t.ttl, events) && Forward(events)
    requires now >= if events == [] then 0 else events[|events| - 1].now
    ensures StoredOne(t, q, stod, now) == SelectOne(Table(t.columns, LiveRows(Added(t.ttl, events), now)), q, stod)
  {
    hide Positions, StoredRows, WhereRows, LiveRows, SelectedNames, Answerable, History, Added, Aging;
    HistoryAging(t.ttl, events, now);
    ScanIsHistory(t.ttl, events, now);
    AgingAnswers(t, q.where, stod, now);
    StoredRowsIff(t, q.where, stod, now);
  }
}
