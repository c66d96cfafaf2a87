/** The executor over stored tables, without the query cache: CREATE, INSERT and SELECT on arena rows and indexes. */
module StoredEngine {
  import opened Values
  import opened Lexer
  import opened Parser
  import opened ParserLoops
  import opened Executor
  import opened ThrowingTexts
  import opened StatementSizes
  import opened SavedTables
  import opened Snapshot
  import opened TableSpec
  import opened Query
  import opened CachedRuns
  import opened StoredRuns
  import opened StoreQuery
  import Engine
  import RowStore

  // ---- One table ----

  lemma StampedMore(stored: seq<Stored>, rows: seq<Row>, row: Row, at: int)
    ensures TableSpec.After(stored + Stamped(rows, Expiry(at)), DEFAULT_TTL_SECONDS, Add(row, at)) ==
            stored + Stamped(rows + [row], Expiry(at))
  {
  }

  // The rows accepted from a batch, of which `rows` have been inserted and batch[i..] is left.
  predicate Ahead(columns: Schema, batch: seq<seq<string>>, stod: Stod, rows: seq<Row>, i: nat)
    requires i <= |batch|
  {
    Accepted(columns, batch, stod) == rows + Accepted(columns, batch[i..], stod)
  }

  lemma AheadStart(columns: Schema, batch: seq<seq<string>>, stod: Stod)
    ensures Ahead(columns, batch, stod, [], 0)
  {
    assert batch[0..] == batch;
  }

  lemma AheadEnd(columns: Schema, batch: seq<seq<string>>, stod: Stod, rows: seq<Row>)
    requires Ahead(columns, batch, stod, rows, |batch|)
    ensures Accepted(columns, batch, stod) == rows
  {
    assert batch[|batch|..] == [] && rows + [] == rows;
  }

  lemma AheadMore(columns: Schema, batch: seq<seq<string>>, stod: Stod, rows: seq<Row>, i: nat)
    requires i < |batch| && Ahead(columns, batch, stod, rows, i)
    ensures var row := AcceptRow(columns, batch[i], stod);
            if row.None? then Accepted(columns, batch, stod) == rows
            else Ahead(columns, batch, stod, rows + [row.value], i + 1)
  {
    hide AcceptRow;
    assert batch[i..][0] == batch[i] && batch[i..][1..] == batch[i + 1..] && rows + [] == rows;
    var row, rest := AcceptRow(columns, batch[i], stod), Accepted(columns, batch[i + 1..], stod);
    if row.Some? { assert rows + ([row.value] + rest) == (rows + [row.value]) + rest; }
  }

  // executor.cpp exec_insert on a stored table: rows go in one by one until one is rejected.
  method InsertStored(t: RowStore.Table, batch: seq<seq<string>>, stod: Stod, now: int)
    requires t.Sound() && t.ttl == DEFAULT_TTL_SECONDS && Bounded(Datetime(Expiry(now)))
    requires SmallRows(batch) && DoubleBits(stod)
    modifies t.Footprint()
    ensures t.Sound() && fresh(t.Footprint() - old(t.Footprint()))
    ensures t.stored == old(t.stored) + Stamped(Accepted(t.columns, batch, stod), Expiry(now))
  {
    hide RowStore.Table.Sound, RowStore.Table.Footprint, Accepted, AcceptRow, Stamped, Ahead, TableSpec.After;
    hide SmallRows, DoubleBits, ValidRow, BoundedRow, Bounded, Expiry;
    ghost var rows: seq<Row> := [];
    ghost var first := t.Footprint();
    NothingStamped(t.stored, now);
    AheadStart(t.columns, batch, stod);
    var i := 0;
    while i < |batch|
      invariant 0 <= i <= |batch| && t.Sound() && forall o :: o in t.Footprint() ==> o in first || fresh(o)
      invariant t.stored == old(t.stored) + Stamped(rows, Expiry(now)) && Ahead(t.columns, batch, stod, rows, i)
    {
      AheadMore(t.columns, batch, stod, rows, i);
      AcceptedBounded(t.columns, batch, i, stod);
      var row := AcceptRow(t.columns, batch[i], stod);
      if row.None? { return; }
      StampedMore(old(t.stored), rows, row.value, now);
      ghost var before := t.Footprint();
      label storing:
      StoreOne(t, row.value, now);
      forall o | o in t.Footprint() ensures o in first || fresh(o) {
        if o !in before {
          assert o in t.Footprint() - before;
          assert fresh@storing(o);
        }
      }
      rows := rows + [row.value];
      i := i + 1;
    }
    AheadEnd(t.columns, batch, stod, rows);
  }

  method StoreOne(t: RowStore.Table, row: Row, now: int)
    requires t.Sound() && t.ttl == DEFAULT_TTL_SECONDS && Bounded(Datetime(Expiry(now)))
    requires ValidRow(t.columns, row) && BoundedRow(row)
    modifies t.Footprint()
    ensures t.Sound() && fresh(t.Footprint() - old(t.Footprint()))
    ensures t.stored == TableSpec.After(old(t.stored), DEFAULT_TTL_SECONDS, Add(row, now))
  {
    hide RowStore.Table.Valid, ValidRow, Bounded, TableSpec.After;
    var ok := t.Insert(row, now);
  }

  lemma AcceptedBounded(columns: Schema, batch: seq<seq<string>>, i: nat, stod: Stod)
    requires SmallRows(batch) && DoubleBits(stod) && i < |batch|
    ensures var row := AcceptRow(columns, batch[i], stod);
            row.Some? ==> ValidRow(columns, row.value) && BoundedRow(row.value)
  {
    hide BuildRow, ValidRow, Narrow, BoundedRow, DoubleBits;
    if |batch[i]| == |columns| { BuiltBounded(columns, batch[i], stod); }
  }

  lemma NothingStamped(stored: seq<Stored>, now: int)
    ensures stored + Stamped([], Expiry(now)) == stored
  {
  }

  // ---- Clocks ----

  lemma {:induction false} StampedAges(stored: seq<Stored>, rows: seq<Row>, clock: int, now: int)
    requires AgesOk(stored, DEFAULT_TTL_SECONDS, clock) && clock <= now && now > 0
    ensures AgesOk(stored + Stamped(rows, Expiry(now)), DEFAULT_TTL_SECONDS, now)
  {
  }

  lemma LaterAges(stored: seq<Stored>, clock: int, now: int)
    requires AgesOk(stored, DEFAULT_TTL_SECONDS, clock) && clock <= now
    ensures AgesOk(stored, DEFAULT_TTL_SECONDS, now)
  {
  }

  // ---- All tables ----

  lemma Inside(t: RowStore.Table)
    ensures t in t.Footprint() && t.arena in t.Footprint() && t.index in t.Footprint()
  {
  }

  class StoredExecutor {
    var tables: Tables
    ghost var clock: int
    ghost var Repr: set<object>

    ghost predicate TableFits(t: RowStore.Table, space: set<object>)
      reads this, t, t.arena, t.index, t.Footprint()
    {
      && t in space && t.arena in space && t.index in space && t.Footprint() <= space && this !in t.Footprint()
      && t.Sound() && t.ttl == DEFAULT_TTL_SECONDS && AgesOk(t.stored, DEFAULT_TTL_SECONDS, clock)
    }

    ghost predicate TableOk(t: RowStore.Table)
      reads this, Repr
    {
      t in Repr && t.arena in Repr && t.index in Repr && t.Footprint() <= Repr && TableFits(t, Repr)
    }

    ghost predicate AllOk()
      reads this, Repr
    {
      forall name :: name in tables ==> TableOk(tables[name])
    }

    ghost predicate Disjoint()
      requires AllOk()
      reads this, Repr
    {
      forall a, b :: a in tables && b in tables && a != b ==> tables[a].Footprint() !! tables[b].Footprint()
    }

    ghost predicate Valid()
      reads this, Repr
    {
      this in Repr && clock >= 0 && AllOk() && Disjoint()
    }

    ghost function State(): Store
      requires Valid()
      reads this, Repr
    {
      map name | name in tables :: Kept(tables[name].columns, tables[name].stored)
    }

    constructor ()
      ensures Valid() && fresh(Repr) && State() == map[] && clock == 0
    {
      tables, clock, Repr := map[], 0, {this};
    }

    lemma TablesInside()
      ensures forall n :: n in tables ==>
                && tables[n] in tables[n].Footprint()
                && tables[n].arena in tables[n].Footprint() && tables[n].index in tables[n].Footprint()
    {
      forall n | n in tables
        ensures var u := tables[n]; u in u.Footprint() && u.arena in u.Footprint() && u.index in u.Footprint()
      {
        Inside(tables[n]);
      }
    }

    // Time passes.
    ghost method Advance(now: int)
      requires Valid() && clock <= now
      modifies this`clock
      ensures Valid() && clock == now && State() == old(State())
    {
      hide RowStore.Table.Sound, RowStore.Table.Footprint, AgesOk;
      forall n | n in tables ensures AgesOk(tables[n].stored, DEFAULT_TTL_SECONDS, now) {
        assert TableOk(tables[n]);
        LaterAges(tables[n].stored, clock, now);
      }
      clock := now;
    }

    // The tables have grown into new memory.
    ghost method Enclose(extra: set<object>)
      requires this in Repr && clock >= 0 && forall n :: n in tables ==> TableFits(tables[n], Repr + extra)
      requires forall a, b :: a in tables && b in tables && a != b ==> tables[a].Footprint() !! tables[b].Footprint()
      modifies this`Repr
      ensures Repr == old(Repr) + extra && Valid()
      ensures State() == map name | name in tables :: Kept(tables[name].columns, tables[name].stored)
    {
      hide RowStore.Table.Sound, RowStore.Table.Footprint, AgesOk;
      Repr := Repr + extra;
    }

    // One table takes the rows, and the others stay as they are.
    method InsertAt(name: string, batch: seq<seq<string>>, stod: Stod, now: int)
      requires Valid() && name in tables && Bounded(Datetime(Expiry(now))) && SmallRows(batch) && DoubleBits(stod)
      modifies tables[name].Footprint()
      ensures tables[name].Sound() && fresh(tables[name].Footprint() - old(tables[name].Footprint()))
      ensures tables[name].stored ==
              old(tables[name].stored) + Stamped(Accepted(tables[name].columns, batch, stod), Expiry(now))
      ensures forall n :: n in tables && n != name ==> Same(tables[n])
    {
      hide RowStore.Table.Sound, RowStore.Table.Footprint, Accepted, Stamped, AgesOk, SmallRows, DoubleBits, Bounded;
      hide Expiry;
      assert TableOk(tables[name]);
      TablesInside();
      InsertStored(tables[name], batch, stod, now);
      forall n | n in tables && n != name ensures Same(tables[n]) { assert old(TableOk(tables[n])); }
    }

    twostate predicate Same(t: RowStore.Table)
      reads t, t.arena, t.index, t.Footprint()
    {
      && (old(t.Sound()) ==> t.Sound())
      && t.Footprint() == old(t.Footprint()) && t.stored == old(t.stored)
    }

    // executor.cpp exec_insert
    method InsertInto(table: string, batch: seq<seq<string>>, stod: Stod, now: int)
      requires Valid() && clock == now > 0 && Bounded(Datetime(Expiry(now)))
      requires SmallRows(batch) && DoubleBits(stod)
      modifies Repr
      ensures Valid() && fresh(Repr - old(Repr)) && clock == now
      ensures State() == StoreInsert(old(State()), table, batch, stod, now)
    {
      hide RowStore.Table.Sound, RowStore.Table.Footprint, Accepted, Stamped, AgesOk, SmallRows, DoubleBits, Bounded;
      hide Expiry, UpperAll;
      var name := UpperAll(table);
      if name !in tables { return; }
      var t := tables[name];
      assert TableOk(t);
      StampedAges(t.stored, Accepted(t.columns, batch, stod), clock, now);
      InsertAt(name, batch, stod, now);
      Inside(t);
      assert forall n :: n in tables ==> old(TableOk(tables[n]));
      Enclose(t.Footprint());
    }

    // executor.cpp exec_create_table
    method Create(table: string, columns: seq<ColumnDef>)
      requires Valid() && forall i :: 0 <= i < |columns| ==> columns[i].varcharLen < 0x1_0000
      requires columns == [] ==> UpperAll(table) in tables
      modifies this`tables, this`Repr
      ensures Valid() && fresh(Repr - old(Repr)) && clock == old(clock)
      ensures State() == StoreCreate(old(State()), table, columns)
    {
      hide RowStore.Table.Sound, RowStore.Table.Footprint, TableOk, UpperAll, BuildSchema;
      var name := UpperAll(table);
      if name in tables { return; }
      var t := NewTable(columns);
      assert forall n :: n in tables ==> old(TableOk(tables[n]));
      Adopt(name, t);
    }

    // executor.cpp exec_select without the cache
    method SelectFrom(q: SelectStmt, stod: Stod, now: int) returns (a: Answer)
      requires Valid() && clock <= now
      ensures a == SelectAnswer(ShownDb(State(), now), q, stod)
    {
      hide SelectAnswer, StoredAnswer, LiveRows, Answerable, AgesOk, UpperAll, RowStore.Table.Valid;
      hide RowStore.Table.Footprint;
      forall n | n in tables ensures tables[n].Valid() { assert TableOk(tables[n]); }
      a := ExecStored(tables, q, stod, now);
      var name := UpperAll(q.table);
      if name in tables {
        assert TableOk(tables[name]);
        AgesAge(tables[name].stored, DEFAULT_TTL_SECONDS, clock, now);
        AgingAnswers(tables[name], q.where, stod, now);
      }
      StoredIsShown(tables, q, stod, now);
      assert Views(tables, now) == ShownDb(State(), now);
    }

    // executor.cpp execute_sql, without the cache, at a time that is not before the last
    method ExecuteText(sql: string, stod: Stod, now: int) returns (reply: Reply)
      requires Valid() && clock <= now && 0 < now && Bounded(Datetime(Expiry(now)))
      requires Narrow(sql) && DoubleBits(stod) && !UndefinedSql(ShownDb(State(), now), sql)
      modifies Repr
      ensures Valid() && fresh(Repr - old(Repr)) && clock == now
      ensures State() == StoreEffect(old(State()), sql, stod, now) && reply == StoreReply(old(State()), sql, stod, now)
    {
      hide ParseSql, AllOk, Disjoint, StoreInsert, StoreCreate, SelectAnswer, DoubleBits, Bounded, Narrow, UpperAll;
      Advance(now);
      var parsed := ParseText(sql);
      if ParseSql(sql).Done? { StatementPieces(sql); }
      match parsed {
        case Ok(Select(q)) =>
          var answer := SelectFrom(q, stod, now);
          reply := Rows(answer);
        case Ok(Insert(table, batch)) =>
          InsertInto(table, batch, stod, now);
          reply := Quiet;
        case Ok(CreateTable(table, columns)) =>
          Create(table, columns);
          reply := Quiet;
        case Bad => reply := Quiet;
        case Thrown => reply := Escapes;
      }
    }

    method Adopt(name: string, t: RowStore.Table)
      requires Valid() && name !in tables && t.Footprint() !! Repr
      requires t.Sound() && t.stored == [] && t.ttl == DEFAULT_TTL_SECONDS
      modifies this`tables, this`Repr
      ensures Valid() && Repr == old(Repr) + t.Footprint() && State() == old(State())[name := Kept(t.columns, [])]
    {
      hide RowStore.Table.Sound, RowStore.Table.Footprint, AgesOk;
      Inside(t);
      NoAges(DEFAULT_TTL_SECONDS);
      LaterAges([], 0, clock);
      assert forall n :: n in tables ==> TableOk(tables[n]);
      tables := tables[name := t];
      Enclose(t.Footprint());
    }
  }

  method NewTable(columns: seq<ColumnDef>) returns (t: RowStore.Table)
    requires columns != [] && forall i :: 0 <= i < |columns| ==> columns[i].varcharLen < 0x1_0000
    ensures t.Sound() && fresh(t.Footprint()) && t.stored == [] && t.columns == BuildSchema(columns)
    ensures t.ttl == DEFAULT_TTL_SECONDS
  {
    hide RowStore.Table.Valid, RowStore.Table.Footprint, BuildSchema, ValidSchema;
    var schema := Engine.SchemaOf(columns);
    t := new RowStore.Table(schema, DEFAULT_TTL_SECONDS);
  }

  // ---- Sessions ----

  // A text of bytes, run at a time that 64 bits can hold, that does not create a table without columns.
  predicate Runnable(x: Timed) {
    Narrow(x.sql) && x.at > 0 && Bounded(Datetime(Expiry(x.at))) && !TextCreatesEmpty(x.sql)
  }

  predicate InTime(session: seq<Timed>) { forall i, j :: 0 <= i < j < |session| ==> session[i].at <= session[j].at }

  lemma RunnableDefined(db: Db, x: Timed)
    requires Runnable(x)
    ensures !UndefinedSql(db, x.sql)
  {
    hide ParseSql, TextCreatesEmpty, Narrow, Bounded;
    CreatesEmptyIff(x.sql);
  }

  // Run a session on a new executor.
  method RunTexts(session: seq<Timed>, stod: Stod) returns (e: StoredExecutor)
    requires InTime(session) && DoubleBits(stod) && forall i :: 0 <= i < |session| ==> Runnable(session[i])
    ensures e.Valid() && fresh(e) && fresh(e.Repr) && e.State() == StoreAfter(session, stod)
    ensures e.clock == if session == [] then 0 else session[|session| - 1].at
  {
    hide DoubleBits, StoredExecutor.AllOk, StoredExecutor.Disjoint, StoreEffect;
    e := new StoredExecutor();
    var i := 0;
    while i < |session|
      invariant 0 <= i <= |session| && e.Valid() && fresh(e) && fresh(e.Repr)
      invariant e.State() == StoreAfter(session[..i], stod)
      invariant e.clock == if i == 0 then 0 else session[i - 1].at
    {
      RunnableDefined(ShownDb(e.State(), session[i].at), session[i]);
      assert session[..i + 1][..i] == session[..i];
      var reply := e.ExecuteText(session[i].sql, stod, session[i].at);
      i := i + 1;
    }
    assert session[..|session|] == session;
  }

  // Main result. After any session of texts over stored tables, a SELECT answers as it would from tables that hold the
  // rows of the INSERTs that have not expired by then, and only those.
  method RunAndSelect(session: seq<Timed>, sql: string, stod: Stod, now: int) returns (reply: Reply)
    requires InTime(session + [Timed(sql, now)]) && DoubleBits(stod)
    requires forall i :: 0 <= i < |session| ==> Runnable(session[i])
    requires Runnable(Timed(sql, now)) && ParseSql(sql).Done? && ParseSql(sql).value.Select?
    ensures reply == Rows(SelectAnswer(DbAfter(map[], Unexpired(session, now), stod), ParseSql(sql).value.query, stod))
  {
    hide ParseSql, DoubleBits, StoredExecutor.AllOk, StoredExecutor.Disjoint, StoreAfter, DbAfter, Unexpired;
    hide SelectAnswer;
    hide ShownDb, TextCreatesEmpty, Narrow, Bounded;
    EarlierInTime(session, Timed(sql, now));
    var e := RunTexts(session, stod);
    RunnableDefined(ShownDb(e.State(), now), Timed(sql, now));
    SessionShows(session, stod, now);
    reply := e.ExecuteText(sql, stod, now);
  }

  lemma EarlierInTime(session: seq<Timed>, x: Timed)
    requires InTime(session + [x])
    ensures InTime(session) && (session != [] ==> session[|session| - 1].at <= x.at)
  {
    var all := session + [x];
    assert forall i :: 0 <= i < |session| ==> all[i] == session[i];
    assert all[|session|] == x;
  }
}
