/** Sessions of SQL texts over tables whose rows expire: what the tables show at any later time. */
module StoredRuns {
  import opened Values
  import opened Lexer
  import opened Parser
  import opened Executor
  import opened TableSpec
  import opened Query
  import opened CachedRuns

  const DEFAULT_TTL_SECONDS: nat := 3600

  // A table as it is stored: its columns, and its rows with their expiry times and flags.
  datatype Kept = Kept(columns: Schema, stored: seq<Stored>)

  type Store = map<string, Kept>

  // What the tables show at a time.
  function ShownDb(store: Store, now: int): Db {
    map name | name in store :: Table(store[name].columns, LiveRows(store[name].stored, now))
  }

  // When a row inserted at a time expires; 0 stands for never.
  function Expiry(at: int): int { ExpiryAt(at, DEFAULT_TTL_SECONDS) }

  // A row inserted at one time has expired at another.
  predicate Gone(at: int, now: int) { Expiry(at) > 0 && now > Expiry(at) }

  function StoreCreate(store: Store, table: string, columns: seq<ColumnDef>): Store {
    var name := UpperAll(table);
    if name in store || columns == [] then store else store[name := Kept(BuildSchema(columns), [])]
  }

  function StoreInsert(store: Store, table: string, batch: seq<seq<string>>, stod: Stod, at: int): Store {
    var name := UpperAll(table);
    if name !in store then store else
      var rows := Accepted(store[name].columns, batch, stod);
      store[name := store[name].(stored := store[name].stored + Stamped(rows, Expiry(at)))]
  }

  // What a text does to the stored tables at a time.
  function StoreEffect(store: Store, sql: string, stod: Stod, at: int): Store {
    match ParseSql(sql)
    case Done(CreateTable(table, columns), _) => StoreCreate(store, table, columns)
    case Done(Insert(table, batch), _) => StoreInsert(store, table, batch, stod, at)
    case _ => store
  }

  // What a text gets back at a time.
  function StoreReply(store: Store, sql: string, stod: Stod, now: int): Reply {
    match ParseSql(sql)
    case Done(Select(q), _) => Rows(SelectAnswer(ShownDb(store, now), q, stod))
    case Throws => Escapes
    case _ => Quiet
  }

  datatype Timed = Timed(sql: string, at: int)

  function StoreAfter(session: seq<Timed>, stod: Stod): Store {
    if session == [] then map[] else
      var n := |session| - 1;
      StoreEffect(StoreAfter(session[..n], stod), session[n].sql, stod, session[n].at)
  }

  // ---- What the tables show after a text ----

  lemma {:induction false} StampedRows(stored: seq<Stored>, rows: seq<Row>, expiry: int, now: int)
    ensures LiveRows(stored + Stamped(rows, expiry), now) ==
            LiveRows(stored, now) + if expiry > 0 && now > expiry then [] else rows
  {
    if rows == [] {
      assert stored + Stamped(rows, expiry) == stored;
      assert LiveRows(stored, now) + [] == LiveRows(stored, now);
    } else {
      var n := |rows| - 1;
      var x := Stored(rows[n], expiry, true);
      StampedRows(stored, rows[..n], expiry, now);
      assert stored + Stamped(rows, expiry) == (stored + Stamped(rows[..n], expiry)) + [x];
      LiveSnoc(stored + Stamped(rows[..n], expiry), x, now);
      assert rows == rows[..n] + [rows[n]];
      assert LiveRows(stored, now) + (rows[..n] + [rows[n]]) == (LiveRows(stored, now) + rows[..n]) + [rows[n]];
    }
  }

  lemma InsertShows(store: Store, table: string, batch: seq<seq<string>>, stod: Stod, at: int, now: int)
    ensures ShownDb(StoreInsert(store, table, batch, stod, at), now) ==
            if Gone(at, now) then ShownDb(store, now) else ExecInsert(ShownDb(store, now), table, batch, stod)
  {
    hide Accepted, LiveRows, UpperAll, Expiry;
    var name := UpperAll(table);
    if name in store {
      var rows := Accepted(store[name].columns, batch, stod);
      StampedRows(store[name].stored, rows, Expiry(at), now);
      assert LiveRows(store[name].stored, now) + [] == LiveRows(store[name].stored, now);
    }
  }

  lemma CreateShows(store: Store, table: string, columns: seq<ColumnDef>, now: int)
    ensures Undefined(ShownDb(store, now), CreateTable(table, columns)) ==>
              ShownDb(StoreCreate(store, table, columns), now) == ShownDb(store, now)
    ensures !Undefined(ShownDb(store, now), CreateTable(table, columns)) ==>
              ShownDb(StoreCreate(store, table, columns), now) == ExecCreate(ShownDb(store, now), table, columns)
  {
    hide BuildSchema, UpperAll;
    assert LiveRows([], now) == [];
  }

  predicate IsInsert(sql: string) { ParseSql(sql).Done? && ParseSql(sql).value.Insert? }

  // A text changes what is shown as it changes tables without expiry, unless it is an INSERT whose rows have expired.
  lemma EffectShows(store: Store, sql: string, stod: Stod, at: int, now: int)
    ensures ShownDb(StoreEffect(store, sql, stod, at), now) ==
            if IsInsert(sql) && Gone(at, now) then ShownDb(store, now) else Effect(ShownDb(store, now), sql, stod)
  {
    hide ParseSql, ShownDb, StoreCreate, StoreInsert, ExecInsert, ExecCreate, Gone, UpperAll;
    match ParseSql(sql)
    case Done(CreateTable(table, columns), _) => CreateShows(store, table, columns, now);
    case Done(Insert(table, batch), _) => InsertShows(store, table, batch, stod, at, now);
    case _ =>
  }

  // The texts of a session without the INSERTs whose rows have expired.
  function Unexpired(session: seq<Timed>, now: int): seq<string> {
    if session == [] then [] else
      var n := |session| - 1;
      Unexpired(session[..n], now) +
      if IsInsert(session[n].sql) && Gone(session[n].at, now) then [] else [session[n].sql]
  }

  // Main result. At any time the tables show what the session's texts would have built if the INSERTs that have expired
  // by then had never been run, and nothing ever expired.
  lemma {:induction false} SessionShows(session: seq<Timed>, stod: Stod, now: int)
    ensures ShownDb(StoreAfter(session, stod), now) == DbAfter(map[], Unexpired(session, now), stod)
  {
    hide StoreEffect, ShownDb, Effect, IsInsert, Gone;
    if session == [] {
      NothingShown(now);
    } else {
      var n := |session| - 1;
      var before, sql := Unexpired(session[..n], now), session[n].sql;
      SessionShows(session[..n], stod, now);
      EffectShows(StoreAfter(session[..n], stod), sql, stod, session[n].at, now);
      assert before + [] == before && (before + [sql])[..|before|] == before;
    }
  }

  lemma NothingShown(now: int)
    ensures ShownDb(map[], now) == map[]
  {
  }
}
