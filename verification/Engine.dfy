/** The executor: statements on the tables, with the query cache in front of SELECT. */
module Engine {
  import opened Values
  import opened Lexer
  import opened Parser
  import opened ParserLoops
  import opened Executor
  import opened Literals
  import opened Query
  import opened LruCache
  import opened CachedRuns

  const LRU_CACHE_CAPACITY: nat := 1024

  function Behind(row: Row, rest: Option<Row>): Option<Row> {
    match rest
    case None => None
    case Some(more) => Some(row + more)
  }

  lemma BehindMore(row: Row, v: Value, rest: Option<Row>)
    ensures Behind([], rest) == rest && Behind(row, Behind([v], rest)) == Behind(row + [v], rest)
  {
    if rest.Some? {
      assert [] + rest.value == rest.value;
      assert row + ([v] + rest.value) == (row + [v]) + rest.value;
    }
  }

  // The inner loop of exec_insert: the typed row, or None at the first literal that does not parse.
  method TypedRow(columns: Schema, literals: seq<string>, stod: Stod) returns (r: Option<Row>)
    requires |literals| == |columns|
    ensures r == BuildRow(columns, literals, stod)
  {
    hide ParseLiteral;
    var row: Row := [];
    assert columns[0..] == columns && literals[0..] == literals;
    BehindMore([], Int(0), BuildRow(columns, literals, stod));
    for i := 0 to |columns|
      invariant BuildRow(columns, literals, stod) == Behind(row, BuildRow(columns[i..], literals[i..], stod))
    {
      var v := ParseLiteral(literals[i], columns[i].kind, stod);
      if v.None? { return None; }
      assert columns[i..][1..] == columns[i + 1..] && literals[i..][1..] == literals[i + 1..];
      BehindMore(row, v.value, BuildRow(columns[i + 1..], literals[i + 1..], stod));
      row := row + [v.value];
    }
    assert columns[|columns|..] == [] && row + [] == row;
    return Some(row);
  }

  // executor.cpp exec_insert on one table: rows go in one by one until one is rejected.
  method InsertBatch(t: Table, batch: seq<seq<string>>, stod: Stod) returns (t': Table, ok: bool)
    ensures t' == t.(rows := t.rows + Accepted(t.columns, batch, stod))
            && ok == (|Accepted(t.columns, batch, stod)| == |batch|)
    ensures var rows := t'.rows[|t.rows|..];
            && t' == t.(rows := t.rows + rows) && |rows| <= |batch|
            && (forall i :: 0 <= i < |rows| ==> RowMeans(t.columns, batch[i], rows[i], stod))
            && (if ok then |rows| == |batch| else |rows| < |batch| && NoRowMeans(t.columns, batch[|rows|], stod))
  {
    hide BuildRow, ValidRow, RowMeans, NoRowMeans;
    BatchMeans(t.columns, batch, stod);
    var rows: seq<Row> := [];
    t' := t;
    for i := 0 to |batch|
      invariant |rows| == i && t' == t.(rows := t.rows + rows) && t'.rows[|t.rows|..] == rows
      invariant Accepted(t.columns, batch, stod) == rows + Accepted(t.columns, batch[i..], stod)
    {
      ghost var rest := Accepted(t.columns, batch[i + 1..], stod);
      assert batch[i..][1..] == batch[i + 1..];
      if |batch[i]| != |t.columns| { return t', false; }
      var row := TypedRow(t.columns, batch[i], stod);
      if row.None? || !ValidRow(t.columns, row.value) { return t', false; }
      t' := t'.(rows := t'.rows + [row.value]);
      assert rows + ([row.value] + rest) == (rows + [row.value]) + rest;
      assert t.rows + rows + [row.value] == t.rows + (rows + [row.value]);
      rows := rows + [row.value];
    }
    return t', true;
  }

  lemma {:induction false} AcceptedValid(columns: Schema, batch: seq<seq<string>>, stod: Stod)
    ensures forall i :: 0 <= i < |Accepted(columns, batch, stod)| ==>
            ValidRow(columns, Accepted(columns, batch, stod)[i])
  {
    hide BuildRow, ValidRow;
    if batch != [] { AcceptedValid(columns, batch[1..], stod); }
  }

  class SqlExecutor {
    const cache: Cache<Answer>
    var db: Db

    ghost predicate Valid()
      reads this, cache
    {
      DbOk(db) && cache.Valid()
    }

    ghost function State(): Session
      requires Valid()
      reads this, cache
    {
      Session(db, cache.Contents())
    }

    constructor ()
      ensures Valid() && fresh(cache) && State() == Session(map[], []) && cache.capacity == LRU_CACHE_CAPACITY
    {
      cache := new Cache(LRU_CACHE_CAPACITY);
      db := map[];
    }

    // executor.cpp execute_sql; an exception of the parser escapes it.
    method ExecuteSql(sql: string, stod: Stod) returns (reply: Reply)
      requires Valid() && !UndefinedSql(db, sql)
      modifies this, cache
      ensures Valid() && (State(), reply) == Step(old(State()), cache.capacity, sql, stod)
    {
      hide ParseSql, DbOk, ExecInsert, ExecCreate, Accepted, SelectAnswer, Normalize, Purge, Touch, Place, Lookup;
      hide Linked, Listing, Cache.Tracked;
      var parsed := ParseText(sql);
      match parsed {
        case Ok(Select(q)) => reply := ExecSelectSql(sql, q, stod);
        case Ok(Insert(table, batch)) => InsertSql(table, batch, stod); reply := Quiet;
        case Ok(CreateTable(table, columns)) => CreateFits(sql); CreateSql(table, columns); reply := Quiet;
        case Bad => reply := Quiet;
        case Thrown => reply := Escapes;
      }
    }

    // executor.cpp exec_select
    method ExecSelectSql(sql: string, q: SelectStmt, stod: Stod) returns (reply: Reply)
      requires Valid()
      modifies cache
      ensures Valid() && (State(), reply) == SelectStep(old(State()), cache.capacity, Normalize(sql), q, stod)
    {
      hide DbOk, SelectAnswer, Normalize, Place, Without, Lookup, Linked, Listing, Cache.Tracked;
      var hit := cache.Get(sql);
      if hit.Some? { return Rows(hit.value); }
      var answer := ExecSelect(db, q, stod);
      if answer.Answer? { cache.Put(sql, answer); }
      reply := Rows(answer);
    }

    // executor.cpp exec_insert
    method InsertSql(table: string, batch: seq<seq<string>>, stod: Stod)
      requires Valid()
      modifies this, cache
      ensures Valid() && db == ExecInsert(old(db), table, batch, stod)
      ensures cache.Contents() == if Succeeds(old(db), table, batch, stod)
              then Purge(old(cache.Contents()), UpperAll(UpperAll(table))) else old(cache.Contents())
    {
      hide Accepted, Purge, Linked, Listing, Cache.Tracked, ValidRow, UpperAll;
      var name := UpperAll(table);
      if name !in db { return; }
      var t, ok := InsertBatch(db[name], batch, stod);
      AcceptedValid(db[name].columns, batch, stod);
      assert RowsOk(db[name]);
      db := db[name := t];
      if ok { cache.InvalidateTable(name); }
    }

    // executor.cpp exec_create_table
    method CreateSql(table: string, columns: seq<ColumnDef>)
      requires Valid() && !Undefined(db, CreateTable(table, columns))
      requires forall i :: 0 <= i < |columns| ==> columns[i].varcharLen < 0x1_0000
      modifies this`db
      ensures Valid() && db == ExecCreate(old(db), table, columns)
    {
      hide BuildSchema, UpperAll, ValidSchema;
      var name := UpperAll(table);
      if name in db { return; }
      var schema := SchemaOf(columns);
      db := db[name := Table(schema, [])];
    }
  }

  // The loop of exec_create_table over the column definitions.
  method SchemaOf(columns: seq<ColumnDef>) returns (schema: Schema)
    requires columns != [] && forall i :: 0 <= i < |columns| ==> columns[i].varcharLen < 0x1_0000
    ensures ValidSchema(schema) && |schema| == |columns|
    ensures forall i :: 0 <= i < |columns| ==>
              schema[i] == Column(UpperAll(columns[i].name), columns[i].kind, AskedLength(columns[i]))
    ensures schema == BuildSchema(columns)
  {
    hide UpperAll, ValidSchema;
    SchemaColumns(columns);
    SchemaFits(columns);
    schema := [];
    for i := 0 to |columns|
      invariant schema == BuildSchema(columns[..i])
    {
      var c := columns[i];
      assert columns[..i + 1][..i] == columns[..i];
      schema := AddColumn(schema, UpperAll(c.name), c.kind, if c.kind == VARCHAR && c.varcharLen > 0 then c.varcharLen
                          else DEFAULT_VARCHAR_MAX);
    }
    assert columns[..|columns|] == columns;
  }
}
