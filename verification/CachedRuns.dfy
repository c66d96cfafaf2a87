/** Sessions with the query cache: when a cached answer is the answer the tables would give. */
module CachedRuns {
  import opened Values
  import opened Lexer
  import opened Parser
  import opened Executor
  import opened KeyOrder
  import opened Query
  import opened LruCache
  import opened CacheKeys
  import opened FromClause

  datatype Session = Session(db: Db, cache: seq<Item<Answer>>)

  // What a text gets back: the answer of a SELECT, nothing but success or an error message, an exception, or anything.
  datatype Reply = Rows(answer: Answer) | Quiet | Escapes | Anything

  // An INSERT that succeeds, and so invalidates its table's queries.
  predicate Succeeds(db: Db, table: string, batch: seq<seq<string>>, stod: Stod) {
    UpperAll(table) in db && |Accepted(db[UpperAll(table)].columns, batch, stod)| == |batch|
  }

  // executor.cpp execute_sql: the new state and the reply.
  function Step(s: Session, capacity: nat, sql: string, stod: Stod): (Session, Reply) {
    match ParseSql(sql)
    case Done(Select(q), _) => SelectStep(s, capacity, Normalize(sql), q, stod)
    case Done(Insert(table, batch), _) =>
      var cache := if Succeeds(s.db, table, batch, stod) then Purge(s.cache, UpperAll(UpperAll(table))) else s.cache;
      (Session(ExecInsert(s.db, table, batch, stod), cache), Quiet)
    case Done(CreateTable(table, columns), _) =>
      if Undefined(s.db, CreateTable(table, columns)) then (s, Anything)
      else (Session(ExecCreate(s.db, table, columns), s.cache), Quiet)
    case Error => (s, Quiet)
    case Throws => (s, Escapes)
  }

  // executor.cpp exec_select with the cache
  function SelectStep(s: Session, capacity: nat, key: string, q: SelectStmt, stod: Stod): (Session, Reply) {
    if Has(s.cache, key) then (Session(s.db, Touch(s.cache, key)), Rows(Lookup(s.cache, key)))
    else
      var a := SelectAnswer(s.db, q, stod);
      (Session(s.db, if a.Answer? then Place(s.cache, capacity, key, a) else s.cache), Rows(a))
  }

  function After(s: Session, capacity: nat, sqls: seq<string>, stod: Stod): Session {
    if sqls == [] then s else Step(After(s, capacity, sqls[..|sqls| - 1], stod), capacity, sqls[|sqls| - 1], stod).0
  }

  // ---- The tables evolve as if there were no cache ----

  // What a text does to the tables of a running executor; one that throws does nothing.
  function Effect(db: Db, sql: string, stod: Stod): Db {
    if ExecSql(db, sql, stod).None? then db else ExecSql(db, sql, stod).value
  }

  function DbAfter(db: Db, sqls: seq<string>, stod: Stod): Db {
    if sqls == [] then db else Effect(DbAfter(db, sqls[..|sqls| - 1], stod), sqls[|sqls| - 1], stod)
  }

  lemma {:induction false} SameTables(s: Session, capacity: nat, sqls: seq<string>, stod: Stod)
    ensures After(s, capacity, sqls, stod).db == DbAfter(s.db, sqls, stod)
  {
    hide ParseSql, ExecInsert, ExecCreate, SelectAnswer, Succeeds, Normalize, Purge, Place, Touch;
    if sqls != [] { SameTables(s, capacity, sqls[..|sqls| - 1], stod); }
  }

  // ---- What an answer depends on ----

  lemma NoLettersUpper(s: string)
    requires NoLetters(UpperAll(s))
    ensures UpperAll(s) == s
  {
    forall i | 0 <= i < |s| ensures UpperAll(s)[i] == s[i] { assert !IsAlpha(UpperAll(s)[i]); }
  }

  // Names count up to case, and a literal without letters as it is.
  lemma AnswerUpper(db: Db, q: SelectStmt, stod: Stod)
    requires q.join.None? && (q.where.Some? ==> NoLetters(UpperAll(q.where.value.literal)))
    ensures SelectAnswer(db, UpperQuery(q), stod) == SelectAnswer(db, q, stod)
  {
    hide WhereRows, Positions, UpperAll;
    var u := UpperQuery(q);
    UpperTwice(q.table);
    if UpperAll(q.table) in db {
      var t := db[UpperAll(q.table)];
      NamesUpper(q, t.columns);
      WhereUpperSame(t, q.where, stod);
    }
  }

  lemma NamesUpper(q: SelectStmt, columns: Schema)
    ensures SelectedNames(UpperQuery(q), columns) == SelectedNames(q, columns)
  {
    StarKept(q);
    forall i | 0 <= i < |q.columns| ensures UpperAll(UpperRefs(q.columns)[i].column) == UpperAll(q.columns[i].column) {
      UpperTwice(q.columns[i].column);
    }
    assert !SelectsAll(q) ==> SelectedNames(UpperQuery(q), columns) == SelectedNames(q, columns);
  }

  lemma StarKept(q: SelectStmt)
    ensures SelectsAll(UpperQuery(q)) == SelectsAll(q)
  {
    if |q.columns| == 1 {
      var c := q.columns[0].column;
      assert UpperAll("*") == "*";
      if UpperAll(c) == "*" { assert |c| == 1 && UpperAll(c)[0] == '*'; assert c[0] == '*' && c == "*"; }
    }
  }

  lemma WhereUpperSame(t: Table, where: Option<WhereClause>, stod: Stod)
    requires where.Some? ==> NoLetters(UpperAll(where.value.literal))
    ensures WhereRows(t, UpperWhere(where), stod) == WhereRows(t, where, stod)
  {
    hide UpperAll, FindColumn, ParseLiteral, Filter, RowOrder;
    if where.Some? {
      UpperTwice(where.value.column.column);
      NoLettersUpper(where.value.literal);
    }
  }

  // A single-table answer reads one table only.
  lemma AnswerFrame(db: Db, db': Db, q: SelectStmt, stod: Stod)
    requires q.join.None?
    requires (UpperAll(q.table) in db <==> UpperAll(q.table) in db')
             && (UpperAll(q.table) in db ==> db[UpperAll(q.table)] == db'[UpperAll(q.table)])
    ensures SelectAnswer(db, q, stod) == SelectAnswer(db', q, stod)
  {
    hide SelectOne, SelectTwo, UpperAll;
  }

  lemma AnswerNeedsTable(db: Db, q: SelectStmt, stod: Stod)
    requires SelectAnswer(db, q, stod).Answer?
    ensures UpperAll(q.table) in db
  {
    hide SelectOne, SelectTwo;
  }

  // ---- The cache's invariant ----

  predicate EntryOk(x: Item<Answer>, db: Db, stod: Stod) {
    PlainKey(x.key) ==> x.value.Answer? && x.value == SelectAnswer(db, KeyQuery(x.key), stod)
  }

  predicate CacheOk(s: Session, stod: Stod) { forall x :: x in s.cache ==> EntryOk(x, s.db, stod) }

  // A text whose outcome is defined and which, if it is an INSERT, is inserted as a whole or not at all.
  predicate Whole(db: Db, sql: string, stod: Stod) {
    !UndefinedSql(db, sql) &&
    match ParseSql(sql)
    case Done(Insert(table, batch), _) =>
      UpperAll(table) !in db || Accepted(db[UpperAll(table)].columns, batch, stod) == []
        || Succeeds(db, table, batch, stod)
    case _ => true
  }

  lemma {:induction false} PurgeMembers<V>(l: seq<Item<V>>, table: string, x: Item<V>)
    requires x in Purge(l, table)
    ensures x in l && TableOf(x.key) != Some(table)
  {
    hide TableOf;
    if TableOf(l[0].key) == Some(table) || x != l[0] { PurgeMembers(l[1..], table, x); }
  }

  lemma PlaceMembers<V>(l: seq<Item<V>>, capacity: nat, key: string, value: V, x: Item<V>)
    requires x in Place(l, capacity, key, value)
    ensures x == Item(key, value) || x in l
  {
    hide Without;
    WithoutMembers(l, key, x);
  }

  lemma TouchMembers<V>(l: seq<Item<V>>, key: string, x: Item<V>)
    requires x in Touch(l, key)
    ensures x in l
  {
    hide Without, Lookup;
    if Has(l, key) { LookupMember(l, key); }
    WithoutMembers(l, key, x);
  }

  // A text whose key is plain asks what its key asks.
  lemma KeyAnswers(db: Db, sql: string, stod: Stod)
    requires PlainKey(Normalize(sql)) && ParseSql(sql).Done? && ParseSql(sql).value.Select?
    ensures SelectAnswer(db, ParseSql(sql).value.query, stod) == SelectAnswer(db, KeyQuery(Normalize(sql)), stod)
  {
    hide ParseSql, Normalize, NoQuotes, TableOf, SelectAnswer, UpperAll;
    KeyDetermines(sql);
    AnswerUpper(db, ParseSql(sql).value.query, stod);
  }

  lemma SelectKeeps(s: Session, capacity: nat, sql: string, stod: Stod)
    requires CacheOk(s, stod) && ParseSql(sql).Done? && ParseSql(sql).value.Select?
    ensures var q, key := ParseSql(sql).value.query, Normalize(sql);
            && CacheOk(SelectStep(s, capacity, key, q, stod).0, stod)
            && (PlainKey(key) ==> SelectStep(s, capacity, key, q, stod).1 == Rows(SelectAnswer(s.db, q, stod)))
  {
    hide ParseSql, Normalize, PlainKey, KeyQuery, SelectAnswer, Touch, Place, Lookup;
    var q, key := ParseSql(sql).value.query, Normalize(sql);
    var s' := SelectStep(s, capacity, key, q, stod).0;
    if PlainKey(key) { KeyAnswers(s.db, sql, stod); }
    if Has(s.cache, key) { LookupMember(s.cache, key); }
    forall x | x in s'.cache ensures EntryOk(x, s'.db, stod) {
      if Has(s.cache, key) {
        TouchMembers(s.cache, key, x);
      } else if SelectAnswer(s.db, q, stod).Answer? {
        PlaceMembers(s.cache, capacity, key, SelectAnswer(s.db, q, stod), x);
      }
    }
  }

  // An entry survives a change to a table that its query does not read.
  lemma EntryKept(x: Item<Answer>, db: Db, name: string, t: Table, stod: Stod)
    requires EntryOk(x, db, stod) && (PlainKey(x.key) ==> TableOf(x.key) != Some(name))
    ensures EntryOk(x, db[name := t], stod)
  {
    hide ParseSql, NoQuotes, SelectAnswer, TableOf, UpperAll;
    if PlainKey(x.key) { AnswerFrame(db, db[name := t], KeyQuery(x.key), stod); }
  }

  lemma InsertKeeps(s: Session, table: string, batch: seq<seq<string>>, stod: Stod)
    requires CacheOk(s, stod)
    requires UpperAll(table) !in s.db || Accepted(s.db[UpperAll(table)].columns, batch, stod) == []
             || Succeeds(s.db, table, batch, stod)
    ensures var cache :=
            if Succeeds(s.db, table, batch, stod) then Purge(s.cache, UpperAll(UpperAll(table))) else s.cache;
            CacheOk(Session(ExecInsert(s.db, table, batch, stod), cache), stod)
  {
    hide EntryOk, Accepted, Purge, TableOf, UpperAll;
    var name := UpperAll(table);
    UpperTwice(table);
    if Succeeds(s.db, table, batch, stod) {
      forall x | x in Purge(s.cache, name) ensures EntryOk(x, ExecInsert(s.db, table, batch, stod), stod) {
        PurgeMembers(s.cache, name, x);
        EntryKept(x, s.db, name, ExecInsert(s.db, table, batch, stod)[name], stod);
      }
    } else if name in s.db {
      assert s.db[name].rows + [] == s.db[name].rows;
      assert ExecInsert(s.db, table, batch, stod) == s.db;
    }
  }

  lemma CreateKeeps(s: Session, table: string, columns: seq<ColumnDef>, stod: Stod)
    requires CacheOk(s, stod) && !Undefined(s.db, CreateTable(table, columns))
    ensures CacheOk(Session(ExecCreate(s.db, table, columns), s.cache), stod)
  {
    hide EntryOk, BuildSchema, UpperAll;
    var name, db := UpperAll(table), ExecCreate(s.db, table, columns);
    forall x | x in s.cache ensures EntryOk(x, db, stod) {
      if db != s.db {
        NotCreated(x, s.db, name, stod);
        EntryKept(x, s.db, name, db[name], stod);
      }
    }
  }

  lemma NotCreated(x: Item<Answer>, db: Db, name: string, stod: Stod)
    requires EntryOk(x, db, stod) && name !in db
    ensures PlainKey(x.key) ==> TableOf(x.key) != Some(name)
  {
    hide ParseSql, NoQuotes, SelectAnswer, TableOf, UpperAll;
    if PlainKey(x.key) { AnswerNeedsTable(db, KeyQuery(x.key), stod); }
  }

  lemma StepKeeps(s: Session, capacity: nat, sql: string, stod: Stod)
    requires CacheOk(s, stod) && Whole(s.db, sql, stod)
    ensures CacheOk(Step(s, capacity, sql, stod).0, stod)
  {
    hide ParseSql, Normalize, CacheOk, SelectStep, ExecInsert, ExecCreate, Accepted, Succeeds, Purge, UpperAll;
    match ParseSql(sql)
    case Done(Select(q), _) => SelectKeeps(s, capacity, sql, stod);
    case Done(Insert(table, batch), _) => InsertKeeps(s, table, batch, stod);
    case Done(CreateTable(table, columns), _) => CreateKeeps(s, table, columns, stod);
    case _ =>
  }

  predicate WholeRun(db: Db, sqls: seq<string>, stod: Stod) {
    forall i :: 0 <= i < |sqls| ==> Whole(DbAfter(db, sqls[..i], stod), sqls[i], stod)
  }

  lemma {:induction false} RunKeeps(s: Session, capacity: nat, sqls: seq<string>, stod: Stod)
    requires s.cache == [] && WholeRun(s.db, sqls, stod)
    ensures CacheOk(After(s, capacity, sqls, stod), stod)
  {
    hide Step, Whole, EntryOk, DbAfter;
    if sqls != [] {
      var n := |sqls| - 1;
      var init := sqls[..n];
      forall i | 0 <= i < |init| ensures Whole(DbAfter(s.db, init[..i], stod), init[i], stod) {
        assert init[..i] == sqls[..i];
      }
      RunKeeps(s, capacity, init, stod);
      SameTables(s, capacity, init, stod);
      StepKeeps(After(s, capacity, init, stod), capacity, sqls[n], stod);
    }
  }

  // In any session that starts with an empty cache and whose INSERTs are whole or nothing, whatever else it runs, a
  // SELECT whose key is plain is answered as the tables would answer it, on a hit as on a miss.
  lemma KeyTransparent(s: Session, capacity: nat, sqls: seq<string>, sql: string, stod: Stod)
    requires s.cache == [] && WholeRun(s.db, sqls, stod)
    requires ParseSql(sql).Done? && ParseSql(sql).value.Select? && PlainKey(Normalize(sql))
    ensures Step(After(s, capacity, sqls, stod), capacity, sql, stod).1 ==
            Rows(SelectAnswer(DbAfter(s.db, sqls, stod), ParseSql(sql).value.query, stod))
  {
    hide ParseSql, Normalize, PlainKey, CacheOk, SelectStep, SelectAnswer, After, DbAfter, WholeRun;
    RunKeeps(s, capacity, sqls, stod);
    SameTables(s, capacity, sqls, stod);
    SelectKeeps(After(s, capacity, sqls, stod), capacity, sql, stod);
  }

  // The same, of what the caller writes: a complete SELECT on one table, without quotes, whose literal is a number, and
  // with no word of its select list ending in FROM.
  lemma CacheTransparent(s: Session, capacity: nat, sqls: seq<string>, sql: string, stod: Stod)
    requires s.cache == [] && WholeRun(s.db, sqls, stod) && PlainText(sql)
    ensures Step(After(s, capacity, sqls, stod), capacity, sql, stod).1 ==
            Rows(SelectAnswer(DbAfter(s.db, sqls, stod), ParseSql(sql).value.query, stod))
  {
    hide Normalize, PlainKey, SelectAnswer, After, DbAfter, WholeRun, Step, Lex, Parse, NoQuotes, OnlySemicolons;
    hide FromFree;
    TextIsPlain(sql);
    KeyTransparent(s, capacity, sqls, sql, stod);
  }
}
