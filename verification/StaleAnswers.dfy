/** The queries for which the cache can answer with old rows. */
module StaleAnswers {
  import opened Keys
  import opened Values
  import opened Lexer
  import opened Parser
  import opened Spellings
  import opened SqlText
  import opened Executor
  import opened KeyOrder
  import opened Query
  import opened LruCache
  import opened CacheKeys
  import opened FromClause
  import opened CachedRuns
  import opened SampleTexts

  lemma {:induction false} PurgeKeeps<V>(l: seq<Item<V>>, table: string, key: string)
    requires Has(l, key) && TableOf(key) != Some(table)
    ensures Has(Purge(l, table), key) && Lookup(Purge(l, table), key) == Lookup(l, key)
  {
    hide TableOf;
    var r := Purge(l, table);
    if l[0].key == key {
      assert r[0] == l[0];
    } else {
      var i :| 0 <= i < |l| && l[i].key == key;
      assert l[1..][i - 1].key == key;
      PurgeKeeps(l[1..], table, key);
      if TableOf(l[0].key) != Some(table) {
        var j :| 0 <= j < |r[1..]| && r[1..][j].key == key;
        assert r[j + 1].key == key;
      }
    }
  }

  // A cached query keeps its old answer through an INSERT that fails part of the way, and through one into a table
  // that its key is not tracked under.
  lemma OldAnswer(s: Session, capacity: nat, insert: string, sql: string, stod: Stod)
    requires ParseSql(sql).Done? && ParseSql(sql).value.Select? && Has(s.cache, Normalize(sql))
    requires ParseSql(insert).Done? && ParseSql(insert).value.Insert?
    requires var i := ParseSql(insert).value;
             !Succeeds(s.db, i.table, i.rows, stod) || TableOf(Normalize(sql)) != Some(UpperAll(i.table))
    ensures Step(Step(s, capacity, insert, stod).0, capacity, sql, stod).1 == Rows(Lookup(s.cache, Normalize(sql)))
  {
    hide ParseSql, Normalize, Lookup, Purge, Succeeds, ExecInsert, TableOf, UpperAll, SelectAnswer, Has, Touch, Place;
    var i := ParseSql(insert).value;
    UpperTwice(i.table);
    if Succeeds(s.db, i.table, i.rows, stod) { PurgeKeeps(s.cache, UpperAll(i.table), Normalize(sql)); }
  }

  // A join is tracked under its left table only, so an INSERT into the right table does not reach its cached answer.
  lemma JoinGoesStale(s: Session, capacity: nat, insert: string, sql: string, stod: Stod)
    requires ParseSql(sql).Done? && ParseSql(sql).value.Select? && Has(s.cache, Normalize(sql))
    requires ParseSql(insert).Done? && ParseSql(insert).value.Insert?
    requires var key := Normalize(sql);
             && NoQuotes(key) && ParseSql(key).Done? && ParseSql(key).value.Select?
               && OnlySemicolons(ParseSql(key).rest)
             && (var ts := Lex(key).tokens; forall i :: 0 <= i < |ts| && i < FromAt(ts) ==> !EndsFrom(ts[i].value))
    requires var q, into := ParseSql(Normalize(sql)).value.query, ParseSql(insert).value.table;
             && q.join.Some? && UpperAll(q.join.value.rightTable) != UpperAll(q.table)
             && UpperAll(into) == UpperAll(q.join.value.rightTable)
    ensures Step(Step(s, capacity, insert, stod).0, capacity, sql, stod).1 == Rows(Lookup(s.cache, Normalize(sql)))
  {
    hide ParseSql, Normalize, Lookup, Succeeds, TableOf, UpperAll, FromAt, EndsFrom, NoQuotes, Has, Step, Lex;
    hide OnlySemicolons;
    TrackedUnderFrom(sql);
    OldAnswer(s, capacity, insert, sql, stod);
  }

  // Texts that differ in letter case only share one cache entry, string literals included.
  lemma CaseShared(sql: string)
    ensures Normalize(UpperAll(sql)) == Normalize(sql)
  {
    hide Sq, Squeeze;
    SqueezeIsSq(sql, "", false);
    SqueezeIsSq(UpperAll(sql), "", false);
    SqUpper(sql, true);
  }

  lemma {:induction false} SqUpper(q: string, skip: bool)
    ensures Sq(UpperAll(q), skip) == Sq(q, skip)
    decreases |q|
  {
    if q != "" {
      assert UpperAll(q)[1..] == UpperAll(q[1..]) && UpperAll(q)[0] == ToUpper(q[0]);
      SqUpper(q[1..], true);
      SqUpper(q[1..], false);
    }
  }

  // Token lists whose texts agree up to case are rendered to texts that agree up to case.
  lemma {:induction false} RenderFold(ts: seq<Token>, us: seq<Token>)
    requires |ts| == |us|
    requires forall i :: 0 <= i < |ts| ==>
             (ts[i] == END <==> us[i] == END) && UpperAll(TokenText(ts[i])) == UpperAll(TokenText(us[i]))
    ensures UpperAll(Render(ts)) == UpperAll(Render(us))
    decreases |ts|
  {
    hide TokenText;
    if ts != [] && ts[0] != END {
      RenderFold(ts[1..], us[1..]);
      UpperParts(TokenText(ts[0]) + " ", Render(ts[1..]));
      UpperParts(TokenText(us[0]) + " ", Render(us[1..]));
      UpperParts(TokenText(ts[0]), " ");
      UpperParts(TokenText(us[0]), " ");
    }
  }

  lemma UpperParts(a: string, b: string)
    ensures UpperAll(a + b) == UpperAll(a) + UpperAll(b)
  {
  }

  // ---- Sessions that end in a wrong answer ----

  const START := Session(map[], [])

  lemma AfterMore(s: Session, capacity: nat, sqls: seq<string>, sql: string, stod: Stod)
    ensures After(s, capacity, sqls + [sql], stod) == Step(After(s, capacity, sqls, stod), capacity, sql, stod).0
  {
    hide Step;
    assert (sqls + [sql])[..|sqls|] == sqls;
  }

  lemma StepCreate(db: Db, capacity: nat, table: string, stod: Stod)
    requires UpperName(table) && table !in db
    ensures Step(Session(db, []), capacity, CreateText(table), stod).0 == Session(db[table := Table(COLUMNS, [])], [])
  {
    hide ParseSql, CreateText, UpperName, BuildSchema;
    CreateRuns(db, table, stod);
  }

  lemma StepInsert(db: Db, capacity: nat, table: string, v: string, stod: Stod)
    requires UpperName(table) && table in db && db[table].columns == COLUMNS && |v| <= DEFAULT_VARCHAR_MAX
    ensures Step(Session(db, []), capacity, InsertText(table, [[v]]), stod).0 ==
            Session(db[table := Table(COLUMNS, db[table].rows + [[Varchar(v)]])], [])
  {
    hide ParseSql, InsertText, IsName, ExecInsert, Accepted, UpperAll;
    InsertRuns(db, table, [[v]], stod);
    OneAccepted(v, stod);
  }

  // A query on an empty cache is answered from the tables, and its answer is kept.
  lemma StepSelect(db: Db, capacity: nat, sql: string, stod: Stod)
    requires ParseSql(sql).Done? && ParseSql(sql).value.Select?
    requires SelectAnswer(db, ParseSql(sql).value.query, stod).Answer?
    ensures var s := Step(Session(db, []), capacity, sql, stod).0;
            s.db == db && Has(s.cache, Normalize(sql)) &&
            Lookup(s.cache, Normalize(sql)) == SelectAnswer(db, ParseSql(sql).value.query, stod)
  {
    hide ParseSql, SelectAnswer, Normalize;
    var s := Step(Session(db, []), capacity, sql, stod).0;
    assert s.cache[0].key == Normalize(sql);
  }

  lemma StepHit(s: Session, capacity: nat, sql: string, stod: Stod)
    requires ParseSql(sql).Done? && ParseSql(sql).value.Select? && Has(s.cache, Normalize(sql))
    ensures Step(s, capacity, sql, stod).1 == Rows(Lookup(s.cache, Normalize(sql)))
  {
    hide ParseSql, Normalize, Lookup, Has, Touch, Place, SelectAnswer;
  }

  // A query that is cached and then missed by an INSERT is answered as before it.
  lemma AnsweredOld(db: Db, capacity: nat, sql: string, insert: string, stod: Stod)
    requires ParseSql(sql).Done? && ParseSql(sql).value.Select?
    requires SelectAnswer(db, ParseSql(sql).value.query, stod).Answer?
    requires ParseSql(insert).Done? && ParseSql(insert).value.Insert?
    requires var i := ParseSql(insert).value;
             !Succeeds(db, i.table, i.rows, stod) || TableOf(Normalize(sql)) != Some(UpperAll(i.table))
    ensures var i := ParseSql(insert).value;
            var s := Step(Step(Session(db, []), capacity, sql, stod).0, capacity, insert, stod).0;
            && s.db == ExecInsert(db, i.table, i.rows, stod)
            && Step(s, capacity, sql, stod).1 == Rows(SelectAnswer(db, ParseSql(sql).value.query, stod))
  {
    hide ParseSql, SelectAnswer, SelectStep, Succeeds, TableOf, Normalize, ExecInsert, UpperAll, Purge, Lookup, Has;
    StepSelect(db, capacity, sql, stod);
    OldAnswer(Step(Session(db, []), capacity, sql, stod).0, capacity, insert, sql, stod);
  }

  lemma LateAnswer(capacity: nat, sqls: seq<string>, sql: string, insert: string, stod: Stod)
    requires ParseSql(sql).Done? && ParseSql(sql).value.Select?
    requires var s := After(START, capacity, sqls, stod);
             s.cache == [] && SelectAnswer(s.db, ParseSql(sql).value.query, stod).Answer?
    requires ParseSql(insert).Done? && ParseSql(insert).value.Insert?
    requires var i := ParseSql(insert).value;
             || !Succeeds(After(START, capacity, sqls, stod).db, i.table, i.rows, stod)
             || TableOf(Normalize(sql)) != Some(UpperAll(i.table))
    ensures var db, i := After(START, capacity, sqls, stod).db, ParseSql(insert).value;
            var s := After(START, capacity, sqls + [sql, insert], stod);
            && s.db == ExecInsert(db, i.table, i.rows, stod)
            && Step(s, capacity, sql, stod).1 == Rows(SelectAnswer(db, ParseSql(sql).value.query, stod))
  {
    hide ParseSql, SelectAnswer, Step, Succeeds, TableOf, Normalize, ExecInsert, UpperAll, After;
    AfterMore(START, capacity, sqls, sql, stod);
    AfterMore(START, capacity, sqls + [sql], insert, stod);
    assert sqls + [sql] + [insert] == sqls + [sql, insert];
    AnsweredOld(After(START, capacity, sqls, stod).db, capacity, sql, insert, stod);
  }

  const EMPTY := Table(COLUMNS, [])

  function Holding(v: string): Table { Table(COLUMNS, [[Varchar(v)]]) }

  // ---- Joins ----

  // SELECT * FROM A INNER JOIN B ON X = X
  const JOIN_QUERY := SelectStmt("A", [], true, Some(JoinClause("B", ColumnRef("", "X"), ColumnRef("", "X"), EQ)), None)

  const JOIN_TEXT := SqlOf(Select(JOIN_QUERY))

  function JoinTables(b: Table): Db { map["A" := Holding("V"), "B" := b] }

  function Pass(stod: Stod): (Row, Row) -> bool { Passes(None, "A", COLUMNS, "B", COLUMNS, stod) }

  function BothColumns(): seq<Source> { AllSources("A", COLUMNS, true) + AllSources("B", COLUMNS, false) }

  lemma JoinAnswer(b: seq<Row>, stod: Stod)
    ensures SelectAnswer(JoinTables(Table(COLUMNS, b)), JOIN_QUERY, stod) ==
            Answer(Names(BothColumns()), Product(Holding("V").rows, b, On(EQ, 0, 0, Pass(stod)), OutRow(BothColumns())))
  {
    hide Product, On, OutRow, AllSources, Names, Passes;
    assert UpperAll("A") == "A" && UpperAll("B") == "B" && UpperAll("X") == "X";
    assert FindColumn(COLUMNS, "X") == 0;
  }

  lemma PairJoins(row: Row, on: (Row, Row) -> bool, out: (Row, Row) -> Row)
    requires on(row, row)
    ensures |Product([row], [row], on, out)| == 1 && |Product([row], [], on, out)| == 0
  {
    assert [row][..0] == [] && [row][1..] == [];
    assert Matches(row, [], on, out) == [];
    assert Matches(row, [row], on, out) == [out(row, row)];
  }

  // A row in the right table changes a join's answer.
  lemma JoinChanges(stod: Stod)
    ensures var db, db' := JoinTables(EMPTY), JoinTables(Holding("V"));
            SelectAnswer(db, JOIN_QUERY, stod).Answer? && SelectAnswer(db', JOIN_QUERY, stod).Answer?
            && |SelectAnswer(db, JOIN_QUERY, stod).rows| == 0 && |SelectAnswer(db', JOIN_QUERY, stod).rows| == 1
  {
    hide SelectAnswer, Product, OutRow, Names, BothColumns, JoinTables;
    var row: Row := [Varchar("V")];
    JoinAnswer([], stod);
    JoinAnswer([row], stod);
    assert Pass(stod)(row, row) && Compare(EQ, row[0], row[0]);
    PairJoins(row, On(EQ, 0, 0, Pass(stod)), OutRow(BothColumns()));
  }

  lemma OnTokens()
    ensures JoinTokens(JOIN_QUERY.join, [END]) ==
            [Word(KwInner), Word(KwJoin), Name("B"), Word(KwOn), Name("X"), Word(OpEq), Name("X"), END]
  {
    hide Spelling;
  }

  lemma JoinTextTokens()
    ensures StatementTokens(Select(JOIN_QUERY)) ==
            [Word(KwSelect), Word(Star), Word(KwFrom), Name("A"), Word(KwInner), Word(KwJoin), Name("B"), Word(KwOn),
             Name("X"), Word(OpEq), Name("X"), END]
  {
    hide Spelling, JoinTokens;
    OnTokens();
  }

  lemma JoinReads()
    ensures ParseSql(JOIN_TEXT) == Done(Select(JOIN_QUERY), [END])
  {
    hide ParseSql, SqlOf, IsName;
    SampleNames();
    SqlRoundTrip(Select(JOIN_QUERY));
  }

  lemma JoinKey()
    ensures var key := Normalize(JOIN_TEXT);
            && NoQuotes(key) && Lex(key) == Lexed(UpperTokens(StatementTokens(Select(JOIN_QUERY))), true)
            && ParseSql(key).Done? && ParseSql(key).value == Select(UpperQuery(JOIN_QUERY))
              && OnlySemicolons(ParseSql(key).rest)
  {
    hide Parse, Lex, Normalize, NoQuotes, StatementTokens, Render, Complete, IsName, UpperTokens, UpperQuery, Spelling;
    var ts := StatementTokens(Select(JOIN_QUERY));
    SampleNames();
    JoinTextTokens();
    SelectComplete(JOIN_QUERY);
    SelectBack(JOIN_QUERY);
    KeyOfRendered(ts);
    SelectUpper(ts);
    EndUpper();
  }

  lemma JoinKeyWords()
    ensures var ks := UpperTokens(StatementTokens(Select(JOIN_QUERY)));
            |ks| == 12 && ks[1].kind == Star && !EndsFrom(ks[0].value) && !EndsFrom(ks[1].value)
  {
    hide StatementTokens, UpperAll, EndsFrom;
    JoinTextTokens();
    ListWords();
  }

  lemma ListWords()
    ensures !EndsFrom(UpperAll(Spelling(KwSelect))) && !EndsFrom(UpperAll(Spelling(Star)))
  {
    assert UpperAll("SELECT")[2..][0] == 'L';
  }

  lemma JoinTracked()
    ensures TableOf(Normalize(JOIN_TEXT)) == Some("A")
  {
    hide Parse, Lex, Normalize, NoQuotes, TableOf, StatementTokens, Render, UpperTokens, FromAt, EndsFrom;
    hide OnlySemicolons;
    var ks := UpperTokens(StatementTokens(Select(JOIN_QUERY)));
    JoinKey();
    JoinKeyWords();
    StarFrom(ks);
    TrackedUnderFrom(JOIN_TEXT);
    assert UpperAll(UpperAll("A")) == "A";
  }

  lemma StarFrom(ts: seq<Token>)
    requires |ts| > 2 && ts[1].kind == Star && Parse(ts).Done? && Parse(ts).value.Select?
    ensures FromAt(ts) == 2
  {
    hide ParseCreate, ParseInsert, ParseSelect;
  }

  lemma JoinSetup(capacity: nat, stod: Stod)
    ensures After(START, capacity, [CreateText("A"), CreateText("B"), InsertText("A", [["V"]])], stod) ==
            Session(JoinTables(EMPTY), [])
  {
    hide Step, CreateText, InsertText, UpperName;
    SampleNames();
    var c1, c2, i1 := CreateText("A"), CreateText("B"), InsertText("A", [["V"]]);
    AfterMore(START, capacity, [], c1, stod);
    StepCreate(map[], capacity, "A", stod);
    AfterMore(START, capacity, [c1], c2, stod);
    StepCreate(map["A" := EMPTY], capacity, "B", stod);
    AfterMore(START, capacity, [c1, c2], i1, stod);
    StepInsert(map["A" := EMPTY, "B" := EMPTY], capacity, "A", "V", stod);
    assert [] + [c1] == [c1] && [c1] + [c2] == [c1, c2] && [c1, c2] + [i1] == [c1, c2, i1];
    assert EMPTY.rows + [[Varchar("V")]] == [[Varchar("V")]];
    assert map["A" := EMPTY, "B" := EMPTY]["A" := Holding("V")] == JoinTables(EMPTY);
  }

  lemma JoinInsert(stod: Stod)
    ensures ParseSql(InsertText("B", [["V"]])) == Done(Insert("B", [["V"]]), [END])
    ensures ExecInsert(JoinTables(EMPTY), "B", [["V"]], stod) == JoinTables(Holding("V"))
  {
    hide ParseSql, InsertText, UpperName, Accepted, ExecInsert;
    SampleNames();
    InsertRuns(JoinTables(EMPTY), "B", [["V"]], stod);
    OneAccepted("V", stod);
    assert EMPTY.rows + [[Varchar("V")]] == [[Varchar("V")]];
    assert JoinTables(EMPTY)["B" := Holding("V")] == JoinTables(Holding("V"));
  }

  // A table, a join and a row for its right table, after which the join is still answered without that row.
  lemma StaleJoin(capacity: nat, stod: Stod)
    ensures var sqls :=
            [CreateText("A"), CreateText("B"), InsertText("A", [["V"]]), JOIN_TEXT, InsertText("B", [["V"]])];
            var s := After(START, capacity, sqls, stod);
            && ParseSql(JOIN_TEXT) == Done(Select(JOIN_QUERY), [END])
            && Step(s, capacity, JOIN_TEXT, stod).1 != Rows(SelectAnswer(s.db, JOIN_QUERY, stod))
  {
    hide ParseSql, Step, CreateText, InsertText, SelectAnswer, SqlOf, TableOf, Normalize, ExecInsert, JoinTables;
    hide Holding;
    JoinSetup(capacity, stod);
    JoinReads();
    JoinTracked();
    JoinInsert(stod);
    JoinChanges(stod);
    assert UpperAll("B")[0] == 'B';
    var c1, c2, i1, i2 := CreateText("A"), CreateText("B"), InsertText("A", [["V"]]), InsertText("B", [["V"]]);
    assert [c1, c2, i1] + [JOIN_TEXT, i2] == [c1, c2, i1, JOIN_TEXT, i2];
    LateAnswer(capacity, [c1, c2, i1], JOIN_TEXT, i2, stod);
  }

  // ---- Literals ----

  // SELECT * FROM A WHERE X = 'literal'
  function Named(literal: string): SelectStmt {
    SelectStmt("A", [], true, None, Some(WhereClause(ColumnRef("", "X"), EQ, literal)))
  }

  function NamedText(literal: string): string { SqlOf(Select(Named(literal))) }

  // Two literals that differ in case only select different rows.
  lemma CaseMatters(stod: Stod)
    ensures var db := map["A" := Holding("a")];
            SelectAnswer(db, Named("a"), stod).Answer? && SelectAnswer(db, Named("A"), stod).Answer?
            && |SelectAnswer(db, Named("a"), stod).rows| == 1 && |SelectAnswer(db, Named("A"), stod).rows| == 0
  {
    var t := Holding("a");
    assert UpperAll("A") == "A" && UpperAll("X") == "X";
    assert FindColumn(t.columns, "X") == 0;
    assert t.rows[..0] == [] && t.rows[1..] == [];
    assert "a"[0] != "A"[0];
    assert RowOrder(t.rows) == t.rows;
  }

  lemma NamedReads(literal: string)
    ensures ParseSql(NamedText(literal)) == Done(Select(Named(literal)), [END])
  {
    hide ParseSql, SqlOf, IsName;
    SampleNames();
    SqlRoundTrip(Select(Named(literal)));
  }

  lemma NamedTokens(literal: string)
    ensures StatementTokens(Select(Named(literal))) ==
            [Word(KwSelect), Word(Star), Word(KwFrom), Name("A"), Word(KwWhere), Name("X"), Word(OpEq),
             Literal(literal), END]
  {
    hide Spelling;
  }

  lemma LiteralFold()
    ensures UpperAll(TokenText(Literal("a"))) == UpperAll(TokenText(Literal("A")))
  {
    assert "a"[1..] == "" && "A"[1..] == "";
    assert Escape("a") == "a" && Escape("A") == "A";
    assert TokenText(Literal("a")) == ['\'', 'a', '\''] && TokenText(Literal("A")) == ['\'', 'A', '\''];
  }

  // The two texts are the same up to case.
  lemma NamedKeys()
    ensures Normalize(NamedText("a")) == Normalize(NamedText("A"))
  {
    hide Normalize, StatementTokens, TokenText, UpperAll, Spelling, Render;
    NamedTokens("a");
    NamedTokens("A");
    LiteralFold();
    RenderFold(StatementTokens(Select(Named("a"))), StatementTokens(Select(Named("A"))));
    CaseShared(NamedText("a"));
    CaseShared(NamedText("A"));
  }

  // A query for 'a', after which the same query for 'A' is answered with the rows for 'a'.
  lemma WrongCase(capacity: nat, stod: Stod)
    ensures var s := After(START, capacity, [CreateText("A"), InsertText("A", [["a"]]), NamedText("a")], stod);
            && ParseSql(NamedText("A")) == Done(Select(Named("A")), [END])
            && Step(s, capacity, NamedText("A"), stod).1 != Rows(SelectAnswer(s.db, Named("A"), stod))
  {
    hide ParseSql, CreateText, InsertText, NamedText, SelectAnswer, UpperName, Normalize, Lookup, Has, Step;
    SampleNames();
    var c, i, db := CreateText("A"), InsertText("A", [["a"]]), map["A" := Holding("a")];
    AfterMore(START, capacity, [], c, stod);
    StepCreate(map[], capacity, "A", stod);
    AfterMore(START, capacity, [c], i, stod);
    StepInsert(map["A" := EMPTY], capacity, "A", "a", stod);
    assert EMPTY.rows + [[Varchar("a")]] == [[Varchar("a")]];
    AfterMore(START, capacity, [c, i], NamedText("a"), stod);
    assert [] + [c] == [c] && [c] + [i] == [c, i] && [c, i] + [NamedText("a")] == [c, i, NamedText("a")];
    assert map["A" := EMPTY]["A" := Holding("a")] == db;
    NamedReads("a");
    NamedReads("A");
    NamedKeys();
    CaseMatters(stod);
    StepSelect(db, capacity, NamedText("a"), stod);
    StepHit(Step(Session(db, []), capacity, NamedText("a"), stod).0, capacity, NamedText("A"), stod);
  }

  // ---- Batches ----

  // SELECT * FROM A
  const ALL_QUERY := SelectStmt("A", [], true, None, None)

  const ALL_TEXT := SqlOf(Select(ALL_QUERY))

  lemma AllReads()
    ensures ParseSql(ALL_TEXT) == Done(Select(ALL_QUERY), [END])
  {
    hide ParseSql, SqlOf, IsName;
    SampleNames();
    SqlRoundTrip(Select(ALL_QUERY));
  }

  lemma RowShown(stod: Stod)
    ensures SelectAnswer(map["A" := EMPTY], ALL_QUERY, stod).Answer?
    ensures SelectAnswer(map["A" := EMPTY], ALL_QUERY, stod) != SelectAnswer(map["A" := Holding("V")], ALL_QUERY, stod)
  {
    assert UpperAll("A") == "A";
    assert FindColumn(COLUMNS, "X") == 0;
    var names := SelectedNames(ALL_QUERY, COLUMNS);
    assert names[..0] == [] && names[0] == "X";
    assert Positions(COLUMNS, []) == Some([]);
    assert |names| == 1 && [] + [0] == [0];
    assert Positions(COLUMNS, names) == Some([0]);
  }

  // An INSERT whose second row has too few values fails, and leaves its first row behind.
  lemma PartialInsert(stod: Stod)
    ensures var db := map["A" := EMPTY];
            !Succeeds(db, "A", [["V"], []], stod) && ExecInsert(db, "A", [["V"], []], stod) == map["A" := Holding("V")]
  {
    hide BuildRow;
    assert UpperAll("A") == "A";
    RowAccepted("V", [[]], stod);
    assert [["V"]] + [[]] == [["V"], []];
    assert Accepted(COLUMNS, [[]], stod) == [];
    assert [[Varchar("V")]] + [] == [[Varchar("V")]] && [] + [[Varchar("V")]] == [[Varchar("V")]];
  }

  // A query and a batch that is rejected at its second row, after which the query is still answered without the first.
  lemma StaleBatch(capacity: nat, stod: Stod)
    ensures var s := After(START, capacity, [CreateText("A"), ALL_TEXT, InsertText("A", [["V"], []])], stod);
            && ParseSql(ALL_TEXT) == Done(Select(ALL_QUERY), [END])
            && Step(s, capacity, ALL_TEXT, stod).1 != Rows(SelectAnswer(s.db, ALL_QUERY, stod))
  {
    hide ParseSql, Step, CreateText, InsertText, SelectAnswer, UpperName, Succeeds, ExecInsert, SqlOf, TableOf;
    hide Normalize;
    SampleNames();
    var c, i := CreateText("A"), InsertText("A", [["V"], []]);
    AfterMore(START, capacity, [], c, stod);
    StepCreate(map[], capacity, "A", stod);
    assert [] + [c] == [c] && [c] + [ALL_TEXT, i] == [c, ALL_TEXT, i];
    assert map[]["A" := EMPTY] == map["A" := EMPTY];
    AllReads();
    RowShown(stod);
    PartialInsert(stod);
    InsertRuns(map["A" := EMPTY], "A", [["V"], []], stod);
    LateAnswer(capacity, [c], ALL_TEXT, i, stod);
  }
}
