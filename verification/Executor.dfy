/** CREATE TABLE and INSERT on the database, and which statements reach the log. */
module Executor {
  import opened Values
  import opened Lexer
  import opened Numbers
  import opened Parser

  // std::stod is not modelled: it is any function from text to a bit pattern.
  type Stod = string -> Option<nat>

  // executor.cpp parse_literal
  function ParseLiteral(literal: string, kind: DataType, stod: Stod): (r: Option<Value>)
    ensures r.Some? ==> TypeOf(r.value) == kind
  {
    match kind
    case INT => (match Stoi(literal) case None => None case Some(i) => Some(Int(i)))
    case DECIMAL => (match stod(literal) case None => None case Some(bits) => Some(Decimal(bits)))
    case VARCHAR => Some(Varchar(literal))
    case DATETIME => (match Stoll(literal) case None => None case Some(t) => Some(Datetime(t)))
  }

  // executor.cpp exec_create_table: the schema of the new table.
  function BuildSchema(columns: seq<ColumnDef>): Schema {
    if columns == [] then [] else
      var c := columns[|columns| - 1];
      AddColumn(BuildSchema(columns[..|columns| - 1]), UpperAll(c.name), c.kind,
                if c.kind == VARCHAR && c.varcharLen > 0 then c.varcharLen else DEFAULT_VARCHAR_MAX)
  }

  // The length a column definition asks for.
  function AskedLength(c: ColumnDef): nat {
    if c.kind != VARCHAR then 0 else if c.varcharLen > 0 then c.varcharLen else DEFAULT_VARCHAR_MAX
  }

  // One column for each definition, under its upper-case name.
  lemma {:induction false} SchemaColumns(columns: seq<ColumnDef>)
    ensures |BuildSchema(columns)| == |columns|
    ensures forall i :: 0 <= i < |columns| ==>
              BuildSchema(columns)[i] == Column(UpperAll(columns[i].name), columns[i].kind, AskedLength(columns[i]))
  {
    hide UpperAll;
    if columns != [] { SchemaColumns(columns[..|columns| - 1]); }
  }

  // Lengths are what the parser casts to 16 bits, so the schema of a parsed CREATE TABLE fits the row layout.
  lemma SchemaFits(columns: seq<ColumnDef>)
    requires columns != [] && forall i :: 0 <= i < |columns| ==> columns[i].varcharLen < 0x1_0000
    ensures ValidSchema(BuildSchema(columns))
  {
    hide UpperAll, BuildSchema;
    SchemaColumns(columns);
  }

  lemma {:induction false} ParsedLengths(ts: seq<Token>)
    requires ParseColumnDefs(ts).Done?
    ensures forall i :: 0 <= i < |ParseColumnDefs(ts).value| ==> ParseColumnDefs(ts).value[i].varcharLen < 0x1_0000
    decreases |ts|
  {
    hide ParseColumnDef, Stoi;
    if !At(ts, RParen) && !At(ts, EndOfInput) {
      ParsedLength(ts);
      var rest := ParseColumnDef(ts).rest;
      if At(rest, Comma) { ParsedLengths(Adv(rest)); }
    }
  }

  lemma ParsedLength(ts: seq<Token>)
    requires ParseColumnDef(ts).Done?
    ensures ParseColumnDef(ts).value.varcharLen < 0x1_0000 && |ParseColumnDef(ts).rest| < |ts|
  {
    hide Stoi;
  }

  lemma CreateFits(sql: string)
    requires ParseSql(sql).Done? && ParseSql(sql).value.CreateTable?
    ensures forall i :: 0 <= i < |ParseSql(sql).value.columns| ==> ParseSql(sql).value.columns[i].varcharLen < 0x1_0000
  {
    hide ParseColumnDefs, ParseRows, ParseColumnList, Lex;
    var t := Adv(Adv(Adv(Adv(Lex(sql).tokens))));
    if ParseColumnDefs(t).Done? { ParsedLengths(t); }
  }

  // The code reads the first column of a new table, so a new table without columns has no defined outcome.
  predicate Undefined(db: Db, s: Statement) { EmptyCreate(s) && UpperAll(s.table) !in db }

  predicate EmptyCreate(s: Statement) { s.CreateTable? && s.columns == [] }

  predicate UndefinedSql(db: Db, sql: string) { ParseSql(sql).Done? && Undefined(db, ParseSql(sql).value) }

  function ExecCreate(db: Db, table: string, columns: seq<ColumnDef>): Db
    requires !Undefined(db, CreateTable(table, columns))
  {
    var name := UpperAll(table);
    if name in db then db else db[name := Table(BuildSchema(columns), [])]
  }

  // A CREATE TABLE adds an empty table with those columns under the upper-case name, and does nothing if there is one.
  lemma CreateMeans(db: Db, table: string, columns: seq<ColumnDef>)
    requires !Undefined(db, CreateTable(table, columns))
    ensures var name, after := UpperAll(table), ExecCreate(db, table, columns);
            && (name in db ==> after == db)
            && (name !in db ==>
                && after.Keys == db.Keys + {name} && (forall n :: n in db ==> after[n] == db[n])
                && after[name].rows == [] && |after[name].columns| == |columns|
                && forall i :: 0 <= i < |columns| ==>
                     after[name].columns[i] ==
                     Column(UpperAll(columns[i].name), columns[i].kind, AskedLength(columns[i])))
  {
    hide UpperAll, BuildSchema;
    SchemaColumns(columns);
  }

  // The typed row, or None at the first literal that does not parse.
  function BuildRow(columns: Schema, literals: seq<string>, stod: Stod): Option<Row>
    requires |literals| == |columns|
  {
    if columns == [] then Some([]) else
      match ParseLiteral(literals[0], columns[0].kind, stod)
      case None => None
      case Some(v) =>
        match BuildRow(columns[1..], literals[1..], stod)
        case None => None
        case Some(row) => Some([v] + row)
  }

  // The row a VALUES list stands for, if the table accepts it.
  function AcceptRow(columns: Schema, literals: seq<string>, stod: Stod): (r: Option<Row>)
    ensures r.Some? ==> ValidRow(columns, r.value)
  {
    if |literals| != |columns| then None else
      match BuildRow(columns, literals, stod)
      case None => None
      case Some(row) => if ValidRow(columns, row) then Some(row) else None
  }

  // The rows inserted before the first that is rejected, which end the statement but stay in the table.
  function Accepted(columns: Schema, batch: seq<seq<string>>, stod: Stod): seq<Row> {
    if batch == [] then [] else
      match AcceptRow(columns, batch[0], stod)
      case None => []
      case Some(row) => [row] + Accepted(columns, batch[1..], stod)
  }

  // executor.cpp exec_insert
  function ExecInsert(db: Db, table: string, batch: seq<seq<string>>, stod: Stod): Db {
    var name := UpperAll(table);
    if name !in db then db else
      db[name := db[name].(rows := db[name].rows + Accepted(db[name].columns, batch, stod))]
  }

  // executor.cpp execute: what a statement does to the tables.
  function ExecStatement(db: Db, s: Statement, stod: Stod): Db
    requires !Undefined(db, s)
  {
    match s
    case CreateTable(table, columns) => ExecCreate(db, table, columns)
    case Insert(table, rows) => ExecInsert(db, table, rows, stod)
    case Select(_) => db
  }

  // executor.cpp execute_sql: None if the parser throws, or if the outcome is not defined.
  function ExecSql(db: Db, sql: string, stod: Stod): Option<Db> {
    match ParseSql(sql)
    case Done(s, _) => if Undefined(db, s) then None else Some(ExecStatement(db, s, stod))
    case Error => Some(db)
    case Throws => None
  }

  // ---- Which texts are logged ----

  function AlphaSpan(s: string): (n: nat)
    ensures n <= |s| && (forall i :: 0 <= i < n ==> IsAlpha(s[i])) && (n < |s| ==> !IsAlpha(s[n]))
  {
    if s == "" || !IsAlpha(s[0]) then 0 else 1 + AlphaSpan(s[1..])
  }

  function SkipSpaces(s: string): string {
    if s != "" && IsSpace(s[0]) then SkipSpaces(s[1..]) else s
  }

  predicate Mutating(sql: string) {
    var s := SkipSpaces(sql);
    var word := UpperAll(s[..AlphaSpan(s)]);
    word == "CREATE" || word == "INSERT"
  }

  // database.cpp is_mutating_sql
  method IsMutatingSql(sql: string) returns (r: bool)
    ensures r == Mutating(sql)
  {
    hide SkipSpaces, AlphaSpan, UpperAll;
    var i := FirstNonBlank(sql);
    if i >= |sql| {
      NoWord();
      return false;
    }
    var word := FirstWord(sql, i);
    r := word == "CREATE" || word == "INSERT";
  }

  lemma NoWord()
    ensures AlphaSpan("") == 0 && UpperAll("") == ""
  {
  }

  method FirstNonBlank(sql: string) returns (i: nat)
    ensures i <= |sql| && SkipSpaces(sql) == sql[i..]
  {
    i := 0;
    while i < |sql| && IsSpace(sql[i])
      invariant 0 <= i <= |sql|
      invariant SkipSpaces(sql[i..]) == SkipSpaces(sql)
    {
      assert sql[i..][1..] == sql[i + 1..];
      i := i + 1;
    }
  }

  method FirstWord(sql: string, start: nat) returns (word: string)
    requires start <= |sql|
    ensures var s := sql[start..]; word == UpperAll(s[..AlphaSpan(s)])
  {
    ghost var s := sql[start..];
    var i := start;
    word := "";
    while i < |sql| && IsAlpha(sql[i])
      invariant start <= i <= |sql|
      invariant word == UpperAll(sql[start..i])
      invariant i - start + AlphaSpan(sql[i..]) == AlphaSpan(s)
    {
      assert sql[i..][1..] == sql[i + 1..];
      word := word + [ToUpper(sql[i])];
      i := i + 1;
    }
    assert s[..i - start] == sql[start..i];
  }

  lemma {:induction false} LexSkips(s: string)
    ensures Lex(s) == Lex(SkipSpaces(s))
  {
    if s != "" && IsSpace(s[0]) { LexSkips(s[1..]); }
  }

  lemma {:induction false} SkipSpacesStart(s: string)
    ensures SkipSpaces(s) == "" || !IsSpace(SkipSpaces(s)[0])
  {
    if s != "" && IsSpace(s[0]) { SkipSpacesStart(s[1..]); }
  }

  lemma AlphaWord(s: string, n: nat)
    requires n <= |s| && (forall i :: 0 <= i < n ==> IsAlpha(s[i])) && (n < |s| ==> !IsAlpha(s[n]))
    ensures AlphaSpan(s) == n
  {
  }

  // The words a statement can begin with.
  function Verb(kind: Kind): Option<string> {
    match kind
    case KwCreate => Some("CREATE")
    case KwInsert => Some("INSERT")
    case KwSelect => Some("SELECT")
    case _ => None
  }

  lemma VerbSpelled(word: string)
    requires Verb(Keyword(word)).Some?
    ensures Verb(Keyword(word)) == Some(word) && forall i :: 0 <= i < |word| ==> 'A' <= word[i] <= 'Z'
  {
  }

  lemma WordToken(s: string)
    requires s != "" && Verb(NextLexeme(s).token.kind).Some?
    ensures Keyword(UpperAll(s[..IdentSpan(s)])) == NextLexeme(s).token.kind
  {
    hide Keyword, UpperAll, IdentSpan, NumberSpan, ReadQuoted;
  }

  // A text whose first token is CREATE, INSERT or SELECT begins with that word.
  lemma FirstTokenIsWord(s: string)
    requires s != "" && !IsSpace(s[0]) && Verb(NextLexeme(s).token.kind).Some?
    ensures Verb(NextLexeme(s).token.kind) == Some(UpperAll(s[..AlphaSpan(s)]))
  {
    hide IdentSpan, AlphaSpan, NextLexeme, Keyword, Verb;
    var n := IdentSpan(s);
    var word := UpperAll(s[..n]);
    WordToken(s);
    VerbSpelled(word);
    forall i | 0 <= i < n ensures IsAlpha(s[i]) { assert ToUpper(s[i]) == word[i]; }
    AlphaWord(s, n);
  }

  // Every text that parses to a CREATE or an INSERT, and every text on which the parser throws, is logged.
  lemma MutationsAreLogged(sql: string)
    requires ParseSql(sql).Throws? || (ParseSql(sql).Done? && !ParseSql(sql).value.Select?)
    ensures Mutating(sql)
  {
    hide NextLexeme, ParseCreate, ParseInsert, ParseSelect, AlphaSpan, SkipSpaces;
    var s := SkipSpaces(sql);
    LexSkips(sql);
    SkipSpacesStart(sql);
    ParsedKind(Lex(sql).tokens);
    FirstTokenIsWord(s);
  }

  // No text that parses to a SELECT is logged.
  lemma SelectsAreNotLogged(sql: string)
    requires ParseSql(sql).Done? && ParseSql(sql).value.Select?
    ensures !Mutating(sql)
  {
    hide NextLexeme, ParseCreate, ParseInsert, ParseSelect, AlphaSpan, SkipSpaces;
    var s := SkipSpaces(sql);
    LexSkips(sql);
    SkipSpacesStart(sql);
    SelectKind(Lex(sql).tokens);
    FirstTokenIsWord(s);
  }

  lemma SelectKind(ts: seq<Token>)
    requires ts != [] && Parse(ts).Done? && Parse(ts).value.Select?
    ensures ts[0].kind == KwSelect
  {
    hide ParseColumnDefs, ParseRows, ParseColumnList;
  }

  lemma ParsedKind(ts: seq<Token>)
    requires ts != [] && (Parse(ts).Throws? || (Parse(ts).Done? && !Parse(ts).value.Select?))
    ensures ts[0].kind == KwCreate || ts[0].kind == KwInsert
  {
    hide ParseColumnDefs, ParseRows, ParseColumnList;
    if ts[0].kind == KwSelect { SelectNeverThrows(ts); }
  }

  lemma SelectNeverThrows(ts: seq<Token>)
    ensures !ParseSelect(ts).Throws?
  {
    hide ParseColumnList;
    ListNeverThrows(Adv(ts));
  }

  lemma {:induction false} ListNeverThrows(ts: seq<Token>)
    ensures !ParseColumnList(ts).Throws?
    decreases |ts|
  {
    if At(ts, Identifier) {
      RefShorter(ts);
      ListNeverThrows(Adv(ParseColumnRef(ts).1));
    }
  }

  // A text that is not logged leaves every table as it was; so does a logged one that does not parse to a mutation,
  // unless the parser throws on it: then executing it throws, when it is first run and at every replay.
  lemma UnloggedChangesNothing(db: Db, sql: string, stod: Stod)
    ensures !Mutating(sql) ==> ExecSql(db, sql, stod) == Some(db)
    ensures ParseSql(sql).Error? || (ParseSql(sql).Done? && ParseSql(sql).value.Select?) ==>
            ExecSql(db, sql, stod) == Some(db)
    ensures ParseSql(sql).Throws? ==> ExecSql(db, sql, stod) == None
  {
    hide ParseSql, Mutating;
    if ParseSql(sql).Throws? || (ParseSql(sql).Done? && !ParseSql(sql).value.Select?) { MutationsAreLogged(sql); }
  }
}
