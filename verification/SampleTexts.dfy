/** Statements on tables with one VARCHAR column X, written out as texts, and what executing them does. */
module SampleTexts {
  import opened Values
  import opened Lexer
  import opened Numbers
  import opened Parser
  import opened Spellings
  import opened SqlText
  import opened Executor
  import opened LruCache
  import opened CacheKeys
  import opened FromClause

  const COLUMNS: Schema := [Column("X", VARCHAR, DEFAULT_VARCHAR_MAX)]

  // CREATE TABLE table (X VARCHAR(n))
  function LengthText(table: string, n: int): string { WrittenText(table, [Written("X", VARCHAR, Some(n))]) }

  function CreateText(table: string): string { LengthText(table, DEFAULT_VARCHAR_MAX) }

  function InsertText(table: string, batch: seq<seq<string>>): string { SqlOf(Insert(table, batch)) }

  // A name that is stored as it is written.
  predicate UpperName(s: string) { IsName(s) && UpperAll(s) == s }

  lemma SampleNames()
    ensures UpperName("A") && UpperName("B") && UpperName("T") && UpperName("X")
  {
    assert UpperAll("A") == "A" && UpperAll("B") == "B" && UpperAll("T") == "T" && UpperAll("X") == "X";
  }

  lemma LengthParsed(table: string, n: int)
    requires UpperName(table)
    ensures ParseSql(LengthText(table, n)) ==
            if FitsInt(n) then Done(CreateTable(table, [ColumnDef("X", VARCHAR, Low16(n))]), [END]) else Throws
  {
    hide ParseSql, IsName, WrittenText, UpperAll, Low16;
    SampleNames();
    var ws := [Written("X", VARCHAR, Some(n))];
    LengthOutcome(table, ws);
    assert AllFit(ws) <==> LengthFits(ws[0]);
    assert Definitions(ws) == [ColumnDef("X", VARCHAR, Low16(n))];
  }

  lemma CreateRuns(db: Db, table: string, stod: Stod)
    requires UpperName(table) && table !in db
    ensures ParseSql(CreateText(table)) ==
            Done(CreateTable(table, [ColumnDef("X", VARCHAR, DEFAULT_VARCHAR_MAX)]), [END])
    ensures ExecSql(db, CreateText(table), stod) == Some(db[table := Table(COLUMNS, [])])
  {
    hide ParseSql, IsName, WrittenText, UpperAll;
    SampleNames();
    LengthParsed(table, DEFAULT_VARCHAR_MAX);
    var columns := [ColumnDef("X", VARCHAR, DEFAULT_VARCHAR_MAX)];
    assert columns[..0] == [];
    assert BuildSchema(columns) == COLUMNS;
  }

  lemma InsertRuns(db: Db, table: string, batch: seq<seq<string>>, stod: Stod)
    requires UpperName(table) && table in db && batch != []
    ensures ParseSql(InsertText(table, batch)) == Done(Insert(table, batch), [END])
    ensures ExecSql(db, InsertText(table, batch), stod) == Some(ExecInsert(db, table, batch, stod))
    ensures ExecInsert(db, table, batch, stod) ==
            db[table := Table(db[table].columns, db[table].rows + Accepted(db[table].columns, batch, stod))]
  {
    hide ParseSql, IsName, SqlOf, UpperAll, Accepted;
    SqlRoundTrip(Insert(table, batch));
  }

  lemma RowAccepted(v: string, more: seq<seq<string>>, stod: Stod)
    requires |v| <= DEFAULT_VARCHAR_MAX
    ensures Accepted(COLUMNS, [[v]] + more, stod) == [[Varchar(v)]] + Accepted(COLUMNS, more, stod)
  {
    var batch, row: Row := [[v]] + more, [Varchar(v)];
    assert batch[0] == [v] && batch[1..] == more;
    assert COLUMNS[1..] == [] && [v][1..] == [];
    assert BuildRow([], [], stod) == Some([]);
    assert BuildRow(COLUMNS, [v], stod) == Some([Varchar(v)] + []);
    assert [Varchar(v)] + [] == row;
    assert FieldOk(COLUMNS[0], row[0]) && ValidRow(COLUMNS, row);
  }

  lemma OneAccepted(v: string, stod: Stod)
    requires |v| <= DEFAULT_VARCHAR_MAX
    ensures Accepted(COLUMNS, [[v]], stod) == [[Varchar(v)]]
  {
    RowAccepted(v, [], stod);
    assert [[v]] + [] == [[v]] && Accepted(COLUMNS, [], stod) == [];
    assert [[Varchar(v)]] + [] == [[Varchar(v)]];
  }

  // ---- The characters of these texts ----

  predicate NarrowLiterals(ts: seq<Token>) {
    forall i :: 0 <= i < |ts| && ts[i].kind == StringLiteral ==> Narrow(ts[i].value)
  }

  predicate NoLiterals(ts: seq<Token>) { forall i :: 0 <= i < |ts| ==> ts[i].kind != StringLiteral }

  // The text of a token that is not a literal has no blanks, no quotes and no wide characters.
  lemma TokenChars(t: Token)
    requires TokenOk(t) && t.kind != StringLiteral
    ensures forall i :: 0 <= i < |t.value| ==> ' ' < t.value[i] <= '~' && t.value[i] != '\'' && t.value[i] != '\"'
  {
    hide Keyword, IsName;
    if t.kind == Identifier {
      NameChars(t.value);
    } else if IsKeyword(t) {
      KeywordCaps(t.value);
    }
  }

  lemma NameChars(s: string)
    requires IsName(s)
    ensures forall i :: 0 <= i < |s| ==> IsIdent(s[i])
  {
  }

  lemma {:induction false} EscapeNarrow(s: string)
    requires Narrow(s)
    ensures Narrow(Escape(s))
  {
    if s != "" { EscapeNarrow(s[1..]); }
  }

  lemma {:induction false} RenderNarrow(ts: seq<Token>)
    requires Complete(ts) && NarrowLiterals(ts)
    ensures Narrow(Render(ts))
  {
    hide TokenOk, Escape;
    if ts[0] != END {
      if ts[0].kind == StringLiteral { EscapeNarrow(ts[0].value); } else { TokenChars(ts[0]); }
      assert Narrow(TokenText(ts[0]));
      RenderNarrow(ts[1..]);
    }
  }

  lemma LengthTextTokens(table: string, n: int)
    ensures CreateTokens(table, [Written("X", VARCHAR, Some(n))]) ==
            [Word(KwCreate), Word(KwTable), Name(table), Word(LParen), Name("X"), Word(KwVarchar), Word(LParen),
             Token(IntLiteral, IntegerText(n)), Word(RParen), Word(RParen), END]
  {
    hide IntegerText, Spelling;
  }

  lemma CreateNarrow(table: string, n: int)
    requires UpperName(table)
    ensures Narrow(LengthText(table, n))
  {
    hide Render, Complete, IsName, IntegerText, CreateTokens, Spelling;
    SampleNames();
    var ws := [Written("X", VARCHAR, Some(n))];
    LengthTextTokens(table, n);
    CreateComplete(table, ws);
    RenderNarrow(CreateTokens(table, ws));
  }

  lemma InsertTokens(table: string, v: string)
    ensures StatementTokens(Insert(table, [[v]])) ==
            [Word(KwInsert), Word(KwInto), Name(table), Word(KwValues), Word(LParen), Literal(v), Word(RParen), END]
  {
    hide Spelling;
  }

  lemma InsertNarrow(table: string, v: string)
    requires UpperName(table) && Narrow(v)
    ensures Narrow(InsertText(table, [[v]]))
  {
    hide Render, Complete, IsName, StatementTokens, Spelling, Narrow;
    InsertTokens(table, v);
    StatementComplete(Insert(table, [[v]]));
    RenderNarrow(StatementTokens(Insert(table, [[v]])));
  }

  // ---- The keys of these texts ----

  lemma {:induction false} RenderNoQuotes(ts: seq<Token>)
    requires Complete(ts) && NoLiterals(ts)
    ensures NoQuotes(Render(ts))
  {
    hide TokenOk;
    if ts[0] != END {
      TokenChars(ts[0]);
      RenderNoQuotes(ts[1..]);
    }
  }

  lemma {:induction false} NoSemicolon(ts: seq<Token>)
    requires Complete(ts)
    ensures forall i :: 0 <= i < |ts| ==> ts[i].kind != Semicolon
  {
    hide TokenOk;
    if ts[0] != END {
      WrittenKind(ts[0]);
      NoSemicolon(ts[1..]);
    }
  }

  lemma WrittenKind(t: Token)
    requires TokenOk(t)
    ensures t.kind != Semicolon
  {
  }

  // A text written out without literals has a key that lexes as it does, up to case.
  lemma KeyOfRendered(ts: seq<Token>)
    requires Complete(ts) && NoLiterals(ts)
    ensures NoQuotes(Normalize(Render(ts))) && Lex(Normalize(Render(ts))) == Lexed(UpperTokens(ts), true)
  {
    hide Render, Complete, Normalize, NoQuotes, Lex, UpperAll;
    var sql := Render(ts);
    RenderNoQuotes(ts);
    KeyNoQuotes(sql);
    LexRender(ts);
    var k := KeyTokens(sql);
    LexLast(Normalize(sql));
    assert k > 0 ==> UpperTokens(ts)[|Body(Lex(Normalize(sql)).tokens)|] == SEMICOLON;
    NoSemicolon(ts);
  }
}
