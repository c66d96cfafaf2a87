/** Statements written out as SQL text, and read back. */
module SqlText {
  import opened Keys
  import opened Values
  import opened Lexer
  import opened Numbers
  import opened Spellings
  import opened Parser

  // ---- Tokens as text ----

  function Escape(s: string): string {
    if s == "" then "" else (if s[0] == '\'' || s[0] == '\\' then ['\\', s[0]] else [s[0]]) + Escape(s[1..])
  }

  function TokenText(t: Token): string {
    if t.kind == StringLiteral then "\'" + Escape(t.value) + "\'" else t.value
  }

  // Every token before the end followed by a space.
  function Render(ts: seq<Token>): string {
    if ts == [] || ts[0] == END then "" else TokenText(ts[0]) + " " + Render(ts[1..])
  }

  predicate IsKeyword(t: Token) {
    t.kind != Identifier && Keyword(t.value) == t.kind
  }

  predicate IsSymbol(t: Token) {
    match t.kind
    case LParen => t.value == "("
    case RParen => t.value == ")"
    case Comma => t.value == ","
    case Dot => t.value == "."
    case Star => t.value == "*"
    case OpEq => t.value == "="
    case OpNe => t.value == "!=" || t.value == "<>"
    case OpLt => t.value == "<"
    case OpGt => t.value == ">"
    case OpLe => t.value == "<="
    case OpGe => t.value == ">="
    case _ => false
  }

  predicate TokenOk(t: Token) {
    || (t.kind == Identifier && IsName(t.value))
    || IsKeyword(t)
    || (t.kind == IntLiteral && IntText(t.value))
    || (t.kind == FloatLiteral && FractionText(Unsigned(t.value)))
    || t.kind == StringLiteral
    || IsSymbol(t)
  }

  // ---- Each token is read back from its text ----

  function Escapes(s: string): (marks: seq<bool>)
    ensures |marks| == |s|
  {
    seq(|s|, i requires 0 <= i < |s| => s[i] == '\'' || s[i] == '\\')
  }

  lemma {:induction false} EscapeMarks(s: string)
    ensures Escape(s) == Marked(s, Escapes(s))
  {
    if s != "" {
      EscapeMarks(s[1..]);
      assert Escapes(s)[1..] == Escapes(s[1..]);
    }
  }

  lemma TokenSpelt(t: Token)
    requires TokenOk(t)
    ensures Spells(t, TokenText(t))
  {
    hide Keyword, Escape, Marked, FractionText;
    if t.kind == StringLiteral {
      EscapeMarks(t.value);
      assert QuotedAs(t.value, Escapes(t.value), TokenText(t));
    } else if IsKeyword(t) {
      KeywordCaps(t.value);
      KeywordSpelt(t.value);
      assert UpperAll(t.value) == t.value;
    }
  }

  // A complete token list: tokens that can be written out, then the end.
  predicate Complete(ts: seq<Token>) {
    ts != [] && if ts[0] == END then |ts| == 1 else TokenOk(ts[0]) && Complete(ts[1..])
  }

  // Lexing undoes rendering.
  lemma {:induction false} LexRender(ts: seq<Token>)
    requires Complete(ts)
    ensures Lex(Render(ts)) == Lexed(ts, true)
  {
    hide NextLexeme, TokenText, TokenOk, Spells;
    if ts[0] == END {
      assert ts == [END];
    } else {
      var t, rest := ts[0], Render(ts[1..]);
      var text := TokenText(t) + " " + rest;
      TokenSpelt(t);
      TokenBack(t, TokenText(t), " " + rest);
      assert TokenText(t) + (" " + rest) == text;
      LexRender(ts[1..]);
      var tail := text[|TokenText(t)|..];
      assert tail == " " + rest;
      assert tail[1..] == rest;
      assert Lex(tail) == Lex(rest);
      assert text[0] == TokenText(t)[0];
      assert [t] + ts[1..] == ts;
    }
  }

  // ---- Statements as tokens, following the grammar of DesignDoc.md; each function puts its tokens before `rest` ----

  function Push(t: Token, ts: seq<Token>): seq<Token> { [t] + ts }

  function Word(kind: Kind): Token { Token(kind, Spelling(kind)) }
  function Name(s: string): Token { Token(Identifier, s) }
  function Literal(s: string): Token { Token(StringLiteral, s) }

  function OpKind(op: CmpOp): Kind {
    match op
    case EQ => OpEq
    case NE => OpNe
    case LT => OpLt
    case GT => OpGt
    case LE => OpLe
    case GE => OpGe
  }

  function TypeKind(kind: DataType): Kind {
    match kind
    case INT => KwInt
    case DECIMAL => KwDecimal
    case VARCHAR => KwVarchar
    case DATETIME => KwDatetime
  }

  predicate RefOk(r: ColumnRef) { IsName(r.column) && (r.table == "" || IsName(r.table)) }

  function RefTokens(r: ColumnRef, rest: seq<Token>): seq<Token> {
    if r.table == "" then Push(Name(r.column), rest)
      else Push(Name(r.table), Push(Word(Dot), Push(Name(r.column), rest)))
  }

  function RefsTokens(rs: seq<ColumnRef>, rest: seq<Token>): seq<Token>
    decreases |rs|
  {
    if rs == [] then rest
    else if |rs| == 1 then RefTokens(rs[0], rest)
    else RefTokens(rs[0], Push(Word(Comma), RefsTokens(rs[1..], rest)))
  }

  // A column definition as it is written. A VARCHAR may carry a length, and that may be any integer.
  datatype Written = Written(name: string, kind: DataType, length: Option<int>)

  predicate WrittenOk(w: Written) { IsName(w.name) && (w.kind != VARCHAR ==> w.length.None?) }

  predicate LengthFits(w: Written) { w.length.Some? ==> FitsInt(w.length.value) }

  predicate AllFit(ws: seq<Written>) { forall i :: 0 <= i < |ws| ==> LengthFits(ws[i]) }

  // What it defines: no length stands for the default, and a length is cut down to 16 bits.
  function Definition(w: Written): ColumnDef {
    ColumnDef(w.name, w.kind, if w.length.None? then DEFAULT_VARCHAR_MAX else Low16(w.length.value))
  }

  function Definitions(ws: seq<Written>): (cs: seq<ColumnDef>)
    ensures |cs| == |ws| && forall i :: 0 <= i < |ws| ==> cs[i] == Definition(ws[i])
  {
    seq(|ws|, i requires 0 <= i < |ws| => Definition(ws[i]))
  }

  predicate ColumnOk(c: ColumnDef) {
    IsName(c.name) && if c.kind == VARCHAR then c.varcharLen < 0x1_0000 else c.varcharLen == DEFAULT_VARCHAR_MAX
  }

  function WriteColumns(cs: seq<ColumnDef>): (ws: seq<Written>)
    ensures |ws| == |cs|
    ensures forall i :: 0 <= i < |cs| ==>
              ws[i] == Written(cs[i].name, cs[i].kind, if cs[i].kind == VARCHAR then Some(cs[i].varcharLen) else None)
  {
    seq(|cs|, i requires 0 <= i < |cs| =>
          Written(cs[i].name, cs[i].kind, if cs[i].kind == VARCHAR then Some(cs[i].varcharLen) else None))
  }

  function LengthTokens(n: int, rest: seq<Token>): seq<Token> {
    Push(Word(LParen), Push(Token(IntLiteral, IntegerText(n)), Push(Word(RParen), rest)))
  }

  function ColumnTokens(w: Written, rest: seq<Token>): seq<Token> {
    Push(Name(w.name),
         Push(Word(TypeKind(w.kind)), if w.length.None? then rest else LengthTokens(w.length.value, rest)))
  }

  function ColumnsTokens(ws: seq<Written>, rest: seq<Token>): seq<Token>
    decreases |ws|
  {
    if ws == [] then rest
    else if |ws| == 1 then ColumnTokens(ws[0], rest)
    else ColumnTokens(ws[0], Push(Word(Comma), ColumnsTokens(ws[1..], rest)))
  }

  function ValuesTokens(vs: seq<string>, rest: seq<Token>): seq<Token>
    decreases |vs|
  {
    if vs == [] then rest
    else if |vs| == 1 then Push(Literal(vs[0]), rest)
    else Push(Literal(vs[0]), Push(Word(Comma), ValuesTokens(vs[1..], rest)))
  }

  function RowTokens(row: seq<string>, rest: seq<Token>): seq<Token> {
    Push(Word(LParen), ValuesTokens(row, Push(Word(RParen), rest)))
  }

  function RowsTokens(rows: seq<seq<string>>, rest: seq<Token>): seq<Token>
    decreases |rows|
  {
    if rows == [] then rest
    else if |rows| == 1 then RowTokens(rows[0], rest)
    else RowTokens(rows[0], Push(Word(Comma), RowsTokens(rows[1..], rest)))
  }

  function JoinTokens(j: Option<JoinClause>, rest: seq<Token>): seq<Token> {
    if j.None? then rest else
      Push(Word(KwInner), Push(Word(KwJoin), Push(Name(j.value.rightTable), Push(Word(KwOn),
        RefTokens(j.value.leftCol, Push(Word(OpEq), RefTokens(j.value.rightCol, rest)))))))
  }

  function ConditionTokens(w: WhereClause, rest: seq<Token>): seq<Token> {
    RefTokens(w.column, Push(Word(OpKind(w.op)), Push(Literal(w.literal), rest)))
  }

  function WhereTokens(w: Option<WhereClause>, rest: seq<Token>): seq<Token> {
    if w.None? then rest else Push(Word(KwWhere), ConditionTokens(w.value, rest))
  }

  function ListTokens(q: SelectStmt, rest: seq<Token>): seq<Token> {
    if q.all then Push(Word(Star), rest) else RefsTokens(q.columns, rest)
  }

  function CreateTokens(table: string, ws: seq<Written>): seq<Token> {
    Push(Word(KwCreate),
         Push(Word(KwTable), Push(Name(table), Push(Word(LParen), ColumnsTokens(ws, Push(Word(RParen), [END]))))))
  }

  function StatementTokens(s: Statement): seq<Token> {
    match s
    case CreateTable(table, columns) => CreateTokens(table, WriteColumns(columns))
    case Insert(table, rows) =>
      Push(Word(KwInsert), Push(Word(KwInto), Push(Name(table), Push(Word(KwValues), RowsTokens(rows, [END])))))
    case Select(q) =>
      Push(Word(KwSelect),
           ListTokens(q, Push(Word(KwFrom), Push(Name(q.table), JoinTokens(q.join, WhereTokens(q.where, [END]))))))
  }

  predicate JoinOk(j: JoinClause) { IsName(j.rightTable) && RefOk(j.leftCol) && RefOk(j.rightCol) && j.op == EQ }

  predicate QueryOk(q: SelectStmt) {
    && IsName(q.table)
    && (if q.all then q.columns == [] else q.columns != [])
    && (forall i :: 0 <= i < |q.columns| ==> RefOk(q.columns[i]))
    && (q.join.Some? ==> JoinOk(q.join.value))
    && (q.where.Some? ==> RefOk(q.where.value.column))
  }

  // The statements of the documented grammar, with JOIN on '=' only.
  predicate StatementOk(s: Statement) {
    match s
    case CreateTable(table, columns) =>
      IsName(table) && columns != [] && forall i :: 0 <= i < |columns| ==> ColumnOk(columns[i])
    case Insert(table, rows) => IsName(table) && rows != []
    case Select(q) => QueryOk(q)
  }

  // ---- Parsing undoes it, production by production ----

  lemma Pushed(t: Token, ts: seq<Token>)
    ensures Cur(Push(t, ts)) == t && Adv(Push(t, ts)) == ts
  {
    assert ([t] + ts)[1..] == ts;
  }

  // What may follow a column reference or a list without being taken for part of it.
  predicate Ends(rest: seq<Token>) { !At(rest, Dot) && !At(rest, Comma) }

  lemma RefBack(r: ColumnRef, rest: seq<Token>)
    requires RefOk(r) && !At(rest, Dot)
    ensures ParseColumnRef(RefTokens(r, rest)) == (r, rest) && At(RefTokens(r, rest), Identifier)
  {
    hide IsName, Spelling, Push, Cur, Adv;
    Pushed(Name(r.column), rest);
    Pushed(Word(Dot), Push(Name(r.column), rest));
    Pushed(Name(r.table), Push(Word(Dot), Push(Name(r.column), rest)));
  }

  lemma {:induction false} RefsBack(rs: seq<ColumnRef>, rest: seq<Token>)
    requires rs != [] && Ends(rest) && forall i :: 0 <= i < |rs| ==> RefOk(rs[i])
    ensures ParseColumnList(RefsTokens(rs, rest)) == Done(rs, rest) && At(RefsTokens(rs, rest), Identifier)
    decreases |rs|
  {
    hide ParseColumnRef, RefTokens, RefOk, Spelling, Push, Cur, Adv;
    if |rs| == 1 {
      RefBack(rs[0], rest);
      assert rs == [rs[0]];
    } else {
      var more := RefsTokens(rs[1..], rest);
      Pushed(Word(Comma), more);
      RefBack(rs[0], Push(Word(Comma), more));
      RefsBack(rs[1..], rest);
      assert rs == [rs[0]] + rs[1..];
    }
  }

  // parse_create_table on a length: cast to 16 bits, or an exception from std::stoi.
  lemma ColumnBack(w: Written, rest: seq<Token>)
    requires WrittenOk(w) && !At(rest, LParen)
    ensures ParseColumnDef(ColumnTokens(w, rest)) == if LengthFits(w) then Done(Definition(w), rest) else Throws
    ensures At(ColumnTokens(w, rest), Identifier)
  {
    hide IsName, IntegerText, Stoi, Push, Cur, Adv, Spelling, Low16, IntText, IntValue;
    var tail := if w.length.None? then rest else LengthTokens(w.length.value, rest);
    Pushed(Word(TypeKind(w.kind)), tail);
    Pushed(Name(w.name), Push(Word(TypeKind(w.kind)), tail));
    if w.length.Some? {
      var number := Token(IntLiteral, IntegerText(w.length.value));
      IntegerTextValue(w.length.value);
      StoiIntText(number.value);
      Pushed(Word(RParen), rest);
      Pushed(number, Push(Word(RParen), rest));
      Pushed(Word(LParen), Push(number, Push(Word(RParen), rest)));
    }
  }

  lemma {:induction false} ColumnsBack(ws: seq<Written>, rest: seq<Token>)
    requires ws != [] && At(rest, RParen) && forall i :: 0 <= i < |ws| ==> WrittenOk(ws[i])
    ensures ParseColumnDefs(ColumnsTokens(ws, rest)) == if AllFit(ws) then Done(Definitions(ws), rest) else Throws
    decreases |ws|
  {
    hide ParseColumnDef, ColumnTokens, WrittenOk, LengthFits, Definition, Cur, Adv, Push, Spelling;
    if |ws| == 1 {
      ColumnBack(ws[0], rest);
      assert Definitions(ws) == [Definition(ws[0])];
    } else {
      var more := ColumnsTokens(ws[1..], rest);
      Pushed(Word(Comma), more);
      ColumnBack(ws[0], Push(Word(Comma), more));
      ColumnsBack(ws[1..], rest);
      FitMore(ws);
    }
  }

  lemma FitMore(ws: seq<Written>)
    requires ws != []
    ensures AllFit(ws) <==> LengthFits(ws[0]) && AllFit(ws[1..])
    ensures Definitions(ws) == [Definition(ws[0])] + Definitions(ws[1..])
  {
    hide LengthFits, Definition;
  }

  lemma {:induction false} ValuesBack(vs: seq<string>, rest: seq<Token>)
    requires At(rest, RParen)
    ensures ParseRowValues(ValuesTokens(vs, rest)) == (vs, rest)
    decreases |vs|
  {
    hide Cur, Adv, Push, Spelling;
    if |vs| == 1 {
      Pushed(Literal(vs[0]), rest);
      assert vs == [vs[0]];
    } else if vs != [] {
      var more := ValuesTokens(vs[1..], rest);
      Pushed(Word(Comma), more);
      Pushed(Literal(vs[0]), Push(Word(Comma), more));
      ValuesBack(vs[1..], rest);
      assert vs == [vs[0]] + vs[1..];
    }
  }

  lemma {:induction false} RowsBack(rows: seq<seq<string>>, rest: seq<Token>)
    requires rows != [] && Ends(rest)
    ensures ParseRows(RowsTokens(rows, rest)) == Done(rows, rest)
    decreases |rows|
  {
    hide ParseRowValues, RowTokens, Cur, Adv, Push, Spelling;
    if |rows| == 1 {
      RowBack(rows[0], rest);
      assert rows == [rows[0]];
    } else {
      var more := RowsTokens(rows[1..], rest);
      Pushed(Word(Comma), more);
      RowBack(rows[0], Push(Word(Comma), more));
      RowsBack(rows[1..], rest);
      assert rows == [rows[0]] + rows[1..];
    }
  }

  lemma RowBack(row: seq<string>, rest: seq<Token>)
    ensures var ts := RowTokens(row, rest);
            && At(ts, LParen) && ParseRowValues(Adv(ts)).0 == row
            && At(ParseRowValues(Adv(ts)).1, RParen) && Adv(ParseRowValues(Adv(ts)).1) == rest
  {
    hide ParseRowValues, ValuesTokens, Cur, Adv, Push, Spelling;
    Pushed(Word(RParen), rest);
    Pushed(Word(LParen), ValuesTokens(row, Push(Word(RParen), rest)));
    ValuesBack(row, Push(Word(RParen), rest));
  }

  lemma JoinBack(j: Option<JoinClause>, rest: seq<Token>)
    requires j.Some? ==> JoinOk(j.value)
    requires Ends(rest) && !At(rest, KwInner)
    ensures ParseJoin(JoinTokens(j, rest)) == Done(j, rest)
    ensures Ends(JoinTokens(j, rest)) || j.None?
  {
    hide ParseColumnRef, RefTokens, IsName, RefOk, Cur, Adv, Push, Spelling;
    if j.Some? {
      var t5 := RefTokens(j.value.rightCol, rest);
      var t4 := Push(Word(OpEq), t5);
      var t3 := RefTokens(j.value.leftCol, t4);
      var t2 := Push(Word(KwOn), t3);
      var t1 := Push(Name(j.value.rightTable), t2);
      Pushed(Word(KwInner), Push(Word(KwJoin), t1)); Pushed(Word(KwJoin), t1);
      Pushed(Name(j.value.rightTable), t2); Pushed(Word(KwOn), t3); Pushed(Word(OpEq), t5);
      RefBack(j.value.leftCol, t4);
      RefBack(j.value.rightCol, rest);
    }
  }

  lemma ConditionBack(w: WhereClause, rest: seq<Token>)
    requires RefOk(w.column)
    ensures ParseWhere(ConditionTokens(w, rest)) == (w, rest)
  {
    hide ParseColumnRef, RefTokens, RefOk, Cur, Adv, Push, Spelling;
    var t1 := Push(Literal(w.literal), rest);
    Pushed(Literal(w.literal), rest);
    Pushed(Word(OpKind(w.op)), t1);
    RefBack(w.column, Push(Word(OpKind(w.op)), t1));
  }

  lemma EndAlone()
    ensures Cur([END]) == END && SkipIf([END], Semicolon) == [END]
  {
  }

  // A CREATE TABLE is read as its column definitions are.
  lemma CreateReads(table: string, ws: seq<Written>)
    ensures var after := Push(Word(RParen), [END]);
            var p := ParseColumnDefs(ColumnsTokens(ws, after));
            && (p.Throws? ==> Parse(CreateTokens(table, ws)) == Throws)
            && (p.Done? && p.rest == after ==>
                Parse(CreateTokens(table, ws)) == Done(CreateTable(table, p.value), [END]))
  {
    hide ParseColumnDefs, ColumnsTokens, ParseInsert, ParseSelect, Cur, Adv, Push, Spelling, SkipIf;
    var t4 := Push(Word(RParen), [END]);
    var t3 := ColumnsTokens(ws, t4);
    var t2 := Push(Word(LParen), t3);
    var t1 := Push(Name(table), t2);
    Pushed(Word(KwCreate), Push(Word(KwTable), t1));
    Pushed(Word(KwTable), t1);
    Pushed(Name(table), t2);
    Pushed(Word(LParen), t3);
    Pushed(Word(RParen), [END]);
    EndAlone();
  }

  lemma WrittenBack(table: string, ws: seq<Written>)
    requires ws != [] && forall i :: 0 <= i < |ws| ==> WrittenOk(ws[i])
    ensures Parse(CreateTokens(table, ws)) ==
            if AllFit(ws) then Done(CreateTable(table, Definitions(ws)), [END]) else Throws
  {
    hide ParseColumnDefs, ColumnsTokens, CreateTokens, Parse, WrittenOk, LengthFits, Definition, Push, Cur;
    Pushed(Word(RParen), [END]);
    CreateReads(table, ws);
    ColumnsBack(ws, Push(Word(RParen), [END]));
  }

  lemma WritesBack(cs: seq<ColumnDef>)
    requires forall i :: 0 <= i < |cs| ==> ColumnOk(cs[i])
    ensures var ws := WriteColumns(cs);
            Definitions(ws) == cs && AllFit(ws) && forall i :: 0 <= i < |ws| ==> WrittenOk(ws[i])
  {
    hide IsName;
  }

  lemma CreateBack(table: string, columns: seq<ColumnDef>)
    requires StatementOk(CreateTable(table, columns))
    ensures Parse(StatementTokens(CreateTable(table, columns))) == Done(CreateTable(table, columns), [END])
  {
    hide CreateTokens, Parse, IsName, ColumnOk, WrittenOk, AllFit;
    WritesBack(columns);
    WrittenBack(table, WriteColumns(columns));
  }

  lemma InsertBack(table: string, rows: seq<seq<string>>)
    requires StatementOk(Insert(table, rows))
    ensures Parse(StatementTokens(Insert(table, rows))) == Done(Insert(table, rows), [END])
  {
    hide ParseRows, RowsTokens, IsName, Adv, Push, Spelling;
    var t3 := RowsTokens(rows, [END]);
    var t2 := Push(Word(KwValues), t3);
    var t1 := Push(Name(table), t2);
    Pushed(Word(KwInsert), Push(Word(KwInto), t1)); Pushed(Word(KwInto), t1);
    Pushed(Name(table), t2); Pushed(Word(KwValues), t3);
    RowsBack(rows, [END]);
  }

  lemma ListBack(q: SelectStmt, rest: seq<Token>)
    requires QueryOk(q) && Ends(rest)
    ensures ParseSelectList(ListTokens(q, rest)) == Done((q.all, q.columns), rest)
  {
    hide ParseColumnList, IsName, RefOk, Cur, Adv, Push, Spelling, RefsTokens;
    if q.all { Pushed(Word(Star), rest); } else { RefsBack(q.columns, rest); }
  }

  lemma SelectBack(q: SelectStmt)
    requires StatementOk(Select(q))
    ensures Parse(StatementTokens(Select(q))) == Done(Select(q), [END])
  {
    hide ParseSelectList, ParseJoin, ParseWhere, ListTokens, JoinTokens, ConditionTokens, IsName, RefOk, JoinOk, Adv;
    hide Push, Spelling;
    var t3 := WhereTokens(q.where, [END]);
    var t2 := JoinTokens(q.join, t3);
    var t1 := Push(Name(q.table), t2);
    var t0 := Push(Word(KwFrom), t1);
    Pushed(Word(KwSelect), ListTokens(q, t0)); Pushed(Word(KwFrom), t1); Pushed(Name(q.table), t2);
    WhereEnds(q.where);
    ListBack(q, t0);
    JoinBack(q.join, t3);
    if q.where.Some? { ConditionBack(q.where.value, [END]); }
  }

  // What a WHERE clause looks like to the productions before it.
  lemma WhereEnds(w: Option<WhereClause>)
    ensures var ts := WhereTokens(w, [END]);
            && Ends(ts) && !At(ts, KwInner) && !At(ts, Semicolon) && (At(ts, KwWhere) <==> w.Some?)
            && (w.Some? ==> Adv(ts) == ConditionTokens(w.value, [END])) && SkipIf([END], Semicolon) == [END]
  {
    hide ConditionTokens, Push;
    if w.Some? { Pushed(Word(KwWhere), ConditionTokens(w.value, [END])); }
  }

  // Parsing undoes writing as tokens.
  lemma ParseBack(s: Statement)
    requires StatementOk(s)
    ensures Parse(StatementTokens(s)) == Done(s, [END])
  {
    hide Parse, StatementTokens;
    match s
    case CreateTable(table, columns) => CreateBack(table, columns);
    case Insert(table, rows) => InsertBack(table, rows);
    case Select(q) => SelectBack(q);
  }

  // ---- Every token so written can be lexed ----

  lemma PushComplete(t: Token, ts: seq<Token>)
    requires TokenOk(t) && Complete(ts)
    ensures Complete(Push(t, ts))
  {
    assert ([t] + ts)[1..] == ts;
  }

  lemma RefComplete(r: ColumnRef, rest: seq<Token>)
    requires RefOk(r) && Complete(rest)
    ensures Complete(RefTokens(r, rest))
  {
    hide IsName, Push, Complete;
    PushComplete(Name(r.column), rest);
    if r.table != "" {
      PushComplete(Word(Dot), Push(Name(r.column), rest));
      PushComplete(Name(r.table), Push(Word(Dot), Push(Name(r.column), rest)));
    }
  }

  predicate IsWord(kind: Kind) {
    && kind != Identifier && kind != IntLiteral && kind != FloatLiteral && kind != StringLiteral
    && kind != Semicolon && kind != EndOfInput && kind != Invalid
  }

  lemma WordOk(kind: Kind)
    requires IsWord(kind)
    ensures TokenOk(Word(kind))
  {
  }

  lemma {:induction false} RefsComplete(rs: seq<ColumnRef>, rest: seq<Token>)
    requires Complete(rest) && forall i :: 0 <= i < |rs| ==> RefOk(rs[i])
    ensures Complete(RefsTokens(rs, rest))
    decreases |rs|
  {
    hide RefTokens, RefOk, Push, Complete, TokenOk;
    WordOk(Comma);
    if |rs| == 1 {
      RefComplete(rs[0], rest);
    } else if rs != [] {
      RefsComplete(rs[1..], rest);
      PushComplete(Word(Comma), RefsTokens(rs[1..], rest));
      RefComplete(rs[0], Push(Word(Comma), RefsTokens(rs[1..], rest)));
    }
  }

  lemma LengthComplete(n: int, rest: seq<Token>)
    requires Complete(rest)
    ensures Complete(LengthTokens(n, rest))
  {
    hide IntegerText, Push, Complete, TokenOk, Spelling;
    var number := Token(IntLiteral, IntegerText(n));
    NumberOk(n);
    WordsOk();
    PushComplete(Word(RParen), rest);
    PushComplete(number, Push(Word(RParen), rest));
    PushComplete(Word(LParen), Push(number, Push(Word(RParen), rest)));
  }

  lemma NumberOk(n: int)
    ensures TokenOk(Token(IntLiteral, IntegerText(n)))
  {
    IntegerTextValue(n);
  }

  lemma ColumnComplete(w: Written, rest: seq<Token>)
    requires IsName(w.name) && Complete(rest)
    ensures Complete(ColumnTokens(w, rest))
  {
    hide IsName, LengthTokens, Push, Complete, TokenOk, Spelling;
    var tail := if w.length.None? then rest else LengthTokens(w.length.value, rest);
    if w.length.Some? { LengthComplete(w.length.value, rest); }
    WordOk(TypeKind(w.kind));
    NameOk(w.name);
    PushComplete(Word(TypeKind(w.kind)), tail);
    PushComplete(Name(w.name), Push(Word(TypeKind(w.kind)), tail));
  }

  lemma WordsOk()
    ensures TokenOk(Word(LParen)) && TokenOk(Word(RParen)) && TokenOk(Word(Comma))
  {
    hide TokenOk, Spelling;
    WordOk(LParen);
    WordOk(RParen);
    WordOk(Comma);
  }

  lemma {:induction false} ColumnsComplete(ws: seq<Written>, rest: seq<Token>)
    requires Complete(rest) && forall i :: 0 <= i < |ws| ==> IsName(ws[i].name)
    ensures Complete(ColumnsTokens(ws, rest))
    decreases |ws|
  {
    hide ColumnTokens, IsName, Push, Complete, TokenOk, Spelling;
    WordsOk();
    if |ws| == 1 {
      ColumnComplete(ws[0], rest);
    } else if ws != [] {
      ColumnsComplete(ws[1..], rest);
      PushComplete(Word(Comma), ColumnsTokens(ws[1..], rest));
      ColumnComplete(ws[0], Push(Word(Comma), ColumnsTokens(ws[1..], rest)));
    }
  }

  lemma {:induction false} ValuesComplete(vs: seq<string>, rest: seq<Token>)
    requires Complete(rest)
    ensures Complete(ValuesTokens(vs, rest))
    decreases |vs|
  {
    hide Push, Complete, TokenOk, Spelling;
    WordsOk();
    if vs != [] {
      LiteralOk(vs[0]);
      if |vs| == 1 {
        PushComplete(Literal(vs[0]), rest);
      } else {
        ValuesComplete(vs[1..], rest);
        PushComplete(Word(Comma), ValuesTokens(vs[1..], rest));
        PushComplete(Literal(vs[0]), Push(Word(Comma), ValuesTokens(vs[1..], rest)));
      }
    }
  }

  lemma LiteralOk(s: string)
    ensures TokenOk(Literal(s))
  {
  }

  lemma {:induction false} RowsComplete(rows: seq<seq<string>>, rest: seq<Token>)
    requires Complete(rest)
    ensures Complete(RowsTokens(rows, rest))
    decreases |rows|
  {
    hide ValuesTokens, Push, Complete, TokenOk, Spelling;
    WordsOk();
    if rows != [] {
      var after := if |rows| == 1 then rest else Push(Word(Comma), RowsTokens(rows[1..], rest));
      if |rows| > 1 {
        RowsComplete(rows[1..], rest);
        PushComplete(Word(Comma), RowsTokens(rows[1..], rest));
      }
      PushComplete(Word(RParen), after);
      ValuesComplete(rows[0], Push(Word(RParen), after));
      PushComplete(Word(LParen), ValuesTokens(rows[0], Push(Word(RParen), after)));
    }
  }

  lemma JoinComplete(j: Option<JoinClause>, rest: seq<Token>)
    requires Complete(rest) && (j.Some? ==> JoinOk(j.value))
    ensures Complete(JoinTokens(j, rest))
  {
    hide RefTokens, IsName, RefOk, Push, Complete, Spelling, IsSymbol, IsKeyword;
    if j.Some? {
      WordOk(KwInner); WordOk(KwJoin); WordOk(KwOn); WordOk(OpEq);
      var t5 := RefTokens(j.value.rightCol, rest);
      var t4 := Push(Word(OpEq), t5);
      var t3 := RefTokens(j.value.leftCol, t4);
      var t2 := Push(Word(KwOn), t3);
      var t1 := Push(Name(j.value.rightTable), t2);
      RefComplete(j.value.rightCol, rest);
      PushComplete(Word(OpEq), t5);
      RefComplete(j.value.leftCol, t4);
      PushComplete(Word(KwOn), t3); PushComplete(Name(j.value.rightTable), t2); PushComplete(Word(KwJoin), t1);
      PushComplete(Word(KwInner), Push(Word(KwJoin), t1));
    }
  }

  lemma WhereComplete(w: Option<WhereClause>, rest: seq<Token>)
    requires Complete(rest) && (w.Some? ==> RefOk(w.value.column))
    ensures Complete(WhereTokens(w, rest))
  {
    hide RefTokens, RefOk, Push, Complete, Spelling, TokenOk;
    if w.Some? {
      WordOk(KwWhere); WordOk(OpKind(w.value.op)); LiteralOk(w.value.literal);
      var t2 := Push(Literal(w.value.literal), rest);
      var t1 := Push(Word(OpKind(w.value.op)), t2);
      PushComplete(Literal(w.value.literal), rest);
      PushComplete(Word(OpKind(w.value.op)), t2);
      RefComplete(w.value.column, t1);
      PushComplete(Word(KwWhere), RefTokens(w.value.column, t1));
    }
  }

  lemma NameOk(s: string)
    requires IsName(s)
    ensures TokenOk(Name(s))
  {
  }

  lemma SelectComplete(q: SelectStmt)
    requires QueryOk(q)
    ensures Complete(StatementTokens(Select(q)))
  {
    hide ListTokens, JoinTokens, WhereTokens, IsName, RefOk, JoinOk, Push, TokenOk, Spelling;
    WordOk(KwSelect); WordOk(KwFrom); WordOk(Star); NameOk(q.table);
    assert Complete([END]);
    var t3 := WhereTokens(q.where, [END]);
    var t2 := JoinTokens(q.join, t3);
    var t1 := Push(Name(q.table), t2);
    var t0 := Push(Word(KwFrom), t1);
    WhereComplete(q.where, [END]);
    JoinComplete(q.join, t3);
    PushComplete(Name(q.table), t2);
    PushComplete(Word(KwFrom), t1);
    ListComplete(q, t0);
    PushComplete(Word(KwSelect), ListTokens(q, t0));
  }

  lemma ListComplete(q: SelectStmt, rest: seq<Token>)
    requires QueryOk(q) && Complete(rest)
    ensures Complete(ListTokens(q, rest))
  {
    hide IsName, RefOk, JoinOk, Push, TokenOk, Spelling, Complete;
    WordOk(Star);
    if q.all { PushComplete(Word(Star), rest); } else { RefsComplete(q.columns, rest); }
  }

  lemma CreateComplete(table: string, ws: seq<Written>)
    requires IsName(table) && forall i :: 0 <= i < |ws| ==> IsName(ws[i].name)
    ensures Complete(CreateTokens(table, ws))
  {
    hide ColumnsTokens, IsName, Push, TokenOk, Spelling;
    assert Complete([END]);
    WordsOk();
    WordOk(KwCreate);
    WordOk(KwTable);
    NameOk(table);
    var t4 := Push(Word(RParen), [END]);
    var t3 := ColumnsTokens(ws, t4);
    var t2 := Push(Word(LParen), t3);
    var t1 := Push(Name(table), t2);
    PushComplete(Word(RParen), [END]);
    ColumnsComplete(ws, t4);
    PushComplete(Word(LParen), t3);
    PushComplete(Name(table), t2);
    PushComplete(Word(KwTable), t1);
    PushComplete(Word(KwCreate), Push(Word(KwTable), t1));
  }

  lemma StatementComplete(s: Statement)
    requires StatementOk(s)
    ensures Complete(StatementTokens(s))
  {
    hide CreateTokens, RowsTokens, ListTokens, IsName, Push, TokenOk, Spelling, QueryOk;
    assert Complete([END]);
    WordsOk();
    match s
    case CreateTable(table, columns) => CreateComplete(table, WriteColumns(columns));
    case Insert(table, rows) =>
      WordOk(KwInsert); WordOk(KwInto); WordOk(KwValues); NameOk(table);
      var t3 := RowsTokens(rows, [END]);
      RowsComplete(rows, [END]);
      var t2 := Push(Word(KwValues), t3);
      var t1 := Push(Name(table), t2);
      PushComplete(Word(KwValues), t3);
      PushComplete(Name(table), t2);
      PushComplete(Word(KwInto), t1);
      PushComplete(Word(KwInsert), Push(Word(KwInto), t1));
    case Select(q) => SelectComplete(q);
  }

  // ---- The round trip ----

  function SqlOf(s: Statement): string { Render(StatementTokens(s)) }

  // Every statement of the grammar, written out as text, lexes and parses back to itself.
  lemma SqlRoundTrip(s: Statement)
    requires StatementOk(s)
    ensures ParseSql(SqlOf(s)) == Done(s, [END])
  {
    hide Parse, Lex, StatementTokens, StatementOk, Complete;
    StatementComplete(s);
    LexRender(StatementTokens(s));
    ParseBack(s);
  }

  // ---- VARCHAR lengths ----

  function WrittenText(table: string, ws: seq<Written>): string { Render(CreateTokens(table, ws)) }

  // A CREATE TABLE with any list of columns, as written: it defines the table if every length fits a 32-bit integer,
  // and makes the parser throw if one does not, be it too great or too small.
  lemma LengthOutcome(table: string, ws: seq<Written>)
    requires IsName(table) && ws != [] && forall i :: 0 <= i < |ws| ==> WrittenOk(ws[i])
    ensures ParseSql(WrittenText(table, ws)) ==
            if AllFit(ws) then Done(CreateTable(table, Definitions(ws)), [END]) else Throws
  {
    hide Lex, Complete, CreateTokens, Parse, IsName, LengthFits, Definition;
    CreateComplete(table, ws);
    LexRender(CreateTokens(table, ws));
    WrittenBack(table, ws);
  }
}
