/** The recursive-descent parser. */
module Parser {
  import opened Keys
  import opened Values
  import opened Lexer
  import opened Numbers

  // ---- Syntax trees (ast.h) ----

  datatype ColumnRef = ColumnRef(table: string, column: string)
  datatype WhereClause = WhereClause(column: ColumnRef, op: CmpOp, literal: string)
  datatype JoinClause = JoinClause(rightTable: string, leftCol: ColumnRef, rightCol: ColumnRef, op: CmpOp)
  datatype ColumnDef = ColumnDef(name: string, kind: DataType, varcharLen: nat)
  datatype SelectStmt = SelectStmt(table: string, columns: seq<ColumnRef>, all: bool, join: Option<JoinClause>,
                                   where: Option<WhereClause>)

  datatype Statement =
    | CreateTable(table: string, columns: seq<ColumnDef>)
    | Insert(table: string, rows: seq<seq<string>>)
    | Select(query: SelectStmt)

  const DEFAULT_VARCHAR_MAX: nat := 255

  // Throws: std::stoi let an out-of-range VARCHAR length escape as an exception.
  datatype Outcome<+T> = Done(value: T, rest: seq<Token>) | Error | Throws

  // ---- Token access ----

  function Cur(ts: seq<Token>): Token { if ts == [] then END else ts[0] }
  function Adv(ts: seq<Token>): seq<Token> { if ts == [] then [] else ts[1..] }
  predicate At(ts: seq<Token>, kind: Kind) { Cur(ts).kind == kind }
  function SkipIf(ts: seq<Token>, kind: Kind): seq<Token> { if At(ts, kind) then Adv(ts) else ts }

  // ---- Productions ----

  function TypeName(kind: Kind): Option<DataType> {
    match kind
    case KwInt => Some(INT)
    case KwDecimal => Some(DECIMAL)
    case KwVarchar => Some(VARCHAR)
    case KwDatetime => Some(DATETIME)
    case _ => None
  }

  // static_cast<uint16_t>
  function Low16(n: int): nat { n % 0x1_0000 }

  // One column definition, up to but not including the comma.
  function ParseColumnDef(ts: seq<Token>): (r: Outcome<ColumnDef>)
    ensures r.Done? ==> |r.rest| < |ts|
  {
    if !At(ts, Identifier) then Error else
    var name, t1 := Cur(ts).value, Adv(ts);
    match TypeName(Cur(t1).kind)
    case None => Error
    case Some(kind) =>
      var t2 := Adv(t1);
      if kind == VARCHAR && At(t2, LParen) then
        var t3 := Adv(t2);
        if !At(t3, IntLiteral) then Error else
        match Stoi(Cur(t3).value)
        case None => Throws
        case Some(n) =>
          var t4 := Adv(t3);
          if At(t4, RParen) then Done(ColumnDef(name, kind, Low16(n)), Adv(t4)) else Error
      else Done(ColumnDef(name, kind, DEFAULT_VARCHAR_MAX), t2)
  }

  function ParseColumnDefs(ts: seq<Token>): Outcome<seq<ColumnDef>>
    decreases |ts|
  {
    if At(ts, RParen) || At(ts, EndOfInput) then Done([], ts) else
    match ParseColumnDef(ts)
    case Error => Error
    case Throws => Throws
    case Done(col, rest) =>
      if !At(rest, Comma) then Done([col], rest) else
      match ParseColumnDefs(Adv(rest))
      case Error => Error
      case Throws => Throws
      case Done(cols, rest') => Done([col] + cols, rest')
  }

  function ParseCreate(ts: seq<Token>): Outcome<Statement> {
    var t1 := Adv(ts);
    if !At(t1, KwTable) then Error else
    var t2 := Adv(t1);
    if !At(t2, Identifier) then Error else
    var t3 := Adv(t2);
    if !At(t3, LParen) then Error else
    match ParseColumnDefs(Adv(t3))
    case Error => Error
    case Throws => Throws
    case Done(cols, rest) =>
      if !At(rest, RParen) then Error else Done(CreateTable(Cur(t2).value, cols), SkipIf(Adv(rest), Semicolon))
  }

  // The values of one row; any token is taken for a value.
  function ParseRowValues(ts: seq<Token>): (r: (seq<string>, seq<Token>))
    ensures |r.1| <= |ts|
    decreases |ts|
  {
    if At(ts, RParen) || At(ts, EndOfInput) then ([], ts)
    else if !At(Adv(ts), Comma) then ([Cur(ts).value], Adv(ts))
    else
      var (vs, rest) := ParseRowValues(Adv(Adv(ts)));
      ([Cur(ts).value] + vs, rest)
  }

  function ParseRows(ts: seq<Token>): Outcome<seq<seq<string>>>
    decreases |ts|
  {
    if !At(ts, LParen) then Error else
    var (row, rest) := ParseRowValues(Adv(ts));
    if !At(rest, RParen) then Error
    else if !At(Adv(rest), Comma) then Done([row], Adv(rest))
    else
      match ParseRows(Adv(Adv(rest)))
      case Error => Error
      case Throws => Throws
      case Done(rows, rest') => Done([row] + rows, rest')
  }

  function ParseInsert(ts: seq<Token>): Outcome<Statement> {
    var t1 := Adv(ts);
    if !At(t1, KwInto) then Error else
    var t2 := Adv(t1);
    if !At(t2, Identifier) then Error else
    var t3 := Adv(t2);
    if !At(t3, KwValues) then Error else
    match ParseRows(Adv(t3))
    case Error => Error
    case Throws => Throws
    case Done(rows, rest) => Done(Insert(Cur(t2).value, rows), SkipIf(rest, Semicolon))
  }

  function ParseColumnRef(ts: seq<Token>): (ColumnRef, seq<Token>) {
    var first, t1 := Cur(ts).value, Adv(ts);
    if At(t1, Dot) then (ColumnRef(first, Cur(Adv(t1)).value), Adv(Adv(t1))) else (ColumnRef("", first), t1)
  }

  lemma RefShorter(ts: seq<Token>)
    requires At(ts, Identifier)
    ensures |Adv(ParseColumnRef(ts).1)| < |ts|
  {
  }

  // An unknown operator is reported but read as '=' without being consumed.
  function ParseCmpOp(ts: seq<Token>): (CmpOp, seq<Token>) {
    match Cur(ts).kind
    case OpEq => (EQ, Adv(ts))
    case OpNe => (NE, Adv(ts))
    case OpLt => (LT, Adv(ts))
    case OpGt => (GT, Adv(ts))
    case OpLe => (LE, Adv(ts))
    case OpGe => (GE, Adv(ts))
    case _ => (EQ, ts)
  }

  function ParseWhere(ts: seq<Token>): (WhereClause, seq<Token>) {
    var (column, t1) := ParseColumnRef(ts);
    var (op, t2) := ParseCmpOp(t1);
    (WhereClause(column, op, Cur(t2).value), Adv(t2))
  }

  function ParseColumnList(ts: seq<Token>): Outcome<seq<ColumnRef>>
    decreases |ts|
  {
    if !At(ts, Identifier) then Error else
    var (ref, rest) := ParseColumnRef(ts);
    if !At(rest, Comma) then Done([ref], rest) else
    match ParseColumnList(Adv(rest))
    case Error => Error
    case Throws => Throws
    case Done(refs, rest') => Done([ref] + refs, rest')
  }

  function ParseJoin(ts: seq<Token>): Outcome<Option<JoinClause>> {
    if !At(ts, KwInner) then Done(None, ts) else
    var t1 := Adv(ts);
    if !At(t1, KwJoin) then Error else
    var t2 := Adv(t1);
    if !At(t2, Identifier) then Error else
    var t3 := Adv(t2);
    if !At(t3, KwOn) then Error else
    var (left, t4) := ParseColumnRef(Adv(t3));
    if !At(t4, OpEq) then Error else
    var (right, t5) := ParseColumnRef(Adv(t4));
    Done(Some(JoinClause(Cur(t2).value, left, right, EQ)), t5)
  }

  function ParseSelectList(ts: seq<Token>): Outcome<(bool, seq<ColumnRef>)> {
    if At(ts, Star) then Done((true, []), Adv(ts)) else
    match ParseColumnList(ts)
    case Error => Error
    case Throws => Throws
    case Done(refs, rest) => Done((false, refs), rest)
  }

  function ParseSelect(ts: seq<Token>): Outcome<Statement> {
    match ParseSelectList(Adv(ts))
    case Error => Error
    case Throws => Throws
    case Done((all, columns), t1) =>
      if !At(t1, KwFrom) then Error else
      var t2 := Adv(t1);
      if !At(t2, Identifier) then Error else
      match ParseJoin(Adv(t2))
      case Error => Error
      case Throws => Throws
      case Done(join, t3) =>
        if At(t3, KwWhere) then
          var (w, t4) := ParseWhere(Adv(t3));
          Done(Select(SelectStmt(Cur(t2).value, columns, all, join, Some(w))), SkipIf(t4, Semicolon))
        else Done(Select(SelectStmt(Cur(t2).value, columns, all, join, None)), SkipIf(t3, Semicolon))
  }

  // parser.cpp parse
  function Parse(ts: seq<Token>): Outcome<Statement> {
    match Cur(ts).kind
    case KwCreate => ParseCreate(ts)
    case KwInsert => ParseInsert(ts)
    case KwSelect => ParseSelect(ts)
    case _ => Error
  }

  // parser.cpp parse_sql: a lexical error anywhere rejects the text.
  function ParseSql(sql: string): Outcome<Statement> {
    var lexed := Lex(sql);
    if !lexed.ok then Error else Parse(lexed.tokens)
  }
}
