/** What the parts of a parsed statement take from the text: their characters, and no more of them than it has. */
module StatementSizes {
  import opened Values
  import opened Lexer
  import opened Numbers
  import opened Parser
  import opened Executor

  // A piece of a text with at most n characters.
  predicate Piece(s: string, n: nat) { Narrow(s) && |s| <= n }

  predicate Pieces(ts: seq<Token>, n: nat) { forall i :: 0 <= i < |ts| ==> Piece(ts[i].value, n) }

  lemma UpperPiece(s: string, n: nat)
    requires Piece(s, n)
    ensures Piece(UpperAll(s), n)
  {
  }

  // ---- Tokens ----

  lemma {:induction false} QuotedPiece(s: string, quote: char)
    requires Narrow(s)
    ensures Piece(ReadQuoted(s, quote).text, ReadQuoted(s, quote).used)
    decreases |s|
  {
    if s == "" || s[0] == quote {
    } else if s[0] == '\\' {
      if |s| > 1 { QuotedPiece(s[2..], quote); }
    } else {
      QuotedPiece(s[1..], quote);
    }
  }

  lemma SymbolPiece(s: string)
    requires s != "" && Narrow(s)
    ensures Piece(SymbolLexeme(s).token.value, |s|)
  {
  }

  lemma WordPiece(s: string)
    requires s != "" && (IsAlpha(s[0]) || s[0] == '_') && Narrow(s)
    ensures Piece(WordLexeme(s).token.value, |s|)
  {
    hide Keyword, IdentSpan;
    UpperPiece(s[..IdentSpan(s)], |s|);
  }

  lemma LexemePiece(s: string)
    requires s != "" && Narrow(s)
    ensures Piece(NextLexeme(s).token.value, |s|)
  {
    hide WordLexeme, SymbolLexeme, NumberSpan, ReadQuoted;
    SymbolPiece(s);
    if IsAlpha(s[0]) || s[0] == '_' { WordPiece(s); }
    QuotedPiece(s[1..], s[0]);
  }

  lemma {:induction false} LexPieces(s: string, n: nat)
    requires Narrow(s) && |s| <= n
    ensures Pieces(Lex(s).tokens, n) && |Lex(s).tokens| <= |s| + 1
    decreases |s|
  {
    hide NextLexeme;
    if s != "" {
      if IsSpace(s[0]) {
        LexPieces(s[1..], n);
      } else {
        LexemePiece(s);
        LexPieces(s[NextLexeme(s).used..], n);
      }
    }
  }

  // ---- Statements ----

  predicate SmallColumns(cs: seq<ColumnDef>, n: nat) {
    |cs| <= n + 1 && forall i :: 0 <= i < |cs| ==> Piece(cs[i].name, n) && cs[i].varcharLen < 0x1_0000
  }

  predicate SmallRows(rows: seq<seq<string>>) {
    forall i, j :: 0 <= i < |rows| && 0 <= j < |rows[i]| ==> Narrow(rows[i][j])
  }

  lemma CurPiece(ts: seq<Token>, n: nat)
    requires Pieces(ts, n)
    ensures Piece(Cur(ts).value, n) && Pieces(Adv(ts), n) && |Adv(ts)| <= |ts|
  {
  }

  lemma DefPieces(ts: seq<Token>, n: nat)
    requires Pieces(ts, n) && ParseColumnDef(ts).Done?
    ensures Piece(ParseColumnDef(ts).value.name, n) && Pieces(ParseColumnDef(ts).rest, n)
  {
    hide Stoi, Piece, Low16;
  }

  lemma {:induction false} DefsPieces(ts: seq<Token>, n: nat)
    requires Pieces(ts, n) && ParseColumnDefs(ts).Done?
    ensures var cs := ParseColumnDefs(ts).value; |cs| <= |ts| && forall i :: 0 <= i < |cs| ==> Piece(cs[i].name, n)
    decreases |ts|
  {
    hide ParseColumnDef, Piece;
    if !At(ts, RParen) && !At(ts, EndOfInput) {
      DefPieces(ts, n);
      var rest := ParseColumnDef(ts).rest;
      if At(rest, Comma) { DefsPieces(Adv(rest), n); }
    }
  }

  lemma {:induction false} ValuesPieces(ts: seq<Token>, n: nat)
    requires Pieces(ts, n)
    ensures forall i :: 0 <= i < |ParseRowValues(ts).0| ==> Piece(ParseRowValues(ts).0[i], n)
    ensures Pieces(ParseRowValues(ts).1, n)
    decreases |ts|
  {
    hide Piece;
    if !At(ts, RParen) && !At(ts, EndOfInput) && At(Adv(ts), Comma) { ValuesPieces(Adv(Adv(ts)), n); }
  }

  lemma {:induction false} RowsPieces(ts: seq<Token>, n: nat)
    requires Pieces(ts, n) && ParseRows(ts).Done?
    ensures SmallRows(ParseRows(ts).value)
    decreases |ts|
  {
    hide ParseRowValues, Narrow;
    CurPiece(ts, n);
    ValuesPieces(Adv(ts), n);
    var rest := ParseRowValues(Adv(ts)).1;
    CurPiece(rest, n);
    if At(Adv(rest), Comma) {
      CurPiece(Adv(rest), n);
      RowsPieces(Adv(Adv(rest)), n);
    }
  }

  // A statement parsed from a text of at most n characters.
  predicate SmallStatement(s: Statement, n: nat) {
    match s
    case CreateTable(table, columns) => Piece(table, n) && SmallColumns(columns, n)
    case Insert(table, rows) => SmallRows(rows)
    case Select(_) => true
  }

  lemma FourOn(ts: seq<Token>, n: nat)
    requires Pieces(ts, n)
    ensures Piece(Cur(Adv(Adv(ts))).value, n)
    ensures Pieces(Adv(Adv(Adv(Adv(ts)))), n) && |Adv(Adv(Adv(Adv(ts))))| <= |ts|
  {
    hide Piece, Cur, Adv, Pieces;
    CurPiece(ts, n);
    CurPiece(Adv(ts), n);
    CurPiece(Adv(Adv(ts)), n);
    CurPiece(Adv(Adv(Adv(ts))), n);
  }

  lemma CreatePieces(ts: seq<Token>, n: nat)
    requires Pieces(ts, n) && |ts| <= n + 1 && ParseCreate(ts).Done?
    ensures SmallStatement(ParseCreate(ts).value, n)
  {
    hide ParseColumnDefs, Piece, Cur, Adv, Pieces;
    FourOn(ts, n);
    DefsPieces(Adv(Adv(Adv(Adv(ts)))), n);
    ParsedLengths(Adv(Adv(Adv(Adv(ts)))));
  }

  lemma InsertPieces(ts: seq<Token>, n: nat)
    requires Pieces(ts, n) && ParseInsert(ts).Done?
    ensures SmallStatement(ParseInsert(ts).value, n)
  {
    hide ParseRows, SmallRows, Cur, Adv, Pieces;
    FourOn(ts, n);
    RowsPieces(Adv(Adv(Adv(Adv(ts)))), n);
  }

  lemma StatementPieces(sql: string)
    requires Narrow(sql) && ParseSql(sql).Done?
    ensures SmallStatement(ParseSql(sql).value, |sql|)
  {
    hide Lex, ParseCreate, ParseInsert, ParseColumnList, SmallColumns, SmallRows, Pieces, Narrow;
    var ts := Lex(sql).tokens;
    LexPieces(sql, |sql|);
    match ts[0].kind
    case KwCreate => CreatePieces(ts, |sql|);
    case KwInsert => InsertPieces(ts, |sql|);
    case _ =>
  }
}
