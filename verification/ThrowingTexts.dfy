/** Which texts make the parser throw, and which create a table without columns, by their tokens. */
module ThrowingTexts {
  import opened Values
  import opened Lexer
  import opened Numbers
  import opened Parser
  import opened Executor

  // ---- The condition ----

  // A VARCHAR length that does not fit a 32-bit integer, on either side.
  predicate OutOfRange(t: Token) { t.kind == IntLiteral && IntText(t.value) && !FitsInt(IntValue(t.value)) }

  predicate InRange(t: Token) { t.kind == IntLiteral && IntText(t.value) && FitsInt(IntValue(t.value)) }

  // name VARCHAR ( length, where the length is out of range.
  predicate LengthThrows(ts: seq<Token>) {
    |ts| >= 4 && ts[0].kind == Identifier && ts[1].kind == KwVarchar && ts[2].kind == LParen && OutOfRange(ts[3])
  }

  // How many tokens a whole column definition takes, or 0 if there is none here.
  function DefinitionSize(ts: seq<Token>): (n: nat)
    ensures n <= |ts|
  {
    if |ts| < 2 || ts[0].kind != Identifier || TypeName(ts[1].kind).None? then 0
    else if ts[1].kind != KwVarchar || |ts| == 2 || ts[2].kind != LParen then 2
    else if |ts| >= 5 && InRange(ts[3]) && ts[4].kind == RParen then 5
    else 0
  }

  // Whole column definitions, each followed by a comma, and then one whose length is out of range.
  predicate SomeLengthThrows(ts: seq<Token>)
    decreases |ts|
  {
    || LengthThrows(ts)
    || (var n := DefinitionSize(ts); 0 < n < |ts| && ts[n].kind == Comma && SomeLengthThrows(ts[n + 1..]))
  }

  // CREATE TABLE name (
  predicate BeginsCreate(ts: seq<Token>) {
    |ts| >= 4 && ts[0].kind == KwCreate && ts[1].kind == KwTable && ts[2].kind == Identifier && ts[3].kind == LParen
  }

  predicate TextThrows(sql: string) {
    Lex(sql).ok && BeginsCreate(Lex(sql).tokens) && SomeLengthThrows(Lex(sql).tokens[4..])
  }

  // CREATE TABLE name ( )
  predicate TextCreatesEmpty(sql: string) {
    Lex(sql).ok && var ts := Lex(sql).tokens; BeginsCreate(ts) && |ts| > 4 && ts[4].kind == RParen
  }

  // ---- Every integer literal of a text is a sign and digits ----

  predicate IntTokens(ts: seq<Token>) { forall i :: 0 <= i < |ts| && ts[i].kind == IntLiteral ==> IntText(ts[i].value) }

  lemma {:induction false} SpanDigits(s: string, dotted: bool)
    ensures '.' !in s[..NumberSpan(s, dotted)] ==> AllDigits(s[..NumberSpan(s, dotted)])
    decreases |s|
  {
    if s != "" && (IsDigit(s[0]) || (s[0] == '.' && !dotted)) {
      var d := dotted || s[0] == '.';
      SpanDigits(s[1..], d);
      var n := NumberSpan(s[1..], d);
      assert s[..n + 1] == [s[0]] + s[1..][..n];
    }
  }

  lemma NumberIsIntText(s: string)
    requires s != "" && (IsDigit(s[0]) || (s[0] == '-' && |s| > 1 && IsDigit(s[1])))
    ensures NumberLexeme(s).token.kind == IntLiteral ==> IntText(NumberLexeme(s).token.value)
  {
    if s[0] == '-' {
      SpanDigits(s[1..], false);
      var n := NumberSpan(s[1..], false);
      assert s[..n + 1] == ['-'] + s[1..][..n] && s[..n + 1][1..] == s[1..][..n];
      assert n > 0;
    } else {
      SpanDigits(s, false);
      assert s[..NumberSpan(s, false)][0] == s[0];
    }
  }

  lemma WordIsNoNumber(s: string)
    requires s != "" && (IsAlpha(s[0]) || s[0] == '_')
    ensures WordLexeme(s).token.kind != IntLiteral
  {
    hide IdentSpan, UpperAll;
  }

  lemma SymbolIsNoNumber(s: string)
    requires s != ""
    ensures SymbolLexeme(s).token.kind != IntLiteral
  {
  }

  lemma LexemeInts(s: string)
    requires s != ""
    ensures NextLexeme(s).token.kind == IntLiteral ==> IntText(NextLexeme(s).token.value)
  {
    hide NumberLexeme, WordLexeme, SymbolLexeme, IntText, ReadQuoted;
    if IsDigit(s[0]) || (s[0] == '-' && |s| > 1 && IsDigit(s[1])) {
      NumberIsIntText(s);
    } else if IsAlpha(s[0]) || s[0] == '_' {
      WordIsNoNumber(s);
    } else {
      SymbolIsNoNumber(s);
    }
  }

  lemma {:induction false} LexInts(s: string)
    ensures IntTokens(Lex(s).tokens)
    decreases |s|
  {
    hide NextLexeme, IntText;
    if s != "" {
      if IsSpace(s[0]) {
        LexInts(s[1..]);
      } else {
        LexemeInts(s);
        LexInts(s[NextLexeme(s).used..]);
      }
    }
  }

  // ---- Column definitions ----

  lemma DefinitionOutcome(ts: seq<Token>)
    requires IntTokens(ts)
    ensures ParseColumnDef(ts).Throws? <==> LengthThrows(ts)
    ensures ParseColumnDef(ts).Done? <==> DefinitionSize(ts) > 0
    ensures ParseColumnDef(ts).Done? ==> ParseColumnDef(ts).rest == ts[DefinitionSize(ts)..]
  {
    hide IntText, IntValue, Stoi, Low16;
    if |ts| >= 4 && ts[3].kind == IntLiteral {
      StoiIntText(ts[3].value);
    }
    if |ts| < 2 {
    } else if ts[1].kind != KwVarchar || |ts| == 2 || ts[2].kind != LParen {
    } else if |ts| < 5 {
    } else {
      assert ts[1..][1..] == ts[2..] && ts[2..][1..] == ts[3..] && ts[3..][1..] == ts[4..] && ts[4..][1..] == ts[5..];
    }
  }

  lemma {:induction false} DefinitionsOutcome(ts: seq<Token>)
    requires IntTokens(ts)
    ensures ParseColumnDefs(ts).Throws? <==> SomeLengthThrows(ts)
    decreases |ts|
  {
    hide ParseColumnDef, DefinitionSize, LengthThrows, IntText;
    DefinitionOutcome(ts);
    NotDefinition(ts);
    if ParseColumnDef(ts).Done? {
      var n := DefinitionSize(ts);
      var rest := ts[n..];
      if At(rest, Comma) {
        assert n < |ts| && ts[n] == rest[0] && rest[1..] == ts[n + 1..];
        DefinitionsOutcome(ts[n + 1..]);
      } else if n < |ts| {
        assert ts[n] == rest[0];
      }
    }
  }

  // Where the list ends there is no definition.
  lemma NotDefinition(ts: seq<Token>)
    ensures At(ts, RParen) || At(ts, EndOfInput) ==> DefinitionSize(ts) == 0 && !LengthThrows(ts)
  {
    hide IntText, IntValue;
  }

  lemma {:induction false} RowsNeverThrow(ts: seq<Token>)
    ensures !ParseRows(ts).Throws?
    decreases |ts|
  {
    hide ParseRowValues;
    if At(ts, LParen) {
      var rest := ParseRowValues(Adv(ts)).1;
      if At(rest, RParen) && At(Adv(rest), Comma) { RowsNeverThrow(Adv(Adv(rest))); }
    }
  }

  // ---- Statements ----

  lemma CreateSteps(ts: seq<Token>)
    ensures |ts| >= 4 ==> Adv(Adv(Adv(Adv(ts)))) == ts[4..]
    ensures BeginsCreate(ts) <==> At(ts, KwCreate) && At(Adv(ts), KwTable) && At(Adv(Adv(ts)), Identifier)
                                  && At(Adv(Adv(Adv(ts))), LParen)
  {
  }

  lemma CreateOutcome(ts: seq<Token>)
    requires At(ts, KwCreate) && IntTokens(ts)
    ensures ParseCreate(ts).Throws? <==> BeginsCreate(ts) && SomeLengthThrows(ts[4..])
  {
    hide ParseColumnDefs, SomeLengthThrows, IntText, Cur, Adv, BeginsCreate;
    CreateSteps(ts);
    Created(ts);
    if BeginsCreate(ts) { DefinitionsOutcome(ts[4..]); }
  }

  lemma Created(ts: seq<Token>)
    ensures BeginsCreate(ts) ==> |ts| >= 4 && ts[0].kind == KwCreate
  {
  }

  lemma ParseOutcome(ts: seq<Token>)
    requires ts != [] && IntTokens(ts)
    ensures Parse(ts).Throws? <==> BeginsCreate(ts) && SomeLengthThrows(ts[4..])
  {
    hide ParseCreate, ParseRows, ParseSelect, SomeLengthThrows, IntTokens, BeginsCreate;
    Created(ts);
    match ts[0].kind
    case KwCreate => CreateOutcome(ts);
    case KwInsert => RowsNeverThrow(Adv(Adv(Adv(Adv(ts)))));
    case KwSelect => SelectNeverThrows(ts);
    case _ =>
  }

  // The parser throws on a text if and only if its tokens are those of a CREATE TABLE, right up to a VARCHAR length
  // that does not fit a 32-bit integer.
  lemma ThrowsIff(sql: string)
    ensures ParseSql(sql).Throws? <==> TextThrows(sql)
  {
    hide Parse, Lex, IntTokens, BeginsCreate, SomeLengthThrows;
    LexInts(sql);
    Created(Lex(sql).tokens);
    ParseOutcome(Lex(sql).tokens);
  }

  // A text creates a table without columns if and only if it begins CREATE TABLE name ( ).
  lemma CreatesEmptyIff(sql: string)
    ensures ParseSql(sql).Done? && EmptyCreate(ParseSql(sql).value) <==> TextCreatesEmpty(sql)
  {
    hide Lex;
    EmptyOutcome(Lex(sql).tokens);
  }

  lemma EmptyOutcome(ts: seq<Token>)
    requires ts != []
    ensures Parse(ts).Done? && EmptyCreate(Parse(ts).value) <==> BeginsCreate(ts) && |ts| > 4 && ts[4].kind == RParen
  {
    hide ParseColumnDefs, ParseRows, ParseColumnList, Cur, Adv, BeginsCreate;
    CreateSteps(ts);
    Created(ts);
    if BeginsCreate(ts) { NoDefinitions(ts[4..]); }
    assert ts[0].kind == Cur(ts).kind by { First(ts); }
  }

  lemma First(ts: seq<Token>)
    ensures ts != [] ==> Cur(ts) == ts[0]
  {
  }

  lemma NoDefinitions(ts: seq<Token>)
    ensures var p := ParseColumnDefs(ts);
            p.Done? && p.value == [] && At(p.rest, RParen) <==> ts != [] && ts[0].kind == RParen
  {
    hide ParseColumnDef;
  }
}
