/** The parser as it runs: a position that moves over the tokens. */
module ParserLoops {
  import opened Keys
  import opened Values
  import opened Lexer
  import opened Numbers
  import opened Parser

  // What a production hands back: its value, a syntax error, or an exception.
  datatype Parsed<+T> = Ok(value: T) | Bad | Thrown

  predicate Agrees<T(==)>(p: Parsed<T>, rest: seq<Token>, spec: Outcome<T>) {
    match spec
    case Done(v, r) => p == Ok(v) && rest == r
    case Error => p == Bad
    case Throws => p == Thrown
  }

  // Items already read, then whatever the rest yields.
  function Prepend<T>(items: seq<T>, o: Outcome<seq<T>>): Outcome<seq<T>> {
    match o
    case Done(v, r) => Done(items + v, r)
    case Error => Error
    case Throws => Throws
  }

  lemma PrependOne<T>(items: seq<T>, x: T, o: Outcome<seq<T>>)
    ensures Prepend(items, Prepend([x], o)) == Prepend(items + [x], o)
  {
    if o.Done? { assert items + ([x] + o.value) == (items + [x]) + o.value; }
  }

  lemma PrependNone<T>(o: Outcome<seq<T>>)
    ensures Prepend([], o) == o
  {
    if o.Done? { assert [] + o.value == o.value; }
  }

  class TokenParser {
    const tokens: seq<Token>
    var pos: nat

    ghost predicate Valid()
      reads this
    {
      pos <= |tokens|
    }

    ghost function Rest(): seq<Token>
      requires Valid()
      reads this
    {
      tokens[pos..]
    }

    constructor (tokens: seq<Token>)
      ensures Valid() && Rest() == tokens
    {
      this.tokens, pos := tokens, 0;
    }

    // parser.cpp current
    method Current() returns (t: Token)
      requires Valid()
      ensures t == Cur(Rest())
    {
      t := if pos >= |tokens| then END else tokens[pos];
    }

    // parser.cpp advance
    method Advance()
      requires Valid()
      modifies this
      ensures Valid() && Rest() == Adv(old(Rest()))
    {
      if pos < |tokens| { pos := pos + 1; }
    }

    method Is(kind: Kind) returns (b: bool)
      requires Valid()
      ensures b == At(Rest(), kind)
    {
      var t := Current();
      b := t.kind == kind;
    }

    // parser.cpp match and expect
    method Match(kind: Kind) returns (b: bool)
      requires Valid()
      modifies this
      ensures Valid() && b == At(old(Rest()), kind) && Rest() == SkipIf(old(Rest()), kind)
    {
      b := Is(kind);
      if b { Advance(); }
    }

    // parser.cpp parse_column_ref
    method ColumnRefHere() returns (r: ColumnRef)
      requires Valid()
      modifies this
      ensures Valid() && (r, Rest()) == ParseColumnRef(old(Rest()))
    {
      hide Cur, Adv;
      var first := Current();
      Advance();
      var dot := Is(Dot);
      if !dot { return ColumnRef("", first.value); }
      Advance();
      var second := Current();
      Advance();
      r := ColumnRef(first.value, second.value);
    }

    // parser.cpp parse_cmp_op
    method CmpOpHere() returns (op: CmpOp)
      requires Valid()
      modifies this
      ensures Valid() && (op, Rest()) == ParseCmpOp(old(Rest()))
    {
      hide Cur, Adv;
      var t := Current();
      match t.kind {
        case OpEq => op := EQ; Advance();
        case OpNe => op := NE; Advance();
        case OpLt => op := LT; Advance();
        case OpGt => op := GT; Advance();
        case OpLe => op := LE; Advance();
        case OpGe => op := GE; Advance();
        case _ => op := EQ;
      }
    }

    // parser.cpp parse_where
    method WhereHere() returns (w: WhereClause)
      requires Valid()
      modifies this
      ensures Valid() && (w, Rest()) == ParseWhere(old(Rest()))
    {
      hide Cur, Adv, ParseColumnRef, ParseCmpOp;
      var column := ColumnRefHere();
      var op := CmpOpHere();
      var t := Current();
      Advance();
      w := WhereClause(column, op, t.value);
    }

    // One pass of the loop over column definitions.
    method ColumnDefHere() returns (p: Parsed<ColumnDef>)
      requires Valid()
      modifies this
      ensures Valid() && Agrees(p, Rest(), ParseColumnDef(old(Rest())))
    {
      hide Cur, Adv, Stoi;
      var ident := Is(Identifier);
      if !ident { return Bad; }
      var name := Current();
      Advance();
      var t := Current();
      var kind := TypeName(t.kind);
      if kind.None? { return Bad; }
      Advance();
      var paren := Is(LParen);
      if kind.value != VARCHAR || !paren { return Ok(ColumnDef(name.value, kind.value, DEFAULT_VARCHAR_MAX)); }
      Advance();
      var number := Is(IntLiteral);
      if !number { return Bad; }
      var len := Current();
      var n := Stoi(len.value);
      if n.None? { return Thrown; }
      Advance();
      var close := Match(RParen);
      if !close { return Bad; }
      p := Ok(ColumnDef(name.value, kind.value, Low16(n.value)));
    }

    // The loop of parse_create_table.
    method ColumnDefsHere() returns (p: Parsed<seq<ColumnDef>>)
      requires Valid()
      modifies this
      ensures Valid() && Agrees(p, Rest(), ParseColumnDefs(old(Rest())))
    {
      hide Cur, Adv, At, ParseColumnDef;
      ghost var spec := ParseColumnDefs(Rest());
      var cols := [];
      PrependNone(spec);
      while true
        invariant Valid() && spec == Prepend(cols, ParseColumnDefs(Rest()))
        decreases |Rest()|
      {
        ghost var ts := Rest();
        var close := Is(RParen);
        var end := Is(EndOfInput);
        if close || end {
          assert cols + [] == cols;
          return Ok(cols);
        }
        var col := ColumnDefHere();
        if col.Bad? { return Bad; }
        if col.Thrown? { return Thrown; }
        ghost var rest := Rest();
        var comma := Match(Comma);
        cols := cols + [col.value];
        if !comma { return Ok(cols); }
        AdvShorter(rest);
        ghost var more := ParseColumnDefs(Rest());
        assert ParseColumnDefs(ts) == Prepend([col.value], more);
        PrependOne(cols[..|cols| - 1], col.value, more);
      }
    }

    // parser.cpp parse_create_table
    method CreateHere() returns (p: Parsed<Statement>)
      requires Valid()
      modifies this
      ensures Valid() && Agrees(p, Rest(), ParseCreate(old(Rest())))
    {
      hide Cur, Adv, At, ParseColumnDefs;
      Advance();
      var b := Match(KwTable);
      if !b { return Bad; }
      b := Is(Identifier);
      if !b { return Bad; }
      var table := Current();
      Advance();
      b := Match(LParen);
      if !b { return Bad; }
      var cols := ColumnDefsHere();
      if cols.Bad? { return Bad; }
      if cols.Thrown? { return Thrown; }
      b := Match(RParen);
      if !b { return Bad; }
      b := Match(Semicolon);
      p := Ok(CreateTable(table.value, cols.value));
    }

    // The loop over the values of one row.
    method ValuesHere() returns (vs: seq<string>)
      requires Valid()
      modifies this
      ensures Valid() && (vs, Rest()) == ParseRowValues(old(Rest())) && |Rest()| <= |old(Rest())|
    {
      hide Cur, At, Adv, ParseRowValues, With;
      ghost var spec := ParseRowValues(Rest());
      vs := [];
      WithOne([], "", spec);
      while true
        invariant Valid() && |Rest()| <= |old(Rest())| && spec == With(vs, ParseRowValues(Rest()))
        decreases |Rest()|
      {
        ghost var ts := Rest();
        RowStep(ts);
        var close := Is(RParen);
        var end := Is(EndOfInput);
        if close || end {
          WithNothing(vs, ts);
          return;
        }
        var t := Current();
        Advance();
        WithOne(vs, t.value, ParseRowValues(Adv(Rest())));
        WithOne(vs, t.value, ([], Rest()));
        vs := vs + [t.value];
        var comma := Match(Comma);
        if !comma { return; }
      }
    }

    // The loop of parse_insert.
    method RowsHere() returns (p: Parsed<seq<seq<string>>>)
      requires Valid()
      modifies this
      ensures Valid() && Agrees(p, Rest(), ParseRows(old(Rest())))
    {
      hide Cur, Adv, At, ParseRowValues;
      ghost var spec := ParseRows(Rest());
      var rows := [];
      PrependNone(spec);
      while true
        invariant Valid() && spec == Prepend(rows, ParseRows(Rest()))
        decreases |Rest()|
      {
        ghost var ts := Rest();
        var open := Match(LParen);
        if !open { return Bad; }
        AdvShorter(ts);
        var row := ValuesHere();
        ghost var rest := Rest();
        var close := Match(RParen);
        if !close { return Bad; }
        AdvShorter(rest);
        rows := rows + [row];
        rest := Rest();
        var comma := Match(Comma);
        if !comma { return Ok(rows); }
        AdvShorter(rest);
        ghost var more := ParseRows(Rest());
        assert ParseRows(ts) == Prepend([row], more);
        PrependOne(rows[..|rows| - 1], row, more);
      }
    }

    // parser.cpp parse_insert
    method InsertHere() returns (p: Parsed<Statement>)
      requires Valid()
      modifies this
      ensures Valid() && Agrees(p, Rest(), ParseInsert(old(Rest())))
    {
      hide Cur, Adv, At, ParseRows;
      Advance();
      var b := Match(KwInto);
      if !b { return Bad; }
      b := Is(Identifier);
      if !b { return Bad; }
      var table := Current();
      Advance();
      b := Match(KwValues);
      if !b { return Bad; }
      var rows := RowsHere();
      if rows.Bad? { return Bad; }
      if rows.Thrown? { return Thrown; }
      b := Match(Semicolon);
      p := Ok(Insert(table.value, rows.value));
    }

    // The loop over the select list.
    method ColumnListHere() returns (p: Parsed<seq<ColumnRef>>)
      requires Valid()
      modifies this
      ensures Valid() && Agrees(p, Rest(), ParseColumnList(old(Rest())))
    {
      hide Cur, Adv, At, ParseColumnRef;
      ghost var spec := ParseColumnList(Rest());
      var refs := [];
      PrependNone(spec);
      while true
        invariant Valid() && spec == Prepend(refs, ParseColumnList(Rest()))
        decreases |Rest()|
      {
        ghost var ts := Rest();
        var ident := Is(Identifier);
        if !ident { return Bad; }
        RefShorter(ts);
        var ref := ColumnRefHere();
        refs := refs + [ref];
        var comma := Match(Comma);
        if !comma { return Ok(refs); }
        ghost var more := ParseColumnList(Rest());
        assert ParseColumnList(ts) == Prepend([ref], more);
        PrependOne(refs[..|refs| - 1], ref, more);
      }
    }

    // The optional INNER JOIN of parse_select.
    method JoinHere() returns (p: Parsed<Option<JoinClause>>)
      requires Valid()
      modifies this
      ensures Valid() && Agrees(p, Rest(), ParseJoin(old(Rest())))
    {
      hide Cur, Adv, At, ParseColumnRef;
      var b := Match(KwInner);
      if !b { return Ok(None); }
      b := Match(KwJoin);
      if !b { return Bad; }
      b := Is(Identifier);
      if !b { return Bad; }
      var table := Current();
      Advance();
      b := Match(KwOn);
      if !b { return Bad; }
      var left := ColumnRefHere();
      b := Match(OpEq);
      if !b { return Bad; }
      var right := ColumnRefHere();
      p := Ok(Some(JoinClause(table.value, left, right, EQ)));
    }

    method SelectListHere() returns (p: Parsed<(bool, seq<ColumnRef>)>)
      requires Valid()
      modifies this
      ensures Valid() && Agrees(p, Rest(), ParseSelectList(old(Rest())))
    {
      hide Cur, Adv, At, ParseColumnList;
      var star := Match(Star);
      if star { return Ok((true, [])); }
      var refs := ColumnListHere();
      match refs {
        case Ok(rs) => p := Ok((false, rs));
        case Bad => p := Bad;
        case Thrown => p := Thrown;
      }
    }

    // parser.cpp parse_select
    method SelectHere() returns (p: Parsed<Statement>)
      requires Valid()
      modifies this
      ensures Valid() && Agrees(p, Rest(), ParseSelect(old(Rest())))
    {
      hide Cur, Adv, At, ParseSelectList, ParseJoin, ParseWhere;
      Advance();
      var list := SelectListHere();
      if list.Bad? { return Bad; }
      if list.Thrown? { return Thrown; }
      var b := Match(KwFrom);
      if !b { return Bad; }
      b := Is(Identifier);
      if !b { return Bad; }
      var table := Current();
      Advance();
      var join := JoinHere();
      if join.Bad? { return Bad; }
      if join.Thrown? { return Thrown; }
      var where: Option<WhereClause> := None;
      b := Match(KwWhere);
      if b {
        var w := WhereHere();
        where := Some(w);
      }
      b := Match(Semicolon);
      p := Ok(Select(SelectStmt(table.value, list.value.1, list.value.0, join.value, where)));
    }

    // parser.cpp parse
    method ParseHere() returns (p: Parsed<Statement>)
      requires Valid()
      modifies this
      ensures Valid() && Agrees(p, Rest(), Parse(old(Rest())))
    {
      hide Adv, At, ParseCreate, ParseInsert, ParseSelect;
      var t := Current();
      if t.kind == KwCreate {
        p := CreateHere();
      } else if t.kind == KwInsert {
        p := InsertHere();
      } else if t.kind == KwSelect {
        p := SelectHere();
      } else {
        p := Bad;
      }
    }
  }

  lemma AdvShorter(ts: seq<Token>)
    ensures |Adv(ts)| <= |ts| && forall k :: k != EndOfInput && At(ts, k) ==> |Adv(ts)| < |ts|
  {
  }

  function With(vs: seq<string>, r: (seq<string>, seq<Token>)): (seq<string>, seq<Token>) { (vs + r.0, r.1) }

  lemma WithOne(vs: seq<string>, v: string, r: (seq<string>, seq<Token>))
    ensures With([], r) == r && With(vs, With([v], r)) == With(vs + [v], r)
    ensures With(vs, ([v], r.1)) == (vs + [v], r.1)
  {
    assert [] + r.0 == r.0;
    assert vs + ([v] + r.0) == (vs + [v]) + r.0;
  }

  lemma WithNothing(vs: seq<string>, ts: seq<Token>)
    ensures With(vs, ([], ts)) == (vs, ts)
  {
    assert vs + [] == vs;
  }

  lemma RowStep(ts: seq<Token>)
    ensures At(ts, RParen) || At(ts, EndOfInput) ==> ParseRowValues(ts) == ([], ts)
    ensures !(At(ts, RParen) || At(ts, EndOfInput)) ==>
              && |Adv(ts)| < |ts| && |Adv(Adv(ts))| < |ts|
              && ParseRowValues(ts) == if At(Adv(ts), Comma) then With([Cur(ts).value], ParseRowValues(Adv(Adv(ts))))
                else ([Cur(ts).value], Adv(ts))
  {
  }

  // parser.cpp parse_sql
  method ParseText(sql: string) returns (p: Parsed<Statement>)
    ensures match ParseSql(sql) case Done(s, _) => p == Ok(s) case Error => p == Bad case Throws => p == Thrown
  {
    hide Lex, Parse;
    var tokens, ok := Tokenize(sql);
    if !ok { return Bad; }
    var parser := new TokenParser(tokens);
    p := parser.ParseHere();
  }
}
