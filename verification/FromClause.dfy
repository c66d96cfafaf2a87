/** Which table the cache tracks a SELECT under. */
module FromClause {
  import opened Values
  import opened Lexer
  import opened Parser
  import opened LruCache
  import opened CacheKeys

  predicate EndsFrom(w: string) { |w| >= 4 && w[|w| - 4..] == "FROM" }

  lemma {:induction false} AfterFromSkips(t: string, n: nat)
    requires n <= |t| && forall i :: 0 <= i < n ==> t[i] != 'F'
    ensures AfterFrom(t) == AfterFrom(t[n..])
    decreases n
  {
    if n > 0 {
      assert |t| >= 5 ==> t[..5][0] == t[0];
      AfterFromSkips(t[1..], n - 1);
      assert t[1..][n - 1..] == t[n..];
      if |t| < 5 { ShortNone(t[1..]); }
    } else {
      assert t[0..] == t;
    }
  }

  lemma ShortNone(t: string)
    requires |t| < 5
    ensures AfterFrom(t) == None
  {
  }

  // A word is passed over, unless it ends in FROM and a blank follows.
  lemma {:induction false} AfterFromWord(t: string, n: nat)
    requires n <= |t| && (forall i :: 0 <= i < n ==> IsIdent(t[i])) && (n < |t| ==> !IsIdent(t[n]))
    ensures AfterFrom(t) == if EndsFrom(t[..n]) && n < |t| && t[n] == ' ' then Some(t[n + 1..]) else AfterFrom(t[n..])
    decreases n
  {
    if n == 0 {
      assert t[0..] == t;
    } else if |t| < 5 {
      ShortNone(t);
      ShortNone(t[n..]);
    } else {
      AfterFromWord(t[1..], n - 1);
      assert t[1..][n - 1..] == t[n..] && t[1..][..n - 1] == t[..n][1..];
      assert n < |t| ==> t[1..][n - 1] == t[n] && t[1..][n..] == t[n + 1..];
      FromHere(t, n);
    }
  }

  lemma FromHere(t: string, n: nat)
    requires 0 < n <= |t| && 5 <= |t| && (forall i :: 0 <= i < n ==> IsIdent(t[i])) && (n < |t| ==> !IsIdent(t[n]))
    ensures t[..5] == "FROM " <==> n == 4 && t[..n] == "FROM" && t[n] == ' '
    ensures t[..5] == "FROM " ==> EndsFrom(t[..n])
    ensures n != 4 ==> (EndsFrom(t[..n]) <==> EndsFrom(t[..n][1..]))
    ensures n == 4 ==> (EndsFrom(t[..n]) <==> t[..n] == "FROM") && !EndsFrom(t[..n][1..])
  {
    assert t[..5][..4] == t[..4] && t[..5][4] == t[4];
    if t[..5] == "FROM " {
      assert t[4] == ' ' && t[..4] == "FROM";
      assert !IsIdent(t[4]);
      assert n <= 4;
      assert forall i :: 0 <= i < 4 ==> t[i] == "FROM"[i];
      assert n == 4;
    }
    if n == 4 && t[..n] == "FROM" && t[n] == ' ' { assert t[..5] == t[..4] + [t[4]]; }
    var w := t[..n];
    if n == 4 { assert w[0..] == w; }
    if n > 4 { assert w[n - 4..] == w[1..][n - 5..]; }
  }

  // ---- Keys are upper-case and single-spaced ----

  predicate NoLower(t: string) { forall i :: 0 <= i < |t| ==> !IsLower(t[i]) }

  predicate Spaced(t: string) {
    && (forall i :: 0 <= i < |t| && IsSpace(t[i]) ==> t[i] == ' ')
    && (forall i :: 0 <= i < |t| - 1 && IsSpace(t[i]) ==> !IsSpace(t[i + 1]))
  }

  // Single blanks only, and none at the front.
  predicate Single(t: string) { Spaced(t) && (t != "" ==> !IsSpace(t[0])) }

  lemma PrefixShape(y: string, x: string)
    requires y <= x && NoLower(x) && Single(x)
    ensures NoLower(y) && Single(y)
  {
  }

  lemma TailShape(t: string, n: nat)
    requires n <= |t| && NoQuotes(t) && NoLower(t) && Spaced(t)
    ensures NoQuotes(t[n..]) && NoLower(t[n..]) && Spaced(t[n..])
  {
  }

  lemma SpacedCons(c: char, t: string)
    requires Spaced(t) && (IsSpace(c) ==> c == ' ' && (t != "" ==> !IsSpace(t[0])))
    ensures Spaced([c] + t)
  {
    var u := [c] + t;
    assert forall i :: 0 <= i < |t| ==> u[i + 1] == t[i];
    forall i | 0 <= i < |u| - 1 && IsSpace(u[i]) ensures !IsSpace(u[i + 1]) {
      if i > 0 { assert u[i] == t[i - 1] && u[i + 1] == t[i]; }
    }
    forall i | 0 <= i < |u| && IsSpace(u[i]) ensures u[i] == ' ' { if i > 0 { assert u[i] == t[i - 1]; } }
  }

  lemma {:induction false} SqShape(q: string, skip: bool)
    ensures NoLower(Sq(q, skip)) && Spaced(Sq(q, skip)) && (skip && Sq(q, skip) != "" ==> !IsSpace(Sq(q, skip)[0]))
    decreases |q|
  {
    if q != "" {
      if IsSpace(q[0]) {
        SqShape(q[1..], true);
        SpacedCons(' ', Sq(q[1..], true));
      } else {
        SqShape(q[1..], false);
        SpacedCons(ToUpper(q[0]), Sq(q[1..], false));
      }
    }
  }

  lemma {:induction false} DropPrefix(y: string)
    ensures DropSemicolons(y) <= y
  {
    if y != "" && y[|y| - 1] == ';' { DropPrefix(y[..|y| - 1]); }
  }

  lemma KeyShape(sql: string)
    ensures NoLower(Normalize(sql)) && Single(Normalize(sql))
  {
    hide Sq, Squeeze, DropSemicolons, NoLower, Spaced;
    var x := Sq(sql, true);
    SqueezeIsSq(sql, "", false);
    assert "" + x == x;
    SqShape(sql, true);
    DropPrefix(DropSpace(x));
    assert Normalize(sql) <= x;
    PrefixShape(Normalize(sql), x);
  }

  // ---- Words and other lexemes ----

  predicate StartsWord(t: string) { t != "" && (IsAlpha(t[0]) || t[0] == '_') }

  lemma WordAhead(t: string)
    requires StartsWord(t)
    ensures NextLexeme(t).used == IdentSpan(t) && (NoLower(t) ==> NextLexeme(t).token.value == t[..IdentSpan(t)])
  {
    hide Keyword, IdentSpan;
    var w := t[..IdentSpan(t)];
    assert NoLower(t) ==> UpperAll(w) == w;
  }

  lemma {:induction false} NumberChars(t: string, dotted: bool)
    ensures forall i :: 0 <= i < NumberSpan(t, dotted) ==> t[i] != 'F'
    decreases |t|
  {
    if t != "" && (IsDigit(t[0]) || (t[0] == '.' && !dotted)) {
      var d := dotted || t[0] == '.';
      NumberChars(t[1..], d);
      forall i | 0 <= i < NumberSpan(t, dotted) ensures t[i] != 'F' { if i > 0 { assert t[1..][i - 1] == t[i]; } }
    }
  }

  lemma SymbolKinds(t: string)
    requires t != "" && !StartsWord(t)
    ensures var l := SymbolLexeme(t);
            l.token.kind != KwFrom && l.token.kind != Identifier && l.token.kind != KwWhere && l.token.kind != KwInner
              && l.token.kind != EndOfInput
    ensures forall i :: 0 <= i < SymbolLexeme(t).used ==> t[i] != 'F'
    ensures SymbolLexeme(t).token.kind == Semicolon ==> t[0] == ';'
  {
  }

  // Anything but a word holds no letter F, and is no name or keyword.
  lemma OtherAhead(t: string)
    requires t != "" && !IsSpace(t[0]) && !StartsWord(t) && NoQuotes(t)
    ensures var l := NextLexeme(t);
            && l.token.kind != KwFrom && l.token.kind != Identifier && l.token.kind != KwWhere
              && l.token.kind != KwInner && l.token.kind != EndOfInput
            && (l.token.kind == Semicolon ==> t[0] == ';')
            && forall i :: 0 <= i < l.used ==> t[i] != 'F'
  {
    hide SymbolLexeme, NumberSpan;
    SymbolKinds(t);
    NumberChars(t, false);
    NumberChars(t[1..], false);
    if NumberStart(t) && t[0] == '-' {
      forall i | 0 <= i < NextLexeme(t).used ensures t[i] != 'F' { if i > 0 { assert t[1..][i - 1] == t[i]; } }
    }
  }

  lemma FromWord(t: string)
    requires StartsWord(t) && NoLower(t) && NextLexeme(t).token.kind == KwFrom
    ensures t[..IdentSpan(t)] == "FROM"
  {
    hide IdentSpan;
    var w := t[..IdentSpan(t)];
    assert UpperAll(w) == w;
  }

  // Between two words there is white space.
  lemma BlankBetween(t: string, k: Kind)
    requires t != "" && !IsIdent(t[0]) && NoQuotes(t) && Lex(t).tokens[0].kind == k
    requires k == Identifier || k == KwWhere || k == KwInner || k == EndOfInput
    ensures IsSpace(t[0])
  {
    hide NextLexeme;
    if !IsSpace(t[0]) { OtherAhead(t); }
  }

  // ---- Finding the table's name ----

  lemma LexUnfold(t: string)
    ensures t == "" ==> |Lex(t).tokens| == 1
    ensures t != "" && IsSpace(t[0]) ==> Lex(t) == Lex(t[1..])
    ensures t != "" && !IsSpace(t[0]) ==> Lex(t).tokens == [NextLexeme(t).token] + Lex(t[NextLexeme(t).used..]).tokens
  {
    hide NextLexeme;
  }

  lemma {:induction false} ScanFrom(t: string, p: nat) returns (m: nat)
    requires NoQuotes(t) && NoLower(t) && Spaced(t)
    requires var ts := Lex(t).tokens;
             && p + 1 < |ts| && ts[p].kind == KwFrom && ts[p + 1].kind == Identifier
             && forall i :: 0 <= i < p ==> !EndsFrom(ts[i].value)
    ensures 0 < m <= |t| && t[m - 1] == ' ' && AfterFrom(t) == Some(t[m..])
            && Lex(t[m..]).tokens == Lex(t).tokens[p + 1..]
    decreases |t|
  {
    hide NextLexeme, AfterFrom, EndsFrom, NoQuotes, NoLower, Spaced, Lex;
    LexUnfold(t);
    if t == "" {
      assert false;
    } else if IsSpace(t[0]) {
      TailShape(t, 1);
      var m' := ScanFrom(t[1..], p);
      AfterFromSkips(t, 1);
      m := m' + 1;
      assert t[1..][m'..] == t[m..];
    } else {
      var n, ts := NextLexeme(t).used, Lex(t).tokens;
      var rest := Lex(t[n..]).tokens;
      TailShape(t, n);
      forall i | 0 <= i < p - 1 ensures !EndsFrom(rest[i].value) { assert rest[i] == ts[i + 1]; }
      assert rest[p] == ts[p + 1] && (p > 0 ==> rest[p - 1] == ts[p]);
      if p == 0 {
        m := ThisFrom(t);
        assert ts[1..] == rest;
      } else {
        var m' := ScanFrom(t[n..], p - 1);
        assert !EndsFrom(ts[0].value);
        PassedOver(t);
        m := m' + n;
        assert t[n..][m'..] == t[m..];
        assert rest[p..] == ts[p + 1..];
      }
    }
  }

  lemma PassedOver(t: string)
    requires t != "" && !IsSpace(t[0]) && NoQuotes(t) && NoLower(t) && !EndsFrom(NextLexeme(t).token.value)
    ensures AfterFrom(t) == AfterFrom(t[NextLexeme(t).used..])
  {
    hide NextLexeme, AfterFrom, EndsFrom;
    if StartsWord(t) {
      WordAhead(t);
      AfterFromWord(t, IdentSpan(t));
    } else {
      OtherAhead(t);
      AfterFromSkips(t, NextLexeme(t).used);
    }
  }

  lemma ThisFrom(t: string) returns (m: nat)
    requires t != "" && !IsSpace(t[0]) && NoQuotes(t) && NoLower(t) && Spaced(t) && NextLexeme(t).token.kind == KwFrom
    requires Lex(t[NextLexeme(t).used..]).tokens[0].kind == Identifier
    ensures m == NextLexeme(t).used + 1 <= |t| && t[m - 1] == ' ' && AfterFrom(t) == Some(t[m..])
    ensures Lex(t[m..]) == Lex(t[m - 1..])
  {
    hide NextLexeme, AfterFrom, Lex, NoQuotes, NoLower, IdentSpan, Spaced, StartsWord;
    FromAhead(t);
    var n := IdentSpan(t);
    BlankAfter(t, n);
    AfterFromWord(t, n);
    m := n + 1;
    LexSpace(t, n);
  }

  lemma FromAhead(t: string)
    requires t != "" && !IsSpace(t[0]) && NoQuotes(t) && NoLower(t) && NextLexeme(t).token.kind == KwFrom
    ensures NextLexeme(t).used == IdentSpan(t) && EndsFrom(t[..IdentSpan(t)])
  {
    hide NextLexeme, NoQuotes, NoLower, IdentSpan;
    if !StartsWord(t) { OtherAhead(t); }
    WordAhead(t);
    FromWord(t);
  }

  lemma BlankAfter(t: string, n: nat)
    requires n <= |t| && NoQuotes(t) && NoLower(t) && Spaced(t) && (n < |t| ==> !IsIdent(t[n]))
    requires Lex(t[n..]).tokens[0].kind == Identifier
    ensures n < |t| && t[n] == ' '
  {
    hide Lex, NoQuotes;
    TailShape(t, n);
    SomeText(t[n..]);
    BlankBetween(t[n..], Identifier);
  }

  lemma SomeText(t: string)
    ensures Lex(t).tokens[0].kind == Identifier ==> t != ""
  {
    hide NextLexeme;
  }

  lemma LexSpace(t: string, n: nat)
    requires n < |t| && IsSpace(t[n])
    ensures Lex(t[n..]) == Lex(t[n + 1..])
  {
    assert t[n..][1..] == t[n + 1..];
  }

  lemma {:induction false} NamePrefixIs(u: string, n: nat)
    requires n <= |u| && (forall i :: 0 <= i < n ==> IsIdent(u[i])) && (n < |u| ==> EndsName(u[n]))
    ensures NamePrefix(u) == u[..n]
    decreases n
  {
    if n > 0 { NamePrefixIs(u[1..], n - 1); assert u[..n] == [u[0]] + u[1..][..n - 1]; }
  }

  // The name right behind FROM, if the clause ends or goes on with WHERE or INNER.
  lemma NameHere(u: string)
    requires u != "" && !IsSpace(u[0]) && NoQuotes(u) && NoLower(u) && Spaced(u)
    requires var ts := Lex(u).tokens;
             |ts| > 1 && ts[0].kind == Identifier
               && (ts[1].kind == EndOfInput || ts[1].kind == KwWhere || ts[1].kind == KwInner
                   || ts[1].kind == Semicolon)
    ensures NamePrefix(u) == Lex(u).tokens[0].value
  {
    hide NextLexeme, NamePrefix;
    if !StartsWord(u) { OtherAhead(u); }
    WordAhead(u);
    var n := IdentSpan(u);
    var rest := u[n..];
    if rest != "" {
      if Lex(rest).tokens[0].kind == Semicolon {
        if !IsSpace(rest[0]) { OtherAhead(rest); }
      } else {
        BlankBetween(rest, Lex(rest).tokens[0].kind);
      }
    }
    NamePrefixIs(u, n);
  }

  predicate Continues(k: Kind) { k == EndOfInput || k == KwWhere || k == KwInner || k == Semicolon }

  lemma TableFound(key: string, p: nat)
    requires NoQuotes(key) && NoLower(key) && Single(key)
    requires var ts := Lex(key).tokens;
             && p + 2 < |ts| && ts[p].kind == KwFrom && ts[p + 1].kind == Identifier && Continues(ts[p + 2].kind)
             && forall i :: 0 <= i < p ==> !EndsFrom(ts[i].value)
    ensures TableOf(key) == Some(Lex(key).tokens[p + 1].value)
  {
    hide Lex, AfterFrom, NamePrefix, NoQuotes, NoLower, EndsFrom;
    var m := ScanFrom(key, p);
    var u := key[m..];
    TailShape(key, m);
    NoEnd(key, m);
    NameHere(u);
  }

  // Behind a single blank there is a word, or nothing.
  lemma NoEnd(key: string, m: nat)
    requires 0 < m <= |key| && key[m - 1] == ' ' && Spaced(key) && Lex(key[m..]).tokens[0].kind == Identifier
    ensures key[m..] != "" && !IsSpace(key[m..][0])
  {
    hide NextLexeme;
    assert IsSpace(key[m - 1]);
  }

  // ---- Where the parser sees the table ----

  // The position of the FROM token that ends the select list.
  function FromAt(ts: seq<Token>): nat
    requires Parse(ts).Done? && Parse(ts).value.Select?
  {
    SelectKind(ts);
    ListSuffix(Adv(ts));
    |ts| - |ParseSelectList(Adv(ts)).rest|
  }

  lemma {:induction false} ColumnsSuffix(ts: seq<Token>)
    requires ParseColumnList(ts).Done?
    ensures |ParseColumnList(ts).rest| <= |ts| && ParseColumnList(ts).rest == ts[|ts| - |ParseColumnList(ts).rest|..]
    decreases |ts|
  {
    RefSuffix(ts);
    RefShorter(ts);
    var rest := ParseColumnRef(ts).1;
    if At(rest, Comma) { ColumnsSuffix(Adv(rest)); }
  }

  lemma RefSuffix(ts: seq<Token>)
    ensures var rest := ParseColumnRef(ts).1; |rest| <= |ts| && rest == ts[|ts| - |rest|..]
  {
  }

  lemma ListSuffix(ts: seq<Token>)
    requires ParseSelectList(ts).Done?
    ensures var rest := ParseSelectList(ts).rest; |rest| <= |ts| && rest == ts[|ts| - |rest|..]
  {
    hide ParseColumnList;
    if !At(ts, Star) { ColumnsSuffix(ts); }
  }

  // A SELECT that takes up all of the tokens: the table's name stands behind FROM, and the clause ends there or goes
  // on.
  lemma SelectShape(ts: seq<Token>)
    requires Parse(ts).Done? && Parse(ts).value.Select? && OnlySemicolons(Parse(ts).rest)
    ensures var p := FromAt(ts);
            p + 2 < |ts| && ts[p].kind == KwFrom && ts[p + 1] == Token(Identifier, Parse(ts).value.query.table)
              && Continues(ts[p + 2].kind)
  {
    hide Parse, ParseSelectList, ParseWhere;
    SelectKind(ts);
    ListSuffix(Adv(ts));
    SelectTail(ts);
    var t1 := ParseSelectList(Adv(ts)).rest;
    var p := FromAt(ts);
    assert t1 == ts[p..];
    assert ts[p] == t1[0] && ts[p + 1] == t1[1] && ts[p + 2] == t1[2];
  }

  lemma SelectTail(ts: seq<Token>)
    requires ParseSelect(ts).Done? && OnlySemicolons(ParseSelect(ts).rest)
    ensures ParseSelectList(Adv(ts)).Done?
    ensures var t1 := ParseSelectList(Adv(ts)).rest;
            |t1| > 2 && t1[0].kind == KwFrom && t1[1] == Token(Identifier, ParseSelect(ts).value.query.table)
              && Continues(t1[2].kind)
  {
    hide ParseSelectList, ParseWhere, ParseJoin, Cur, Adv, At, SkipIf;
    var t1 := ParseSelectList(Adv(ts)).rest;
    var t3 := Adv(Adv(t1));
    AfterName(t3);
    Steps(t1);
  }

  // Behind the table's name: JOIN, WHERE, or the end of the text.
  lemma AfterName(t3: seq<Token>)
    ensures ParseJoin(t3).Done? && At(ParseJoin(t3).rest, KwWhere) ==> Continues(Cur(t3).kind) && t3 != []
    ensures ParseJoin(t3).Done? && OnlySemicolons(SkipIf(ParseJoin(t3).rest, Semicolon)) ==>
            Continues(Cur(t3).kind) && t3 != []
  {
    hide ParseColumnRef;
  }

  lemma Steps(ts: seq<Token>)
    ensures At(ts, KwFrom) ==> ts != [] && ts[0].kind == KwFrom
    ensures At(Adv(ts), Identifier) ==> |ts| > 1 && ts[1].kind == Identifier && ts[1] == Cur(Adv(ts))
    ensures Adv(Adv(ts)) != [] ==> |ts| > 2 && ts[2] == Cur(Adv(Adv(ts)))
  {
  }

  lemma {:induction false} NameUpper(u: string)
    requires NoLower(u)
    ensures NoLower(NamePrefix(u))
  {
    if u != "" && !EndsName(u[0]) { NameUpper(u[1..]); }
  }

  lemma {:induction false} AfterFromUpper(t: string)
    requires NoLower(t) && AfterFrom(t).Some?
    ensures NoLower(AfterFrom(t).value)
  {
    if t[..5] != "FROM " { AfterFromUpper(t[1..]); }
  }

  // A key is tracked under its FROM table unless a word of the select list ends in FROM.
  lemma TrackedUnderFrom(sql: string)
    requires NoQuotes(Normalize(sql))
    requires ParseSql(Normalize(sql)).Done? && ParseSql(Normalize(sql)).value.Select?
             && OnlySemicolons(ParseSql(Normalize(sql)).rest)
    requires var ts := Lex(Normalize(sql)).tokens;
             forall i :: 0 <= i < |ts| && i < FromAt(ts) ==> !EndsFrom(ts[i].value)
    ensures TableOf(Normalize(sql)) == Some(UpperAll(ParseSql(Normalize(sql)).value.query.table))
  {
    hide Lex, Parse, Normalize, FromAt, EndsFrom, NoQuotes, Single, AfterFrom, NamePrefix;
    var key := Normalize(sql);
    KeyShape(sql);
    SelectShape(Lex(key).tokens);
    TableFound(key, FromAt(Lex(key).tokens));
    AfterFromUpper(key);
    NameUpper(AfterFrom(key).value);
    var name := TableOf(key).value;
    assert UpperAll(name) == name;
  }

  // ---- Plain texts ----

  predicate Numeral(literal: string) {
    literal != "" && forall i :: 0 <= i < |literal| ==> IsDigit(literal[i]) || literal[i] == '.' || literal[i] == '-'
  }

  // No word before the FROM clause ends in FROM.
  predicate FromFree(ts: seq<Token>)
    requires Parse(ts).Done? && Parse(ts).value.Select?
  {
    forall i :: 0 <= i < |ts| && i < FromAt(ts) ==> !EndsFrom(UpperAll(ts[i].value))
  }

  // A complete SELECT on one table, without quotes, whose literal is a number, with no word of its select list ending
  // in FROM. Semicolons may follow.
  predicate PlainText(sql: string) {
    && NoQuotes(sql)
    && ParseSql(sql).Done? && ParseSql(sql).value.Select? && OnlySemicolons(ParseSql(sql).rest)
    && FromFree(Lex(sql).tokens)
    && var q := ParseSql(sql).value.query; q.join.None? && (q.where.Some? ==> Numeral(q.where.value.literal))
  }

  lemma KeyNoQuotes(sql: string)
    requires NoQuotes(sql)
    ensures NoQuotes(Normalize(sql))
  {
    hide Sq, Squeeze, DropSemicolons;
    var x := Sq(sql, true);
    SqueezeIsSq(sql, "", false);
    assert "" + x == x;
    SqQuotes(sql, true);
    DropPrefix(DropSpace(x));
    assert Normalize(sql) <= x;
  }

  lemma NumeralUpper(literal: string)
    ensures Numeral(literal) ==> UpperAll(literal) == literal && NoLetters(literal)
  {
  }

  predicate Trail(r: seq<Token>) { forall i :: 0 <= i < |r| ==> r[i] == SEMICOLON || r[i] == END }

  // The last token of a plain SELECT is a name or a number, so the parser stops before the semicolons behind it.
  lemma StopsBefore(b: seq<Token>, r: seq<Token>)
    requires Trail(r) && PlainForm(b + r)
    requires PlainQuery(b + r).where.Some? ==> Numeral(PlainQuery(b + r).where.value.literal)
    ensures |PlainRest(b + r)| >= |r|
  {
    hide ParseSelectList, ParseWhere, At, Cur, Adv;
    var ts := b + r;
    ListSuffix(Adv(ts));
    var t1 := ParseSelectList(Adv(ts)).rest;
    AdvSuffix(ts, ts);
    AdvSuffix(ts, Adv(ts));
    SuffixOf(ts, Adv(ts), t1);
    AdvSuffix(ts, t1);
    AdvSuffix(ts, Adv(t1));
    NameStays(b, r, Adv(t1));
    var t3 := Adv(Adv(t1));
    if At(t3, KwWhere) {
      AdvSuffix(ts, t3);
      LiteralStays(b, r, Adv(t3));
    }
  }

  predicate Suffix(t: seq<Token>, ts: seq<Token>) { |t| <= |ts| && t == ts[|ts| - |t|..] }

  lemma SuffixIs(t: seq<Token>, ts: seq<Token>)
    requires |t| <= |ts| && t == ts[|ts| - |t|..]
    ensures Suffix(t, ts)
  {
  }

  lemma AdvSuffix(ts: seq<Token>, t: seq<Token>)
    requires Suffix(t, ts) || t == ts
    ensures Suffix(Adv(t), ts)
  {
  }

  lemma SuffixOf(ts: seq<Token>, t: seq<Token>, u: seq<Token>)
    requires Suffix(t, ts) && Suffix(u, t)
    ensures Suffix(u, ts)
  {
  }

  // A suffix that begins with something other than a semicolon or the end reaches into b.
  lemma BeginsBefore(b: seq<Token>, r: seq<Token>, t: seq<Token>)
    requires Trail(r) && Suffix(t, b + r) && t != [] && t[0] != SEMICOLON && t[0] != END
    ensures |t| > |r|
  {
    var ts := b + r;
    assert t[0] == ts[|ts| - |t|];
  }

  lemma NameStays(b: seq<Token>, r: seq<Token>, t: seq<Token>)
    requires Trail(r) && Suffix(t, b + r) && At(t, Identifier)
    ensures |Adv(t)| >= |r|
  {
    BeginsBefore(b, r, t);
  }

  lemma LiteralStays(b: seq<Token>, r: seq<Token>, t: seq<Token>)
    requires Trail(r) && Suffix(t, b + r) && Numeral(ParseWhere(t).0.literal)
    ensures |ParseWhere(t).1| >= |r|
  {
    hide ParseColumnRef, ParseCmpOp, Cur, Adv, Numeral, Suffix, Trail;
    RefSuffix(t);
    var t1 := ParseColumnRef(t).1;
    SuffixIs(t1, t);
    SuffixOf(b + r, t, t1);
    AdvSuffix(b + r, t1);
    OpStep(t1);
    var t2 := ParseCmpOp(t1).1;
    NumeralFirst(t2);
    BeginsBefore(b, r, t2);
  }

  lemma OpStep(ts: seq<Token>)
    ensures ParseCmpOp(ts).1 == ts || ParseCmpOp(ts).1 == Adv(ts)
  {
    hide Cur, Adv;
  }

  lemma NumeralFirst(t: seq<Token>)
    requires Numeral(Cur(t).value)
    ensures t != [] && t[0] != SEMICOLON && t[0] != END && |Adv(t)| == |t| - 1
  {
    assert SEMICOLON.value[0] == ';';
  }

  lemma ListDone(ts: seq<Token>)
    requires PlainForm(ts)
    ensures ParseSelectList(Adv(ts)).Done?
  {
  }

  // The same query with nothing but the end behind it.
  lemma EndsHere(b: seq<Token>, r: seq<Token>, q: SelectStmt)
    requires Trail(r) && OnlySemicolons(r) && Final(r)
    requires Parse(b + r).Done? && Parse(b + r).value == Select(q) && OnlySemicolons(Parse(b + r).rest)
    requires q.join.None? && (q.where.Some? ==> Numeral(q.where.value.literal))
    ensures var o := Parse(b + [END]); o.Done? && o.value == Select(q) && OnlySemicolons(o.rest)
    ensures ParseSelectList(Adv(b + r)).Done? && ParseSelectList(Adv(b + [END])).Done?
    ensures |ParseSelectList(Adv(b + r)).rest| - |r| == |ParseSelectList(Adv(b + [END])).rest| - 1
  {
    hide Parse, PlainForm, PlainQuery, PlainRest, Numeral, OnlySemicolons, Trail, SkipIf;
    PlainUnfold(b + r);
    StopsBefore(b, r);
    var c := SelectExt(b, r, [END]);
    PlainUnfold(b + [END]);
    OnlyPart(c, r);
    SkipOnly(c + [END]);
    ListDone(b + r);
    ListDone(b + [END]);
  }

  // The key of a plain text reads as the text does, up to case.
  lemma KeyReads(sql: string) returns (body: seq<Token>, r: seq<Token>)
    requires PlainText(sql)
    ensures NoQuotes(Normalize(sql)) && Lex(Normalize(sql)).ok && Lex(Normalize(sql)).tokens == body + [END]
    ensures UpperTokens(Lex(sql).tokens) == body + r && Trail(r) && OnlySemicolons(r) && Final(r)
    ensures Parse(body + r).Done? && Parse(body + r).value == Select(UpperQuery(ParseSql(sql).value.query))
    ensures OnlySemicolons(Parse(body + r).rest)
  {
    hide Parse, Lex, Normalize, NoQuotes, UpperTokens, Semicolons, FromFree, Numeral, OnlySemicolons;
    KeyNoQuotes(sql);
    var k := KeyTokens(sql);
    LexLast(Normalize(sql));
    body, r := Body(Lex(Normalize(sql)).tokens), Semicolons(k);
    SemicolonsOnly(k);
    SelectUpper(Lex(sql).tokens);
    SkipOnly(ParseSql(sql).rest);
  }

  // Every plain text has a plain key.
  lemma TextIsPlain(sql: string)
    requires PlainText(sql)
    ensures PlainKey(Normalize(sql))
  {
    hide Parse, Lex, Normalize, NoQuotes, UpperTokens, TableOf, FromFree, Numeral, NoLetters, EndsFrom, FromAt, Trail;
    hide OnlySemicolons, ParseSelectList;
    var q := ParseSql(sql).value.query;
    var body, r := KeyReads(sql);
    if q.where.Some? { NumeralUpper(q.where.value.literal); }
    EndsHere(body, r, UpperQuery(q));
    FromFreeKey(Lex(sql).tokens, body, r);
    TrackedUnderFrom(sql);
  }

  lemma OnlyPart(c: seq<Token>, r: seq<Token>)
    requires OnlySemicolons(SkipIf(c + r, Semicolon)) && OnlySemicolons(r)
    ensures OnlySemicolons(c + [END])
  {
    var ts := SkipIf(c + r, Semicolon);
    var n := |c + r| - |ts|;
    assert ts == (c + r)[n..];
    forall i | 0 <= i < |c| ensures c[i].kind == Semicolon {
      if i >= n { assert ts[i - n] == c[i]; }
    }
  }

  // The words before FROM are the same in the text and in its key.
  lemma FromFreeKey(ts: seq<Token>, body: seq<Token>, r: seq<Token>)
    requires Parse(ts).Done? && Parse(ts).value.Select? && FromFree(ts) && UpperTokens(ts) == body + r
    requires Parse(body + [END]).Done? && Parse(body + [END]).value.Select?
    requires ParseSelectList(Adv(body + r)).Done? && ParseSelectList(Adv(body + [END])).Done?
    requires |ParseSelectList(Adv(body + r)).rest| - |r| == |ParseSelectList(Adv(body + [END])).rest| - 1
    ensures var ks := body + [END]; forall i :: 0 <= i < |ks| && i < FromAt(ks) ==> !EndsFrom(ks[i].value)
  {
    hide Parse, ParseSelectList, EndsFrom, Adv;
    SelectKind(ts);
    SelectListUpper(Adv(ts));
    UpperStep(ts);
    var ks := body + [END];
    assert FromAt(ks) == FromAt(ts);
    FromInside(ks);
    forall i | 0 <= i < |ks| && i < FromAt(ks) ensures !EndsFrom(ks[i].value) {
      assert ks[i] == body[i] == UpperToken(ts[i]);
    }
  }

  lemma FromInside(ts: seq<Token>)
    requires Parse(ts).Done? && Parse(ts).value.Select?
    ensures FromAt(ts) < |ts|
  {
    hide Parse, ParseSelectList, ParseWhere, ParseJoin;
    SelectKind(ts);
  }
}
