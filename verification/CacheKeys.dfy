/** What the cache key of a SELECT text determines. */
module CacheKeys {
  import opened Values
  import opened Lexer
  import opened Parser
  import opened LruCache

  predicate NoQuotes(s: string) { forall i :: 0 <= i < |s| ==> s[i] != '\'' && s[i] != '\"' }

  // The text that the first loop of normalize appends; `skip` drops white space at the front.
  function Sq(q: string, skip: bool): string
    decreases |q|
  {
    if q == "" then ""
    else if IsSpace(q[0]) then (if skip then Sq(q[1..], true) else " " + Sq(q[1..], true))
    else [ToUpper(q[0])] + Sq(q[1..], false)
  }

  lemma {:induction false} SqueezeIsSq(q: string, result: string, inSpace: bool)
    requires inSpace ==> result != ""
    ensures Squeeze(q, result, inSpace) == result + Sq(q, inSpace || result == "")
    decreases |q|
  {
    if q == "" {
    } else if IsSpace(q[0]) {
      if !inSpace && result != "" {
        SqueezeIsSq(q[1..], result + " ", true);
        assert result + " " + Sq(q[1..], true) == result + (" " + Sq(q[1..], true));
      } else {
        SqueezeIsSq(q[1..], result, inSpace);
      }
    } else {
      var u := [ToUpper(q[0])];
      SqueezeIsSq(q[1..], result + u, false);
      assert result + u + Sq(q[1..], false) == result + (u + Sq(q[1..], false));
    }
  }

  lemma {:induction false} SqQuotes(q: string, skip: bool)
    ensures NoQuotes(Sq(q, skip)) <==> NoQuotes(q)
    decreases |q|
  {
    if q != "" {
      SqQuotes(q[1..], IsSpace(q[0]));
      assert NoQuotes(q) <==> (q[0] != '\'' && q[0] != '\"' && NoQuotes(q[1..])) by {
        QuotesCons(q[0], q[1..]);
        assert q == [q[0]] + q[1..];
      }
      if IsSpace(q[0]) {
        QuotesCons(' ', Sq(q[1..], true));
      } else {
        QuotesCons(ToUpper(q[0]), Sq(q[1..], false));
      }
    }
  }

  lemma QuotesCons(c: char, s: string)
    ensures NoQuotes([c] + s) <==> (c != '\'' && c != '\"' && NoQuotes(s))
  {
    var t := [c] + s;
    assert t[0] == c && forall i :: 0 <= i < |s| ==> t[i + 1] == s[i];
  }

  // ---- Lexing the squeezed text ----

  function UpperToken(t: Token): Token { Token(t.kind, UpperAll(t.value)) }

  function UpperTokens(ts: seq<Token>): (r: seq<Token>)
    ensures |r| == |ts| && forall i :: 0 <= i < |r| ==> r[i] == UpperToken(ts[i])
  {
    seq(|ts|, i requires 0 <= i < |ts| => UpperToken(ts[i]))
  }

  lemma UpperTwice(s: string)
    ensures UpperAll(UpperAll(s)) == UpperAll(s)
  {
  }

  // The first n characters, none of them white space, are upper-cased, and squeezing goes on behind them.
  predicate Splits(q: string, n: nat) {
    var t := Sq(q, false);
    n <= |q| && n <= |t| && t[..n] == UpperAll(q[..n]) && t[n..] == Sq(q[n..], false)
  }

  lemma SplitsMore(q: string, n: nat)
    requires q != "" && !IsSpace(q[0]) && Splits(q[1..], n)
    ensures Splits(q, n + 1) && Sq(q, false)[1..] == Sq(q[1..], false)
  {
    hide Sq, ToUpper;
    var u := Sq(q[1..], false);
    SqMore(q);
    TakeMore(ToUpper(q[0]), u, n);
    TakeMore(q[0], q[1..], n);
    assert [q[0]] + q[1..] == q;
    assert UpperAll([q[0]] + q[1..][..n]) == [ToUpper(q[0])] + UpperAll(q[1..][..n]);
  }

  lemma SqMore(q: string)
    requires q != "" && !IsSpace(q[0])
    ensures Sq(q, false) == [ToUpper(q[0])] + Sq(q[1..], false)
  {
  }

  lemma TakeMore(c: char, u: string, n: nat)
    requires n <= |u|
    ensures ([c] + u)[1..] == u && ([c] + u)[..n + 1] == [c] + u[..n] && ([c] + u)[n + 1..] == u[n..]
  {
  }

  lemma SplitsNone(q: string)
    ensures Splits(q, 0)
  {
    var t := Sq(q, false);
    assert q[..0] == "" && q[0..] == q && t[0..] == t;
  }

  lemma {:induction false} IdentSq(q: string)
    ensures IdentSpan(Sq(q, false)) == IdentSpan(q) && Splits(q, IdentSpan(q))
  {
    hide Splits;
    if q != "" && IsIdent(q[0]) {
      IdentSq(q[1..]);
      SplitsMore(q, IdentSpan(q[1..]));
    } else {
      SplitsNone(q);
    }
  }

  lemma {:induction false} NumberSq(q: string, dotted: bool)
    ensures NumberSpan(Sq(q, false), dotted) == NumberSpan(q, dotted) && Splits(q, NumberSpan(q, dotted))
    decreases |q|
  {
    hide Splits;
    if q != "" && (IsDigit(q[0]) || (q[0] == '.' && !dotted)) {
      var d := dotted || q[0] == '.';
      NumberSq(q[1..], d);
      SplitsMore(q, NumberSpan(q[1..], d));
    } else {
      SplitsNone(q);
    }
  }

  lemma SqFirst(q: string)
    ensures q == "" <==> Sq(q, false) == ""
    ensures q != "" ==> Sq(q, false)[0] == if IsSpace(q[0]) then ' ' else ToUpper(q[0])
  {
  }

  predicate Follows(q: string, t: string, l: Lexeme, m: Lexeme)
    requires l.used <= |q|
  {
    m.used == l.used <= |t| && m.ok == l.ok && m.token == UpperToken(l.token) && t[l.used..] == Sq(q[l.used..], false)
  }

  lemma WordSq(q: string)
    requires q != "" && (IsAlpha(q[0]) || q[0] == '_')
    ensures var t := Sq(q, false);
            t != "" && (IsAlpha(t[0]) || t[0] == '_') && Follows(q, t, WordLexeme(q), WordLexeme(t))
  {
    hide Keyword;
    SqFirst(q);
    IdentSq(q);
    UpperTwice(q[..IdentSpan(q)]);
  }

  lemma DotKept(s: string)
    ensures '.' in UpperAll(s) <==> '.' in s
  {
    var u := UpperAll(s);
    forall i | 0 <= i < |s| ensures u[i] == '.' <==> s[i] == '.' { }
  }

  predicate NumberStart(s: string) { s != "" && (IsDigit(s[0]) || (s[0] == '-' && |s| > 1 && IsDigit(s[1]))) }

  lemma NumberStartSq(q: string)
    requires q != "" && !IsSpace(q[0])
    ensures NumberStart(Sq(q, false)) <==> NumberStart(q)
  {
    SqFirst(q);
    SqFirst(q[1..]);
    assert Sq(q, false)[1..] == Sq(q[1..], false);
    assert |q| > 1 ==> q[1..][0] == q[1];
    assert |Sq(q, false)| > 1 ==> Sq(q, false)[1..][0] == Sq(q, false)[1];
  }

  lemma NumeralSq(q: string)
    requires NumberStart(q)
    ensures NumberStart(Sq(q, false)) && Follows(q, Sq(q, false), NumberLexeme(q), NumberLexeme(Sq(q, false)))
  {
    hide Sq, NumberSpan;
    var t := Sq(q, false);
    NumberStartSq(q);
    SqFirst(q);
    var n := if q[0] == '-' then 1 + NumberSpan(q[1..], false) else NumberSpan(q, false);
    if q[0] == '-' {
      NumberSq(q[1..], false);
      SplitsMore(q, n - 1);
    } else {
      NumberSq(q, false);
    }
    DotKept(q[..n]);
  }

  lemma SymbolFixed(q: string)
    requires q != ""
    ensures SymbolLexeme(q).token.kind != Invalid ==>
            UpperAll(SymbolLexeme(q).token.value) == SymbolLexeme(q).token.value
  {
    var v := SymbolLexeme(q).token.value;
    assert SymbolLexeme(q).token.kind != Invalid ==> forall i :: 0 <= i < |v| ==> !IsLower(v[i]);
    if SymbolLexeme(q).token.kind != Invalid { assert UpperAll(v) == v; }
  }

  function Second(s: string): char { if |s| > 1 then s[1] else '\0' }

  // Only the first character and whether '=' or '>' follows it matter to a symbol.
  lemma SymbolAlike(q: string, t: string)
    requires q != "" && t != "" && t[0] == ToUpper(q[0])
    requires (Second(q) == '=' <==> Second(t) == '=') && (Second(q) == '>' <==> Second(t) == '>')
    ensures var l, m := SymbolLexeme(q), SymbolLexeme(t);
            m.used == l.used && m.ok == l.ok && m.token == UpperToken(l.token)
              && (l.used == 1 || (l.used == 2 && !IsSpace(Second(q))))
  {
    assert UpperAll([q[0]]) == [ToUpper(q[0])];
    SymbolFixed(q);
  }

  lemma SecondSq(q: string)
    requires q != "" && !IsSpace(q[0])
    ensures var t := Sq(q, false); (Second(q) == '=' <==> Second(t) == '=') && (Second(q) == '>' <==> Second(t) == '>')
  {
    var t := Sq(q, false);
    SqFirst(q[1..]);
    assert t[1..] == Sq(q[1..], false);
    assert |q| > 1 ==> q[1..][0] == q[1];
    assert |t| > 1 ==> t[1..][0] == t[1];
  }

  lemma SymbolSq(q: string)
    requires q != "" && !IsSpace(q[0])
    ensures Sq(q, false) != "" && Follows(q, Sq(q, false), SymbolLexeme(q), SymbolLexeme(Sq(q, false)))
  {
    hide SymbolLexeme, Sq, UpperToken;
    SqFirst(q);
    SecondSq(q);
    SymbolAlike(q, Sq(q, false));
    SplitsNone(q[1..]);
    SplitsMore(q, 0);
    if SymbolLexeme(q).used == 2 {
      SplitsNone(q[1..][1..]);
      SplitsMore(q[1..], 0);
      SplitsMore(q, 1);
    }
  }

  lemma LexemeSq(q: string)
    requires q != "" && !IsSpace(q[0]) && NoQuotes(q)
    ensures Sq(q, false) != "" && Follows(q, Sq(q, false), NextLexeme(q), NextLexeme(Sq(q, false)))
  {
    hide Sq, Follows, NumberLexeme, WordLexeme, SymbolLexeme, QuotedLexeme;
    SqFirst(q);
    NumberStartSq(q);
    if NumberStart(q) {
      NumeralSq(q);
    } else if IsAlpha(q[0]) || q[0] == '_' {
      WordSq(q);
    } else {
      SymbolSq(q);
    }
  }

  // A text without quotes and its squeezed form have the same tokens, up to case.
  lemma {:induction false} LexSq(q: string, skip: bool)
    requires NoQuotes(q)
    ensures Lex(Sq(q, skip)).ok == Lex(q).ok && Lex(Sq(q, skip)).tokens == UpperTokens(Lex(q).tokens)
    decreases |q|
  {
    hide NextLexeme, UpperToken;
    if q == "" {
      EndUpper();
    } else if IsSpace(q[0]) {
      LexSq(q[1..], true);
      LexBlank(Sq(q[1..], true));
    } else {
      var l, t := NextLexeme(q), Sq(q, false);
      LexemeSq(q);
      LexSq(q[l.used..], false);
      NotBlank(q);
      assert UpperTokens([l.token] + Lex(q[l.used..]).tokens) ==
             [UpperToken(l.token)] + UpperTokens(Lex(q[l.used..]).tokens);
    }
  }

  lemma EndUpper()
    ensures UpperTokens([END]) == [END]
  {
    assert UpperAll("") == "";
  }

  lemma LexBlank(s: string)
    ensures Lex(" " + s) == Lex(s)
  {
    assert (" " + s)[1..] == s;
  }

  lemma NotBlank(q: string)
    requires q != "" && !IsSpace(q[0])
    ensures var t := Sq(q, false); t != "" && !IsSpace(t[0])
  {
  }

  // ---- Trailing semicolons and blanks ----

  predicate Ender(c: char) { c == ';' || c == ' ' }

  lemma {:induction false} IdentEnds(s: string, c: char)
    requires Ender(c)
    ensures IdentSpan(s + [c]) == IdentSpan(s)
  {
    if s != "" { assert (s + [c])[1..] == s[1..] + [c]; IdentEnds(s[1..], c); }
  }

  lemma {:induction false} NumberEnds(s: string, dotted: bool, c: char)
    requires Ender(c)
    ensures NumberSpan(s + [c], dotted) == NumberSpan(s, dotted)
    decreases |s|
  {
    if s != "" {
      assert (s + [c])[1..] == s[1..] + [c];
      NumberEnds(s[1..], dotted || s[0] == '.', c);
      NumberEnds(s[1..], dotted, c);
    }
  }

  lemma LexemeEnds(s: string, c: char)
    requires s != "" && NoQuotes(s) && Ender(c)
    ensures NextLexeme(s + [c]) == NextLexeme(s)
  {
    hide IdentSpan, NumberSpan, SymbolLexeme, Keyword;
    var t := s + [c];
    assert t[0] == s[0] && (|s| > 1 ==> t[1] == s[1]) && (|s| == 1 ==> t[1] == c);
    IdentEnds(s, c);
    NumberEnds(s, false, c);
    NumberEnds(s[1..], false, c);
    assert t[1..] == s[1..] + [c];
    assert t[..IdentSpan(s)] == s[..IdentSpan(s)];
    assert t[..NumberSpan(s, false)] == s[..NumberSpan(s, false)];
    assert t[..1 + NumberSpan(s[1..], false)] == s[..1 + NumberSpan(s[1..], false)];
    SymbolEnds(s, c);
  }

  lemma SymbolEnds(s: string, c: char)
    requires s != "" && Ender(c)
    ensures SymbolLexeme(s + [c]) == SymbolLexeme(s)
  {
    var t := s + [c];
    assert t[0] == s[0] && (|s| > 1 ==> t[1] == s[1]) && (|s| == 1 ==> t[1] == c);
  }

  const SEMICOLON := Token(Semicolon, ";")

  function Body(ts: seq<Token>): seq<Token>
    requires ts != []
  {
    ts[..|ts| - 1]
  }

  lemma {:induction false} LexLast(s: string)
    ensures Lex(s).tokens[|Lex(s).tokens| - 1] == END
    decreases |s|
  {
    hide NextLexeme;
    if s == "" {
    } else if IsSpace(s[0]) {
      LexLast(s[1..]);
    } else {
      LexLast(s[NextLexeme(s).used..]);
    }
  }

  // A blank at the end adds nothing; a semicolon adds its token.
  lemma {:induction false} LexEnds(s: string, c: char)
    requires NoQuotes(s) && Ender(c)
    ensures Lex(s + [c]).ok == Lex(s).ok
    ensures Lex(s + [c]).tokens == Body(Lex(s).tokens) + if c == ';' then [SEMICOLON, END] else [END]
    decreases |s|
  {
    hide NextLexeme;
    if s == "" {
      assert s + [c] == [c];
      LexOne(c);
    } else if IsSpace(s[0]) {
      assert (s + [c])[1..] == s[1..] + [c];
      LexEnds(s[1..], c);
    } else {
      var n := NextLexeme(s).used;
      LexemeEnds(s, c);
      assert (s + [c])[n..] == s[n..] + [c];
      LexEnds(s[n..], c);
    }
  }

  lemma LexOne(c: char)
    requires Ender(c)
    ensures Lex([c]).ok && Lex([c]).tokens == if c == ';' then [SEMICOLON, END] else [END]
  {
    assert [c][1..] == "";
    assert Lex("") == Lexed([END], true);
    if c == ';' { assert NextLexeme([c]) == Lexeme(SEMICOLON, 1, true); }
  }

  function Semicolons(k: nat): seq<Token> { if k == 0 then [END] else [SEMICOLON] + Semicolons(k - 1) }

  lemma {:induction false} OneSemicolonMore(k: nat)
    ensures Body(Semicolons(k)) + [SEMICOLON, END] == Semicolons(k + 1) && Semicolons(k) != []
  {
    if k > 0 {
      OneSemicolonMore(k - 1);
      assert Body(Semicolons(k)) == [SEMICOLON] + Body(Semicolons(k - 1));
    }
  }

  lemma BodyAndOne(body: seq<Token>, k: nat)
    ensures body + Semicolons(k) != [] && Body(body + Semicolons(k)) + [SEMICOLON, END] == body + Semicolons(k + 1)
  {
    hide Semicolons;
    OneSemicolonMore(k);
    assert Body(body + Semicolons(k)) == body + Body(Semicolons(k));
    assert body + Body(Semicolons(k)) + [SEMICOLON, END] == body + (Body(Semicolons(k)) + [SEMICOLON, END]);
  }

  lemma QuotesEnd(s: string, c: char)
    requires NoQuotes(s) && Ender(c)
    ensures NoQuotes(s + [c])
  {
  }

  lemma {:induction false} DroppedSemicolons(y: string) returns (k: nat)
    requires NoQuotes(DropSemicolons(y))
    ensures NoQuotes(y) && Lex(y).ok == Lex(DropSemicolons(y)).ok
    ensures Lex(y).tokens == Body(Lex(DropSemicolons(y)).tokens) + Semicolons(k)
  {
    hide Lex, Semicolons, Body;
    if y != "" && y[|y| - 1] == ';' {
      var init := y[..|y| - 1];
      k := DroppedSemicolons(init);
      var body := Body(Lex(DropSemicolons(y)).tokens);
      assert y == init + [';'];
      QuotesEnd(init, ';');
      LexEnds(init, ';');
      BodyAndOne(body, k);
      k := k + 1;
    } else {
      k := 0;
      BodyAndEnd(y);
    }
  }

  lemma BodyAndEnd(y: string)
    ensures Lex(y).tokens == Body(Lex(y).tokens) + [END] == Body(Lex(y).tokens) + Semicolons(0)
  {
    hide Lex;
    LexLast(y);
  }

  // The tokens of a text are those of its key, in some case, and trailing semicolons.
  lemma KeyTokens(sql: string) returns (k: nat)
    requires NoQuotes(Normalize(sql))
    ensures NoQuotes(sql) && Lex(sql).ok == Lex(Normalize(sql)).ok
    ensures UpperTokens(Lex(sql).tokens) == Body(Lex(Normalize(sql)).tokens) + Semicolons(k)
  {
    hide Lex, Sq, Squeeze, DropSpace, DropSemicolons, UpperTokens, Body, Semicolons, NoQuotes;
    SqueezeIsSq(sql, "", false);
    assert "" + Sq(sql, true) == Sq(sql, true);
    k := DroppedSemicolons(DropSpace(Sq(sql, true)));
    DroppedSpace(Sq(sql, true));
    SqQuotes(sql, true);
    LexSq(sql, true);
  }

  lemma DroppedSpace(x: string)
    requires NoQuotes(DropSpace(x))
    ensures NoQuotes(x) && Lex(x) == Lex(DropSpace(x))
  {
    hide Lex, Body, NoQuotes;
    var y := DropSpace(x);
    if x != y {
      assert x == y + [' '];
      QuotesEnd(y, ' ');
      LexEnds(y, ' ');
      BodyAndEnd(y);
    }
  }

  // ---- Parsing up to case ----

  function UpperRef(r: ColumnRef): ColumnRef { ColumnRef(UpperAll(r.table), UpperAll(r.column)) }

  function UpperRefs(rs: seq<ColumnRef>): (u: seq<ColumnRef>)
    ensures |u| == |rs| && forall i :: 0 <= i < |rs| ==> u[i] == UpperRef(rs[i])
  {
    seq(|rs|, i requires 0 <= i < |rs| => UpperRef(rs[i]))
  }

  function UpperWhere(w: Option<WhereClause>): Option<WhereClause> {
    match w
    case None => None
    case Some(c) => Some(WhereClause(UpperRef(c.column), c.op, UpperAll(c.literal)))
  }

  function UpperJoin(j: Option<JoinClause>): Option<JoinClause> {
    match j
    case None => None
    case Some(c) => Some(JoinClause(UpperAll(c.rightTable), UpperRef(c.leftCol), UpperRef(c.rightCol), c.op))
  }

  function UpperQuery(q: SelectStmt): SelectStmt {
    SelectStmt(UpperAll(q.table), UpperRefs(q.columns), q.all, UpperJoin(q.join), UpperWhere(q.where))
  }

  lemma UpperStep(ts: seq<Token>)
    ensures Cur(UpperTokens(ts)) == UpperToken(Cur(ts)) && Adv(UpperTokens(ts)) == UpperTokens(Adv(ts))
    ensures forall k :: At(UpperTokens(ts), k) == At(ts, k)
  {
    assert UpperAll("") == "";
  }

  lemma UpperSkip(ts: seq<Token>, k: Kind)
    ensures SkipIf(UpperTokens(ts), k) == UpperTokens(SkipIf(ts, k))
  {
    UpperStep(ts);
  }

  lemma RefUpper(ts: seq<Token>)
    ensures var (r, rest) := ParseColumnRef(ts); ParseColumnRef(UpperTokens(ts)) == (UpperRef(r), UpperTokens(rest))
  {
    hide UpperTokens, At, Cur, Adv;
    UpperStep(ts);
    UpperStep(Adv(ts));
    UpperStep(Adv(Adv(ts)));
    assert UpperAll("") == "";
  }

  lemma WhereUpper(ts: seq<Token>)
    ensures var (w, rest) := ParseWhere(ts);
            ParseWhere(UpperTokens(ts)) == (UpperWhere(Some(w)).value, UpperTokens(rest))
  {
    hide UpperTokens, At, Cur, Adv, ParseColumnRef;
    RefUpper(ts);
    var (column, t1) := ParseColumnRef(ts);
    UpperStep(t1);
    UpperStep(ParseCmpOp(t1).1);
  }

  lemma {:induction false} ListUpper(ts: seq<Token>)
    ensures ParseColumnList(UpperTokens(ts)) == match ParseColumnList(ts)
                                                case Done(refs, rest) => Done(UpperRefs(refs), UpperTokens(rest))
                                                case Error => Error
                                                case Throws => Throws
    decreases |ts|
  {
    hide UpperTokens, At, Cur, Adv, ParseColumnRef, UpperRef;
    UpperStep(ts);
    RefUpper(ts);
    if At(ts, Identifier) {
      var (ref, rest) := ParseColumnRef(ts);
      UpperStep(rest);
      RefShorter(ts);
      if At(rest, Comma) {
        ListUpper(Adv(rest));
        var more := ParseColumnList(Adv(rest));
        if more.Done? { assert UpperRefs([ref] + more.value) == [UpperRef(ref)] + UpperRefs(more.value); }
      } else {
        assert UpperRefs([ref]) == [UpperRef(ref)];
      }
    }
  }

  lemma JoinUpper(ts: seq<Token>)
    ensures ParseJoin(UpperTokens(ts)) == match ParseJoin(ts)
                                          case Done(j, rest) => Done(UpperJoin(j), UpperTokens(rest))
                                          case Error => Error
                                          case Throws => Throws
  {
    hide UpperTokens, At, Cur, Adv, ParseColumnRef;
    var t1 := Adv(ts);
    var t2 := Adv(t1);
    var t3 := Adv(t2);
    UpperStep(ts);
    UpperStep(t1);
    UpperStep(t2);
    UpperStep(t3);
    RefUpper(Adv(t3));
    var t4 := ParseColumnRef(Adv(t3)).1;
    UpperStep(t4);
    RefUpper(Adv(t4));
  }

  lemma SelectListUpper(ts: seq<Token>)
    ensures ParseSelectList(UpperTokens(ts)) ==
            match ParseSelectList(ts)
            case Done((all, refs), rest) => Done((all, UpperRefs(refs)), UpperTokens(rest))
            case Error => Error
            case Throws => Throws
  {
    hide UpperTokens, At, Cur, Adv, ParseColumnList;
    UpperStep(ts);
    ListUpper(ts);
    assert UpperRefs([]) == [];
  }

  // The parser copies names and literals and decides by token kinds alone.
  lemma SelectUpper(ts: seq<Token>)
    requires Parse(ts).Done? && Parse(ts).value.Select?
    ensures Parse(UpperTokens(ts)) == Done(Select(UpperQuery(Parse(ts).value.query)), UpperTokens(Parse(ts).rest))
  {
    hide UpperTokens, At, Cur, Adv, ParseSelectList, ParseJoin, ParseWhere, SkipIf, ParseCreate, ParseInsert;
    hide UpperRefs, UpperWhere, UpperJoin;
    UpperStep(ts);
    SelectListUpper(Adv(ts));
    SelectKind(ts);
    var t1 := ParseSelectList(Adv(ts)).rest;
    UpperStep(t1);
    UpperStep(Adv(t1));
    JoinUpper(Adv(Adv(t1)));
    var t3 := ParseJoin(Adv(Adv(t1))).rest;
    UpperStep(t3);
    WhereUpper(Adv(t3));
    UpperSkip(t3, Semicolon);
    UpperSkip(ParseWhere(Adv(t3)).1, Semicolon);
    WhereSome(Adv(t3));
  }

  lemma WhereSome(ts: seq<Token>)
    ensures UpperWhere(None) == None && UpperWhere(Some(ParseWhere(ts).0)).Some?
  {
  }

  lemma SelectKind(ts: seq<Token>)
    requires Parse(ts).Done? && Parse(ts).value.Select?
    ensures Cur(ts).kind == KwSelect && ParseSelect(ts) == Parse(ts)
  {
    hide ParseColumnDefs, ParseRows, ParseSelect;
  }

  // ---- What follows a complete statement does not matter ----

  predicate Final(r: seq<Token>) { r != [] && (r[0].kind == Semicolon || r[0].kind == EndOfInput) }

  // No production but the last looks at a semicolon or the end.
  lemma CurExt(b: seq<Token>, r: seq<Token>, r': seq<Token>, k: Kind)
    requires Final(r) && Final(r') && k != Semicolon && k != EndOfInput
    ensures At(b + r, k) == At(b + r', k)
    ensures b != [] ==> Cur(b + r) == Cur(b + r') == b[0] && Adv(b + r) == b[1..] + r && Adv(b + r') == b[1..] + r'
    ensures b == [] ==> !At(b + r, k) && |Adv(b + r)| < |r| && |b + r| == |r|
  {
  }

  lemma AdvLength(ts: seq<Token>)
    ensures |Adv(ts)| <= |ts| && |Adv(Adv(ts))| <= |Adv(ts)|
  {
  }

  lemma RefExt(b: seq<Token>, r: seq<Token>, r': seq<Token>) returns (c: seq<Token>)
    requires Final(r) && Final(r') && |ParseColumnRef(b + r).1| >= |r|
    ensures ParseColumnRef(b + r).1 == c + r && |c| < |b|
    ensures ParseColumnRef(b + r') == (ParseColumnRef(b + r).0, c + r')
  {
    hide At, Cur, Adv, Final;
    CurExt(b, r, r', Dot);
    AdvLength(Adv(b + r));
    if b == [] {
      assert false;
    } else {
      c := b[1..];
      CurExt(c, r, r', Dot);
      if At(c + r, Dot) {
        CurExt(c[1..], r, r', Dot);
        if c[1..] != [] { c := c[2..]; assert b[1..][1..][1..] == c; }
      }
    }
  }

  lemma {:induction false} ListShrinks(ts: seq<Token>)
    requires ParseColumnList(ts).Done?
    ensures |ParseColumnList(ts).rest| <= |ParseColumnRef(ts).1| <= |ts|
    decreases |ts|
  {
    hide Cur, ParseColumnRef;
    RefShorter(ts);
    RefShrinks(ts);
    var rest := ParseColumnRef(ts).1;
    AdvLength(rest);
    if At(rest, Comma) {
      ListShrinks(Adv(rest));
      RefShrinks(Adv(rest));
    }
  }

  lemma RefShrinks(ts: seq<Token>)
    ensures |ParseColumnRef(ts).1| <= |ts|
  {
  }

  lemma {:induction false} ListExt(b: seq<Token>, r: seq<Token>, r': seq<Token>) returns (c: seq<Token>)
    requires Final(r) && Final(r') && ParseColumnList(b + r).Done? && |ParseColumnList(b + r).rest| >= |r|
    ensures ParseColumnList(b + r).rest == c + r && |c| < |b|
    ensures ParseColumnList(b + r') == Done(ParseColumnList(b + r).value, c + r')
    decreases |b|
  {
    hide At, Cur, Adv, ParseColumnRef, Final;
    CurExt(b, r, r', Identifier);
    ListShrinks(b + r);
    c := RefExt(b, r, r');
    CurExt(c, r, r', Comma);
    if At(c + r, Comma) {
      c := ListExt(c[1..], r, r');
    }
  }

  lemma WhereExt(b: seq<Token>, r: seq<Token>, r': seq<Token>) returns (c: seq<Token>)
    requires Final(r) && Final(r') && |ParseWhere(b + r).1| >= |r|
    ensures ParseWhere(b + r).1 == c + r && ParseWhere(b + r') == (ParseWhere(b + r).0, c + r')
  {
    hide At, Cur, Adv, ParseColumnRef, Final;
    WhereShrinks(b + r);
    var c1 := RefExt(b, r, r');
    OpExt(c1, r, r');
    var c2 := if c1 != [] && IsOp(c1[0].kind) then c1[1..] else c1;
    CurExt(c2, r, r', OpEq);
    if c2 == [] {
      assert false;
    } else {
      c := c2[1..];
    }
  }

  lemma WhereShrinks(ts: seq<Token>)
    ensures |ParseWhere(ts).1| <= |ParseColumnRef(ts).1|
  {
    hide ParseColumnRef;
  }

  predicate IsOp(k: Kind) { k == OpEq || k == OpNe || k == OpLt || k == OpGt || k == OpLe || k == OpGe }

  lemma OpExt(b: seq<Token>, r: seq<Token>, r': seq<Token>)
    requires Final(r) && Final(r')
    ensures var c := if b != [] && IsOp(b[0].kind) then b[1..] else b;
            ParseCmpOp(b + r).1 == c + r && ParseCmpOp(b + r') == (ParseCmpOp(b + r).0, c + r')
  {
    CurExt(b, r, r', OpEq);
  }

  lemma SelectListExt(b: seq<Token>, r: seq<Token>, r': seq<Token>) returns (c: seq<Token>)
    requires Final(r) && Final(r') && ParseSelectList(b + r).Done? && |ParseSelectList(b + r).rest| >= |r|
    ensures ParseSelectList(b + r).rest == c + r
    ensures ParseSelectList(b + r') == Done(ParseSelectList(b + r).value, c + r')
  {
    hide At, Cur, Adv, ParseColumnList, Final;
    CurExt(b, r, r', Star);
    if At(b + r, Star) {
      if b == [] { assert false; } else { c := b[1..]; }
    } else {
      c := ListExt(b, r, r');
    }
  }

  // The single-table form of parse_select.
  predicate PlainForm(ts: seq<Token>) {
    var list := ParseSelectList(Adv(ts));
    list.Done? && At(list.rest, KwFrom) && At(Adv(list.rest), Identifier) && !At(Adv(Adv(list.rest)), KwInner)
  }

  // What is left behind its last clause.
  function PlainRest(ts: seq<Token>): seq<Token>
    requires PlainForm(ts)
  {
    var t3 := Adv(Adv(ParseSelectList(Adv(ts)).rest));
    if At(t3, KwWhere) then ParseWhere(Adv(t3)).1 else t3
  }

  function PlainQuery(ts: seq<Token>): SelectStmt
    requires PlainForm(ts)
  {
    var list := ParseSelectList(Adv(ts));
    var t3 := Adv(Adv(list.rest));
    SelectStmt(Cur(Adv(list.rest)).value, list.value.1, list.value.0, None,
               if At(t3, KwWhere) then Some(ParseWhere(Adv(t3)).0) else None)
  }

  lemma PlainUnfold(ts: seq<Token>)
    ensures PlainForm(ts) && Cur(ts).kind == KwSelect ==>
              Parse(ts) == Done(Select(PlainQuery(ts)), SkipIf(PlainRest(ts), Semicolon))
    ensures Parse(ts).Done? && Parse(ts).value.Select? && Parse(ts).value.query.join.None? ==>
              PlainForm(ts) && Cur(ts).kind == KwSelect
  {
    hide At, Adv, Cur, ParseSelectList, ParseColumnRef, ParseWhere, SkipIf, ParseRows, ParseColumnDefs;
  }

  // A single-table SELECT that stops before the semicolons behind it reads the same with other such things behind it.
  lemma SelectExt(b: seq<Token>, r: seq<Token>, r': seq<Token>) returns (c: seq<Token>)
    requires Final(r) && Final(r') && Cur(b + r).kind == KwSelect && PlainForm(b + r) && |PlainRest(b + r)| >= |r|
    ensures Cur(b + r').kind == KwSelect && PlainForm(b + r') && PlainQuery(b + r') == PlainQuery(b + r)
    ensures PlainRest(b + r) == c + r && PlainRest(b + r') == c + r'
    ensures |ParseSelectList(Adv(b + r)).rest| - |r| == |ParseSelectList(Adv(b + r')).rest| - |r'|
  {
    hide At, Cur, Adv, ParseSelectList, ParseWhere, Final;
    KindAt(b + r);
    KindAt(b + r');
    CurExt(b, r, r', KwSelect);
    PlainShrinks(b + r);
    var c1 := SelectListExt(b[1..], r, r');
    CurExt(c1, r, r', KwFrom);
    var c2 := c1[1..];
    CurExt(c2, r, r', Identifier);
    c := c2[1..];
    CurExt(c, r, r', KwInner);
    CurExt(c, r, r', KwWhere);
    if At(c + r, KwWhere) {
      c := WhereExt(c[1..], r, r');
    }
  }

  lemma PlainShrinks(ts: seq<Token>)
    requires PlainForm(ts)
    ensures |PlainRest(ts)| <= |ParseSelectList(Adv(ts)).rest|
  {
    hide ParseSelectList, ParseColumnRef, ParseWhere, At, Cur, Adv;
    var t1 := ParseSelectList(Adv(ts)).rest;
    AdvLength(t1);
    AdvLength(Adv(t1));
    WhereShrinks(Adv(Adv(Adv(t1))));
    RefShrinks(Adv(Adv(Adv(t1))));
    AdvLength(Adv(Adv(t1)));
  }

  lemma KindAt(ts: seq<Token>)
    ensures At(ts, KwSelect) <==> Cur(ts).kind == KwSelect
  {
  }

  // Nothing but semicolons up to the end.
  predicate OnlySemicolons(ts: seq<Token>) {
    ts != [] && ts[|ts| - 1].kind == EndOfInput && forall i :: 0 <= i < |ts| - 1 ==> ts[i].kind == Semicolon
  }

  lemma {:induction false} SemicolonsOnly(k: nat)
    ensures OnlySemicolons(Semicolons(k)) && Final(Semicolons(k)) && |Semicolons(k)| == k + 1
    ensures forall i :: 0 <= i <= k ==> Semicolons(k)[i] == SEMICOLON || Semicolons(k)[i] == END
  {
    if k > 0 { SemicolonsOnly(k - 1); }
  }

  lemma SkipOnly(ts: seq<Token>)
    ensures OnlySemicolons(SkipIf(ts, Semicolon)) ==> ts != []
    ensures OnlySemicolons(ts) ==> OnlySemicolons(SkipIf(ts, Semicolon))
    ensures OnlySemicolons(UpperTokens(ts)) <== OnlySemicolons(ts)
  {
  }

  // ---- Keys that determine their query ----

  predicate NoLetters(s: string) { forall i :: 0 <= i < |s| ==> !IsAlpha(s[i]) }

  // The key of a complete SELECT on one table, without quotes, whose literal is free of letters, and which the cache
  // tracks under the table it reads.
  predicate PlainKey(key: string) {
    && NoQuotes(key)
    && ParseSql(key).Done? && ParseSql(key).value.Select? && OnlySemicolons(ParseSql(key).rest)
    && var q := ParseSql(key).value.query;
       && q.join.None? && TableOf(key) == Some(UpperAll(q.table))
       && (q.where.Some? ==> NoLetters(q.where.value.literal))
  }

  function KeyQuery(key: string): SelectStmt
    requires PlainKey(key)
  {
    ParseSql(key).value.query
  }

  // Every text with such a key is that query, up to the case of its names.
  lemma KeyDetermines(sql: string)
    requires PlainKey(Normalize(sql)) && ParseSql(sql).Done? && ParseSql(sql).value.Select?
    ensures UpperQuery(ParseSql(sql).value.query) == KeyQuery(Normalize(sql))
  {
    hide Parse, Lex, Normalize, NoQuotes, UpperQuery, UpperTokens, Semicolons, TableOf, PlainForm, PlainQuery;
    hide PlainRest;
    var key := Normalize(sql);
    var k := KeyTokens(sql);
    LexLast(key);
    var body := Body(Lex(key).tokens);
    assert Lex(key).tokens == body + [END];
    SemicolonsOnly(k);
    PlainUnfold(body + [END]);
    SkipOnly(PlainRest(body + [END]));
    var c := SelectExt(body, [END], Semicolons(k));
    PlainUnfold(body + Semicolons(k));
    SelectUpper(Lex(sql).tokens);
  }
}
