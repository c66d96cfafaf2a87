/** Every text that the lexer reads, and as which tokens. */
module Spellings {
  import opened Lexer
  import opened Numbers

  // ---- Characters ----

  const SMALL := "abcdefghijklmnopqrstuvwxyz"
  const CAPITAL := "ABCDEFGHIJKLMNOPQRSTUVWXYZ"
  const DIGITS := "0123456789"
  const BLANKS := [' ', '\t', '\n', '\U{B}', '\U{C}', '\r']

  lemma ListedAt(c: char, first: char, list: string)
    requires |list| > 0 && first as int + |list| < 0x80
    requires forall i :: 0 <= i < |list| ==> list[i] as int == first as int + i
    ensures c in list <==> first as int <= c as int < first as int + |list|
    ensures c in list ==> list[c as int - first as int] == c
  {
    if first as int <= c as int < first as int + |list| {
      assert list[c as int - first as int] == c;
    }
  }

  // The classes of characters, and the capital of each letter.
  lemma Characters(c: char)
    ensures IsDigit(c) <==> c in DIGITS
    ensures IsAlpha(c) <==> c in SMALL || c in CAPITAL
    ensures IsIdent(c) <==> c in SMALL || c in CAPITAL || c in DIGITS || c == '_'
    ensures IsSpace(c) <==> c in BLANKS
    ensures forall i :: 0 <= i < 26 && c == SMALL[i] ==> ToUpper(c) == CAPITAL[i]
    ensures c !in SMALL ==> ToUpper(c) == c
  {
    DigitList(c);
    SmallList(c);
    CapitalList(c);
    BlankList(c);
  }

  lemma DigitList(c: char)
    ensures IsDigit(c) <==> c in DIGITS
  {
    ListedAt(c, '0', DIGITS);
  }

  lemma SmallList(c: char)
    ensures IsLower(c) <==> c in SMALL
    ensures forall i :: 0 <= i < 26 ==> SMALL[i] as int == 'a' as int + i
  {
    ListedAt(c, 'a', SMALL);
  }

  lemma CapitalList(c: char)
    ensures 'A' <= c <= 'Z' <==> c in CAPITAL
    ensures forall i :: 0 <= i < 26 ==> CAPITAL[i] as int == 'A' as int + i
  {
    ListedAt(c, 'A', CAPITAL);
  }

  lemma BlankList(c: char)
    ensures IsSpace(c) <==> c in BLANKS
  {
    ListedAt(c, '\t', BLANKS[1..]);
    assert BLANKS == [' '] + BLANKS[1..];
  }

  // ---- How a token may be written ----

  // Keywords, in capitals, and symbols.
  function Spelling(kind: Kind): string {
    match kind
    case KwCreate => "CREATE"
    case KwTable => "TABLE"
    case KwInsert => "INSERT"
    case KwInto => "INTO"
    case KwValues => "VALUES"
    case KwSelect => "SELECT"
    case KwFrom => "FROM"
    case KwWhere => "WHERE"
    case KwInner => "INNER"
    case KwJoin => "JOIN"
    case KwOn => "ON"
    case KwInt => "INT"
    case KwDecimal => "DECIMAL"
    case KwVarchar => "VARCHAR"
    case KwDatetime => "DATETIME"
    case LParen => "("
    case RParen => ")"
    case Comma => ","
    case Semicolon => ";"
    case Dot => "."
    case Star => "*"
    case OpEq => "="
    case OpNe => "!="
    case OpLt => "<"
    case OpGt => ">"
    case OpLe => "<="
    case OpGe => ">="
    case _ => ""
  }

  // The part of speech of a kind of token.
  datatype Class = Reserved | Symbol | Naming | Whole | Fraction | Text | Never

  function ClassOf(kind: Kind): Class {
    match kind
    case Identifier => Naming
    case IntLiteral => Whole
    case FloatLiteral => Fraction
    case StringLiteral => Text
    case EndOfInput => Never
    case Invalid => Never
    case OpEq => Symbol
    case OpNe => Symbol
    case OpLt => Symbol
    case OpGt => Symbol
    case OpLe => Symbol
    case OpGe => Symbol
    case LParen => Symbol
    case RParen => Symbol
    case Comma => Symbol
    case Semicolon => Symbol
    case Dot => Symbol
    case Star => Symbol
    case _ => Reserved
  }

  // A name that is not a keyword.
  predicate IsName(s: string) {
    && s != ""
    && !IsDigit(s[0])
    && (forall i :: 0 <= i < |s| ==> IsIdent(s[i]))
    && Keyword(UpperAll(s)) == Identifier
  }

  function Unsigned(text: string): string { if text != "" && text[0] == '-' then text[1..] else text }

  predicate WholeText(s: string) { s != "" && AllDigits(s) }

  // Digits, a dot, and perhaps more digits.
  predicate FractionAt(s: string, dot: nat) {
    0 < dot < |s| && s[dot] == '.' && AllDigits(s[..dot]) && AllDigits(s[dot + 1..])
  }

  predicate FractionText(s: string) { exists dot: nat | dot < |s| :: FractionAt(s, dot) }

  // The text with a backslash before each marked character.
  function Marked(s: string, marks: seq<bool>): string
    requires |marks| == |s|
  {
    if s == "" then "" else (if marks[0] then ['\\', s[0]] else [s[0]]) + Marked(s[1..], marks[1..])
  }

  // Quotes of the surrounding kind and backslashes have to be marked; other characters may be.
  predicate MarksOk(s: string, marks: seq<bool>, quote: char) {
    |marks| == |s| && forall i :: 0 <= i < |s| && (s[i] == quote || s[i] == '\\') ==> marks[i]
  }

  predicate QuotedAs(s: string, marks: seq<bool>, text: string) {
    && |text| >= 2 && (text[0] == '\'' || text[0] == '\"') && MarksOk(s, marks, text[0])
    && text == [text[0]] + Marked(s, marks) + [text[0]]
  }

  ghost predicate Spells(t: Token, text: string) {
    match ClassOf(t.kind)
    case Reserved => t.value == Spelling(t.kind) && UpperAll(text) == t.value
    case Symbol => text == t.value && (text == Spelling(t.kind) || (t.kind == OpNe && text == "<>"))
    case Naming => text == t.value && IsName(text)
    case Whole => text == t.value && WholeText(Unsigned(text))
    case Fraction => text == t.value && FractionText(Unsigned(text))
    case Text => exists marks :: QuotedAs(t.value, marks, text)
    case Never => false
  }

  // What may stand right behind a token without being read as part of it.
  predicate Apart(kind: Kind, next: string) {
    next == "" ||
    match ClassOf(kind)
    case Reserved => !IsIdent(next[0])
    case Naming => !IsIdent(next[0])
    case Whole => !IsDigit(next[0]) && next[0] != '.'
    case Fraction => !IsDigit(next[0])
    case Symbol => (kind == OpLt ==> next[0] != '=' && next[0] != '>') && (kind == OpGt ==> next[0] != '=')
    case _ => true
  }

  // ---- Written tokens are read back ----

  lemma {:induction false} MarkedBack(s: string, marks: seq<bool>, quote: char, rest: string)
    requires quote != '\\' && MarksOk(s, marks, quote)
    ensures ReadQuoted(Marked(s, marks) + [quote] + rest, quote) == Quoted(s, |Marked(s, marks)| + 1, true)
  {
    hide ReadQuoted;
    var text := Marked(s, marks) + [quote] + rest;
    QuotedStep(text, quote);
    if s != "" {
      var n := if marks[0] then 2 else 1;
      MarkedBack(s[1..], marks[1..], quote, rest);
      assert text[n..] == Marked(s[1..], marks[1..]) + [quote] + rest;
      assert s == [s[0]] + s[1..];
    }
  }

  lemma QuotedBack(t: Token, text: string, rest: string)
    requires t.kind == StringLiteral && Spells(t, text)
    ensures NextLexeme(text + rest) == Lexeme(t, |text|, true)
  {
    hide ReadQuoted, Marked;
    var marks :| QuotedAs(t.value, marks, text);
    MarkedBack(t.value, marks, text[0], rest);
    assert (text + rest)[1..] == Marked(t.value, marks) + [text[0]] + rest;
  }

  lemma {:induction false} IdentSpanStops(s: string, rest: string)
    requires (forall i :: 0 <= i < |s| ==> IsIdent(s[i])) && (rest == "" || !IsIdent(rest[0]))
    ensures IdentSpan(s + rest) == |s|
  {
    if s == "" {
      assert s + rest == rest;
    } else {
      IdentSpanStops(s[1..], rest);
      assert (s + rest)[1..] == s[1..] + rest;
    }
  }

  lemma WordBack(t: Token, text: string, rest: string)
    requires (ClassOf(t.kind) == Naming || ClassOf(t.kind) == Reserved) && Spells(t, text) && Apart(t.kind, rest)
    ensures NextLexeme(text + rest) == Lexeme(t, |text|, true)
  {
    hide IdentSpan, Keyword, Spelling;
    if ClassOf(t.kind) == Reserved {
      KeywordText(t.kind);
      LetterText(text, t.value);
    }
    IdentSpanStops(text, rest);
    assert (text + rest)[..|text|] == text && (text + rest)[0] == text[0];
    assert IsIdent(text[0]);
  }

  lemma KeywordText(kind: Kind)
    requires ClassOf(kind) == Reserved
    ensures Keyword(Spelling(kind)) == kind && Spelling(kind) != ""
    ensures forall i :: 0 <= i < |Spelling(kind)| ==> 'A' <= Spelling(kind)[i] <= 'Z'
  {
    hide Spelling, Keyword;
    KeywordKind(kind);
    KeywordCaps(Spelling(kind));
  }

  lemma KeywordKind(kind: Kind)
    requires ClassOf(kind) == Reserved
    ensures Keyword(Spelling(kind)) == kind
  {
    hide Keyword;
    if kind == KwCreate || kind == KwTable || kind == KwInsert || kind == KwInto || kind == KwValues {
      FirstKeywords();
    } else if kind == KwSelect || kind == KwFrom || kind == KwWhere || kind == KwInner || kind == KwJoin {
      MiddleKeywords();
    } else {
      LastKeywords();
    }
  }

  lemma FirstKeywords()
    ensures Keyword("CREATE") == KwCreate && Keyword("TABLE") == KwTable && Keyword("INSERT") == KwInsert
    ensures Keyword("INTO") == KwInto && Keyword("VALUES") == KwValues
  {
  }

  lemma MiddleKeywords()
    ensures Keyword("SELECT") == KwSelect && Keyword("FROM") == KwFrom && Keyword("WHERE") == KwWhere
    ensures Keyword("INNER") == KwInner && Keyword("JOIN") == KwJoin
  {
  }

  lemma LastKeywords()
    ensures Keyword("ON") == KwOn && Keyword("INT") == KwInt && Keyword("DECIMAL") == KwDecimal
    ensures Keyword("VARCHAR") == KwVarchar && Keyword("DATETIME") == KwDatetime
  {
  }

  lemma KeywordCaps(w: string)
    requires Keyword(w) != Identifier
    ensures w != "" && forall i :: 0 <= i < |w| ==> 'A' <= w[i] <= 'Z'
  {
  }

  lemma LetterText(text: string, upper: string)
    requires UpperAll(text) == upper && forall i :: 0 <= i < |upper| ==> 'A' <= upper[i] <= 'Z'
    ensures |text| == |upper| && forall i :: 0 <= i < |text| ==> IsAlpha(text[i])
  {
    forall i | 0 <= i < |text| ensures IsAlpha(text[i]) {
      assert upper[i] == ToUpper(text[i]);
    }
  }

  lemma {:induction false} DigitsStop(s: string, dotted: bool, rest: string)
    requires AllDigits(s) && (rest == "" || (!IsDigit(rest[0]) && (rest[0] != '.' || dotted)))
    ensures NumberSpan(s + rest, dotted) == |s|
  {
    if s == "" {
      assert s + rest == rest;
    } else {
      DigitsStop(s[1..], dotted, rest);
      assert (s + rest)[1..] == s[1..] + rest;
    }
  }

  lemma {:induction false} FractionStops(s: string, dot: nat, rest: string)
    requires dot < |s| && s[dot] == '.' && AllDigits(s[..dot]) && AllDigits(s[dot + 1..])
    requires rest == "" || !IsDigit(rest[0])
    ensures NumberSpan(s + rest, false) == |s|
  {
    var text := s + rest;
    assert text[1..] == s[1..] + rest;
    if dot == 0 {
      DigitsStop(s[1..], true, rest);
      assert text[0] == '.';
    } else {
      assert s[0] == s[..dot][0] && s[1..][..dot - 1] == s[..dot][1..] && s[1..][dot..] == s[dot + 1..];
      FractionStops(s[1..], dot - 1, rest);
      assert text[0] == s[0];
    }
  }

  // The digits of a number, and whether there is a dot.
  lemma BodyBack(t: Token, body: string, rest: string)
    requires Apart(t.kind, rest)
    requires (ClassOf(t.kind) == Whole && WholeText(body)) || (ClassOf(t.kind) == Fraction && FractionText(body))
    ensures NumberSpan(body + rest, false) == |body|
    ensures body != "" && IsDigit(body[0]) && ('.' in body <==> t.kind == FloatLiteral)
  {
    hide NumberSpan;
    if ClassOf(t.kind) == Whole {
      DigitsStop(body, false, rest);
    } else {
      var dot: nat :| dot < |body| && FractionAt(body, dot);
      FractionStops(body, dot, rest);
      assert body[0] == body[..dot][0];
    }
  }

  lemma NumberBack(t: Token, text: string, rest: string)
    requires (ClassOf(t.kind) == Whole || ClassOf(t.kind) == Fraction) && Spells(t, text) && Apart(t.kind, rest)
    ensures NextLexeme(text + rest) == Lexeme(t, |text|, true)
  {
    hide NumberSpan, WholeText, FractionText;
    var body := Unsigned(text);
    BodyBack(t, body, rest);
    assert (text + rest)[..|text|] == text && (text + rest)[0] == text[0];
    if text[0] == '-' {
      assert (text + rest)[1..] == body + rest && (text + rest)[1] == body[0];
      assert text == ['-'] + body;
    }
  }

  lemma SymbolBack(t: Token, text: string, rest: string)
    requires ClassOf(t.kind) == Symbol && Spells(t, text) && Apart(t.kind, rest)
    ensures NextLexeme(text + rest) == Lexeme(t, |text|, true)
  {
    var all := text + rest;
    assert all[0] == text[0];
    if |text| == 2 { assert all[1] == text[1]; } else if rest != "" { assert all[1] == rest[0]; }
  }

  // A token, however it is written, is read back from its text.
  lemma TokenBack(t: Token, text: string, rest: string)
    requires Spells(t, text) && Apart(t.kind, rest)
    ensures text != "" && !IsSpace(text[0])
    ensures NextLexeme(text + rest) == Lexeme(t, |text|, true)
  {
    hide NextLexeme, Apart;
    SpelledStart(t, text);
    match ClassOf(t.kind)
    case Reserved => WordBack(t, text, rest);
    case Naming => WordBack(t, text, rest);
    case Whole => NumberBack(t, text, rest);
    case Fraction => NumberBack(t, text, rest);
    case Symbol => SymbolBack(t, text, rest);
    case Text => QuotedBack(t, text, rest);
  }

  lemma SpelledStart(t: Token, text: string)
    requires Spells(t, text)
    ensures text != "" && !IsSpace(text[0])
  {
    hide Marked, FractionAt, Keyword;
    match ClassOf(t.kind)
    case Reserved =>
      KeywordText(t.kind);
      LetterText(text, t.value);
    case Naming => assert IsIdent(text[0]);
    case Whole => BodyBack(t, Unsigned(text), "");
    case Fraction => BodyBack(t, Unsigned(text), "");
    case Symbol =>
    case Text =>
  }

  // ---- What is read was so written ----

  lemma {:induction false} QuotedText(s: string, quote: char) returns (marks: seq<bool>)
    requires quote != '\\' && ReadQuoted(s, quote).closed
    ensures var q := ReadQuoted(s, quote);
            MarksOk(q.text, marks, quote) && s[..q.used] == Marked(q.text, marks) + [quote]
  {
    hide ReadQuoted;
    QuotedStep(s, quote);
    if s[0] == quote {
      marks := [];
    } else {
      var n := if s[0] == '\\' then 2 else 1;
      var more := QuotedText(s[n..], quote);
      marks := [n == 2] + more;
      var q, r := ReadQuoted(s, quote), ReadQuoted(s[n..], quote);
      assert q.text[1..] == r.text && marks[1..] == more;
      assert s[..q.used] == s[..n] + s[n..][..r.used];
      assert s[..n] == if n == 2 then ['\\', s[1]] else [s[0]];
    }
  }

  lemma QuotedForth(s: string)
    requires s != "" && (s[0] == '\'' || s[0] == '\"') && QuotedLexeme(s).ok
    ensures var l := QuotedLexeme(s); Spells(l.token, s[..l.used]) && l.token.kind == StringLiteral
  {
    hide ReadQuoted, Marked, MarksOk;
    var l := QuotedLexeme(s);
    var marks := QuotedText(s[1..], s[0]);
    assert s[..l.used] == [s[0]] + s[1..][..l.used - 1];
    assert QuotedAs(l.token.value, marks, s[..l.used]);
  }

  lemma WordForth(s: string)
    requires s != "" && (IsAlpha(s[0]) || s[0] == '_')
    ensures var l := WordLexeme(s); Spells(l.token, s[..l.used]) && Apart(l.token.kind, s[l.used..])
  {
    hide IdentSpan, Keyword, Spelling;
    var l := WordLexeme(s);
    var text := s[..l.used];
    KeywordSpelt(UpperAll(text));
    assert text[0] == s[0];
    if l.used < |s| { assert s[l.used..][0] == s[l.used]; }
  }

  lemma KeywordSpelt(upper: string)
    ensures Keyword(upper) == Identifier || (Spelling(Keyword(upper)) == upper && ClassOf(Keyword(upper)) == Reserved)
  {
    hide Spelling, ClassOf;
    if Keyword(upper) != Identifier {
      SpelledSo(upper);
      ReservedSo(upper);
    }
  }

  lemma SpelledSo(upper: string)
    requires Keyword(upper) != Identifier
    ensures Spelling(Keyword(upper)) == upper
  {
  }

  lemma ReservedSo(upper: string)
    requires Keyword(upper) != Identifier
    ensures ClassOf(Keyword(upper)) == Reserved
  {
  }

  lemma {:induction false} SpanIs(s: string, dotted: bool) returns (dot: nat)
    ensures var n := NumberSpan(s, dotted);
            && dot <= n && AllDigits(s[..dot])
            && (if dot < n then !dotted && s[dot] == '.' && AllDigits(s[dot + 1..n]) else '.' !in s[..n])
            && (n < |s| ==> !IsDigit(s[n]) && (s[n] == '.' ==> dotted || dot < n))
  {
    var n := NumberSpan(s, dotted);
    if n == 0 {
      dot := 0;
    } else if s[0] == '.' {
      var after := SpanIs(s[1..], true);
      dot := 0;
      assert s[1..n] == s[1..][..n - 1] && s[1..][..after] == s[1..n];
    } else {
      var after := SpanIs(s[1..], dotted);
      dot := after + 1;
      assert s[..dot] == [s[0]] + s[1..][..after];
      assert s[..n] == [s[0]] + s[1..][..n - 1];
      if dot < n { assert s[dot + 1..n] == s[1..][after + 1..n - 1]; }
    }
  }

  lemma BodyForth(s: string)
    requires s != "" && IsDigit(s[0])
    ensures var n := NumberSpan(s, false);
            && n > 0
            && (if '.' in s[..n] then FractionText(s[..n]) && Apart(FloatLiteral, s[n..])
                else WholeText(s[..n]) && Apart(IntLiteral, s[n..]))
  {
    hide NumberSpan;
    NumberNotEmpty(s);
    var n := NumberSpan(s, false);
    var dot := SpanIs(s, false);
    var body := s[..n];
    if dot < n {
      assert body[dot] == '.' && body[..dot] == s[..dot] && body[dot + 1..] == s[dot + 1..n];
      assert dot > 0;
      assert FractionAt(body, dot);
    } else {
      assert body == s[..dot];
    }
  }

  lemma NumberForth(s: string)
    requires s != "" && (IsDigit(s[0]) || (s[0] == '-' && |s| > 1 && IsDigit(s[1])))
    ensures var l := NumberLexeme(s); Spells(l.token, s[..l.used]) && Apart(l.token.kind, s[l.used..])
  {
    hide NumberSpan, WholeText, FractionText;
    var l := NumberLexeme(s);
    var text := s[..l.used];
    if s[0] == '-' {
      BodyForth(s[1..]);
      assert text[1..] == s[1..][..l.used - 1] && s[1..][l.used - 1..] == s[l.used..];
      assert '.' in text <==> '.' in text[1..] by { assert text == ['-'] + text[1..]; }
    } else {
      BodyForth(s);
    }
  }

  lemma SymbolForth(s: string)
    requires s != "" && SymbolLexeme(s).ok
    ensures var l := SymbolLexeme(s); Spells(l.token, s[..l.used]) && Apart(l.token.kind, s[l.used..])
  {
    var l := SymbolLexeme(s);
    assert s[..l.used] == if l.used == 1 then [s[0]] else [s[0], s[1]];
    if l.used < |s| { assert s[l.used..][0] == s[l.used]; }
  }

  // Whatever is read as a token is a spelling of it, and it is read to its end.
  lemma TokenForth(s: string)
    requires s != "" && NextLexeme(s).ok
    ensures var l := NextLexeme(s); Spells(l.token, s[..l.used]) && Apart(l.token.kind, s[l.used..])
  {
    hide NumberLexeme, WordLexeme, QuotedLexeme, SymbolLexeme, Spells;
    if IsDigit(s[0]) || (s[0] == '-' && |s| > 1 && IsDigit(s[1])) {
      NumberForth(s);
    } else if IsAlpha(s[0]) || s[0] == '_' {
      WordForth(s);
    } else if s[0] == '\'' || s[0] == '\"' {
      QuotedForth(s);
    } else {
      SymbolForth(s);
    }
  }

  // ---- Whole texts ----

  predicate Blank(s: string) { forall i :: 0 <= i < |s| ==> IsSpace(s[i]) }

  // A token, the text it is written as, and the white space after it.
  datatype Piece = Piece(token: Token, text: string, gap: string)

  function TextOf(ps: seq<Piece>): string { if ps == [] then "" else ps[0].text + ps[0].gap + TextOf(ps[1..]) }

  function TokensOf(ps: seq<Piece>): (ts: seq<Token>)
    ensures |ts| == |ps| && forall k :: 0 <= k < |ps| ==> ts[k] == ps[k].token
  {
    seq(|ps|, k requires 0 <= k < |ps| => ps[k].token)
  }

  // Each piece spells its token, and what follows it is not read as part of it.
  ghost predicate PiecesOk(ps: seq<Piece>) {
    ps == [] ||
    (&& Spells(ps[0].token, ps[0].text) && Blank(ps[0].gap)
     && Apart(ps[0].token.kind, ps[0].gap + TextOf(ps[1..])) && PiecesOk(ps[1..]))
  }

  lemma {:induction false} LexBlank(gap: string, rest: string)
    requires Blank(gap)
    ensures Lex(gap + rest) == Lex(rest)
  {
    if gap == "" {
      assert gap + rest == rest;
    } else {
      LexBlank(gap[1..], rest);
      assert (gap + rest)[1..] == gap[1..] + rest;
    }
  }

  // A text written in pieces is read as their tokens.
  lemma {:induction false} LexPieces(lead: string, ps: seq<Piece>)
    requires Blank(lead) && PiecesOk(ps)
    ensures Lex(lead + TextOf(ps)) == Lexed(TokensOf(ps) + [END], true)
    decreases |ps|
  {
    hide NextLexeme, Spells, Apart;
    LexBlank(lead, TextOf(ps));
    if ps != [] {
      var p, rest := ps[0], TextOf(ps[1..]);
      var text := p.text + p.gap + rest;
      assert text == p.text + (p.gap + rest);
      TokenBack(p.token, p.text, p.gap + rest);
      LexPieces(p.gap, ps[1..]);
      assert text[|p.text|..] == p.gap + rest && text[0] == p.text[0];
      assert TokensOf(ps) == [p.token] + TokensOf(ps[1..]);
    }
  }

  lemma PiecesMore(p: Piece, more: seq<Piece>)
    requires Spells(p.token, p.text) && Apart(p.token.kind, p.gap + TextOf(more)) && Blank(p.gap) && PiecesOk(more)
    ensures PiecesOk([p] + more) && TextOf([p] + more) == p.text + (p.gap + TextOf(more))
    ensures TokensOf([p] + more) == [p.token] + TokensOf(more)
  {
    hide Spells, Apart, Blank;
    assert ([p] + more)[1..] == more;
  }

  lemma LexToken(s: string)
    requires s != "" && !IsSpace(s[0])
    ensures var l := NextLexeme(s);
            Lex(s) == Lexed([l.token] + Lex(s[l.used..]).tokens, l.ok && Lex(s[l.used..]).ok)
  {
    hide NextLexeme;
  }

  // A text that is read without an error is written in such pieces.
  lemma {:induction false} PiecesOf(s: string) returns (lead: string, ps: seq<Piece>)
    requires Lex(s).ok
    ensures Blank(lead) && PiecesOk(ps) && s == lead + TextOf(ps) && Lex(s).tokens == TokensOf(ps) + [END]
    decreases |s|
  {
    hide NextLexeme, Spells, Apart, Lex, PiecesOk, TextOf, TokensOf;
    if s == "" {
      lead, ps := "", [];
      NoText();
    } else if IsSpace(s[0]) {
      LexBlank(s[..1], s[1..]);
      assert s == s[..1] + s[1..];
      lead, ps := PiecesOf(s[1..]);
      lead := [s[0]] + lead;
    } else {
      var l := NextLexeme(s);
      LexToken(s);
      var gap, more := PiecesOf(s[l.used..]);
      TokenForth(s);
      lead, ps := "", [Piece(l.token, s[..l.used], gap)] + more;
      PiecesMore(Piece(l.token, s[..l.used], gap), more);
      assert s == s[..l.used] + s[l.used..];
    }
  }

  lemma NoText()
    ensures Lex("") == Lexed([END], true) && PiecesOk([]) && TextOf([]) == "" && TokensOf([]) == []
  {
  }

  // The lexer accepts exactly the texts made of spelled tokens and white space, and reads them as those tokens.
  lemma LexIff(s: string, ts: seq<Token>)
    ensures Lex(s) == Lexed(ts, true) <==>
            exists lead, ps :: Blank(lead) && PiecesOk(ps) && s == lead + TextOf(ps) && ts == TokensOf(ps) + [END]
  {
    hide Lex, TextOf, PiecesOk, Blank;
    if Lex(s) == Lexed(ts, true) {
      var lead, ps := PiecesOf(s);
    }
    if lead, ps :| Blank(lead) && PiecesOk(ps) && s == lead + TextOf(ps) && ts == TokensOf(ps) + [END] {
      LexPieces(lead, ps);
    }
  }
}
