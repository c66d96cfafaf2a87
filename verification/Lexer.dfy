/** Turning SQL text into tokens. */
module Lexer {

  // ---- Characters (ctype.h in the C locale) ----

  predicate IsSpace(c: char) { c == ' ' || '\t' <= c <= '\r' }
  predicate IsDigit(c: char) { '0' <= c <= '9' }
  predicate IsLower(c: char) { 'a' <= c <= 'z' }
  predicate IsAlpha(c: char) { IsLower(c) || 'A' <= c <= 'Z' }
  predicate IsIdent(c: char) { IsAlpha(c) || IsDigit(c) || c == '_' }

  function ToUpper(c: char): char { if IsLower(c) then c - 'a' + 'A' else c }

  function UpperAll(s: string): (u: string)
    ensures |u| == |s|
  {
    seq(|s|, i requires 0 <= i < |s| => ToUpper(s[i]))
  }

  // ---- Tokens ----

  datatype Kind =
    | KwCreate | KwTable | KwInsert | KwInto | KwValues | KwSelect | KwFrom | KwWhere | KwInner | KwJoin | KwOn
    | KwInt | KwDecimal | KwVarchar | KwDatetime
    | Identifier | IntLiteral | FloatLiteral | StringLiteral
    | OpEq | OpNe | OpLt | OpGt | OpLe | OpGe
    | LParen | RParen | Comma | Semicolon | Dot | Star
    | EndOfInput | Invalid

  datatype Token = Token(kind: Kind, value: string)

  const END := Token(EndOfInput, "")

  function Keyword(upper: string): Kind {
    if upper == "CREATE" then KwCreate
    else if upper == "TABLE" then KwTable
    else if upper == "INSERT" then KwInsert
    else if upper == "INTO" then KwInto
    else if upper == "VALUES" then KwValues
    else if upper == "SELECT" then KwSelect
    else if upper == "FROM" then KwFrom
    else if upper == "WHERE" then KwWhere
    else if upper == "INNER" then KwInner
    else if upper == "JOIN" then KwJoin
    else if upper == "ON" then KwOn
    else if upper == "INT" then KwInt
    else if upper == "DECIMAL" then KwDecimal
    else if upper == "VARCHAR" then KwVarchar
    else if upper == "DATETIME" then KwDatetime
    else Identifier
  }

  // ---- Readers: how many characters at the front of the text belong together ----

  function IdentSpan(s: string): (n: nat)
    ensures n <= |s|
    ensures forall i :: 0 <= i < n ==> IsIdent(s[i])
    ensures n < |s| ==> !IsIdent(s[n])
  {
    if s == "" || !IsIdent(s[0]) then 0 else 1 + IdentSpan(s[1..])
  }

  // Digits with at most one dot; `dotted` says that the dot has been seen.
  function NumberSpan(s: string, dotted: bool): (n: nat)
    ensures n <= |s|
    decreases |s|
  {
    if s == "" then 0
    else if IsDigit(s[0]) then 1 + NumberSpan(s[1..], dotted)
    else if s[0] == '.' && !dotted then 1 + NumberSpan(s[1..], true)
    else 0
  }

  // The text of a string literal after its opening quote, the characters used, and whether it was closed.
  datatype Quoted = Quoted(text: string, used: nat, closed: bool)

  function ReadQuoted(s: string, quote: char): (q: Quoted)
    ensures q.used <= |s|
    decreases |s|
  {
    if s == "" then Quoted("", 0, false)
    else if s[0] == quote then Quoted("", 1, true)
    else if s[0] == '\\' then
      if |s| == 1 then Quoted("", 1, false) else
        var q := ReadQuoted(s[2..], quote);
        Quoted([s[1]] + q.text, q.used + 2, q.closed)
    else
      var q := ReadQuoted(s[1..], quote);
      Quoted([s[0]] + q.text, q.used + 1, q.closed)
  }

  datatype Lexeme = Lexeme(token: Token, used: nat, ok: bool)

  function WordLexeme(s: string): (l: Lexeme)
    requires s != "" && (IsAlpha(s[0]) || s[0] == '_')
    ensures 1 <= l.used <= |s|
  {
    var n := IdentSpan(s);
    var kind := Keyword(UpperAll(s[..n]));
    Lexeme(if kind == Identifier then Token(Identifier, s[..n]) else Token(kind, UpperAll(s[..n])), n, true)
  }

  function NumberLexeme(s: string): (l: Lexeme)
    requires s != "" && (IsDigit(s[0]) || (s[0] == '-' && |s| > 1 && IsDigit(s[1])))
    ensures 1 <= l.used <= |s|
  {
    var n := if s[0] == '-' then 1 + NumberSpan(s[1..], false) else NumberSpan(s, false);
    Lexeme(Token(if '.' in s[..n] then FloatLiteral else IntLiteral, s[..n]), n, true)
  }

  function QuotedLexeme(s: string): (l: Lexeme)
    requires s != ""
    ensures 1 <= l.used <= |s|
  {
    var q := ReadQuoted(s[1..], s[0]);
    Lexeme(Token(StringLiteral, q.text), q.used + 1, q.closed)
  }

  function SymbolLexeme(s: string): (l: Lexeme)
    requires s != ""
    ensures 1 <= l.used <= |s|
  {
    var second := if |s| > 1 then s[1] else '\0';
    match s[0]
    case '(' => Lexeme(Token(LParen, "("), 1, true)
    case ')' => Lexeme(Token(RParen, ")"), 1, true)
    case ',' => Lexeme(Token(Comma, ","), 1, true)
    case ';' => Lexeme(Token(Semicolon, ";"), 1, true)
    case '.' => Lexeme(Token(Dot, "."), 1, true)
    case '*' => Lexeme(Token(Star, "*"), 1, true)
    case '=' => Lexeme(Token(OpEq, "="), 1, true)
    case '<' =>
      if second == '=' then Lexeme(Token(OpLe, "<="), 2, true)
      else if second == '>' then Lexeme(Token(OpNe, "<>"), 2, true)
      else Lexeme(Token(OpLt, "<"), 1, true)
    case '>' =>
      if second == '=' then Lexeme(Token(OpGe, ">="), 2, true)
      else Lexeme(Token(OpGt, ">"), 1, true)
    case '!' =>
      if second == '=' then Lexeme(Token(OpNe, "!="), 2, true)
      else Lexeme(Token(Invalid, "!"), 1, false)
    case c => Lexeme(Token(Invalid, [c]), 1, false)
  }

  function NextLexeme(s: string): (l: Lexeme)
    requires s != ""
    ensures 1 <= l.used <= |s|
  {
    if IsDigit(s[0]) || (s[0] == '-' && |s| > 1 && IsDigit(s[1])) then NumberLexeme(s)
    else if IsAlpha(s[0]) || s[0] == '_' then WordLexeme(s)
    else if s[0] == '\'' || s[0] == '\"' then QuotedLexeme(s)
    else SymbolLexeme(s)
  }

  // The token list, ending in END, and whether no lexical error was met.
  datatype Lexed = Lexed(tokens: seq<Token>, ok: bool)

  // lexer.cpp tokenize
  function Lex(s: string): (r: Lexed)
    ensures |r.tokens| > 0
    decreases |s|
  {
    if s == "" then Lexed([END], true)
    else if IsSpace(s[0]) then Lex(s[1..])
    else
      var l := NextLexeme(s);
      var rest := Lex(s[l.used..]);
      Lexed([l.token] + rest.tokens, l.ok && rest.ok)
  }

  // ---- The scanning loops ----

  // lexer.cpp skip_whitespace
  method SkipWhitespace(input: string, start: nat) returns (pos: nat)
    requires start <= |input|
    ensures start <= pos <= |input| && Lex(input[start..]) == Lex(input[pos..])
    ensures pos < |input| ==> !IsSpace(input[pos])
  {
    pos := start;
    while pos < |input| && IsSpace(input[pos])
      invariant start <= pos <= |input|
      invariant Lex(input[start..]) == Lex(input[pos..])
    {
      assert input[pos..][1..] == input[pos + 1..];
      pos := pos + 1;
    }
  }

  // lexer.cpp read_identifier_or_keyword, the loop
  method ScanIdent(input: string, start: nat) returns (ident: string, pos: nat)
    requires start <= |input|
    ensures pos == start + IdentSpan(input[start..]) && ident == input[start..pos]
  {
    ident, pos := "", start;
    while pos < |input| && IsIdent(input[pos])
      invariant start <= pos <= |input| && ident == input[start..pos]
      invariant pos - start + IdentSpan(input[pos..]) == IdentSpan(input[start..])
    {
      assert input[pos..][1..] == input[pos + 1..];
      ident := ident + [input[pos]];
      pos := pos + 1;
    }
  }

  // lexer.cpp read_number
  method ScanNumber(input: string, start: nat) returns (num: string, dotted: bool, pos: nat)
    requires start <= |input|
    ensures pos == start + NumberSpan(input[start..], false) && num == input[start..pos] && dotted == ('.' in num)
  {
    num, dotted, pos := "", false, start;
    while pos < |input| && (IsDigit(input[pos]) || input[pos] == '.')
      invariant start <= pos <= |input| && num == input[start..pos] && dotted == ('.' in num)
      invariant pos - start + NumberSpan(input[pos..], dotted) == NumberSpan(input[start..], false)
    {
      assert input[pos..][1..] == input[pos + 1..];
      if input[pos] == '.' {
        if dotted { break; }
        dotted := true;
      }
      num := num + [input[pos]];
      pos := pos + 1;
    }
  }

  // lexer.cpp read_string, after the opening quote
  method ScanString(input: string, start: nat, quote: char) returns (text: string, pos: nat, closed: bool)
    requires start <= |input|
    ensures start <= pos <= |input| && Quoted(text, pos - start, closed) == ReadQuoted(input[start..], quote)
  {
    hide ReadQuoted;
    text, pos := "", start;
    ghost var whole, q := ReadQuoted(input[start..], quote), ReadQuoted(input[start..], quote);
    while pos < |input| && input[pos] != quote
      invariant start <= pos <= |input| && q == ReadQuoted(input[pos..], quote)
      invariant whole.text == text + q.text && whole.used == pos - start + q.used && whole.closed == q.closed
      decreases |input| - pos
    {
      QuotedStep(input[pos..], quote);
      if input[pos] == '\\' {
        pos := pos + 1;
        if pos < |input| {
          assert input[pos - 1..][2..] == input[pos + 1..];
          text := text + [input[pos]];
          pos := pos + 1;
        } else {
          QuotedStep(input[pos..], quote);
        }
      } else {
        assert input[pos..][1..] == input[pos + 1..];
        text := text + [input[pos]];
        pos := pos + 1;
      }
      q := ReadQuoted(input[pos..], quote);
    }
    QuotedStep(input[pos..], quote);
    closed := pos < |input|;
    if closed { pos := pos + 1; }
  }

  lemma QuotedStep(s: string, quote: char)
    ensures ReadQuoted(s, quote) ==
            if s == "" then Quoted("", 0, false)
            else if s[0] == quote then Quoted("", 1, true)
            else if s[0] == '\\' && |s| == 1 then Quoted("", 1, false)
            else
              var n := if s[0] == '\\' then 2 else 1;
              var q := ReadQuoted(s[n..], quote);
              Quoted([s[n - 1]] + q.text, q.used + n, q.closed)
  {
  }

  lemma NumberNotEmpty(s: string)
    ensures s != "" && IsDigit(s[0]) ==> NumberSpan(s, false) >= 1
  {
  }

  // The sign, if there is one, and the number behind it.
  method ScanNumberToken(input: string, start: nat) returns (token: Token, pos: nat)
    requires start < |input|
             && (IsDigit(input[start]) || (input[start] == '-' && start + 1 < |input| && IsDigit(input[start + 1])))
    ensures start < pos <= |input| && Lexeme(token, pos - start, true) == NumberLexeme(input[start..])
  {
    hide NumberSpan, NumberLexeme;
    var from := if input[start] == '-' then start + 1 else start;
    var num, dotted, end := ScanNumber(input, from);
    NumberNotEmpty(input[from..]);
    NumberText(input, start, from, end);
    token, pos := Token(if dotted then FloatLiteral else IntLiteral, input[start..end]), end;
  }

  lemma NumberText(input: string, start: nat, from: nat, end: nat)
    requires start <= from <= end <= |input| && start < end
             && from == (if input[start] == '-' then start + 1 else start)
    requires IsDigit(input[start]) || (input[start] == '-' && start + 1 < |input| && IsDigit(input[start + 1]))
    requires end == from + NumberSpan(input[from..], false)
    ensures var dotted := '.' in input[from..end];
            NumberLexeme(input[start..]) ==
              Lexeme(Token(if dotted then FloatLiteral else IntLiteral, input[start..end]), end - start, true)
  {
    hide NumberSpan;
    var rest := input[start..];
    assert rest[0] == input[start] && rest[..end - start] == input[start..end];
    if from == start {
      assert input[from..] == rest;
    } else {
      assert rest[1..] == input[from..] && rest[1] == input[start + 1];
      assert input[start..end] == ['-'] + input[from..end];
    }
  }

  // lexer.cpp tokenize, one token
  method ScanToken(input: string, start: nat) returns (token: Token, pos: nat, ok: bool)
    requires start < |input|
    ensures start < pos <= |input| && Lexeme(token, pos - start, ok) == NextLexeme(input[start..])
  {
    hide ReadQuoted, IdentSpan, Keyword, UpperAll, NumberLexeme, SymbolLexeme;
    var rest := input[start..];
    var c := input[start];
    if IsDigit(c) || (c == '-' && start + 1 < |input| && IsDigit(input[start + 1])) {
      token, pos := ScanNumberToken(input, start);
      ok := true;
    } else if IsAlpha(c) || c == '_' {
      var ident, end := ScanIdent(input, start);
      assert rest[..end - start] == ident;
      var kind := Keyword(UpperAll(ident));
      token := if kind == Identifier then Token(Identifier, ident) else Token(kind, UpperAll(ident));
      pos, ok := end, true;
    } else if c == '\'' || c == '\"' {
      var text, end, closed := ScanString(input, start + 1, c);
      assert rest[1..] == input[start + 1..];
      token, pos, ok := Token(StringLiteral, text), end, closed;
    } else {
      var l := SymbolLexeme(rest);
      token, pos, ok := l.token, start + l.used, l.ok;
    }
  }

  lemma LexStep(input: string, pos: nat, next: nat)
    requires pos < |input| && !IsSpace(input[pos]) && next == pos + NextLexeme(input[pos..]).used
    ensures var l, r := NextLexeme(input[pos..]), Lex(input[next..]);
            Lex(input[pos..]) == Lexed([l.token] + r.tokens, l.ok && r.ok)
  {
    hide NextLexeme;
    assert input[pos..][next - pos..] == input[next..];
  }

  lemma LexNothing()
    ensures Lex("") == Lexed([END], true)
  {
  }

  // lexer.cpp tokenize
  method Tokenize(input: string) returns (tokens: seq<Token>, ok: bool)
    ensures Lexed(tokens, ok) == Lex(input)
  {
    hide NextLexeme, Lex;
    tokens, ok := [], true;
    var pos := 0;
    assert input[0..] == input && [] + Lex(input).tokens == Lex(input).tokens;
    while pos < |input|
      invariant 0 <= pos <= |input|
      invariant var r := Lex(input[pos..]); Lex(input) == Lexed(tokens + r.tokens, ok && r.ok)
      decreases |input| - pos
    {
      pos := SkipWhitespace(input, pos);
      if pos >= |input| { break; }
      var token, next, good := ScanToken(input, pos);
      LexStep(input, pos, next);
      assert tokens + ([token] + Lex(input[next..]).tokens) == tokens + [token] + Lex(input[next..]).tokens;
      tokens := tokens + [token];
      ok := ok && good;
      pos := next;
    }
    assert input[pos..] == "" && Lex("") == Lexed([END], true) by { LexNothing(); }
    tokens := tokens + [END];
  }
}
