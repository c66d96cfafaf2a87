/** What the literals of an INSERT denote, and which rows they make. */
module Literals {
  import opened Values
  import opened Lexer
  import opened Numbers
  import opened Executor

  // ---- Integers as text ----

  // The white space of the C locale.
  predicate Blank(c: char) { c as int in {9, 10, 11, 12, 13, 32} }

  function Zeros(n: nat): (s: string)
    ensures |s| == n && forall i :: 0 <= i < n ==> s[i] == '0'
  {
    seq(n, _ => '0')
  }

  function Abs(n: int): nat { if n < 0 then -n else n }

  datatype Parts = Parts(blanks: string, sign: string, zeros: nat, tail: string)

  function Digits(n: int, zeros: nat): string { Zeros(zeros) + NatText(Abs(n)) }

  // Blanks, a sign, zeros, the number in decimal, and anything that does not go on with a digit.
  predicate Spells(s: string, n: int, p: Parts) {
    && (forall i :: 0 <= i < |p.blanks| ==> Blank(p.blanks[i]))
    && (if p.sign == "-" then n <= 0 else (p.sign == "" || p.sign == "+") && n >= 0)
    && (p.tail == "" || !('0' <= p.tail[0] <= '9'))
    && s == p.blanks + (p.sign + (Digits(n, p.zeros) + p.tail))
  }

  ghost predicate ReadsAs(s: string, n: int) { exists p :: Spells(s, n, p) }

  lemma BlankIsSpace(c: char)
    ensures Blank(c) <==> IsSpace(c)
  {
  }

  lemma DigitsFirst(n: int, p: Parts)
    ensures Digits(n, p.zeros) != "" && IsDigit(Digits(n, p.zeros)[0]) && AllDigits(Digits(n, p.zeros))
  {
    hide NatText;
    var text := NatText(Abs(n));
    assert IsDigit(text[0]);
  }

  lemma {:induction false} ZerosValue(z: nat, s: string)
    requires AllDigits(s) && s != ""
    ensures AllDigits(Zeros(z) + s) && DigitsValue(Zeros(z) + s) == DigitsValue(s)
    decreases |s|
  {
    var n := |s| - 1;
    var all := Zeros(z) + s;
    assert all[..|all| - 1] == Zeros(z) + s[..n];
    if n > 0 {
      ZerosValue(z, s[..n]);
    } else {
      assert s[..n] == "" && Zeros(z) + "" == Zeros(z);
      OnlyZeros(z);
    }
  }

  lemma {:induction false} OnlyZeros(z: nat)
    ensures AllDigits(Zeros(z)) && DigitsValue(Zeros(z)) == 0
  {
    if z > 0 {
      OnlyZeros(z - 1);
      assert Zeros(z)[..z - 1] == Zeros(z - 1);
    }
  }

  // Every digit string is zeros followed by a number in decimal.
  lemma {:induction false} DigitsSplit(d: string) returns (z: nat)
    requires d != "" && AllDigits(d)
    ensures d == Zeros(z) + NatText(DigitsValue(d))
  {
    hide NatText, DigitsValue;
    var n := |d| - 1;
    OneDigitMore(d);
    if n == 0 {
      z := 0;
    } else {
      z := DigitsSplit(d[..n]);
      assert d == d[..n] + [d[n]];
      if DigitsValue(d[..n]) == 0 {
        assert Zeros(z + 1) == Zeros(z) + "0";
        z := z + 1;
      }
    }
  }

  lemma OneDigitMore(d: string)
    requires d != "" && AllDigits(d)
    ensures var init := d[..|d| - 1];
            && AllDigits(init)
            && (DigitsValue(init) > 0 ==> NatText(DigitsValue(d)) == NatText(DigitsValue(init)) + [d[|d| - 1]])
            && (DigitsValue(init) == 0 ==> NatText(DigitsValue(init)) == "0" && NatText(DigitsValue(d)) == [d[|d| - 1]])
            && (init == "" ==> NatText(DigitsValue(d)) == d)
  {
    hide NatText;
    var init, c := d[..|d| - 1], d[|d| - 1] as int - '0' as int;
    LastDigit(DigitsValue(init), c);
    NoDigits();
  }

  lemma LastDigit(v: nat, c: int)
    requires 0 <= c < 10
    ensures v > 0 ==> NatText(10 * v + c) == NatText(v) + [('0' as int + c) as char]
    ensures v == 0 ==> NatText(v) == "0" && NatText(c) == [('0' as int + c) as char]
  {
    assert (10 * v + c) / 10 == v && (10 * v + c) % 10 == c;
  }

  // ---- std::stoi and std::stoll ----

  lemma {:induction false} SpanOfDigits(d: string, tail: string)
    requires AllDigits(d) && (tail == "" || !IsDigit(tail[0]))
    ensures DigitSpan(d + tail) == |d|
  {
    if d == "" {
      assert d + tail == tail;
    } else {
      SpanOfDigits(d[1..], tail);
      assert (d + tail)[1..] == d[1..] + tail;
    }
  }

  lemma SignedRead(n: int, p: Parts, lo: int, hi: int)
    requires Spells(p.sign + (Digits(n, p.zeros) + p.tail), n, p.(blanks := ""))
    ensures ReadInteger(p.sign + (Digits(n, p.zeros) + p.tail), lo, hi) == if lo <= n < hi then Some(n) else None
  {
    hide NatText, DigitsValue, DigitSpan, Digits;
    var s, digits := p.sign + (Digits(n, p.zeros) + p.tail), Digits(n, p.zeros) + p.tail;
    DigitsFirst(n, p);
    SpanOfDigits(Digits(n, p.zeros), p.tail);
    SpelledValue(n, p);
    assert digits[..|Digits(n, p.zeros)|] == Digits(n, p.zeros);
    if p.sign != "" { assert s[1..] == digits; } else { assert s == digits; }
  }

  lemma SpelledValue(n: int, p: Parts)
    ensures AllDigits(Digits(n, p.zeros)) && DigitsValue(Digits(n, p.zeros)) == Abs(n)
  {
    hide NatText, DigitsValue;
    NatTextValue(Abs(n));
    ZerosValue(p.zeros, NatText(Abs(n)));
  }

  lemma {:induction false} SpelledRead(s: string, n: int, p: Parts, lo: int, hi: int)
    requires Spells(s, n, p)
    ensures ReadInteger(s, lo, hi) == if lo <= n < hi then Some(n) else None
    decreases |p.blanks|
  {
    hide NatText, DigitsValue, DigitSpan, Digits;
    if p.blanks == "" {
      assert s == p.sign + (Digits(n, p.zeros) + p.tail);
      SignedRead(n, p, lo, hi);
    } else {
      BlankIsSpace(s[0]);
      var q := p.(blanks := p.blanks[1..]);
      assert s[1..] == q.blanks + (p.sign + (Digits(n, p.zeros) + p.tail));
      SpelledRead(s[1..], n, q, lo, hi);
    }
  }

  lemma {:induction false} ReadSpelled(s: string, lo: int, hi: int) returns (p: Parts)
    requires ReadInteger(s, lo, hi).Some?
    ensures Spells(s, ReadInteger(s, lo, hi).value, p)
    decreases |s|
  {
    hide Digits;
    if s != "" && IsSpace(s[0]) {
      BlankIsSpace(s[0]);
      var q := ReadSpelled(s[1..], lo, hi);
      p := q.(blanks := [s[0]] + q.blanks);
      assert s == [s[0]] + s[1..];
    } else {
      p := UnblankedSpelled(s, lo, hi);
    }
  }

  lemma UnblankedSpelled(s: string, lo: int, hi: int) returns (p: Parts)
    requires ReadInteger(s, lo, hi).Some? && (s == "" || !IsSpace(s[0]))
    ensures Spells(s, ReadInteger(s, lo, hi).value, p)
  {
    hide NatText, DigitsValue, DigitSpan, Zeros;
    var signed := s != "" && (s[0] == '-' || s[0] == '+');
    var digits := if signed then s[1..] else s;
    var k := DigitSpan(digits);
    var z := DigitsSplit(digits[..k]);
    var n := ReadInteger(s, lo, hi).value;
    p := Parts("", if signed then [s[0]] else "", z, digits[k..]);
    assert Abs(n) == DigitsValue(digits[..k]);
    assert digits == digits[..k] + digits[k..];
    assert signed ==> s == [s[0]] + s[1..];
    assert p.blanks + (p.sign + (Digits(n, z) + p.tail)) == p.sign + (Digits(n, z) + p.tail);
  }

  // An integer is read from a text if and only if the text spells it and it fits; and a text spells at most one.
  lemma ReadMeans(s: string, lo: int, hi: int, n: int)
    ensures ReadInteger(s, lo, hi) == Some(n) <==> lo <= n < hi && ReadsAs(s, n)
  {
    hide ReadInteger, Spells;
    if ReadInteger(s, lo, hi) == Some(n) { var p := ReadSpelled(s, lo, hi); }
    if ReadsAs(s, n) {
      var p :| Spells(s, n, p);
      SpelledRead(s, n, p, lo, hi);
    }
  }

  // In particular its plain decimal text spells an integer.
  lemma PlainSpelling(n: int)
    ensures ReadsAs(IntegerText(n), n)
  {
    hide NatText;
    var p := Parts("", if n < 0 then "-" else "", 0, "");
    assert Zeros(0) + NatText(Abs(n)) == NatText(Abs(n));
    assert Digits(n, p.zeros) + "" == Digits(n, p.zeros);
    assert Spells(IntegerText(n), n, p);
  }

  // ---- Literals ----

  ghost predicate Denotes(literal: string, kind: DataType, v: Value, stod: Stod) {
    match kind
    case INT => v.Int? && -0x8000_0000 <= v.i < 0x8000_0000 && ReadsAs(literal, v.i)
    case DATETIME => v.Datetime? && -0x8000_0000_0000_0000 <= v.t < 0x8000_0000_0000_0000 && ReadsAs(literal, v.t)
    case DECIMAL => v.Decimal? && stod(literal) == Some(v.bits)
    case VARCHAR => v == Varchar(literal)
  }

  lemma LiteralMeans(literal: string, kind: DataType, v: Value, stod: Stod)
    ensures ParseLiteral(literal, kind, stod) == Some(v) <==> Denotes(literal, kind, v, stod)
  {
    hide ReadInteger, ReadsAs;
    if v.Int? { ReadMeans(literal, -0x8000_0000, 0x8000_0000, v.i); }
    if v.Datetime? { ReadMeans(literal, -0x8000_0000_0000_0000, 0x8000_0000_0000_0000, v.t); }
  }

  // ---- Rows ----

  ghost predicate FieldMeans(c: Column, literal: string, v: Value, stod: Stod) {
    Denotes(literal, c.kind, v, stod) && (c.kind == VARCHAR ==> |literal| <= c.maxLen)
  }

  // Each field is what the literal at its place denotes.
  ghost predicate RowMeans(columns: Schema, literals: seq<string>, row: Row, stod: Stod) {
    && |row| == |literals| == |columns|
    && forall i :: 0 <= i < |row| ==> FieldMeans(columns[i], literals[i], row[i], stod)
  }

  ghost predicate AllDenote(columns: Schema, literals: seq<string>, row: Row, stod: Stod) {
    && |row| == |literals| == |columns|
    && forall i :: 0 <= i < |row| ==> Denotes(literals[i], columns[i].kind, row[i], stod)
  }

  lemma {:induction false} BuiltMeans(columns: Schema, literals: seq<string>, row: Row, stod: Stod)
    requires |literals| == |columns|
    ensures BuildRow(columns, literals, stod) == Some(row) <==> AllDenote(columns, literals, row, stod)
    decreases |columns|
  {
    hide ParseLiteral, Denotes;
    if columns != [] && row != [] {
      LiteralMeans(literals[0], columns[0].kind, row[0], stod);
      BuiltMeans(columns[1..], literals[1..], row[1..], stod);
      assert row == [row[0]] + row[1..];
      DenoteMore(columns, literals, row, stod);
      var first, rest := ParseLiteral(literals[0], columns[0].kind, stod), BuildRow(columns[1..], literals[1..], stod);
      if first.Some? && rest.Some? {
        var built := [first.value] + rest.value;
        assert built[0] == first.value && built[1..] == rest.value;
      }
    }
  }

  lemma DenoteMore(columns: Schema, literals: seq<string>, row: Row, stod: Stod)
    requires |literals| == |columns| && columns != [] && row != []
    ensures AllDenote(columns, literals, row, stod) <==>
            Denotes(literals[0], columns[0].kind, row[0], stod)
              && AllDenote(columns[1..], literals[1..], row[1..], stod)
  {
    hide Denotes;
    if Denotes(literals[0], columns[0].kind, row[0], stod) && AllDenote(columns[1..], literals[1..], row[1..], stod) {
      forall i | 0 <= i < |row| ensures Denotes(literals[i], columns[i].kind, row[i], stod) {
        if i > 0 {
          assert row[1..][i - 1] == row[i] && literals[1..][i - 1] == literals[i] && columns[1..][i - 1] == columns[i];
        }
      }
    }
  }

  lemma FieldsMean(columns: Schema, literals: seq<string>, row: Row, stod: Stod)
    ensures RowMeans(columns, literals, row, stod) <==>
            AllDenote(columns, literals, row, stod) && ValidRow(columns, row)
  {
    hide ReadsAs;
    if |row| == |literals| == |columns| {
      forall i | 0 <= i < |row|
        ensures FieldMeans(columns[i], literals[i], row[i], stod) <==>
                Denotes(literals[i], columns[i].kind, row[i], stod) && FieldOk(columns[i], row[i])
      {
        DenotedType(literals[i], columns[i].kind, row[i], stod);
      }
    }
  }

  lemma DenotedType(literal: string, kind: DataType, v: Value, stod: Stod)
    ensures Denotes(literal, kind, v, stod) ==> TypeOf(v) == kind && (v.Varchar? ==> v.s == literal)
  {
    hide ReadsAs;
  }

  // A row is accepted from a list of literals if and only if it is the row they stand for.
  lemma AcceptMeans(columns: Schema, literals: seq<string>, row: Row, stod: Stod)
    ensures AcceptRow(columns, literals, stod) == Some(row) <==> RowMeans(columns, literals, row, stod)
  {
    hide BuildRow, ValidRow, RowMeans, AllDenote;
    FieldsMean(columns, literals, row, stod);
    if |literals| == |columns| {
      BuiltMeans(columns, literals, row, stod);
    } else {
      WrongCount(columns, literals, row, stod);
    }
  }

  lemma WrongCount(columns: Schema, literals: seq<string>, row: Row, stod: Stod)
    requires |literals| != |columns|
    ensures !RowMeans(columns, literals, row, stod)
  {
  }

  // Some value fits the column and is what the literal denotes.
  ghost predicate Fits(c: Column, literal: string, stod: Stod) { exists v :: FieldMeans(c, literal, v, stod) }

  // A list of literals is rejected if and only if there are too few or too many, one denotes nothing, or a text is too
  // long for its column.
  lemma RejectMeans(columns: Schema, literals: seq<string>, stod: Stod)
    ensures AcceptRow(columns, literals, stod) == None <==>
            |literals| != |columns| || exists i :: 0 <= i < |columns| && !Fits(columns[i], literals[i], stod)
  {
    hide AcceptRow, FieldMeans;
    var r := AcceptRow(columns, literals, stod);
    if r.Some? {
      AcceptMeans(columns, literals, r.value, stod);
      assert forall i :: 0 <= i < |columns| ==> FieldMeans(columns[i], literals[i], r.value[i], stod);
    } else if |literals| == |columns| && forall i :: 0 <= i < |columns| ==> Fits(columns[i], literals[i], stod) {
      var row := Witness(columns, literals, |columns|, stod);
      AcceptMeans(columns, literals, row, stod);
    }
  }

  lemma {:induction false} Witness(columns: Schema, literals: seq<string>, n: nat, stod: Stod) returns (row: Row)
    requires n <= |columns| == |literals| && forall i :: 0 <= i < |columns| ==> Fits(columns[i], literals[i], stod)
    ensures |row| == n && forall i :: 0 <= i < n ==> FieldMeans(columns[i], literals[i], row[i], stod)
    decreases n
  {
    hide FieldMeans;
    row := [];
    if n > 0 {
      row := Witness(columns, literals, n - 1, stod);
      assert Fits(columns[n - 1], literals[n - 1], stod);
      var v :| FieldMeans(columns[n - 1], literals[n - 1], v, stod);
      row := row + [v];
    }
  }

  // When nothing fits: a text that is too long, or a literal that denotes nothing.
  lemma FitsIff(c: Column, literal: string, stod: Stod)
    ensures c.kind == VARCHAR ==> (Fits(c, literal, stod) <==> |literal| <= c.maxLen)
    ensures c.kind == DECIMAL ==> (Fits(c, literal, stod) <==> stod(literal).Some?)
    ensures c.kind == INT ==>
              (Fits(c, literal, stod) <==> exists n :: -0x8000_0000 <= n < 0x8000_0000 && ReadsAs(literal, n))
    ensures c.kind == DATETIME ==>
              (Fits(c, literal, stod) <==>
               exists n :: -0x8000_0000_0000_0000 <= n < 0x8000_0000_0000_0000 && ReadsAs(literal, n))
  {
    hide ReadsAs;
    if c.kind == VARCHAR && |literal| <= c.maxLen { assert FieldMeans(c, literal, Varchar(literal), stod); }
    if c.kind == DECIMAL && stod(literal).Some? { assert FieldMeans(c, literal, Decimal(stod(literal).value), stod); }
    if c.kind == INT && exists n :: -0x8000_0000 <= n < 0x8000_0000 && ReadsAs(literal, n) {
      var n :| -0x8000_0000 <= n < 0x8000_0000 && ReadsAs(literal, n);
      assert FieldMeans(c, literal, Int(n), stod);
    }
    if c.kind == DATETIME && exists n :: -0x8000_0000_0000_0000 <= n < 0x8000_0000_0000_0000 && ReadsAs(literal, n) {
      var n :| -0x8000_0000_0000_0000 <= n < 0x8000_0000_0000_0000 && ReadsAs(literal, n);
      assert FieldMeans(c, literal, Datetime(n), stod);
    }
  }

  // ---- Batches ----

  ghost predicate NoRowMeans(columns: Schema, literals: seq<string>, stod: Stod) {
    forall row :: !RowMeans(columns, literals, row, stod)
  }

  // The rows inserted are those that the lists stand for, in order, up to the first list that stands for none.
  lemma {:induction false} BatchMeans(columns: Schema, batch: seq<seq<string>>, stod: Stod)
    ensures var rows := Accepted(columns, batch, stod);
            && |rows| <= |batch|
            && (forall i :: 0 <= i < |rows| ==> RowMeans(columns, batch[i], rows[i], stod))
            && (|rows| < |batch| ==> NoRowMeans(columns, batch[|rows|], stod))
  {
    hide AcceptRow, RowMeans;
    if batch != [] {
      var first, rows := AcceptRow(columns, batch[0], stod), Accepted(columns, batch, stod);
      if first.None? {
        forall row ensures !RowMeans(columns, batch[0], row, stod) { AcceptMeans(columns, batch[0], row, stod); }
      } else {
        AcceptMeans(columns, batch[0], first.value, stod);
        BatchMeans(columns, batch[1..], stod);
        assert forall i :: 0 < i < |batch| ==> batch[i] == batch[1..][i - 1];
      }
    }
  }

  // An INSERT adds these rows behind the others of its table, and leaves the other tables alone.
  lemma InsertMeans(db: Db, table: string, batch: seq<seq<string>>, stod: Stod) returns (rows: seq<Row>)
    ensures var name, after := UpperAll(table), ExecInsert(db, table, batch, stod);
            && (name !in db ==> after == db)
            && (name in db ==>
                && after.Keys == db.Keys && (forall n :: n in db && n != name ==> after[n] == db[n])
                && after[name] == Table(db[name].columns, db[name].rows + rows)
                && |rows| <= |batch|
                && (forall i :: 0 <= i < |rows| ==> RowMeans(db[name].columns, batch[i], rows[i], stod))
                && (|rows| < |batch| ==> NoRowMeans(db[name].columns, batch[|rows|], stod)))
  {
    hide Accepted, RowMeans, NoRowMeans, UpperAll;
    rows := [];
    var name := UpperAll(table);
    if name in db {
      rows := Accepted(db[name].columns, batch, stod);
      BatchMeans(db[name].columns, batch, stod);
    }
  }
}
