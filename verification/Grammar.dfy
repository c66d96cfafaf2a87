/** Every statement that the parser accepts, and what it means. */
module Grammar {
  import opened Keys
  import opened Values
  import opened Lexer
  import opened Numbers
  import opened Parser
  import opened Spellings
  import opened SqlText

  // ---- Patterns of tokens ----

  // Any token of a kind, or one certain token.
  datatype Item = Of(kind: Kind) | This(token: Token)

  predicate Fits(i: Item, t: Token) {
    match i
    case Of(kind) => t.kind == kind
    case This(token) => t == token
  }

  // The tokens begin as the pattern says and `rest` is left; behind the last token there are only ENDs.
  predicate Reads(ts: seq<Token>, items: seq<Item>, rest: seq<Token>)
    decreases |items|
  {
    if items == [] then ts == rest else Fits(items[0], Cur(ts)) && Reads(Adv(ts), items[1..], rest)
  }

  function Then(i: Item, items: seq<Item>): seq<Item> { [i] + items }

  // The kind of the token after which a pattern goes on.
  function Next(items: seq<Item>, rest: seq<Token>): Kind {
    if items == [] then Cur(rest).kind else
      match items[0]
      case Of(kind) => kind
      case This(token) => token.kind
  }

  lemma ReadsThen(ts: seq<Token>, i: Item, items: seq<Item>, rest: seq<Token>)
    ensures Reads(ts, Then(i, items), rest) <==> Fits(i, Cur(ts)) && Reads(Adv(ts), items, rest)
  {
    assert ([i] + items)[1..] == items;
  }

  lemma NextThen(i: Item, items: seq<Item>, rest: seq<Token>)
    ensures Next(Then(i, items), rest) == match i case Of(kind) => kind case This(token) => token.kind
  {
  }

  lemma NextIs(ts: seq<Token>, items: seq<Item>, rest: seq<Token>)
    requires Reads(ts, items, rest)
    ensures Cur(ts).kind == Next(items, rest)
  {
  }

  // ---- The grammar: each function puts its pattern before `more`, each predicate looks at what comes behind ----

  datatype Ref = Ref(table: Option<Token>, name: Token)

  function RefItems(r: Ref, more: seq<Item>): seq<Item> {
    if r.table.None? then Then(This(r.name), more)
    else Then(This(r.table.value), Then(Of(Dot), Then(This(r.name), more)))
  }

  predicate RefRight(r: Ref, more: seq<Item>, rest: seq<Token>) { r.table.None? ==> Next(more, rest) != Dot }

  function RefMeaning(r: Ref): ColumnRef {
    ColumnRef(if r.table.None? then "" else r.table.value.value, r.name.value)
  }

  function FirstOf(r: Ref): Token { if r.table.None? then r.name else r.table.value }

  function RefsItems(rs: seq<Ref>, more: seq<Item>): seq<Item> {
    if rs == [] then more
    else RefItems(rs[0], if |rs| == 1 then more else Then(Of(Comma), RefsItems(rs[1..], more)))
  }

  predicate RefsRight(rs: seq<Ref>) { rs != [] && forall k :: 0 <= k < |rs| ==> FirstOf(rs[k]).kind == Identifier }

  function RefMeanings(rs: seq<Ref>): (crs: seq<ColumnRef>)
    ensures |crs| == |rs| && forall k :: 0 <= k < |rs| ==> crs[k] == RefMeaning(rs[k])
  {
    seq(|rs|, k requires 0 <= k < |rs| => RefMeaning(rs[k]))
  }

  datatype Def = Def(name: Token, kind: DataType, length: Option<Token>)

  function DefItems(d: Def, more: seq<Item>): seq<Item> {
    Then(This(d.name), Then(Of(TypeKind(d.kind)),
      if d.length.None? then more else Then(Of(LParen), Then(This(d.length.value), Then(Of(RParen), more)))))
  }

  predicate DefRight(d: Def) {
    && d.name.kind == Identifier
    && (d.length.Some? ==> d.kind == VARCHAR && d.length.value.kind == IntLiteral && Stoi(d.length.value.value).Some?)
  }

  function DefMeaning(d: Def): ColumnDef
    requires DefRight(d)
  {
    ColumnDef(d.name.value, d.kind, if d.length.None? then 255 else Stoi(d.length.value.value).value % 0x1_0000)
  }

  // Column definitions between commas; there may be one more comma at the end.
  function DefsItems(ds: seq<Def>, comma: bool, more: seq<Item>): seq<Item> {
    if ds == [] then more
    else DefItems(ds[0], if |ds| == 1 && !comma then more else Then(Of(Comma), DefsItems(ds[1..], comma, more)))
  }

  predicate DefsRight(ds: seq<Def>) { forall k :: 0 <= k < |ds| ==> DefRight(ds[k]) }

  function DefMeanings(ds: seq<Def>): (cs: seq<ColumnDef>)
    requires DefsRight(ds)
    ensures |cs| == |ds| && forall k :: 0 <= k < |ds| ==> cs[k] == DefMeaning(ds[k])
  {
    seq(|ds|, k requires 0 <= k < |ds| => DefMeaning(ds[k]))
  }

  // The values of a row between commas; there may be one more comma at the end.
  datatype Line = Line(values: seq<Token>, comma: bool)

  function ValuesItems(vs: seq<Token>, comma: bool, more: seq<Item>): seq<Item> {
    if vs == [] then more
    else Then(This(vs[0]), if |vs| == 1 && !comma then more else Then(Of(Comma), ValuesItems(vs[1..], comma, more)))
  }

  // Any token can be a value but a closing parenthesis and the end.
  predicate ValueRight(v: Token) { v.kind != RParen && v.kind != EndOfInput }

  predicate ValuesRight(vs: seq<Token>) {
    forall k :: 0 <= k < |vs| ==> ValueRight(vs[k])
  }

  function Texts(vs: seq<Token>): (ss: seq<string>)
    ensures |ss| == |vs| && forall k :: 0 <= k < |vs| ==> ss[k] == vs[k].value
  {
    seq(|vs|, k requires 0 <= k < |vs| => vs[k].value)
  }

  function LineItems(l: Line, more: seq<Item>): seq<Item> {
    Then(Of(LParen), ValuesItems(l.values, l.comma, Then(Of(RParen), more)))
  }

  function LinesItems(ls: seq<Line>, more: seq<Item>): seq<Item> {
    if ls == [] then more
    else LineItems(ls[0], if |ls| == 1 then more else Then(Of(Comma), LinesItems(ls[1..], more)))
  }

  predicate LinesRight(ls: seq<Line>) { ls != [] && forall k :: 0 <= k < |ls| ==> ValuesRight(ls[k].values) }

  function LineMeanings(ls: seq<Line>): (rows: seq<seq<string>>)
    ensures |rows| == |ls| && forall k :: 0 <= k < |ls| ==> rows[k] == Texts(ls[k].values)
  {
    seq(|ls|, k requires 0 <= k < |ls| => Texts(ls[k].values))
  }

  datatype Joined = Joined(table: Token, left: Ref, right: Ref)

  function JoinItems(j: Option<Joined>, more: seq<Item>): seq<Item> {
    if j.None? then more else
      Then(Of(KwInner), Then(Of(KwJoin), Then(This(j.value.table), Then(Of(KwOn),
        RefItems(j.value.left, Then(Of(OpEq), RefItems(j.value.right, more)))))))
  }

  predicate JoinRight(j: Option<Joined>, more: seq<Item>, rest: seq<Token>) {
    if j.None? then Next(more, rest) != KwInner
    else j.value.table.kind == Identifier && RefRight(j.value.right, more, rest)
  }

  function JoinMeaning(j: Option<Joined>): Option<JoinClause> {
    if j.None? then None
    else Some(JoinClause(j.value.table.value, RefMeaning(j.value.left), RefMeaning(j.value.right), EQ))
  }

  // A condition; without an operator it means '='.
  datatype Cond = Cond(column: Ref, op: Option<CmpOp>, literal: Token)

  function CondItems(c: Cond, more: seq<Item>): seq<Item> {
    RefItems(c.column,
      if c.op.None? then Then(This(c.literal), more) else Then(Of(OpKind(c.op.value)), Then(This(c.literal), more)))
  }

  predicate IsOp(kind: Kind) {
    kind == OpEq || kind == OpNe || kind == OpLt || kind == OpGt || kind == OpLe || kind == OpGe
  }

  predicate CondRight(c: Cond) {
    c.op.None? ==> !IsOp(c.literal.kind) && (c.column.table.None? ==> c.literal.kind != Dot)
  }

  function CondMeaning(c: Cond): WhereClause {
    WhereClause(RefMeaning(c.column), if c.op.None? then EQ else c.op.value, c.literal.value)
  }

  function WhereItems(w: Option<Cond>, more: seq<Item>): seq<Item> {
    if w.None? then more else Then(Of(KwWhere), CondItems(w.value, more))
  }

  predicate WhereRight(w: Option<Cond>, more: seq<Item>, rest: seq<Token>) {
    if w.None? then Next(more, rest) != KwWhere else CondRight(w.value)
  }

  function WhereMeaning(w: Option<Cond>): Option<WhereClause> {
    if w.None? then None else Some(CondMeaning(w.value))
  }

  // A statement may be closed by a semicolon.
  datatype Phrase =
    | CreatePhrase(table: Token, defs: seq<Def>, comma: bool, closed: bool)
    | InsertPhrase(table: Token, lines: seq<Line>, closed: bool)
    | SelectPhrase(list: Option<seq<Ref>>, table: Token, join: Option<Joined>, where: Option<Cond>, closed: bool)

  function CloseItems(closed: bool): seq<Item> { if closed then [Of(Semicolon)] else [] }

  function ListItems(list: Option<seq<Ref>>, more: seq<Item>): seq<Item> {
    if list.None? then Then(Of(Star), more) else RefsItems(list.value, more)
  }

  function PhraseItems(p: Phrase): seq<Item> {
    var close := CloseItems(p.closed);
    match p
    case CreatePhrase(table, defs, comma, _) =>
      Then(Of(KwCreate), Then(Of(KwTable), Then(This(table), Then(Of(LParen),
        DefsItems(defs, comma, Then(Of(RParen), close))))))
    case InsertPhrase(table, lines, _) =>
      Then(Of(KwInsert), Then(Of(KwInto), Then(This(table), Then(Of(KwValues), LinesItems(lines, close)))))
    case SelectPhrase(list, table, join, where, _) =>
      Then(Of(KwSelect), ListItems(list, Then(Of(KwFrom), Then(This(table),
        JoinItems(join, WhereItems(where, close))))))
  }

  predicate PhraseRight(p: Phrase, rest: seq<Token>) {
    && p.table.kind == Identifier && (p.closed || Cur(rest).kind != Semicolon)
    && match p
       case CreatePhrase(_, defs, _, _) => DefsRight(defs)
       case InsertPhrase(_, lines, _) => LinesRight(lines) && Next(CloseItems(p.closed), rest) != Comma
       case SelectPhrase(list, _, join, where, _) =>
         && (list.Some? ==> RefsRight(list.value))
         && JoinRight(join, WhereItems(where, CloseItems(p.closed)), rest)
         && WhereRight(where, CloseItems(p.closed), rest)
  }

  function Meaning(p: Phrase): Statement
    requires p.CreatePhrase? ==> DefsRight(p.defs)
  {
    match p
    case CreatePhrase(table, defs, _, _) => CreateTable(table.value, DefMeanings(defs))
    case InsertPhrase(table, lines, _) => Insert(table.value, LineMeanings(lines))
    case SelectPhrase(list, table, join, where, _) =>
      Select(SelectStmt(table.value, if list.None? then [] else RefMeanings(list.value), list.None?, JoinMeaning(join),
                        WhereMeaning(where)))
  }

  // ---- References ----

  lemma RefReads(ts: seq<Token>, r: Ref, more: seq<Item>, rest: seq<Token>)
    requires Reads(ts, RefItems(r, more), rest) && RefRight(r, more, rest)
    ensures ParseColumnRef(ts).0 == RefMeaning(r) && Reads(ParseColumnRef(ts).1, more, rest)
    ensures Cur(ts) == FirstOf(r)
  {
    hide Reads, Next, Then, Cur, Adv;
    if r.table.None? {
      ReadsThen(ts, This(r.name), more, rest);
      NextIs(Adv(ts), more, rest);
    } else {
      ReadsThen(ts, This(r.table.value), Then(Of(Dot), Then(This(r.name), more)), rest);
      ReadsThen(Adv(ts), Of(Dot), Then(This(r.name), more), rest);
      ReadsThen(Adv(Adv(ts)), This(r.name), more, rest);
    }
  }

  lemma RefRead(ts: seq<Token>, more: seq<Item>, rest: seq<Token>) returns (r: Ref)
    requires Reads(ParseColumnRef(ts).1, more, rest)
    ensures Reads(ts, RefItems(r, more), rest) && RefRight(r, more, rest) && FirstOf(r) == Cur(ts)
    ensures RefMeaning(r) == ParseColumnRef(ts).0
  {
    hide Reads, Next, Then, Cur, Adv;
    if At(Adv(ts), Dot) {
      r := Ref(Some(Cur(ts)), Cur(Adv(Adv(ts))));
      ReadsThen(ts, This(r.table.value), Then(Of(Dot), Then(This(r.name), more)), rest);
      ReadsThen(Adv(ts), Of(Dot), Then(This(r.name), more), rest);
      ReadsThen(Adv(Adv(ts)), This(r.name), more, rest);
    } else {
      r := Ref(None, Cur(ts));
      ReadsThen(ts, This(r.name), more, rest);
      NextIs(Adv(ts), more, rest);
    }
  }

  lemma {:induction false} RefsReads(ts: seq<Token>, rs: seq<Ref>, more: seq<Item>, rest: seq<Token>)
    requires RefsRight(rs) && Reads(ts, RefsItems(rs, more), rest) && Next(more, rest) == KwFrom
    ensures var p := ParseColumnList(ts); p.Done? && p.value == RefMeanings(rs) && Reads(p.rest, more, rest)
    decreases |rs|
  {
    hide Reads, Next, Then, RefItems, ParseColumnRef, Cur, Adv, RefMeaning;
    var after := if |rs| == 1 then more else Then(Of(Comma), RefsItems(rs[1..], more));
    NextThen(Of(Comma), RefsItems(rs[1..], more), rest);
    RefReads(ts, rs[0], after, rest);
    var t1 := ParseColumnRef(ts).1;
    NextIs(t1, after, rest);
    if |rs| > 1 {
      ReadsThen(t1, Of(Comma), RefsItems(rs[1..], more), rest);
      RefsReads(Adv(t1), rs[1..], more, rest);
      assert RefMeanings(rs) == [RefMeaning(rs[0])] + RefMeanings(rs[1..]);
    }
  }

  lemma RefsOne(r: Ref, more: seq<Item>)
    requires FirstOf(r).kind == Identifier
    ensures RefsRight([r]) && RefsItems([r], more) == RefItems(r, more) && RefMeanings([r]) == [RefMeaning(r)]
  {
    hide RefItems, RefMeaning;
  }

  lemma RefsMore(r: Ref, others: seq<Ref>, more: seq<Item>)
    requires FirstOf(r).kind == Identifier && RefsRight(others)
    ensures var rs := [r] + others;
            && RefsRight(rs) && RefsItems(rs, more) == RefItems(r, Then(Of(Comma), RefsItems(others, more)))
            && RefMeanings(rs) == [RefMeaning(r)] + RefMeanings(others)
  {
    hide RefItems, RefMeaning;
    assert ([r] + others)[1..] == others;
  }

  lemma {:induction false} RefsRead(ts: seq<Token>, more: seq<Item>, rest: seq<Token>) returns (rs: seq<Ref>)
    requires ParseColumnList(ts).Done? && Reads(ParseColumnList(ts).rest, more, rest) && Next(more, rest) == KwFrom
    ensures RefsRight(rs) && Reads(ts, RefsItems(rs, more), rest) && RefMeanings(rs) == ParseColumnList(ts).value
    decreases |ts|
  {
    hide Reads, Next, Then, RefItems, ParseColumnRef, RefMeaning, RefRight, RefsItems, RefMeanings, RefsRight;
    var t1 := ParseColumnRef(ts).1;
    if !At(t1, Comma) {
      var r := RefRead(ts, more, rest);
      rs := [r];
      RefsOne(r, more);
    } else {
      RefShorter(ts);
      var others := RefsRead(Adv(t1), more, rest);
      ReadsThen(t1, Of(Comma), RefsItems(others, more), rest);
      var r := RefRead(ts, Then(Of(Comma), RefsItems(others, more)), rest);
      rs := [r] + others;
      RefsMore(r, others, more);
    }
  }

  // ---- Column definitions ----

  lemma DefReads(ts: seq<Token>, d: Def, more: seq<Item>, rest: seq<Token>)
    requires DefRight(d) && Reads(ts, DefItems(d, more), rest) && Next(more, rest) != LParen
    ensures var p := ParseColumnDef(ts); p.Done? && p.value == DefMeaning(d) && Reads(p.rest, more, rest)
    ensures At(ts, Identifier)
  {
    hide Reads, Next, Then, Cur, Adv, Stoi;
    var t1 := Adv(ts);
    var t2 := Adv(t1);
    var tail := if d.length.None? then more
                else Then(Of(LParen), Then(This(d.length.value), Then(Of(RParen), more)));
    ReadsThen(ts, This(d.name), Then(Of(TypeKind(d.kind)), tail), rest);
    ReadsThen(t1, Of(TypeKind(d.kind)), tail, rest);
    NextIs(t2, tail, rest);
    if d.length.Some? {
      ReadsThen(t2, Of(LParen), Then(This(d.length.value), Then(Of(RParen), more)), rest);
      ReadsThen(Adv(t2), This(d.length.value), Then(Of(RParen), more), rest);
      ReadsThen(Adv(Adv(t2)), Of(RParen), more, rest);
    }
  }

  lemma DefRead(ts: seq<Token>, more: seq<Item>, rest: seq<Token>) returns (d: Def)
    requires ParseColumnDef(ts).Done? && Reads(ParseColumnDef(ts).rest, more, rest) && Next(more, rest) != LParen
    ensures DefRight(d) && Reads(ts, DefItems(d, more), rest) && DefMeaning(d) == ParseColumnDef(ts).value
  {
    hide Reads, Next, Then, Cur, Adv, Stoi;
    var t1 := Adv(ts);
    var t2 := Adv(t1);
    var kind := TypeName(Cur(t1).kind).value;
    d := Def(Cur(ts), kind, if kind == VARCHAR && At(t2, LParen) then Some(Cur(Adv(t2))) else None);
    var tail := if d.length.None? then more
                else Then(Of(LParen), Then(This(d.length.value), Then(Of(RParen), more)));
    ReadsThen(ts, This(d.name), Then(Of(TypeKind(d.kind)), tail), rest);
    ReadsThen(t1, Of(TypeKind(d.kind)), tail, rest);
    if d.length.Some? {
      ReadsThen(t2, Of(LParen), Then(This(d.length.value), Then(Of(RParen), more)), rest);
      ReadsThen(Adv(t2), This(d.length.value), Then(Of(RParen), more), rest);
      ReadsThen(Adv(Adv(t2)), Of(RParen), more, rest);
    }
  }

  lemma {:induction false} DefsReads(ts: seq<Token>, ds: seq<Def>, comma: bool, more: seq<Item>, rest: seq<Token>)
    requires DefsRight(ds) && Reads(ts, DefsItems(ds, comma, more), rest) && Next(more, rest) == RParen
    ensures var p := ParseColumnDefs(ts); p.Done? && p.value == DefMeanings(ds) && Reads(p.rest, more, rest)
    decreases |ds|
  {
    hide Reads, Next, Then, DefItems, ParseColumnDef, Cur, Adv, DefMeaning, DefRight;
    if ds == [] {
      NextIs(ts, more, rest);
    } else {
      var after := if |ds| == 1 && !comma then more else Then(Of(Comma), DefsItems(ds[1..], comma, more));
      NextThen(Of(Comma), DefsItems(ds[1..], comma, more), rest);
      DefReads(ts, ds[0], after, rest);
      var t1 := ParseColumnDef(ts).rest;
      NextIs(t1, after, rest);
      assert DefMeanings(ds) == [DefMeaning(ds[0])] + DefMeanings(ds[1..]);
      if |ds| > 1 || comma {
        ReadsThen(t1, Of(Comma), DefsItems(ds[1..], comma, more), rest);
        DefsReads(Adv(t1), ds[1..], comma, more, rest);
      }
    }
  }

  lemma DefsNone(more: seq<Item>)
    ensures DefsRight([]) && DefsItems([], false, more) == more && DefMeanings([]) == []
  {
  }

  lemma DefsOne(d: Def, more: seq<Item>)
    requires DefRight(d)
    ensures DefsRight([d]) && DefsItems([d], false, more) == DefItems(d, more) && DefMeanings([d]) == [DefMeaning(d)]
  {
    hide DefItems, DefMeaning, DefRight;
  }

  lemma DefsMore(d: Def, others: seq<Def>, last: bool, more: seq<Item>)
    requires DefRight(d) && DefsRight(others)
    ensures var ds := [d] + others;
            && DefsRight(ds) && DefMeanings(ds) == [DefMeaning(d)] + DefMeanings(others)
            && DefsItems(ds, last || others == [], more) == DefItems(d, Then(Of(Comma), DefsItems(others, last, more)))
  {
    hide DefItems, DefMeaning, DefRight;
    assert ([d] + others)[1..] == others;
  }

  lemma {:induction false} DefsRead(ts: seq<Token>, more: seq<Item>, rest: seq<Token>)
    returns (ds: seq<Def>, comma: bool)
    requires ParseColumnDefs(ts).Done? && Reads(ParseColumnDefs(ts).rest, more, rest) && Next(more, rest) == RParen
    ensures DefsRight(ds) && Reads(ts, DefsItems(ds, comma, more), rest)
    ensures DefMeanings(ds) == ParseColumnDefs(ts).value
    decreases |ts|
  {
    hide Reads, Next, Then, DefItems, ParseColumnDef, DefMeaning, DefRight, DefsItems, DefsRight, DefMeanings;
    ds, comma := [], false;
    DefsNone(more);
    if !At(ts, RParen) && !At(ts, EndOfInput) {
      var t1 := ParseColumnDef(ts).rest;
      if !At(t1, Comma) {
        var d := DefRead(ts, more, rest);
        ds := [d];
        DefsOne(d, more);
      } else {
        var others, last := DefsRead(Adv(t1), more, rest);
        comma := last || others == [];
        var after := Then(Of(Comma), DefsItems(others, last, more));
        ReadsThen(t1, Of(Comma), DefsItems(others, last, more), rest);
        NextThen(Of(Comma), DefsItems(others, last, more), rest);
        var d := DefRead(ts, after, rest);
        ds := [d] + others;
        DefsMore(d, others, last, more);
      }
    }
  }

  // ---- Rows ----

  lemma {:induction false} ValuesReads(ts: seq<Token>, vs: seq<Token>, comma: bool, more: seq<Item>, rest: seq<Token>)
    requires ValuesRight(vs) && Reads(ts, ValuesItems(vs, comma, more), rest) && Next(more, rest) == RParen
    ensures ParseRowValues(ts).0 == Texts(vs) && Reads(ParseRowValues(ts).1, more, rest)
    ensures At(ParseRowValues(ts).1, RParen)
    decreases |vs|
  {
    hide Reads, Next, Then, Cur, Adv;
    if vs == [] {
      NextIs(ts, more, rest);
    } else {
      var after := if |vs| == 1 && !comma then more else Then(Of(Comma), ValuesItems(vs[1..], comma, more));
      ReadsThen(ts, This(vs[0]), after, rest);
      NextIs(Adv(ts), after, rest);
      assert Texts(vs) == [vs[0].value] + Texts(vs[1..]);
      if |vs| > 1 || comma {
        ReadsThen(Adv(ts), Of(Comma), ValuesItems(vs[1..], comma, more), rest);
        ValuesReads(Adv(Adv(ts)), vs[1..], comma, more, rest);
      }
    }
  }

  lemma ValuesFew(v: Token, more: seq<Item>)
    ensures ValuesRight([]) && ValuesItems([], false, more) == more && Texts([]) == []
    ensures ValuesItems([v], false, more) == Then(This(v), more) && Texts([v]) == [v.value]
    ensures ValueRight(v) ==> ValuesRight([v])
  {
  }

  lemma ValuesMore(v: Token, others: seq<Token>, last: bool, more: seq<Item>)
    requires ValueRight(v) && ValuesRight(others)
    ensures var vs := [v] + others;
            && ValuesRight(vs) && Texts(vs) == [v.value] + Texts(others)
            && ValuesItems(vs, last || others == [], more) ==
               Then(This(v), Then(Of(Comma), ValuesItems(others, last, more)))
  {
    assert ([v] + others)[1..] == others;
  }

  lemma {:induction false} ValuesRead(ts: seq<Token>, more: seq<Item>, rest: seq<Token>)
    returns (vs: seq<Token>, comma: bool)
    requires At(ParseRowValues(ts).1, RParen) && Reads(ParseRowValues(ts).1, more, rest)
    ensures ValuesRight(vs) && Reads(ts, ValuesItems(vs, comma, more), rest) && Texts(vs) == ParseRowValues(ts).0
    decreases |ts|
  {
    hide Reads, Next, Then, ValuesItems, ValuesRight, Texts;
    vs, comma := [], false;
    ValuesFew(Cur(ts), more);
    if !At(ts, RParen) && !At(ts, EndOfInput) {
      vs := [Cur(ts)];
      if !At(Adv(ts), Comma) {
        ReadsThen(ts, This(Cur(ts)), more, rest);
      } else {
        var others, last := ValuesRead(Adv(Adv(ts)), more, rest);
        comma := last || others == [];
        ValuesMore(Cur(ts), others, last, more);
        ReadsThen(Adv(ts), Of(Comma), ValuesItems(others, last, more), rest);
        ReadsThen(ts, This(Cur(ts)), Then(Of(Comma), ValuesItems(others, last, more)), rest);
        vs := [Cur(ts)] + others;
      }
    }
  }

  lemma LineReads(ts: seq<Token>, l: Line, more: seq<Item>, rest: seq<Token>)
    requires ValuesRight(l.values) && Reads(ts, LineItems(l, more), rest)
    ensures At(ts, LParen) && ParseRowValues(Adv(ts)).0 == Texts(l.values) && At(ParseRowValues(Adv(ts)).1, RParen)
    ensures Reads(Adv(ParseRowValues(Adv(ts)).1), more, rest)
  {
    hide Reads, Next, Then, Cur, Adv, ParseRowValues, ValuesItems;
    var close := Then(Of(RParen), more);
    ReadsThen(ts, Of(LParen), ValuesItems(l.values, l.comma, close), rest);
    NextThen(Of(RParen), more, rest);
    ValuesReads(Adv(ts), l.values, l.comma, close, rest);
    ReadsThen(ParseRowValues(Adv(ts)).1, Of(RParen), more, rest);
  }

  lemma LineRead(ts: seq<Token>, more: seq<Item>, rest: seq<Token>) returns (l: Line)
    requires At(ts, LParen) && At(ParseRowValues(Adv(ts)).1, RParen)
    requires Reads(Adv(ParseRowValues(Adv(ts)).1), more, rest)
    ensures ValuesRight(l.values) && Reads(ts, LineItems(l, more), rest) && Texts(l.values) == ParseRowValues(Adv(ts)).0
  {
    hide Reads, Next, Then, Cur, Adv, ParseRowValues, ValuesItems;
    var close := Then(Of(RParen), more);
    ReadsThen(ParseRowValues(Adv(ts)).1, Of(RParen), more, rest);
    var vs, comma := ValuesRead(Adv(ts), close, rest);
    l := Line(vs, comma);
    ReadsThen(ts, Of(LParen), ValuesItems(vs, comma, close), rest);
  }

  lemma {:induction false} LinesReads(ts: seq<Token>, ls: seq<Line>, more: seq<Item>, rest: seq<Token>)
    requires LinesRight(ls) && Reads(ts, LinesItems(ls, more), rest) && Next(more, rest) != Comma
    ensures var p := ParseRows(ts); p.Done? && p.value == LineMeanings(ls) && Reads(p.rest, more, rest)
    decreases |ls|
  {
    hide Reads, Next, Then, LineItems, ParseRowValues, Cur, Adv, Texts, ValuesRight;
    var after := if |ls| == 1 then more else Then(Of(Comma), LinesItems(ls[1..], more));
    LineReads(ts, ls[0], after, rest);
    var t1 := Adv(ParseRowValues(Adv(ts)).1);
    NextIs(t1, after, rest);
    if |ls| > 1 {
      ReadsThen(t1, Of(Comma), LinesItems(ls[1..], more), rest);
      LinesReads(Adv(t1), ls[1..], more, rest);
      assert LineMeanings(ls) == [Texts(ls[0].values)] + LineMeanings(ls[1..]);
    }
  }

  lemma LinesOne(l: Line, more: seq<Item>)
    requires ValuesRight(l.values)
    ensures LinesRight([l]) && LinesItems([l], more) == LineItems(l, more) && LineMeanings([l]) == [Texts(l.values)]
  {
    hide LineItems, ValuesRight, Texts;
  }

  lemma LinesMore(l: Line, others: seq<Line>, more: seq<Item>)
    requires ValuesRight(l.values) && LinesRight(others)
    ensures var ls := [l] + others;
            && LinesRight(ls) && LinesItems(ls, more) == LineItems(l, Then(Of(Comma), LinesItems(others, more)))
            && LineMeanings(ls) == [Texts(l.values)] + LineMeanings(others)
  {
    hide LineItems, ValuesRight, Texts;
    assert ([l] + others)[1..] == others;
  }

  lemma {:induction false} LinesRead(ts: seq<Token>, more: seq<Item>, rest: seq<Token>) returns (ls: seq<Line>)
    requires ParseRows(ts).Done? && Reads(ParseRows(ts).rest, more, rest)
    ensures LinesRight(ls) && Reads(ts, LinesItems(ls, more), rest) && LineMeanings(ls) == ParseRows(ts).value
    ensures !At(ParseRows(ts).rest, Comma)
    decreases |ts|
  {
    hide Reads, Next, Then, LineItems, ParseRowValues, Texts, ValuesRight, LinesItems, LineMeanings, LinesRight;
    var t1 := Adv(ParseRowValues(Adv(ts)).1);
    if !At(t1, Comma) {
      var l := LineRead(ts, more, rest);
      ls := [l];
      LinesOne(l, more);
    } else {
      var others := LinesRead(Adv(t1), more, rest);
      ReadsThen(t1, Of(Comma), LinesItems(others, more), rest);
      var l := LineRead(ts, Then(Of(Comma), LinesItems(others, more)), rest);
      ls := [l] + others;
      LinesMore(l, others, more);
    }
  }

  // ---- Joins and conditions ----

  lemma JoinReads(ts: seq<Token>, j: Option<Joined>, more: seq<Item>, rest: seq<Token>)
    requires JoinRight(j, more, rest) && Reads(ts, JoinItems(j, more), rest)
    ensures var p := ParseJoin(ts); p.Done? && p.value == JoinMeaning(j) && Reads(p.rest, more, rest)
  {
    hide Reads, Next, Then, Cur, Adv, RefItems, ParseColumnRef, RefMeaning;
    if j.None? {
      NextIs(ts, more, rest);
    } else {
      var i5 := RefItems(j.value.right, more);
      var i4 := RefItems(j.value.left, Then(Of(OpEq), i5));
      var i2 := Then(This(j.value.table), Then(Of(KwOn), i4));
      var t3 := Adv(Adv(Adv(ts)));
      ReadsThen(ts, Of(KwInner), Then(Of(KwJoin), i2), rest);
      ReadsThen(Adv(ts), Of(KwJoin), i2, rest);
      ReadsThen(Adv(Adv(ts)), This(j.value.table), Then(Of(KwOn), i4), rest);
      ReadsThen(t3, Of(KwOn), i4, rest);
      NextThen(Of(OpEq), i5, rest);
      RefReads(Adv(t3), j.value.left, Then(Of(OpEq), i5), rest);
      var t4 := ParseColumnRef(Adv(t3)).1;
      ReadsThen(t4, Of(OpEq), i5, rest);
      RefReads(Adv(t4), j.value.right, more, rest);
    }
  }

  lemma JoinRead(ts: seq<Token>, more: seq<Item>, rest: seq<Token>) returns (j: Option<Joined>)
    requires ParseJoin(ts).Done? && Reads(ParseJoin(ts).rest, more, rest)
    ensures JoinRight(j, more, rest) && Reads(ts, JoinItems(j, more), rest) && JoinMeaning(j) == ParseJoin(ts).value
  {
    hide Reads, Next, Then, Cur, Adv, RefItems, ParseColumnRef, RefMeaning;
    if !At(ts, KwInner) {
      j := None;
      NextIs(ts, more, rest);
    } else {
      var t3 := Adv(Adv(Adv(ts)));
      var t4 := ParseColumnRef(Adv(t3)).1;
      var right := RefRead(Adv(t4), more, rest);
      var i5 := RefItems(right, more);
      ReadsThen(t4, Of(OpEq), i5, rest);
      var left := RefRead(Adv(t3), Then(Of(OpEq), i5), rest);
      var i4 := RefItems(left, Then(Of(OpEq), i5));
      j := Some(Joined(Cur(Adv(Adv(ts))), left, right));
      var i2 := Then(This(j.value.table), Then(Of(KwOn), i4));
      ReadsThen(t3, Of(KwOn), i4, rest);
      ReadsThen(Adv(Adv(ts)), This(j.value.table), Then(Of(KwOn), i4), rest);
      ReadsThen(Adv(ts), Of(KwJoin), i2, rest);
      ReadsThen(ts, Of(KwInner), Then(Of(KwJoin), i2), rest);
    }
  }

  lemma CondReads(ts: seq<Token>, c: Cond, more: seq<Item>, rest: seq<Token>)
    requires CondRight(c) && Reads(ts, CondItems(c, more), rest)
    ensures ParseWhere(ts).0 == CondMeaning(c) && Reads(ParseWhere(ts).1, more, rest)
  {
    hide Reads, Next, Then, Cur, Adv, RefItems, ParseColumnRef, RefMeaning;
    var literal := Then(This(c.literal), more);
    var after := if c.op.None? then literal else Then(Of(OpKind(c.op.value)), literal);
    NextThen(This(c.literal), more, rest);
    if c.op.Some? { NextThen(Of(OpKind(c.op.value)), literal, rest); }
    RefReads(ts, c.column, after, rest);
    var t1 := ParseColumnRef(ts).1;
    NextIs(t1, after, rest);
    if c.op.Some? { ReadsThen(t1, Of(OpKind(c.op.value)), literal, rest); }
    ReadsThen(ParseCmpOp(t1).1, This(c.literal), more, rest);
  }

  lemma CondRead(ts: seq<Token>, more: seq<Item>, rest: seq<Token>) returns (c: Cond)
    requires Reads(ParseWhere(ts).1, more, rest)
    ensures CondRight(c) && Reads(ts, CondItems(c, more), rest) && CondMeaning(c) == ParseWhere(ts).0
  {
    hide Reads, Next, Then, Cur, Adv, RefItems, ParseColumnRef, RefMeaning;
    var t1 := ParseColumnRef(ts).1;
    var (op, t2) := ParseCmpOp(t1);
    var literal := Then(This(Cur(t2)), more);
    var shown := if IsOp(Cur(t1).kind) then Some(op) else None;
    var after := if shown.None? then literal else Then(Of(OpKind(op)), literal);
    ReadsThen(t2, This(Cur(t2)), more, rest);
    ReadsThen(t1, Of(OpKind(op)), literal, rest);
    NextThen(This(Cur(t2)), more, rest);
    var r := RefRead(ts, after, rest);
    c := Cond(r, shown, Cur(t2));
  }

  // ---- Statements ----

  lemma CloseReads(ts: seq<Token>, closed: bool, rest: seq<Token>)
    requires Reads(ts, CloseItems(closed), rest) && (closed || Cur(rest).kind != Semicolon)
    ensures SkipIf(ts, Semicolon) == rest
  {
    if closed { assert [Of(Semicolon)][1..] == []; }
  }

  lemma CloseRead(ts: seq<Token>) returns (closed: bool)
    ensures Reads(ts, CloseItems(closed), SkipIf(ts, Semicolon))
    ensures closed || Cur(SkipIf(ts, Semicolon)).kind != Semicolon
  {
    closed := At(ts, Semicolon);
    if closed { assert [Of(Semicolon)][1..] == []; }
  }

  lemma CreateReads(ts: seq<Token>, p: Phrase, rest: seq<Token>)
    requires p.CreatePhrase? && PhraseRight(p, rest) && Reads(ts, PhraseItems(p), rest)
    ensures Parse(ts) == Done(Meaning(p), rest)
  {
    hide Reads, Next, Then, Cur, Adv, ParseColumnDefs, DefsItems, CloseItems, ParseInsert, ParseSelect, DefsRight;
    hide SkipIf;
    var i4 := Then(Of(RParen), CloseItems(p.closed));
    var i3 := DefsItems(p.defs, p.comma, i4);
    var i1 := Then(This(p.table), Then(Of(LParen), i3));
    var t3 := Adv(Adv(Adv(ts)));
    ReadsThen(ts, Of(KwCreate), Then(Of(KwTable), i1), rest);
    ReadsThen(Adv(ts), Of(KwTable), i1, rest);
    ReadsThen(Adv(Adv(ts)), This(p.table), Then(Of(LParen), i3), rest);
    ReadsThen(t3, Of(LParen), i3, rest);
    NextThen(Of(RParen), CloseItems(p.closed), rest);
    DefsReads(Adv(t3), p.defs, p.comma, i4, rest);
    var t4 := ParseColumnDefs(Adv(t3)).rest;
    ReadsThen(t4, Of(RParen), CloseItems(p.closed), rest);
    CloseReads(Adv(t4), p.closed, rest);
  }

  lemma CreateRead(ts: seq<Token>) returns (p: Phrase)
    requires At(ts, KwCreate) && Parse(ts).Done?
    ensures PhraseRight(p, Parse(ts).rest) && Meaning(p) == Parse(ts).value
    ensures Reads(ts, PhraseItems(p), Parse(ts).rest)
  {
    hide Reads, Next, Then, Cur, Adv, ParseColumnDefs, DefsItems, CloseItems, ParseInsert, ParseSelect, DefsRight;
    hide SkipIf;
    var rest := Parse(ts).rest;
    var t3 := Adv(Adv(Adv(ts)));
    var t4 := ParseColumnDefs(Adv(t3)).rest;
    var closed := CloseRead(Adv(t4));
    var i4 := Then(Of(RParen), CloseItems(closed));
    ReadsThen(t4, Of(RParen), CloseItems(closed), rest);
    NextThen(Of(RParen), CloseItems(closed), rest);
    var ds, comma := DefsRead(Adv(t3), i4, rest);
    p := CreatePhrase(Cur(Adv(Adv(ts))), ds, comma, closed);
    var i3 := DefsItems(ds, comma, i4);
    var i1 := Then(This(p.table), Then(Of(LParen), i3));
    ReadsThen(t3, Of(LParen), i3, rest);
    ReadsThen(Adv(Adv(ts)), This(p.table), Then(Of(LParen), i3), rest);
    ReadsThen(Adv(ts), Of(KwTable), i1, rest);
    ReadsThen(ts, Of(KwCreate), Then(Of(KwTable), i1), rest);
  }

  lemma InsertReads(ts: seq<Token>, p: Phrase, rest: seq<Token>)
    requires p.InsertPhrase? && PhraseRight(p, rest) && Reads(ts, PhraseItems(p), rest)
    ensures Parse(ts) == Done(Meaning(p), rest)
  {
    hide Reads, Next, Then, Cur, Adv, ParseRows, LinesItems, CloseItems, ParseCreate, ParseSelect, LinesRight, SkipIf;
    hide LineMeanings;
    var i3 := LinesItems(p.lines, CloseItems(p.closed));
    var i1 := Then(This(p.table), Then(Of(KwValues), i3));
    var t3 := Adv(Adv(Adv(ts)));
    ReadsThen(ts, Of(KwInsert), Then(Of(KwInto), i1), rest);
    ReadsThen(Adv(ts), Of(KwInto), i1, rest);
    ReadsThen(Adv(Adv(ts)), This(p.table), Then(Of(KwValues), i3), rest);
    ReadsThen(t3, Of(KwValues), i3, rest);
    LinesReads(Adv(t3), p.lines, CloseItems(p.closed), rest);
    CloseReads(ParseRows(Adv(t3)).rest, p.closed, rest);
  }

  lemma InsertRead(ts: seq<Token>) returns (p: Phrase)
    requires At(ts, KwInsert) && Parse(ts).Done?
    ensures PhraseRight(p, Parse(ts).rest) && Meaning(p) == Parse(ts).value
    ensures Reads(ts, PhraseItems(p), Parse(ts).rest)
  {
    hide Reads, Next, Then, Cur, Adv, ParseRows, LinesItems, CloseItems, ParseCreate, ParseSelect, LinesRight, SkipIf;
    hide LineMeanings;
    var rest := Parse(ts).rest;
    var t3 := Adv(Adv(Adv(ts)));
    var t4 := ParseRows(Adv(t3)).rest;
    var closed := CloseRead(t4);
    NextIs(t4, CloseItems(closed), rest);
    var ls := LinesRead(Adv(t3), CloseItems(closed), rest);
    p := InsertPhrase(Cur(Adv(Adv(ts))), ls, closed);
    var i3 := LinesItems(ls, CloseItems(closed));
    var i1 := Then(This(p.table), Then(Of(KwValues), i3));
    ReadsThen(t3, Of(KwValues), i3, rest);
    ReadsThen(Adv(Adv(ts)), This(p.table), Then(Of(KwValues), i3), rest);
    ReadsThen(Adv(ts), Of(KwInto), i1, rest);
    ReadsThen(ts, Of(KwInsert), Then(Of(KwInto), i1), rest);
  }

  lemma ListReads(ts: seq<Token>, list: Option<seq<Ref>>, more: seq<Item>, rest: seq<Token>)
    requires (list.Some? ==> RefsRight(list.value)) && Reads(ts, ListItems(list, more), rest)
    requires Next(more, rest) == KwFrom
    ensures var p := ParseSelectList(ts);
            && p.Done? && p.value == (list.None?, if list.None? then [] else RefMeanings(list.value))
            && Reads(p.rest, more, rest)
  {
    hide Reads, Next, Then, Cur, Adv, ParseColumnList, RefsItems, RefMeanings;
    if list.None? {
      ReadsThen(ts, Of(Star), more, rest);
    } else {
      RefsReads(ts, list.value, more, rest);
      ListStart(ts);
    }
  }

  lemma ListStart(ts: seq<Token>)
    requires ParseColumnList(ts).Done?
    ensures At(ts, Identifier)
  {
  }

  lemma ListRead(ts: seq<Token>, more: seq<Item>, rest: seq<Token>) returns (list: Option<seq<Ref>>)
    requires ParseSelectList(ts).Done? && Reads(ParseSelectList(ts).rest, more, rest) && Next(more, rest) == KwFrom
    ensures (list.Some? ==> RefsRight(list.value)) && Reads(ts, ListItems(list, more), rest)
    ensures ParseSelectList(ts).value == (list.None?, if list.None? then [] else RefMeanings(list.value))
  {
    hide Reads, Next, Then, Cur, Adv, ParseColumnList, RefsItems, RefMeanings, RefsRight;
    if At(ts, Star) {
      list := None;
      ReadsThen(ts, Of(Star), more, rest);
    } else {
      var rs := RefsRead(ts, more, rest);
      list := Some(rs);
    }
  }

  // What follows the table in a SELECT.
  lemma TailReads(ts: seq<Token>, join: Option<Joined>, where: Option<Cond>, closed: bool, rest: seq<Token>)
    requires Reads(ts, JoinItems(join, WhereItems(where, CloseItems(closed))), rest)
    requires JoinRight(join, WhereItems(where, CloseItems(closed)), rest) && WhereRight(where, CloseItems(closed), rest)
    requires closed || Cur(rest).kind != Semicolon
    ensures var p := ParseJoin(ts);
            && p.Done? && p.value == JoinMeaning(join) && (At(p.rest, KwWhere) <==> where.Some?)
            && (if where.None? then SkipIf(p.rest, Semicolon) == rest
                else ParseWhere(Adv(p.rest)).0 == CondMeaning(where.value) &&
                     SkipIf(ParseWhere(Adv(p.rest)).1, Semicolon) == rest)
  {
    hide Reads, Next, Then, Cur, Adv, ParseJoin, JoinItems, CloseItems, ParseWhere, CondItems, JoinRight, SkipIf;
    hide CondMeaning, JoinMeaning, CondRight;
    var close := CloseItems(closed);
    JoinReads(ts, join, WhereItems(where, close), rest);
    var t3 := ParseJoin(ts).rest;
    if where.None? {
      NextIs(t3, close, rest);
      CloseReads(t3, closed, rest);
    } else {
      ReadsThen(t3, Of(KwWhere), CondItems(where.value, close), rest);
      CondReads(Adv(t3), where.value, close, rest);
      CloseReads(ParseWhere(Adv(t3)).1, closed, rest);
    }
  }

  lemma SelectReads(ts: seq<Token>, p: Phrase, rest: seq<Token>)
    requires p.SelectPhrase? && PhraseRight(p, rest) && Reads(ts, PhraseItems(p), rest)
    ensures Parse(ts) == Done(Meaning(p), rest)
  {
    hide Reads, Next, Then, Cur, Adv, ParseSelectList, ParseJoin, ParseWhere, ListItems, JoinItems, WhereItems;
    hide CloseItems, ParseCreate, ParseInsert, SkipIf, RefMeanings, JoinMeaning, CondMeaning, RefsRight, JoinRight;
    hide WhereRight;
    var i2 := JoinItems(p.join, WhereItems(p.where, CloseItems(p.closed)));
    var i1 := Then(Of(KwFrom), Then(This(p.table), i2));
    ReadsThen(ts, Of(KwSelect), ListItems(p.list, i1), rest);
    NextThen(Of(KwFrom), Then(This(p.table), i2), rest);
    ListReads(Adv(ts), p.list, i1, rest);
    var t1 := ParseSelectList(Adv(ts)).rest;
    ReadsThen(t1, Of(KwFrom), Then(This(p.table), i2), rest);
    ReadsThen(Adv(t1), This(p.table), i2, rest);
    TailReads(Adv(Adv(t1)), p.join, p.where, p.closed, rest);
  }

  lemma TailRead(ts: seq<Token>, rest: seq<Token>) returns (join: Option<Joined>, where: Option<Cond>, closed: bool)
    requires ParseJoin(ts).Done?
    requires var t3 := ParseJoin(ts).rest;
             rest == SkipIf(if At(t3, KwWhere) then ParseWhere(Adv(t3)).1 else t3, Semicolon)
    ensures Reads(ts, JoinItems(join, WhereItems(where, CloseItems(closed))), rest)
    ensures JoinRight(join, WhereItems(where, CloseItems(closed)), rest) && WhereRight(where, CloseItems(closed), rest)
    ensures closed || Cur(rest).kind != Semicolon
    ensures var t3 := ParseJoin(ts).rest;
            && ParseJoin(ts).value == JoinMeaning(join)
            && WhereMeaning(where) == if At(t3, KwWhere) then Some(ParseWhere(Adv(t3)).0) else None
  {
    hide Reads, Next, Then, Cur, Adv, ParseJoin, JoinItems, CloseItems, ParseWhere, CondItems, JoinRight, SkipIf;
    hide CondMeaning, JoinMeaning, CondRight;
    var t3 := ParseJoin(ts).rest;
    var t4 := if At(t3, KwWhere) then ParseWhere(Adv(t3)).1 else t3;
    closed := CloseRead(t4);
    var close := CloseItems(closed);
    if At(t3, KwWhere) {
      var c := CondRead(Adv(t3), close, rest);
      where := Some(c);
      ReadsThen(t3, Of(KwWhere), CondItems(c, close), rest);
    } else {
      where := None;
      NextIs(t3, close, rest);
    }
    join := JoinRead(ts, WhereItems(where, close), rest);
  }

  lemma SelectRead(ts: seq<Token>) returns (p: Phrase)
    requires At(ts, KwSelect) && Parse(ts).Done?
    ensures PhraseRight(p, Parse(ts).rest) && Meaning(p) == Parse(ts).value
    ensures Reads(ts, PhraseItems(p), Parse(ts).rest)
  {
    hide Reads, Next, Then, Cur, Adv, ParseSelectList, ParseJoin, ParseWhere, ListItems, JoinItems, WhereItems;
    hide CloseItems, ParseCreate, ParseInsert, SkipIf, RefMeanings, JoinMeaning, CondMeaning, RefsRight, JoinRight;
    hide WhereRight;
    var rest := Parse(ts).rest;
    var t1 := ParseSelectList(Adv(ts)).rest;
    var join, where, closed := TailRead(Adv(Adv(t1)), rest);
    var i2 := JoinItems(join, WhereItems(where, CloseItems(closed)));
    var table := Cur(Adv(t1));
    var i1 := Then(Of(KwFrom), Then(This(table), i2));
    ReadsThen(Adv(t1), This(table), i2, rest);
    ReadsThen(t1, Of(KwFrom), Then(This(table), i2), rest);
    NextThen(Of(KwFrom), Then(This(table), i2), rest);
    var list := ListRead(Adv(ts), i1, rest);
    ReadsThen(ts, Of(KwSelect), ListItems(list, i1), rest);
    p := SelectPhrase(list, table, join, where, closed);
  }

  // Every statement of the grammar is accepted with its meaning.
  lemma ParseReads(ts: seq<Token>, p: Phrase, rest: seq<Token>)
    requires PhraseRight(p, rest) && Reads(ts, PhraseItems(p), rest)
    ensures Parse(ts) == Done(Meaning(p), rest)
  {
    hide Reads, PhraseItems, PhraseRight, Parse, Meaning;
    match p
    case CreatePhrase(_, _, _, _) => CreateReads(ts, p, rest);
    case InsertPhrase(_, _, _) => InsertReads(ts, p, rest);
    case SelectPhrase(_, _, _, _, _) => SelectReads(ts, p, rest);
  }

  // Every accepted statement is one of the grammar.
  lemma ReadsParse(ts: seq<Token>) returns (p: Phrase)
    requires Parse(ts).Done?
    ensures PhraseRight(p, Parse(ts).rest) && Meaning(p) == Parse(ts).value
    ensures Reads(ts, PhraseItems(p), Parse(ts).rest)
  {
    hide Reads, PhraseItems, PhraseRight, Meaning, ParseCreate, ParseInsert, ParseSelect;
    if At(ts, KwCreate) {
      p := CreateRead(ts);
    } else if At(ts, KwInsert) {
      p := InsertRead(ts);
    } else {
      p := SelectRead(ts);
    }
  }

  ghost predicate IsPhrase(ts: seq<Token>, p: Phrase, s: Statement, rest: seq<Token>) {
    PhraseRight(p, rest) && Meaning(p) == s && Reads(ts, PhraseItems(p), rest)
  }

  // The texts that are accepted, and as what: those made of the spelled tokens of a statement of the grammar.
  lemma SqlIff(sql: string, s: Statement, rest: seq<Token>)
    ensures ParseSql(sql) == Done(s, rest) <==> Lex(sql).ok && exists p :: IsPhrase(Lex(sql).tokens, p, s, rest)
  {
    hide Lex, Reads, PhraseItems, PhraseRight, Meaning, Parse;
    var ts := Lex(sql).tokens;
    if ParseSql(sql) == Done(s, rest) {
      var p := ReadsParse(ts);
      assert IsPhrase(ts, p, s, rest);
    }
    if p :| Lex(sql).ok && IsPhrase(ts, p, s, rest) {
      ParseReads(ts, p, rest);
    }
  }

  // A statement of the grammar, with its tokens written in any of their spellings and any white space between them.
  lemma TextMeans(lead: string, ps: seq<Piece>, p: Phrase)
    requires Blank(lead) && PiecesOk(ps) && PhraseRight(p, [END])
    requires Reads(TokensOf(ps) + [END], PhraseItems(p), [END])
    ensures ParseSql(lead + TextOf(ps)) == Done(Meaning(p), [END])
  {
    hide Lex, Reads, PhraseItems, PhraseRight, Meaning, Parse, Blank, PiecesOk;
    LexPieces(lead, ps);
    ParseReads(TokensOf(ps) + [END], p, [END]);
  }
}
