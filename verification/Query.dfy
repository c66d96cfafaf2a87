/** SELECT: joins, filters and projections. */
module Query {
  import opened Keys
  import opened Values
  import opened Lexer
  import opened Parser
  import opened Executor
  import opened KeyOrder

  datatype Answer = Answer(names: seq<string>, rows: seq<Row>) | Failed

  // ---- The join as a filtered product, left rows first ----

  function Matches(l: Row, right: seq<Row>, on: (Row, Row) -> bool, out: (Row, Row) -> Row): seq<Row> {
    if right == [] then [] else
      var r := right[|right| - 1];
      Matches(l, right[..|right| - 1], on, out) + if on(l, r) then [out(l, r)] else []
  }

  function Product(left: seq<Row>, right: seq<Row>, on: (Row, Row) -> bool, out: (Row, Row) -> Row): seq<Row> {
    if left == [] then [] else
      Product(left[..|left| - 1], right, on, out) + Matches(left[|left| - 1], right, on, out)
  }

  // ---- The hash join ----

  // Values that operator== takes for equal have the same class.
  function Class(v: Value): (DataType, Key) { (TypeOf(v), KeyOf(v)) }

  function Bucket(right: seq<Row>, col: nat, c: (DataType, Key)): (ids: seq<nat>)
    ensures forall i :: 0 <= i < |ids| ==> ids[i] < |right|
  {
    if right == [] then [] else
      var r := right[|right| - 1];
      Bucket(right[..|right| - 1], col, c) + if col < |r| && Class(r[col]) == c then [|right| - 1] else []
  }

  // The matches among the right rows with the given numbers.
  function Among(l: Row, right: seq<Row>, ids: seq<nat>, on: (Row, Row) -> bool, out: (Row, Row) -> Row): seq<Row>
    requires forall i :: 0 <= i < |ids| ==> ids[i] < |right|
  {
    if ids == [] then [] else
      var r := right[ids[|ids| - 1]];
      Among(l, right, ids[..|ids| - 1], on, out) + if on(l, r) then [out(l, r)] else []
  }

  // The join's condition: the ON columns compare, and the WHERE clause passes.
  function On(op: CmpOp, li: nat, ri: nat, pass: (Row, Row) -> bool): (Row, Row) -> bool {
    (l, r) => li < |l| && ri < |r| && Compare(op, l[li], r[ri]) && pass(l, r)
  }

  lemma AmongSnoc(l: Row, right: seq<Row>, ids: seq<nat>, id: nat, on: (Row, Row) -> bool, out: (Row, Row) -> Row)
    requires (forall i :: 0 <= i < |ids| ==> ids[i] < |right|) && id < |right|
    ensures forall i :: 0 <= i < |ids + [id]| ==> (ids + [id])[i] < |right|
    ensures Among(l, right, ids + [id], on, out) == Among(l, right, ids, on, out) +
            if on(l, right[id]) then [out(l, right[id])] else []
  {
    assert (ids + [id])[..|ids|] == ids;
  }

  lemma {:induction false} AmongGrown(l: Row, right: seq<Row>, more: seq<Row>, ids: seq<nat>, on: (Row, Row) -> bool,
                                      out: (Row, Row) -> Row)
    requires (forall i :: 0 <= i < |ids| ==> ids[i] < |right|) && right <= more
    ensures Among(l, more, ids, on, out) == Among(l, right, ids, on, out)
  {
    if ids != [] { AmongGrown(l, right, more, ids[..|ids| - 1], on, out); }
  }

  // Visiting one bucket finds every match, in order.
  lemma {:induction false} BucketIsEnough(l: Row, right: seq<Row>, li: nat, ri: nat, pass: (Row, Row) -> bool,
                                          out: (Row, Row) -> Row)
    requires li < |l|
    ensures Among(l, right, Bucket(right, ri, Class(l[li])), pass, out) == Matches(l, right, On(EQ, li, ri, pass), out)
  {
    if right != [] {
      var init, n := right[..|right| - 1], |right| - 1;
      var ids := Bucket(init, ri, Class(l[li]));
      BucketIsEnough(l, init, li, ri, pass, out);
      AmongGrown(l, init, right, ids, pass, out);
      AmongSnoc(l, right, ids, n, pass, out);
      BucketStep(right, ri, Class(l[li]), ids);
    }
  }

  lemma BucketStep(right: seq<Row>, col: nat, c: (DataType, Key), ids: seq<nat>)
    requires right != [] && ids == Bucket(right[..|right| - 1], col, c)
    ensures var r := right[|right| - 1];
            Bucket(right, col, c) == if col < |r| && Class(r[col]) == c then ids + [|right| - 1] else ids
  {
  }

  type Buckets = map<(DataType, Key), seq<nat>>

  ghost predicate Hashes(index: Buckets, right: seq<Row>, col: nat) {
    && (forall c :: c in index ==> index[c] == Bucket(right, col, c))
    && (forall c :: c !in index ==> Bucket(right, col, c) == [])
  }

  // executor.cpp exec_select: build the hash index on the right rows.
  method BuildIndex(right: seq<Row>, col: nat) returns (index: Buckets)
    requires forall i :: 0 <= i < |right| ==> col < |right[i]|
    ensures Hashes(index, right, col)
  {
    index := map[];
    for i := 0 to |right|
      invariant Hashes(index, right[..i], col)
    {
      var c := Class(right[i][col]);
      HashStep(index, right, col, i);
      index := index[c := (if c in index then index[c] else []) + [i]];
    }
    assert right[..|right|] == right;
  }

  lemma HashStep(index: Buckets, right: seq<Row>, col: nat, i: nat)
    requires i < |right| && col < |right[i]| && Hashes(index, right[..i], col)
    ensures var c := Class(right[i][col]);
            Hashes(index[c := (if c in index then index[c] else []) + [i]], right[..i + 1], col)
  {
    var c, more := Class(right[i][col]), right[..i + 1];
    assert more[..i] == right[..i];
    forall k
      ensures Bucket(more, col, k) == if k == c then Bucket(right[..i], col, k) + [i] else Bucket(right[..i], col, k)
    {
      BucketStep(more, col, k, Bucket(right[..i], col, k));
    }
  }

  // executor.cpp exec_select, the branch for equality: probe the index with every left row.
  method HashJoin(left: seq<Row>, right: seq<Row>, li: nat, ri: nat, pass: (Row, Row) -> bool, out: (Row, Row) -> Row)
    returns (rows: seq<Row>)
    requires forall i :: 0 <= i < |left| ==> li < |left[i]|
    requires forall i :: 0 <= i < |right| ==> ri < |right[i]|
    ensures rows == Product(left, right, On(EQ, li, ri, pass), out)
  {
    var index := BuildIndex(right, ri);
    rows := [];
    for i := 0 to |left|
      invariant rows == Product(left[..i], right, On(EQ, li, ri, pass), out)
    {
      assert left[..i + 1][..i] == left[..i];
      var l := left[i];
      BucketIsEnough(l, right, li, ri, pass, out);
      if Class(l[li]) in index {
        var hit := index[Class(l[li])];
        var some := Probe(l, right, hit, pass, out);
        rows := rows + some;
      }
    }
    assert left[..|left|] == left;
  }

  method Probe(l: Row, right: seq<Row>, hit: seq<nat>, pass: (Row, Row) -> bool, out: (Row, Row) -> Row)
    returns (rows: seq<Row>)
    requires forall i :: 0 <= i < |hit| ==> hit[i] < |right|
    ensures rows == Among(l, right, hit, pass, out)
  {
    rows := [];
    for i := 0 to |hit|
      invariant rows == Among(l, right, hit[..i], pass, out)
    {
      assert hit[..i + 1] == hit[..i] + [hit[i]];
      AmongSnoc(l, right, hit[..i], hit[i], pass, out);
      if pass(l, right[hit[i]]) {
        rows := rows + [out(l, right[hit[i]])];
      }
    }
    assert hit[..|hit|] == hit;
  }

  // executor.cpp exec_select, the other branch: compare every pair.
  method NestedLoopJoin(left: seq<Row>, right: seq<Row>, on: (Row, Row) -> bool, out: (Row, Row) -> Row)
    returns (rows: seq<Row>)
    ensures rows == Product(left, right, on, out)
  {
    rows := [];
    for i := 0 to |left|
      invariant rows == Product(left[..i], right, on, out)
    {
      assert left[..i + 1][..i] == left[..i];
      ghost var before := rows;
      for j := 0 to |right|
        invariant rows == before + Matches(left[i], right[..j], on, out)
      {
        assert right[..j + 1][..j] == right[..j];
        if on(left[i], right[j]) {
          rows := rows + [out(left[i], right[j])];
        }
      }
      assert right[..|right|] == right;
    }
    assert left[..|left|] == left;
  }

  // ---- Both ways round ----

  function Flip<T>(f: (Row, Row) -> T): (Row, Row) -> T { (r, l) => f(l, r) }

  lemma {:induction false} OneMoreRight(left: seq<Row>, right: seq<Row>, r: Row, on: (Row, Row) -> bool,
                                        out: (Row, Row) -> Row)
    ensures multiset(Product(left, right + [r], on, out)) ==
            multiset(Product(left, right, on, out)) + multiset(Matches(r, left, Flip(on), Flip(out)))
  {
    if left != [] {
      var init, l := left[..|left| - 1], left[|left| - 1];
      OneMoreRight(init, right, r, on, out);
      assert (right + [r])[..|right|] == right;
    }
  }

  lemma {:induction false} NoRight(left: seq<Row>, on: (Row, Row) -> bool, out: (Row, Row) -> Row)
    ensures Product(left, [], on, out) == []
  {
    if left != [] { NoRight(left[..|left| - 1], on, out); }
  }

  // Exchanging the tables gives the same rows, each as often.
  lemma {:induction false} JoinFlips(left: seq<Row>, right: seq<Row>, on: (Row, Row) -> bool, out: (Row, Row) -> Row)
    ensures multiset(Product(left, right, on, out)) == multiset(Product(right, left, Flip(on), Flip(out)))
  {
    if right == [] {
      NoRight(left, on, out);
    } else {
      var init, r := right[..|right| - 1], right[|right| - 1];
      assert right == init + [r];
      OneMoreRight(left, init, r, on, out);
      JoinFlips(left, init, on, out);
    }
  }

  // ---- Columns ----

  // The schema position of every name, or None if one is missing.
  function Positions(columns: Schema, names: seq<string>): (r: Option<seq<nat>>)
    ensures r.Some? ==> |r.value| == |names| && forall i :: 0 <= i < |names| ==> r.value[i] < |columns|
  {
    if names == [] then Some([]) else
      match Positions(columns, names[..|names| - 1])
      case None => None
      case Some(ids) =>
        var idx := FindColumn(columns, names[|names| - 1]);
        if idx < 0 then None else Some(ids + [idx])
  }

  predicate HasColumn(columns: Schema, name: string) { exists c :: 0 <= c < |columns| && columns[c].name == name }

  lemma FoundIffHas(columns: Schema, name: string)
    ensures FindColumn(columns, name) >= 0 <==> HasColumn(columns, name)
  {
    var c := FindColumn(columns, name);
    assert c >= 0 ==> columns[c].name == name;
  }

  // Every name has its position, the last column of that name, unless a name is missing.
  lemma {:induction false} PositionsMean(columns: Schema, names: seq<string>)
    ensures Positions(columns, names).None? <==> exists k :: 0 <= k < |names| && !HasColumn(columns, names[k])
    ensures var r := Positions(columns, names);
            r.Some? ==> forall k :: 0 <= k < |names| ==> r.value[k] == FindColumn(columns, names[k])
  {
    hide FindColumn, HasColumn;
    if names != [] {
      var n := |names| - 1;
      PositionsMean(columns, names[..n]);
      FoundIffHas(columns, names[n]);
      if !HasColumn(columns, names[n]) {
        assert exists k :: 0 <= k < |names| && !HasColumn(columns, names[k]);
      } else if exists k :: 0 <= k < |names| && !HasColumn(columns, names[k]) {
        var k :| 0 <= k < |names| && !HasColumn(columns, names[k]);
        assert k < n && names[..n][k] == names[k];
      }
    }
  }

  predicate SelectsAll(q: SelectStmt) {
    q.all || q.columns == [] || (|q.columns| == 1 && q.columns[0].column == "*")
  }

  function SelectedNames(q: SelectStmt, columns: Schema): seq<string> {
    if SelectsAll(q) then seq(|columns|, i requires 0 <= i < |columns| => columns[i].name)
    else seq(|q.columns|, i requires 0 <= i < |q.columns| => UpperAll(q.columns[i].column))
  }

  // ---- One table ----

  // The rows a WHERE clause leaves: by the index on the primary key, by a scan elsewhere.
  function WhereRows(t: Table, where: Option<WhereClause>, stod: Stod): Option<seq<Row>> {
    match where
    case None => Some(t.rows)
    case Some(w) =>
      var col := FindColumn(t.columns, UpperAll(w.column.column));
      if col < 0 then None else
      match ParseLiteral(w.literal, t.columns[col].kind, stod)
      case None => None
      case Some(v) =>
        Some(if col == 0 then Filter(RowOrder(t.rows), OnKey(w.op, KeyOf(v)))
             else Filter(t.rows, OnColumn(col, w.op, v)))
  }

  function SelectOne(t: Table, q: SelectStmt, stod: Stod): Answer {
    var names := SelectedNames(q, t.columns);
    match Positions(t.columns, names)
    case None => Failed
    case Some(ids) =>
      match WhereRows(t, q.where, stod)
      case None => Failed
      case Some(rows) => Answer(names, Project(rows, ids))
  }

  // ---- Two tables ----

  function Dotted(table: string, column: string): string { table + "." + column }

  // Where an output column comes from: the left or the right table, and the column's position.
  datatype Source = Source(name: string, fromLeft: bool, idx: nat)

  function AllSources(table: string, columns: Schema, fromLeft: bool): seq<Source> {
    seq(|columns|, i requires 0 <= i < |columns| => Source(Dotted(table, columns[i].name), fromLeft, i))
  }

  function FindSource(cr: ColumnRef, ln: string, lc: Schema, rn: string, rc: Schema): Option<Source> {
    var tbl, col := UpperAll(cr.table), UpperAll(cr.column);
    var shown := if tbl == "" then col else Dotted(tbl, col);
    if (tbl == ln || tbl == "") && FindColumn(lc, col) >= 0 then Some(Source(shown, true, FindColumn(lc, col)))
    else if (tbl == rn || tbl == "") && FindColumn(rc, col) >= 0 then Some(Source(shown, false, FindColumn(rc, col)))
    else None
  }

  function FindSources(crs: seq<ColumnRef>, ln: string, lc: Schema, rn: string, rc: Schema): Option<seq<Source>> {
    if crs == [] then Some([]) else
      match FindSources(crs[..|crs| - 1], ln, lc, rn, rc)
      case None => None
      case Some(found) =>
        match FindSource(crs[|crs| - 1], ln, lc, rn, rc)
        case None => None
        case Some(s) => Some(found + [s])
  }

  function Sources(q: SelectStmt, ln: string, lc: Schema, rn: string, rc: Schema): Option<seq<Source>> {
    if SelectsAll(q) then Some(AllSources(ln, lc, true) + AllSources(rn, rc, false))
    else FindSources(q.columns, ln, lc, rn, rc)
  }

  function Names(sources: seq<Source>): seq<string> {
    seq(|sources|, i requires 0 <= i < |sources| => sources[i].name)
  }

  function OutRow(sources: seq<Source>): (Row, Row) -> Row {
    (l, r) => seq(|sources|, i requires 0 <= i < |sources| =>
                    var row := if sources[i].fromLeft then l else r;
                    if sources[i].idx < |row| then row[sources[i].idx] else Int(0))
  }

  // A WHERE clause in a join checks the left table's column if there is one, else the right's; a column that neither
  // table has, and a literal that does not parse, let every pair pass.
  function Passes(where: Option<WhereClause>, ln: string, lc: Schema, rn: string, rc: Schema, stod: Stod)
    : (Row, Row) -> bool
  {
    match where
    case None => (l, r) => true
    case Some(w) =>
      var wt, wc := UpperAll(w.column.table), UpperAll(w.column.column);
      if (wt == ln || wt == "") && FindColumn(lc, wc) >= 0 then
        (l, r) => Checks(l, FindColumn(lc, wc), w.op, ParseLiteral(w.literal, lc[FindColumn(lc, wc)].kind, stod))
      else if (wt == rn || wt == "") && FindColumn(rc, wc) >= 0 then
        (l, r) => Checks(r, FindColumn(rc, wc), w.op, ParseLiteral(w.literal, rc[FindColumn(rc, wc)].kind, stod))
      else (l, r) => true
  }

  predicate Checks(row: Row, col: nat, op: CmpOp, v: Option<Value>) {
    v.None? || (col < |row| && Compare(op, row[col], v.value))
  }

  function SelectTwo(lt: Table, rt: Table, q: SelectStmt, j: JoinClause, stod: Stod): Answer {
    var ln, rn := UpperAll(q.table), UpperAll(j.rightTable);
    var li := FindColumn(lt.columns, UpperAll(j.leftCol.column));
    var ri := FindColumn(rt.columns, UpperAll(j.rightCol.column));
    if li < 0 || ri < 0 then Failed else
    match Sources(q, ln, lt.columns, rn, rt.columns)
    case None => Failed
    case Some(sources) =>
      var pass := Passes(q.where, ln, lt.columns, rn, rt.columns, stod);
      Answer(Names(sources), Product(lt.rows, rt.rows, On(j.op, li, ri, pass), OutRow(sources)))
  }

  // executor.cpp exec_select without the cache
  function SelectAnswer(db: Db, q: SelectStmt, stod: Stod): Answer {
    var name := UpperAll(q.table);
    if name !in db then Failed else
    match q.join
    case None => SelectOne(db[name], q, stod)
    case Some(j) =>
      var right := UpperAll(j.rightTable);
      if right !in db then Failed else SelectTwo(db[name], db[right], q, j, stod)
  }

  // ---- The loops of exec_select ----

  predicate RowsOk(t: Table) { forall i :: 0 <= i < |t.rows| ==> ValidRow(t.columns, t.rows[i]) }

  predicate DbOk(db: Db) { forall n :: n in db ==> RowsOk(db[n]) && ValidSchema(db[n].columns) }

  method ResolvePositions(columns: Schema, names: seq<string>) returns (r: Option<seq<nat>>)
    ensures r == Positions(columns, names)
    ensures r.None? <==> exists k :: 0 <= k < |names| && !HasColumn(columns, names[k])
    ensures r.Some? ==>
              && |r.value| == |names|
              && forall k :: 0 <= k < |names| ==>
                   && r.value[k] < |columns| && columns[r.value[k]].name == names[k]
                   && forall c :: r.value[k] < c < |columns| ==> columns[c].name != names[k]
  {
    hide FindColumn, HasColumn;
    PositionsMean(columns, names);
    var ids := [];
    for i := 0 to |names|
      invariant Positions(columns, names[..i]) == Some(ids)
    {
      assert names[..i + 1][..i] == names[..i];
      var idx := FindColumn(columns, names[i]);
      if idx < 0 {
        NeverFound(columns, names, i + 1);
        return None;
      }
      ids := ids + [idx];
    }
    assert names[..|names|] == names;
    return Some(ids);
  }

  lemma {:induction false} NeverFound(columns: Schema, names: seq<string>, i: nat)
    requires i <= |names| && Positions(columns, names[..i]) == None
    ensures Positions(columns, names) == None
    decreases |names| - i
  {
    hide FindColumn;
    if i == |names| {
      assert names[..i] == names;
    } else {
      assert names[..i + 1][..i] == names[..i];
      NeverFound(columns, names, i + 1);
    }
  }

  // The projection step, skipped when it would change nothing.
  method ProjectRows(columns: Schema, rows: seq<Row>, ids: seq<nat>) returns (r: seq<Row>)
    requires forall i :: 0 <= i < |rows| ==> |rows[i]| == |columns|
    requires forall i :: 0 <= i < |ids| ==> ids[i] < |columns|
    ensures r == Project(rows, ids)
  {
    var need := |ids| != |columns|;
    if !need {
      var i := 0;
      while i < |ids| && ids[i] == i
        invariant i <= |ids| && forall j :: 0 <= j < i ==> ids[j] == j
      {
        i := i + 1;
      }
      need := i < |ids|;
    }
    if !need {
      forall i | 0 <= i < |rows| ensures Pick(rows[i], ids) == rows[i] { }
      assert Project(rows, ids) == rows;
      return rows;
    }
    r := [];
    for i := 0 to |rows|
      invariant r == Project(rows[..i], ids)
    {
      var row := PickLoop(rows[i], ids);
      r := r + [row];
    }
    assert rows[..|rows|] == rows;
  }

  method PickLoop(row: Row, ids: seq<nat>) returns (r: Row)
    requires forall i :: 0 <= i < |ids| ==> ids[i] < |row|
    ensures r == Pick(row, ids)
  {
    r := [];
    for i := 0 to |ids|
      invariant |r| == i && forall j :: 0 <= j < i ==> r[j] == row[ids[j]]
    {
      r := r + [row[ids[i]]];
    }
  }

  method ResolveSources(crs: seq<ColumnRef>, ln: string, lc: Schema, rn: string, rc: Schema)
    returns (r: Option<seq<Source>>)
    ensures r == FindSources(crs, ln, lc, rn, rc)
  {
    hide FindSource;
    var found := [];
    for i := 0 to |crs|
      invariant FindSources(crs[..i], ln, lc, rn, rc) == Some(found)
    {
      assert crs[..i + 1][..i] == crs[..i];
      var s := FindSource(crs[i], ln, lc, rn, rc);
      if s.None? {
        NoSource(crs, ln, lc, rn, rc, i + 1);
        return None;
      }
      found := found + [s.value];
    }
    assert crs[..|crs|] == crs;
    return Some(found);
  }

  lemma {:induction false} NoSource(crs: seq<ColumnRef>, ln: string, lc: Schema, rn: string, rc: Schema, i: nat)
    requires i <= |crs| && FindSources(crs[..i], ln, lc, rn, rc) == None
    ensures FindSources(crs, ln, lc, rn, rc) == None
    decreases |crs| - i
  {
    hide FindSource;
    if i == |crs| {
      assert crs[..i] == crs;
    } else {
      assert crs[..i + 1][..i] == crs[..i];
      NoSource(crs, ln, lc, rn, rc, i + 1);
    }
  }

  // executor.cpp exec_select, the join
  method ExecJoin(lt: Table, rt: Table, q: SelectStmt, j: JoinClause, stod: Stod) returns (a: Answer)
    requires RowsOk(lt) && RowsOk(rt)
    ensures a == SelectTwo(lt, rt, q, j, stod)
  {
    hide FindColumn, FindSources, Passes, UpperAll, Product;
    var ln, rn := UpperAll(q.table), UpperAll(j.rightTable);
    var li := FindColumn(lt.columns, UpperAll(j.leftCol.column));
    var ri := FindColumn(rt.columns, UpperAll(j.rightCol.column));
    if li < 0 || ri < 0 { return Failed; }
    var sources;
    if SelectsAll(q) {
      sources := Some(AllSources(ln, lt.columns, true) + AllSources(rn, rt.columns, false));
    } else {
      sources := ResolveSources(q.columns, ln, lt.columns, rn, rt.columns);
    }
    if sources.None? { return Failed; }
    var pass := Passes(q.where, ln, lt.columns, rn, rt.columns, stod);
    var rows;
    if j.op == EQ {
      rows := HashJoin(lt.rows, rt.rows, li, ri, pass, OutRow(sources.value));
    } else {
      rows := NestedLoopJoin(lt.rows, rt.rows, On(j.op, li, ri, pass), OutRow(sources.value));
    }
    a := Answer(Names(sources.value), rows);
  }

  // executor.cpp exec_select without the cache; the table's own scans give the rows of WhereRows.
  method ExecSelect(db: Db, q: SelectStmt, stod: Stod) returns (a: Answer)
    requires DbOk(db)
    ensures a == SelectAnswer(db, q, stod)
  {
    hide Positions, WhereRows, SelectTwo, UpperAll;
    var name := UpperAll(q.table);
    if name !in db { return Failed; }
    var t := db[name];
    if q.join.Some? {
      var right := UpperAll(q.join.value.rightTable);
      if right !in db { return Failed; }
      a := ExecJoin(t, db[right], q, q.join.value, stod);
      return;
    }
    var names := SelectedNames(q, t.columns);
    var ids := ResolvePositions(t.columns, names);
    if ids.None? { return Failed; }
    var rows := WhereRows(t, q.where, stod);
    if rows.None? { return Failed; }
    WhereRowsOk(t, q.where, stod);
    var projected := ProjectRows(t.columns, rows.value, ids.value);
    a := Answer(names, projected);
  }

  lemma WhereRowsOk(t: Table, where: Option<WhereClause>, stod: Stod)
    requires RowsOk(t) && WhereRows(t, where, stod).Some?
    ensures forall i :: 0 <= i < |WhereRows(t, where, stod).value| ==>
            |WhereRows(t, where, stod).value[i]| == |t.columns|
  {
    hide FindColumn, Filter, RowOrder, OnKey, OnColumn, ParseLiteral;
    var rows := WhereRows(t, where, stod).value;
    forall i | 0 <= i < |rows| ensures |rows[i]| == |t.columns| {
      assert rows[i] in rows;
      if where.Some? { SelectedFrom(t, where.value, stod, rows[i]); }
    }
  }

  lemma SelectedFrom(t: Table, w: WhereClause, stod: Stod, x: Row)
    requires WhereRows(t, Some(w), stod).Some? && x in WhereRows(t, Some(w), stod).value
    ensures x in t.rows
  {
    hide FindColumn, Filter, RowOrder, OnKey, OnColumn;
    var col := FindColumn(t.columns, UpperAll(w.column.column));
    var v := ParseLiteral(w.literal, t.columns[col].kind, stod).value;
    RowOrderRising(t.rows);
    FilterFrom(RowOrder(t.rows), OnKey(w.op, KeyOf(v)), x);
    FilterFrom(t.rows, OnColumn(col, w.op, v), x);
  }

  // ---- What a single-table SELECT means ----

  lemma {:induction false} FilterSame(rows: seq<Row>, f: Row -> bool, g: Row -> bool)
    requires forall x :: x in rows ==> f(x) == g(x)
    ensures Filter(rows, f) == Filter(rows, g)
  {
    if rows != [] { FilterSame(rows[1..], f, g); }
  }

  function CutAt(b: seq<Row>, i: nat): (r: seq<Row>)
    requires i < |b|
    ensures |r| == |b| - 1
  {
    b[..i] + b[i + 1..]
  }

  // One row more in the bag is one projected row more.
  lemma CutBag(b: seq<Row>, i: nat, ids: seq<nat>)
    requires i < |b|
    ensures multiset(b) == multiset(CutAt(b, i)) + multiset{b[i]}
    ensures multiset(Project(b, ids)) == multiset(Project(CutAt(b, i), ids)) + multiset{Pick(b[i], ids)}
  {
    hide Pick;
    assert b == b[..i] + ([b[i]] + b[i + 1..]);
    OneOut(b[..i], b[i], b[i + 1..]);
    OneOutProjected(b[..i], b[i], b[i + 1..], ids);
  }

  lemma OneOutProjected(p: seq<Row>, x: Row, q: seq<Row>, ids: seq<nat>)
    ensures multiset(Project(p + ([x] + q), ids)) == multiset(Project(p + q, ids)) + multiset{Pick(x, ids)}
  {
    hide Pick;
    ProjectParts(p, [x] + q, ids);
    ProjectParts([x], q, ids);
    ProjectParts(p, q, ids);
    OneOut(Project(p, ids), Pick(x, ids), Project(q, ids));
  }

  lemma OneOut(p: seq<Row>, x: Row, q: seq<Row>)
    ensures multiset(p + ([x] + q)) == multiset(p + q) + multiset{x}
  {
    assert multiset([x]) == multiset{x};
  }

  lemma ProjectParts(p: seq<Row>, q: seq<Row>, ids: seq<nat>)
    ensures Project(p + q, ids) == Project(p, ids) + Project(q, ids)
    ensures |p| == 1 ==> Project(p, ids) == [Pick(p[0], ids)]
  {
    hide Pick;
  }

  lemma SameRest(a: multiset<Row>, b: multiset<Row>, x: Row)
    requires a + multiset{x} == b + multiset{x}
    ensures a == b
  {
    assert a == (a + multiset{x}) - multiset{x};
    assert b == (b + multiset{x}) - multiset{x};
  }

  lemma {:induction false} ProjectBag(a: seq<Row>, b: seq<Row>, ids: seq<nat>)
    requires multiset(a) == multiset(b)
    ensures multiset(Project(a, ids)) == multiset(Project(b, ids))
    decreases |a|
  {
    hide Pick, CutAt, Project;
    if a == [] {
      assert |b| == |multiset(b)| == 0;
    } else {
      assert a[0] in multiset(b);
      var i :| 0 <= i < |b| && b[i] == a[0];
      CutBag(a, 0, ids);
      CutBag(b, i, ids);
      SameRest(multiset(CutAt(a, 0)), multiset(CutAt(b, i)), a[0]);
      ProjectBag(CutAt(a, 0), CutAt(b, i), ids);
    }
  }

  // A SELECT with a WHERE clause answers with the projection of the rows that satisfy it, each as often as it is
  // stored, if no two of them share a primary key or the clause is not on the primary key.
  lemma SelectIsFilter(t: Table, q: SelectStmt, w: WhereClause, stod: Stod)
    requires RowsOk(t) && q.where == Some(w) && SelectOne(t, q, stod).Answer?
    ensures var col := FindColumn(t.columns, UpperAll(w.column.column));
            && 0 <= col && ParseLiteral(w.literal, t.columns[col].kind, stod).Some?
            && Positions(t.columns, SelectedNames(q, t.columns)).Some?
            && var v := ParseLiteral(w.literal, t.columns[col].kind, stod).value;
               var ids := Positions(t.columns, SelectedNames(q, t.columns)).value;
               var scan := Filter(t.rows, OnColumn(col, w.op, v));
               && (col != 0 ==> SelectOne(t, q, stod).rows == Project(scan, ids))
               && (col == 0 && DistinctKeys(scan) ==>
                   multiset(SelectOne(t, q, stod).rows) == multiset(Project(scan, ids)))
               && (col == 0 && !DistinctKeys(scan) ==> |SelectOne(t, q, stod).rows| < |scan|)
  {
    hide FindColumn, Filter, RowOrder, OnKey, OnColumn, DistinctKeys, Positions, SelectedNames;
    var col := FindColumn(t.columns, UpperAll(w.column.column));
    var v := ParseLiteral(w.literal, t.columns[col].kind, stod).value;
    var ids := Positions(t.columns, SelectedNames(q, t.columns)).value;
    if col == 0 {
      var scan := Filter(t.rows, OnKey(w.op, KeyOf(v)));
      KeyConditions(t, w.op, v);
      IndexIsScan(t.rows, w.op, KeyOf(v));
      FilterCommutes(t.rows, w.op, KeyOf(v));
      RowOrderBag(scan);
      if DistinctKeys(scan) { ProjectBag(Filter(RowOrder(t.rows), OnKey(w.op, KeyOf(v))), scan, ids); }
    }
  }

  // On the first column the index's condition is the comparison.
  lemma KeyConditions(t: Table, op: CmpOp, v: Value)
    requires RowsOk(t) && |t.columns| > 0 && TypeOf(v) == t.columns[0].kind
    ensures Filter(t.rows, OnColumn(0, op, v)) == Filter(t.rows, OnKey(op, KeyOf(v)))
  {
    hide Filter, Satisfies, Compare;
    forall x | x in t.rows ensures OnColumn(0, op, v)(x) == OnKey(op, KeyOf(v))(x) {
      var i :| 0 <= i < |t.rows| && t.rows[i] == x;
      assert FieldOk(t.columns[0], x[0]);
      CompareIsSatisfies(op, x[0], v);
    }
    FilterSame(t.rows, OnColumn(0, op, v), OnKey(op, KeyOf(v)));
  }
}
