/** What the answer of a SELECT is, by the positions of rows and the names of columns. */
module Answers {
  import opened Keys
  import opened Values
  import opened Lexer
  import opened Parser
  import opened Executor
  import opened KeyOrder
  import opened Query
  import opened Comparisons
  import opened Literals
  import opened RowPlaces

  // ---- One table ----

  predicate AsksAll(q: SelectStmt) {
    q.all || |q.columns| == 0 || (|q.columns| == 1 && q.columns[0].column == "*")
  }

  // The names over the answer: those of the columns, or those asked for.
  predicate NamesMean(q: SelectStmt, columns: Schema, names: seq<string>) {
    if AsksAll(q) then |names| == |columns| && forall c :: 0 <= c < |names| ==> names[c] == columns[c].name
    else |names| == |q.columns| && forall c :: 0 <= c < |names| ==> names[c] == UpperAll(q.columns[c].column)
  }

  function WhereColumn(columns: Schema, w: WhereClause): int { FindColumn(columns, UpperAll(w.column.column)) }

  // The row's value in the column compares with what the literal denotes.
  ghost predicate WhereHolds(columns: Schema, w: WhereClause, row: Row, stod: Stod) {
    var c := WhereColumn(columns, w);
    0 <= c < |row| && exists v :: Denotes(w.literal, columns[c].kind, v, stod) && Holds(w.op, row[c], v)
  }

  ghost predicate WhereDenotes(columns: Schema, w: WhereClause, stod: Stod) {
    var c := WhereColumn(columns, w);
    0 <= c && exists v :: Denotes(w.literal, columns[c].kind, v, stod)
  }

  // No later row has an equal primary key.
  ghost predicate Newest(rows: seq<Row>, i: nat) {
    forall j :: i < j < |rows| && |rows[j]| > 0 && i < |rows| && |rows[i]| > 0 ==> !Holds(EQ, rows[j][0], rows[i][0])
  }

  // The positions a WHERE clause leaves: all of them; by a condition on the primary key, the newest row of each key
  // that passes, by rising key; by any other condition, the rows that pass, in insertion order.
  ghost predicate Leaves(t: Table, where: Option<WhereClause>, at: seq<nat>, stod: Stod) {
    && InRange(at, |t.rows|)
    && match where
       case None => |at| == |t.rows| && forall k :: 0 <= k < |at| ==> at[k] == k
       case Some(w) =>
         if WhereColumn(t.columns, w) == 0 then
           && (forall i: nat :: i < |t.rows| ==>
                 (i in at <==> WhereHolds(t.columns, w, t.rows[i], stod) && Newest(t.rows, i)))
           && (forall a, b :: 0 <= a < b < |at| && |t.rows[at[a]]| > 0 && |t.rows[at[b]]| > 0 ==>
                 Holds(LT, t.rows[at[a]][0], t.rows[at[b]][0]))
         else
           && Climbing(at)
           && forall i: nat :: i < |t.rows| ==> (i in at <==> WhereHolds(t.columns, w, t.rows[i], stod))
  }

  predicate TableOk(t: Table) { RowsOk(t) && |t.columns| > 0 }

  lemma TestMeans(columns: Schema, w: WhereClause, row: Row, v: Value, stod: Stod)
    requires ValidRow(columns, row) && WhereColumn(columns, w) >= 0
    requires ParseLiteral(w.literal, columns[WhereColumn(columns, w)].kind, stod) == Some(v)
    ensures Compare(w.op, row[WhereColumn(columns, w)], v) <==> WhereHolds(columns, w, row, stod)
  {
    hide ParseLiteral, Denotes, Compare, Holds, FindColumn, UpperAll;
    var c := WhereColumn(columns, w);
    assert FieldOk(columns[c], row[c]);
    LiteralMeans(w.literal, columns[c].kind, v, stod);
    CompareHolds(w.op, row[c], v);
    forall u | Denotes(w.literal, columns[c].kind, u, stod) ensures u == v {
      LiteralMeans(w.literal, columns[c].kind, u, stod);
    }
  }

  lemma WhereFails(t: Table, w: WhereClause, stod: Stod)
    ensures WhereRows(t, Some(w), stod).None? <==> !WhereDenotes(t.columns, w, stod)
  {
    hide ParseLiteral, Denotes, FindColumn, UpperAll, Filter, RowOrder;
    var c := WhereColumn(t.columns, w);
    if c >= 0 {
      var v := ParseLiteral(w.literal, t.columns[c].kind, stod);
      if v.Some? {
        LiteralMeans(w.literal, t.columns[c].kind, v.value, stod);
      } else {
        forall u ensures !Denotes(w.literal, t.columns[c].kind, u, stod) {
          LiteralMeans(w.literal, t.columns[c].kind, u, stod);
        }
      }
    }
  }

  lemma KeysEqual(columns: Schema, a: Row, b: Row)
    requires ValidRow(columns, a) && ValidRow(columns, b) && |columns| > 0
    ensures KeyOfRow(a) == KeyOfRow(b) <==> Holds(EQ, a[0], b[0])
    ensures Less(KeyOfRow(a), KeyOfRow(b)) <==> Holds(LT, a[0], b[0])
  {
    hide Holds, Less, KeyOf;
    assert FieldOk(columns[0], a[0]) && FieldOk(columns[0], b[0]);
    CompareHolds(EQ, a[0], b[0]);
    CompareHolds(LT, a[0], b[0]);
    CompareIsSatisfies(LT, a[0], b[0]);
    LessSatisfies(KeyOf(a[0]), KeyOf(b[0]));
  }

  lemma NewestIsLast(t: Table, i: nat)
    requires TableOk(t) && i < |t.rows|
    ensures Newest(t.rows, i) <==> LastOfKey(t.rows, i)
  {
    hide Holds, KeyOfRow;
    assert ValidRow(t.columns, t.rows[i]);
    forall j | i < j < |t.rows|
      ensures KeyOfRow(t.rows[j]) == KeyOfRow(t.rows[i]) <==> Holds(EQ, t.rows[j][0], t.rows[i][0])
    {
      assert ValidRow(t.columns, t.rows[j]);
      KeysEqual(t.columns, t.rows[j], t.rows[i]);
    }
  }

  lemma ScanLeaves(t: Table, w: WhereClause, stod: Stod) returns (at: seq<nat>)
    requires TableOk(t) && WhereRows(t, Some(w), stod).Some? && WhereColumn(t.columns, w) != 0
    ensures Leaves(t, Some(w), at, stod) && WhereRows(t, Some(w), stod).value == RowsAt(t.rows, at)
  {
    hide ParseLiteral, FindColumn, UpperAll, Filter, RowOrder, Compare, WhereHolds, ValidRow;
    var c := WhereColumn(t.columns, w);
    var v := ParseLiteral(w.literal, t.columns[c].kind, stod).value;
    at := FilterAt(t.rows, OnColumn(c, w.op, v));
    forall i: nat | i < |t.rows| ensures i in at <==> WhereHolds(t.columns, w, t.rows[i], stod) {
      RowLength(t, i);
      TestMeans(t.columns, w, t.rows[i], v, stod);
    }
  }

  lemma RowLength(t: Table, i: nat)
    requires RowsOk(t) && i < |t.rows|
    ensures ValidRow(t.columns, t.rows[i]) && |t.rows[i]| == |t.columns|
  {
  }

  lemma IndexLeaves(t: Table, w: WhereClause, stod: Stod) returns (at: seq<nat>)
    requires TableOk(t) && WhereRows(t, Some(w), stod).Some? && WhereColumn(t.columns, w) == 0
    ensures Leaves(t, Some(w), at, stod) && WhereRows(t, Some(w), stod).value == RowsAt(t.rows, at)
  {
    hide ParseLiteral, FindColumn, UpperAll, Filter, RowOrder, Compare, WhereHolds, ValidRow, Satisfies, KeyOfRow;
    hide Newest, LastOfKey, Holds, Rising, KeyOf;
    var v := ParseLiteral(w.literal, t.columns[0].kind, stod).value;
    at := OrderFilterAt(t.rows, OnKey(w.op, KeyOf(v)));
    forall i: nat | i < |t.rows|
      ensures i in at <==> WhereHolds(t.columns, w, t.rows[i], stod) && Newest(t.rows, i)
    {
      RowLength(t, i);
      TestMeans(t.columns, w, t.rows[i], v, stod);
      KeyTest(t.columns, w.op, t.rows[i], v);
      NewestIsLast(t, i);
    }
    RowOrderRising(t.rows);
    FilterRising(RowOrder(t.rows), OnKey(w.op, KeyOf(v)));
    RisesByKey(t, at);
  }

  lemma KeyTest(columns: Schema, op: CmpOp, row: Row, v: Value)
    requires ValidRow(columns, row) && |columns| > 0 && TypeOf(v) == columns[0].kind
    ensures |row| > 0 && (Satisfies(op, KeyOfRow(row), KeyOf(v)) <==> Compare(op, row[0], v))
  {
    hide Satisfies, Compare;
    assert FieldOk(columns[0], row[0]);
    CompareIsSatisfies(op, row[0], v);
  }

  lemma RisesByKey(t: Table, at: seq<nat>)
    requires TableOk(t) && InRange(at, |t.rows|) && Rising(RowsAt(t.rows, at))
    ensures forall a, b :: 0 <= a < b < |at| && |t.rows[at[a]]| > 0 && |t.rows[at[b]]| > 0 ==>
              Holds(LT, t.rows[at[a]][0], t.rows[at[b]][0])
  {
    hide Holds, Less, KeyOfRow, ValidRow;
    var rows := RowsAt(t.rows, at);
    forall a, b | 0 <= a < b < |at| && |t.rows[at[a]]| > 0 && |t.rows[at[b]]| > 0
      ensures Holds(LT, t.rows[at[a]][0], t.rows[at[b]][0])
    {
      RowLength(t, at[a]);
      RowLength(t, at[b]);
      assert Less(KeyOfRow(rows[a]), KeyOfRow(rows[b]));
      KeysEqual(t.columns, t.rows[at[a]], t.rows[at[b]]);
    }
  }

  lemma WhereMeans(t: Table, where: Option<WhereClause>, stod: Stod) returns (at: seq<nat>)
    requires TableOk(t) && WhereRows(t, where, stod).Some?
    ensures InRange(at, |t.rows|) && WhereRows(t, where, stod).value == RowsAt(t.rows, at)
    ensures Leaves(t, where, at, stod)
  {
    hide TableOk, WhereColumn;
    match where
    case None => at := seq(|t.rows|, k => k);
    case Some(w) =>
      if WhereColumn(t.columns, w) == 0 { at := IndexLeaves(t, w, stod); } else { at := ScanLeaves(t, w, stod); }
  }

  // ---- Answers from one table ----

  // What makes a SELECT fail: no such table, a name that the table does not have, or a WHERE clause on a column that it
  // does not have or with a literal that denotes nothing there.
  ghost predicate Fails(db: Db, q: SelectStmt, stod: Stod) {
    || UpperAll(q.table) !in db
    || (var columns := db[UpperAll(q.table)].columns;
        || (!AsksAll(q) && exists c :: 0 <= c < |q.columns| && !HasColumn(columns, UpperAll(q.columns[c].column)))
        || (q.where.Some? && !WhereDenotes(columns, q.where.value, stod)))
  }

  // Under each name stands that column's value in the row at the position left by the WHERE clause.
  predicate FieldsMean(t: Table, names: seq<string>, at: seq<nat>, rows: seq<Row>) {
    && InRange(at, |t.rows|) && |rows| == |at|
    && forall k :: 0 <= k < |rows| ==> |rows[k]| == |names| && RowFields(t, names, t.rows[at[k]], rows[k])
  }

  predicate RowFields(t: Table, names: seq<string>, from: Row, row: Row)
    requires |row| == |names|
  {
    forall c :: 0 <= c < |names| ==>
      var f := FindColumn(t.columns, names[c]);
      0 <= f < |from| && row[c] == from[f]
  }

  lemma NamesAre(q: SelectStmt, columns: Schema)
    ensures NamesMean(q, columns, SelectedNames(q, columns))
    ensures (exists k :: 0 <= k < |SelectedNames(q, columns)| && !HasColumn(columns, SelectedNames(q, columns)[k])) <==>
            !AsksAll(q) && exists c :: 0 <= c < |q.columns| && !HasColumn(columns, UpperAll(q.columns[c].column))
  {
    hide HasColumn, UpperAll;
    var names := SelectedNames(q, columns);
    if AsksAll(q) {
      forall c | 0 <= c < |columns| ensures HasColumn(columns, names[c]) { Present(columns, c); }
    } else {
      assert forall c :: 0 <= c < |q.columns| ==> names[c] == UpperAll(q.columns[c].column);
    }
  }

  lemma Present(columns: Schema, c: nat)
    requires c < |columns|
    ensures HasColumn(columns, columns[c].name)
  {
  }

  lemma PickedFields(t: Table, names: seq<string>, ids: seq<nat>, from: Row)
    requires ValidRow(t.columns, from) && |ids| == |names|
    requires forall k :: 0 <= k < |names| ==> ids[k] == FindColumn(t.columns, names[k])
    ensures RowFields(t, names, from, Pick(from, ids))
  {
    hide FindColumn;
    forall c | 0 <= c < |names| ensures 0 <= FindColumn(t.columns, names[c]) < |from| {
      assert ids[c] == FindColumn(t.columns, names[c]);
    }
  }

  // A SELECT on one table fails exactly when it should; else its answer has the names asked for, and under each name
  // that column's value in each row that the WHERE clause leaves, in that order.
  lemma SelectMeans(db: Db, q: SelectStmt, stod: Stod) returns (at: seq<nat>)
    requires q.join.None? && (UpperAll(q.table) in db ==> TableOk(db[UpperAll(q.table)]))
    ensures Fails(db, q, stod) <==> SelectAnswer(db, q, stod).Failed?
    ensures var a := SelectAnswer(db, q, stod);
            a.Answer? ==>
              var t := db[UpperAll(q.table)];
              NamesMean(q, t.columns, a.names) && Leaves(t, q.where, at, stod) && FieldsMean(t, a.names, at, a.rows)
  {
    hide UpperAll, Positions, WhereRows, SelectedNames, Leaves, NamesMean, WhereDenotes, AsksAll, TableOk, Project;
    hide Pick, RowFields, HasColumn;
    at := [];
    if UpperAll(q.table) in db {
      var t := db[UpperAll(q.table)];
      var names := SelectedNames(q, t.columns);
      NamesAre(q, t.columns);
      PositionsMean(t.columns, names);
      if q.where.Some? { WhereFails(t, q.where.value, stod); } else { WholeTable(t, stod); }
      if SelectAnswer(db, q, stod).Answer? {
        at := WhereMeans(t, q.where, stod);
        ProjectedFields(t, names, Positions(t.columns, names).value, at);
      }
    }
  }

  lemma WholeTable(t: Table, stod: Stod)
    ensures WhereRows(t, None, stod).Some?
  {
  }

  lemma ProjectedFields(t: Table, names: seq<string>, ids: seq<nat>, at: seq<nat>)
    requires TableOk(t) && InRange(at, |t.rows|) && |ids| == |names|
    requires forall k :: 0 <= k < |names| ==> ids[k] == FindColumn(t.columns, names[k])
    ensures FieldsMean(t, names, at, Project(RowsAt(t.rows, at), ids))
  {
    hide Pick, FindColumn, RowFields, ValidRow;
    forall k | 0 <= k < |at| ensures RowFields(t, names, t.rows[at[k]], Pick(t.rows[at[k]], ids)) {
      RowLength(t, at[k]);
      PickedFields(t, names, ids, t.rows[at[k]]);
    }
  }

  // SELECT * without a WHERE clause returns the table as it is, if no two columns share a name.
  lemma StarReturnsTable(db: Db, q: SelectStmt, stod: Stod)
    requires q.join.None? && q.where.None? && AsksAll(q) && UpperAll(q.table) in db && TableOk(db[UpperAll(q.table)])
    requires var columns := db[UpperAll(q.table)].columns;
             forall c, d :: 0 <= c < d < |columns| ==> columns[c].name != columns[d].name
    ensures var t, a := db[UpperAll(q.table)], SelectAnswer(db, q, stod);
            a.Answer? && a.rows == t.rows && |a.names| == |t.columns| &&
            forall c :: 0 <= c < |a.names| ==> a.names[c] == t.columns[c].name
  {
    hide UpperAll, SelectAnswer, FindColumn, ValidRow;
    var t, a := db[UpperAll(q.table)], SelectAnswer(db, q, stod);
    var at := SelectMeans(db, q, stod);
    forall c | 0 <= c < |t.columns| ensures FindColumn(t.columns, t.columns[c].name) == c {
      var f := FindColumn(t.columns, t.columns[c].name);
    }
    forall k | 0 <= k < |a.rows| ensures a.rows[k] == t.rows[k] {
      RowLength(t, k);
      assert RowFields(t, a.names, t.rows[at[k]], a.rows[k]);
      forall c | 0 <= c < |a.names| ensures a.rows[k][c] == t.rows[k][c] {
        assert FindColumn(t.columns, a.names[c]) == c;
      }
    }
  }

  // ---- Answers from two tables ----

  // The reference may mean the table, and the table has the column.
  predicate InTable(cr: ColumnRef, table: string, columns: Schema) {
    (UpperAll(cr.table) == table || UpperAll(cr.table) == "") && HasColumn(columns, UpperAll(cr.column))
  }

  function ShownName(cr: ColumnRef): string {
    if UpperAll(cr.table) == "" then UpperAll(cr.column) else UpperAll(cr.table) + "." + UpperAll(cr.column)
  }

  // A row passes a literal that denotes nothing.
  ghost predicate RowPasses(columns: Schema, w: WhereClause, row: Row, stod: Stod) {
    WhereDenotes(columns, w, stod) ==> WhereHolds(columns, w, row, stod)
  }

  // The condition is on the left row if the left table has the column, else on the right one; a column of neither table
  // lets every pair pass.
  ghost predicate PairPasses(where: Option<WhereClause>, ln: string, lc: Schema, rn: string, rc: Schema, l: Row, r: Row,
                             stod: Stod)
  {
    match where
    case None => true
    case Some(w) =>
      if InTable(w.column, ln, lc) then RowPasses(lc, w, l, stod)
      else InTable(w.column, rn, rc) ==> RowPasses(rc, w, r, stod)
  }

  ghost predicate OnHolds(j: JoinClause, lc: Schema, rc: Schema, l: Row, r: Row) {
    var li, ri := FindColumn(lc, UpperAll(j.leftCol.column)), FindColumn(rc, UpperAll(j.rightCol.column));
    0 <= li < |l| && 0 <= ri < |r| && Holds(j.op, l[li], r[ri])
  }

  predicate ColumnValue(columns: Schema, cr: ColumnRef, row: Row, v: Value) {
    var f := FindColumn(columns, UpperAll(cr.column));
    0 <= f < |row| && row[f] == v
  }

  // The value of the left table's column if the left table has it, else of the right one's.
  predicate FieldIs(cr: ColumnRef, ln: string, lc: Schema, rn: string, rc: Schema, l: Row, r: Row, v: Value) {
    if InTable(cr, ln, lc) then ColumnValue(lc, cr, l, v) else InTable(cr, rn, rc) && ColumnValue(rc, cr, r, v)
  }

  predicate JoinNames(q: SelectStmt, ln: string, lc: Schema, rn: string, rc: Schema, names: seq<string>) {
    if AsksAll(q) then
      && |names| == |lc| + |rc|
      && (forall c :: 0 <= c < |lc| ==> names[c] == ln + "." + lc[c].name)
      && (forall c :: 0 <= c < |rc| ==> names[|lc| + c] == rn + "." + rc[c].name)
    else |names| == |q.columns| && forall c :: 0 <= c < |names| ==> names[c] == ShownName(q.columns[c])
  }

  predicate JoinRow(q: SelectStmt, ln: string, lc: Schema, rn: string, rc: Schema, l: Row, r: Row, row: Row) {
    if AsksAll(q) then row == l + r
    else |row| == |q.columns| && forall c :: 0 <= c < |row| ==> FieldIs(q.columns[c], ln, lc, rn, rc, l, r, row[c])
  }

  // Exactly the pairs of positions whose rows compare in the ON columns and pass the WHERE clause, by rising left
  // position and then by rising right position.
  ghost predicate JoinLeaves(lt: Table, rt: Table, q: SelectStmt, j: JoinClause, ps: seq<Pair>, stod: Stod) {
    && PairsIn(ps, |lt.rows|, |rt.rows|) && PairsClimb(ps)
    && forall a: nat, b: nat :: a < |lt.rows| && b < |rt.rows| ==>
         (Pair(a, b) in ps <==>
          OnHolds(j, lt.columns, rt.columns, lt.rows[a], rt.rows[b]) &&
          PairPasses(q.where, UpperAll(q.table), lt.columns, UpperAll(j.rightTable), rt.columns, lt.rows[a],
                     rt.rows[b], stod))
  }

  predicate JoinRows(lt: Table, rt: Table, q: SelectStmt, j: JoinClause, ps: seq<Pair>, rows: seq<Row>) {
    && PairsIn(ps, |lt.rows|, |rt.rows|) && |rows| == |ps|
    && forall k :: 0 <= k < |rows| ==>
         JoinRow(q, UpperAll(q.table), lt.columns, UpperAll(j.rightTable), rt.columns, lt.rows[ps[k].left],
                 rt.rows[ps[k].right], rows[k])
  }

  // Some listed column is in neither table.
  predicate Stranger(crs: seq<ColumnRef>, ln: string, lc: Schema, rn: string, rc: Schema) {
    exists c :: 0 <= c < |crs| && !InTable(crs[c], ln, lc) && !InTable(crs[c], rn, rc)
  }

  predicate JoinFails(lt: Table, rt: Table, q: SelectStmt, j: JoinClause) {
    || !HasColumn(lt.columns, UpperAll(j.leftCol.column)) || !HasColumn(rt.columns, UpperAll(j.rightCol.column))
    || (!AsksAll(q) && Stranger(q.columns, UpperAll(q.table), lt.columns, UpperAll(j.rightTable), rt.columns))
  }

  // Values of the ON columns compare: they are of one type, or the operator is = as in every parsed statement.
  predicate OnComparable(lt: Table, rt: Table, j: JoinClause) {
    var li := FindColumn(lt.columns, UpperAll(j.leftCol.column));
    var ri := FindColumn(rt.columns, UpperAll(j.rightCol.column));
    li >= 0 && ri >= 0 ==> Comparable(j.op, lt.columns[li].kind, rt.columns[ri].kind)
  }

  // ---- Where the values of a pair go ----

  lemma SourceMeans(cr: ColumnRef, ln: string, lc: Schema, rn: string, rc: Schema)
    ensures FindSource(cr, ln, lc, rn, rc).None? <==> !InTable(cr, ln, lc) && !InTable(cr, rn, rc)
    ensures var s := FindSource(cr, ln, lc, rn, rc);
            s.Some? ==>
              && s.value.name == ShownName(cr) && s.value.fromLeft == InTable(cr, ln, lc)
              && s.value.idx == FindColumn(if s.value.fromLeft then lc else rc, UpperAll(cr.column))
              && s.value.idx < |if s.value.fromLeft then lc else rc|
  {
    hide FindColumn, UpperAll, HasColumn;
    FoundIffHas(lc, UpperAll(cr.column));
    FoundIffHas(rc, UpperAll(cr.column));
  }

  lemma {:induction false} SourcesMean(crs: seq<ColumnRef>, ln: string, lc: Schema, rn: string, rc: Schema)
    ensures FindSources(crs, ln, lc, rn, rc).None? <==> Stranger(crs, ln, lc, rn, rc)
    ensures var r := FindSources(crs, ln, lc, rn, rc);
            r.Some? ==>
              && |r.value| == |crs|
              && forall c :: 0 <= c < |crs| ==> FindSource(crs[c], ln, lc, rn, rc) == Some(r.value[c])
  {
    hide FindSource, InTable;
    if crs != [] {
      var n := |crs| - 1;
      SourcesMean(crs[..n], ln, lc, rn, rc);
      SourceMeans(crs[n], ln, lc, rn, rc);
      if Stranger(crs, ln, lc, rn, rc) {
        var c :| 0 <= c < |crs| && !InTable(crs[c], ln, lc) && !InTable(crs[c], rn, rc);
        if c < n { assert crs[..n][c] == crs[c]; }
      }
    }
  }

  lemma FieldOf(cr: ColumnRef, ln: string, lc: Schema, rn: string, rc: Schema, l: Row, r: Row, s: Source)
    requires FindSource(cr, ln, lc, rn, rc) == Some(s) && ValidRow(lc, l) && ValidRow(rc, r)
    ensures s.name == ShownName(cr) && s.idx < |if s.fromLeft then l else r|
    ensures FieldIs(cr, ln, lc, rn, rc, l, r, (if s.fromLeft then l else r)[s.idx])
  {
    hide FindColumn, UpperAll, InTable, FindSource;
    SourceMeans(cr, ln, lc, rn, rc);
  }

  // An output row and the names over it, from the sources of a SELECT.
  lemma OutMeans(q: SelectStmt, ln: string, lc: Schema, rn: string, rc: Schema, l: Row, r: Row)
    requires Sources(q, ln, lc, rn, rc).Some? && ValidRow(lc, l) && ValidRow(rc, r)
    ensures JoinRow(q, ln, lc, rn, rc, l, r, OutRow(Sources(q, ln, lc, rn, rc).value)(l, r))
  {
    hide FindSource, FindSources, FieldIs, ValidRow;
    var ss := Sources(q, ln, lc, rn, rc).value;
    assert |l| == |lc| && |r| == |rc| by { SameWidth(lc, l); SameWidth(rc, r); }
    if !AsksAll(q) {
      SourcesMean(q.columns, ln, lc, rn, rc);
      forall c | 0 <= c < |ss| ensures FieldIs(q.columns[c], ln, lc, rn, rc, l, r, OutRow(ss)(l, r)[c]) {
        FieldOf(q.columns[c], ln, lc, rn, rc, l, r, ss[c]);
      }
    }
  }

  lemma SameWidth(columns: Schema, row: Row)
    requires ValidRow(columns, row)
    ensures |row| == |columns|
  {
  }

  lemma NamesMeanOf(q: SelectStmt, ln: string, lc: Schema, rn: string, rc: Schema)
    requires Sources(q, ln, lc, rn, rc).Some?
    ensures JoinNames(q, ln, lc, rn, rc, Names(Sources(q, ln, lc, rn, rc).value))
  {
    hide FindSource, FindSources, ShownName;
    var ss := Sources(q, ln, lc, rn, rc).value;
    if !AsksAll(q) {
      SourcesMean(q.columns, ln, lc, rn, rc);
      forall c | 0 <= c < |ss| ensures ss[c].name == ShownName(q.columns[c]) {
        SourceMeans(q.columns[c], ln, lc, rn, rc);
      }
    }
  }

  // ---- Which pairs pass ----

  lemma ChecksMeans(columns: Schema, w: WhereClause, row: Row, stod: Stod)
    requires ValidRow(columns, row) && WhereColumn(columns, w) >= 0
    ensures var c := WhereColumn(columns, w);
            Checks(row, c, w.op, ParseLiteral(w.literal, columns[c].kind, stod)) <==> RowPasses(columns, w, row, stod)
  {
    hide ParseLiteral, Denotes, Compare, FindColumn, UpperAll, WhereHolds;
    var c := WhereColumn(columns, w);
    var v := ParseLiteral(w.literal, columns[c].kind, stod);
    SameWidth(columns, row);
    if v.Some? {
      LiteralMeans(w.literal, columns[c].kind, v.value, stod);
      TestMeans(columns, w, row, v.value, stod);
    } else {
      forall u ensures !Denotes(w.literal, columns[c].kind, u, stod) {
        LiteralMeans(w.literal, columns[c].kind, u, stod);
      }
    }
  }

  lemma PassMeans(where: Option<WhereClause>, ln: string, lc: Schema, rn: string, rc: Schema, l: Row, r: Row,
                  stod: Stod)
    requires ValidRow(lc, l) && ValidRow(rc, r)
    ensures Passes(where, ln, lc, rn, rc, stod)(l, r) <==> PairPasses(where, ln, lc, rn, rc, l, r, stod)
  {
    hide FindColumn, UpperAll, HasColumn, Checks, RowPasses, ParseLiteral;
    if where.Some? {
      var w := where.value;
      FoundIffHas(lc, UpperAll(w.column.column));
      FoundIffHas(rc, UpperAll(w.column.column));
      if InTable(w.column, ln, lc) {
        ChecksMeans(lc, w, l, stod);
      } else if InTable(w.column, rn, rc) {
        ChecksMeans(rc, w, r, stod);
      }
    }
  }

  lemma OnMeans(j: JoinClause, lt: Table, rt: Table, pass: (Row, Row) -> bool, l: Row, r: Row)
    requires ValidRow(lt.columns, l) && ValidRow(rt.columns, r) && OnComparable(lt, rt, j)
    requires FindColumn(lt.columns, UpperAll(j.leftCol.column)) >= 0
    requires FindColumn(rt.columns, UpperAll(j.rightCol.column)) >= 0
    ensures var li := FindColumn(lt.columns, UpperAll(j.leftCol.column));
            var ri := FindColumn(rt.columns, UpperAll(j.rightCol.column));
            On(j.op, li, ri, pass)(l, r) <==> OnHolds(j, lt.columns, rt.columns, l, r) && pass(l, r)
  {
    hide FindColumn, UpperAll, Compare, Holds;
    var li := FindColumn(lt.columns, UpperAll(j.leftCol.column));
    var ri := FindColumn(rt.columns, UpperAll(j.rightCol.column));
    assert FieldOk(lt.columns[li], l[li]) && FieldOk(rt.columns[ri], r[ri]);
    CompareHolds(j.op, l[li], r[ri]);
  }

  lemma TwoTables(lt: Table, rt: Table, q: SelectStmt, j: JoinClause, stod: Stod) returns (ps: seq<Pair>)
    requires TableOk(lt) && TableOk(rt) && OnComparable(lt, rt, j)
    ensures JoinFails(lt, rt, q, j) <==> SelectTwo(lt, rt, q, j, stod).Failed?
    ensures var a := SelectTwo(lt, rt, q, j, stod);
            a.Answer? ==>
              && JoinNames(q, UpperAll(q.table), lt.columns, UpperAll(j.rightTable), rt.columns, a.names)
              && JoinLeaves(lt, rt, q, j, ps, stod) && JoinRows(lt, rt, q, j, ps, a.rows)
  {
    hide UpperAll, FindColumn, HasColumn, Sources, Passes, Product, On, OutRow, Names, OnComparable, TableOk, JoinNames;
    hide JoinLeaves, JoinRows, Stranger, AsksAll;
    ps := [];
    var ln, rn := UpperAll(q.table), UpperAll(j.rightTable);
    FoundIffHas(lt.columns, UpperAll(j.leftCol.column));
    FoundIffHas(rt.columns, UpperAll(j.rightCol.column));
    SourcesFail(q, ln, lt.columns, rn, rt.columns);
    if SelectTwo(lt, rt, q, j, stod).Answer? {
      NamesMeanOf(q, ln, lt.columns, rn, rt.columns);
      ps := PairsMean(lt, rt, q, j, stod);
    }
  }

  lemma SourcesFail(q: SelectStmt, ln: string, lc: Schema, rn: string, rc: Schema)
    ensures Sources(q, ln, lc, rn, rc).None? <==> !AsksAll(q) && Stranger(q.columns, ln, lc, rn, rc)
  {
    hide FindSources, Stranger;
    SourcesMean(q.columns, ln, lc, rn, rc);
  }

  lemma PairsMean(lt: Table, rt: Table, q: SelectStmt, j: JoinClause, stod: Stod) returns (ps: seq<Pair>)
    requires TableOk(lt) && TableOk(rt) && OnComparable(lt, rt, j) && SelectTwo(lt, rt, q, j, stod).Answer?
    ensures JoinLeaves(lt, rt, q, j, ps, stod) && JoinRows(lt, rt, q, j, ps, SelectTwo(lt, rt, q, j, stod).rows)
  {
    hide UpperAll, FindColumn, Sources, Passes, Product, On, OutRow, Names, OnComparable, OnHolds, PairPasses, JoinRow;
    hide PairsClimb, ValidRow;
    var ln, rn := UpperAll(q.table), UpperAll(j.rightTable);
    var li := FindColumn(lt.columns, UpperAll(j.leftCol.column));
    var ri := FindColumn(rt.columns, UpperAll(j.rightCol.column));
    var pass := Passes(q.where, ln, lt.columns, rn, rt.columns, stod);
    var out := OutRow(Sources(q, ln, lt.columns, rn, rt.columns).value);
    ps := ProductAt(lt.rows, rt.rows, On(j.op, li, ri, pass), out);
    forall a: nat, b: nat | a < |lt.rows| && b < |rt.rows|
      ensures On(j.op, li, ri, pass)(lt.rows[a], rt.rows[b]) <==>
              OnHolds(j, lt.columns, rt.columns, lt.rows[a], rt.rows[b]) &&
              PairPasses(q.where, ln, lt.columns, rn, rt.columns, lt.rows[a], rt.rows[b], stod)
    {
      RowLength(lt, a);
      RowLength(rt, b);
      OnMeans(j, lt, rt, pass, lt.rows[a], rt.rows[b]);
      PassMeans(q.where, ln, lt.columns, rn, rt.columns, lt.rows[a], rt.rows[b], stod);
    }
    forall k | 0 <= k < |ps|
      ensures JoinRow(q, ln, lt.columns, rn, rt.columns, lt.rows[ps[k].left], rt.rows[ps[k].right],
                      out(lt.rows[ps[k].left], rt.rows[ps[k].right]))
    {
      RowLength(lt, ps[k].left);
      RowLength(rt, ps[k].right);
      OutMeans(q, ln, lt.columns, rn, rt.columns, lt.rows[ps[k].left], rt.rows[ps[k].right]);
    }
  }

  // A join fails exactly when it should; else its names are those asked for, its rows are those of exactly the pairs
  // that compare and pass, left table first, and each value is the one its name says.
  lemma JoinMeans(db: Db, q: SelectStmt, stod: Stod) returns (ps: seq<Pair>)
    requires q.join.Some?
    requires forall n :: n in db ==> TableOk(db[n])
    requires var ln, rn := UpperAll(q.table), UpperAll(q.join.value.rightTable);
             ln in db && rn in db ==> OnComparable(db[ln], db[rn], q.join.value)
    ensures var ln, rn, j := UpperAll(q.table), UpperAll(q.join.value.rightTable), q.join.value;
            var a := SelectAnswer(db, q, stod);
            && (a.Failed? <==> ln !in db || rn !in db || JoinFails(db[ln], db[rn], q, j))
            && (a.Answer? ==>
                  && JoinNames(q, ln, db[ln].columns, rn, db[rn].columns, a.names)
                  && JoinLeaves(db[ln], db[rn], q, j, ps, stod) && JoinRows(db[ln], db[rn], q, j, ps, a.rows))
  {
    hide UpperAll, SelectTwo, OnComparable, TableOk, JoinNames, JoinLeaves, JoinRows, JoinFails;
    var ln, rn := UpperAll(q.table), UpperAll(q.join.value.rightTable);
    ps := [];
    if ln in db && rn in db { ps := TwoTables(db[ln], db[rn], q, q.join.value, stod); }
  }
}
