/** Rows in primary-key order, the latest row of each key: what the index makes of a table. */
module KeyOrder {
  import opened Keys
  import opened Values

  function KeyOfRow(row: Row): Key { if row == [] then Num(0) else KeyOf(row[0]) }

  // Insert a row at its key's place, replacing a row of the same key.
  function PutRow(s: seq<Row>, row: Row): (r: seq<Row>)
    ensures |s| <= |r| <= |s| + 1
  {
    if s == [] then [row]
    else if Less(KeyOfRow(s[0]), KeyOfRow(row)) then [s[0]] + PutRow(s[1..], row)
    else if KeyOfRow(s[0]) == KeyOfRow(row) then [row] + s[1..]
    else [row] + s
  }

  function RowOrder(rows: seq<Row>): seq<Row> {
    if rows == [] then [] else PutRow(RowOrder(rows[..|rows| - 1]), rows[|rows| - 1])
  }

  predicate Rising(s: seq<Row>) { forall i, j :: 0 <= i < j < |s| ==> Less(KeyOfRow(s[i]), KeyOfRow(s[j])) }

  function Filter(rows: seq<Row>, keep: Row -> bool): seq<Row> {
    if rows == [] then []
    else if keep(rows[0]) then [rows[0]] + Filter(rows[1..], keep)
    else Filter(rows[1..], keep)
  }

  // A condition on the primary key alone.
  function OnKey(op: CmpOp, key: Key): Row -> bool { row => Satisfies(op, KeyOfRow(row), key) }

  // A condition on any one column.
  function OnColumn(col: nat, op: CmpOp, v: Value): Row -> bool { row => col < |row| && Compare(op, row[col], v) }

  lemma {:induction false} PutRowRising(s: seq<Row>, row: Row)
    requires Rising(s)
    ensures Rising(PutRow(s, row))
    ensures forall x :: x in PutRow(s, row) ==> x == row || x in s
  {
    hide Less;
    if s != [] {
      var k, k0 := KeyOfRow(row), KeyOfRow(s[0]);
      PutRowRising(s[1..], row);
      LessTotal(k0, k);
      if Less(k0, k) {
        var rest := PutRow(s[1..], row);
        forall j | 0 <= j < |rest| ensures Less(k0, KeyOfRow(rest[j])) { assert rest[j] in rest; }
      } else if k0 != k {
        forall j | 0 <= j < |s| ensures Less(k, KeyOfRow(s[j])) {
          if j > 0 { LessTransitive(k, k0, KeyOfRow(s[j])); }
        }
      }
    }
  }

  lemma {:induction false} RowOrderRising(rows: seq<Row>)
    ensures Rising(RowOrder(rows))
    ensures forall x :: x in RowOrder(rows) ==> x in rows
  {
    hide Less;
    if rows != [] {
      RowOrderRising(rows[..|rows| - 1]);
      PutRowRising(RowOrder(rows[..|rows| - 1]), rows[|rows| - 1]);
    }
  }

  // ---- Filtering by key before or after indexing ----

  lemma {:induction false} FilterAbove(s: seq<Row>, row: Row, keep: Row -> bool)
    requires Rising(s) && forall i :: 0 <= i < |s| ==> Less(KeyOfRow(row), KeyOfRow(s[i]))
    ensures PutRow(Filter(s, keep), row) == [row] + Filter(s, keep)
  {
    hide Less;
    if s != [] {
      FilterAbove(s[1..], row, keep);
      LessAsymmetric(KeyOfRow(row), KeyOfRow(s[0]));
      LessIrreflexive(KeyOfRow(row));
    }
  }

  lemma {:induction false} FilterPut(s: seq<Row>, row: Row, op: CmpOp, key: Key)
    requires Rising(s)
    ensures Filter(PutRow(s, row), OnKey(op, key)) ==
            if OnKey(op, key)(row) then PutRow(Filter(s, OnKey(op, key)), row) else Filter(s, OnKey(op, key))
  {
    hide Less, Satisfies;
    var keep := OnKey(op, key);
    if s != [] {
      var k, k0 := KeyOfRow(row), KeyOfRow(s[0]);
      LessTotal(k0, k);
      if Less(k0, k) {
        FilterPut(s[1..], row, op, key);
        FilterKept(s[0], PutRow(s[1..], row), keep);
      } else if k0 == k {
        FilterKept(row, s[1..], keep);
        RisingTail(s, k);
        FilterAbove(s[1..], row, keep);
      } else {
        RisingAbove(s, k);
        FilterAbove(s, row, keep);
        FilterKept(row, s, keep);
      }
    }
  }

  lemma FilterKept(x: Row, s: seq<Row>, keep: Row -> bool)
    ensures Filter([x] + s, keep) == if keep(x) then [x] + Filter(s, keep) else Filter(s, keep)
  {
    assert ([x] + s)[1..] == s;
  }

  lemma RisingTail(s: seq<Row>, k: Key)
    requires Rising(s) && s != [] && KeyOfRow(s[0]) == k
    ensures forall i :: 0 <= i < |s[1..]| ==> Less(k, KeyOfRow(s[1..][i]))
  {
  }

  lemma RisingAbove(s: seq<Row>, k: Key)
    requires Rising(s) && s != [] && Less(k, KeyOfRow(s[0]))
    ensures forall i :: 0 <= i < |s| ==> Less(k, KeyOfRow(s[i]))
  {
    hide Less;
    forall i | 0 <= i < |s| ensures Less(k, KeyOfRow(s[i])) {
      if i > 0 { LessTransitive(k, KeyOfRow(s[0]), KeyOfRow(s[i])); }
    }
  }

  lemma {:induction false} FilterSnoc(s: seq<Row>, x: Row, keep: Row -> bool)
    ensures Filter(s + [x], keep) == Filter(s, keep) + if keep(x) then [x] else []
  {
    if s == [] {
      assert [] + [x] == [x];
    } else {
      assert (s + [x])[1..] == s[1..] + [x];
      FilterSnoc(s[1..], x, keep);
    }
  }

  // Selecting by key from the index is indexing the selected rows.
  lemma {:induction false} FilterCommutes(rows: seq<Row>, op: CmpOp, key: Key)
    ensures Filter(RowOrder(rows), OnKey(op, key)) == RowOrder(Filter(rows, OnKey(op, key)))
  {
    hide Less, Satisfies, PutRow, OnKey, Filter;
    var keep := OnKey(op, key);
    if rows == [] {
      FilterNothing(keep);
    } else {
      var init, last := rows[..|rows| - 1], rows[|rows| - 1];
      assert rows == init + [last];
      FilterCommutes(init, op, key);
      RowOrderRising(init);
      FilterPut(RowOrder(init), last, op, key);
      FilterSnoc(init, last, keep);
      RowOrderSnoc(Filter(init, keep), last);
      assert Filter(init, keep) + [] == Filter(init, keep);
    }
  }

  lemma FilterNothing(keep: Row -> bool)
    ensures Filter([], keep) == []
  {
  }

  lemma RowOrderSnoc(s: seq<Row>, x: Row)
    ensures RowOrder(s + [x]) == PutRow(RowOrder(s), x)
  {
    assert (s + [x])[..|s|] == s;
  }

  // ---- When the index shows every row ----

  predicate DistinctKeys(rows: seq<Row>) {
    forall i, j :: 0 <= i < j < |rows| ==> KeyOfRow(rows[i]) != KeyOfRow(rows[j])
  }

  predicate HasKey(s: seq<Row>, k: Key) { exists x :: x in s && KeyOfRow(x) == k }

  lemma {:induction false} PutRowBag(s: seq<Row>, row: Row)
    requires Rising(s)
    ensures !HasKey(s, KeyOfRow(row)) ==> multiset(PutRow(s, row)) == multiset(s) + multiset{row}
    ensures HasKey(s, KeyOfRow(row)) ==> |PutRow(s, row)| == |s|
  {
    hide Less;
    if s != [] {
      var k, k0 := KeyOfRow(row), KeyOfRow(s[0]);
      LessTotal(k0, k);
      assert s == [s[0]] + s[1..];
      if Less(k0, k) {
        LessIrreflexive(k);
        PutRowBag(s[1..], row);
      } else if k0 != k {
        RisingAbove(s, k);
        LessIrreflexive(k);
      }
    }
  }

  lemma {:induction false} RowOrderKeys(rows: seq<Row>, k: Key)
    ensures HasKey(rows, k) <==> HasKey(RowOrder(rows), k)
  {
    hide Less, PutRow;
    if rows != [] {
      var init, last := rows[..|rows| - 1], rows[|rows| - 1];
      RowOrderKeys(init, k);
      PutRowKeys(RowOrder(init), last, k);
      assert rows == init + [last];
      assert last in rows && forall x :: x in rows <==> x in init || x == last;
    }
  }

  lemma {:induction false} PutRowKeys(s: seq<Row>, row: Row, k: Key)
    ensures HasKey(PutRow(s, row), k) <==> k == KeyOfRow(row) || HasKey(s, k)
  {
    hide Less;
    var r := PutRow(s, row);
    if s == [] {
      assert r == [row] && row in r;
    } else {
      PutRowKeys(s[1..], row, k);
      assert forall x :: x in s <==> x == s[0] || x in s[1..];
      if Less(KeyOfRow(s[0]), KeyOfRow(row)) {
        assert s[0] in r && forall x :: x in r <==> x == s[0] || x in PutRow(s[1..], row);
      } else if KeyOfRow(s[0]) == KeyOfRow(row) {
        assert row in r && forall x :: x in r <==> x == row || x in s[1..];
      } else {
        assert row in r && forall x :: x in r <==> x == row || x in s;
      }
    }
  }

  // The index holds every row, in key order, exactly when no key repeats; otherwise it holds fewer.
  lemma {:induction false} RowOrderBag(rows: seq<Row>)
    ensures DistinctKeys(rows) ==> multiset(RowOrder(rows)) == multiset(rows)
    ensures !DistinctKeys(rows) ==> |RowOrder(rows)| < |rows|
    ensures |RowOrder(rows)| <= |rows|
  {
    hide Less, PutRow;
    if rows != [] {
      var init, last := rows[..|rows| - 1], rows[|rows| - 1];
      assert rows == init + [last];
      RowOrderBag(init);
      RowOrderRising(init);
      PutRowBag(RowOrder(init), last);
      RowOrderKeys(init, KeyOfRow(last));
      assert DistinctKeys(rows) <==> DistinctKeys(init) && !HasKey(init, KeyOfRow(last));
    }
  }

  // A condition on the primary key finds the same rows through the index as through a scan, as multisets,
  // if and only if no two of the rows it selects have the same key.
  lemma IndexIsScan(rows: seq<Row>, op: CmpOp, key: Key)
    ensures var scan := Filter(rows, OnKey(op, key));
            multiset(Filter(RowOrder(rows), OnKey(op, key))) == multiset(scan) <==> DistinctKeys(scan)
  {
    hide Less, Satisfies, RowOrder, OnKey, Filter, DistinctKeys;
    var scan := Filter(rows, OnKey(op, key));
    FilterCommutes(rows, op, key);
    RowOrderBag(scan);
    assert |multiset(scan)| == |scan| && |multiset(RowOrder(scan))| == |RowOrder(scan)|;
  }

  // ---- Members ----

  lemma {:induction false} PutRowMember(s: seq<Row>, row: Row, x: Row)
    requires Rising(s)
    ensures x in PutRow(s, row) <==> x == row || (x in s && KeyOfRow(x) != KeyOfRow(row))
  {
    hide Less;
    if s != [] {
      var k, k0 := KeyOfRow(row), KeyOfRow(s[0]);
      LessTotal(k0, k);
      LessIrreflexive(k);
      assert x in s <==> x == s[0] || x in s[1..];
      if Less(k0, k) {
        PutRowMember(s[1..], row, x);
      } else if k0 == k {
        RisingTail(s, k);
        if x in s[1..] { var i :| 0 <= i < |s[1..]| && s[1..][i] == x; }
      } else {
        RisingAbove(s, k);
        if x in s { var i :| 0 <= i < |s| && s[i] == x; }
      }
    }
  }

  lemma {:induction false} FilterFrom(rows: seq<Row>, keep: Row -> bool, x: Row)
    ensures x in Filter(rows, keep) <==> x in rows && keep(x)
  {
    if rows != [] { FilterFrom(rows[1..], keep, x); }
  }

  lemma {:induction false} FilterRising(rows: seq<Row>, keep: Row -> bool)
    requires Rising(rows)
    ensures Rising(Filter(rows, keep))
  {
    hide Less;
    if rows != [] {
      var rest := rows[1..];
      FilterRising(rest, keep);
      var kept := Filter(rest, keep);
      forall j | 0 <= j < |kept| ensures Less(KeyOfRow(rows[0]), KeyOfRow(kept[j])) {
        FilterFrom(rest, keep, kept[j]);
        var i :| 0 <= i < |rest| && rest[i] == kept[j];
      }
    }
  }

  // Rows in key order are determined by which rows they are.
  lemma {:induction false} RisingUnique(a: seq<Row>, b: seq<Row>)
    requires Rising(a) && Rising(b) && forall x :: x in a <==> x in b
    ensures a == b
  {
    hide Less;
    assert b != [] ==> b[0] in b;
    if a != [] {
      assert a[0] in a;
      SameHead(a, b);
      forall x ensures x in a[1..] <==> x in b[1..] {
        assert x in a <==> x == a[0] || x in a[1..];
        assert x in b <==> x == b[0] || x in b[1..];
        NotInTail(a);
        NotInTail(b);
      }
      RisingUnique(a[1..], b[1..]);
      assert a == [a[0]] + a[1..] && b == [b[0]] + b[1..];
    }
  }

  lemma RisingHead(a: seq<Row>, b: seq<Row>)
    requires Rising(b) && a != [] && b != [] && a[0] in b
    ensures a[0] == b[0] || Less(KeyOfRow(b[0]), KeyOfRow(a[0]))
  {
    hide Less;
    var i :| 0 <= i < |b| && b[i] == a[0];
  }

  lemma SameHead(a: seq<Row>, b: seq<Row>)
    requires Rising(a) && Rising(b) && a != [] && b != [] && a[0] in b && b[0] in a
    ensures a[0] == b[0]
  {
    hide Less;
    RisingHead(a, b);
    RisingHead(b, a);
    if a[0] != b[0] { LessAsymmetric(KeyOfRow(a[0]), KeyOfRow(b[0])); }
  }

  lemma NotInTail(a: seq<Row>)
    requires Rising(a) && a != []
    ensures a[0] !in a[1..]
  {
    hide Less;
    LessIrreflexive(KeyOfRow(a[0]));
    forall i | 0 <= i < |a[1..]| ensures a[1..][i] != a[0] { assert Less(KeyOfRow(a[0]), KeyOfRow(a[i + 1])); }
  }

  // ---- Columns ----

  function Pick(row: Row, ids: seq<nat>): (r: Row)
    ensures |r| == |ids|
  {
    seq(|ids|, i requires 0 <= i < |ids| => if ids[i] < |row| then row[ids[i]] else Int(0))
  }

  function Project(rows: seq<Row>, ids: seq<nat>): (r: seq<Row>)
    ensures |r| == |rows| && forall i :: 0 <= i < |rows| ==> r[i] == Pick(rows[i], ids)
  {
    seq(|rows|, i requires 0 <= i < |rows| => Pick(rows[i], ids))
  }

  // A list of columns to read, where the empty list stands for all of them.
  function Listed(row: Row, cols: seq<nat>): Row { if cols == [] then row else Pick(row, cols) }

  function ListedRows(rows: seq<Row>, cols: seq<nat>): seq<Row> { if cols == [] then rows else Project(rows, cols) }

  lemma ListedParts(a: seq<Row>, b: seq<Row>, cols: seq<nat>)
    ensures ListedRows(a + b, cols) == ListedRows(a, cols) + ListedRows(b, cols)
    ensures |b| == 1 ==> ListedRows(b, cols) == [Listed(b[0], cols)]
    ensures b == [] ==> ListedRows(b, cols) == []
  {
    hide Pick;
  }
}
