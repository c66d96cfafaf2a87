/** The snapshot file: writing every table to a stream and rebuilding the tables from it. */
module Snapshot {
  import opened Bytes
  import opened Values
  import opened Codec

  const SNAPSHOT_MAGIC: nat := 0x534849564451534E
  const SNAPSHOT_VERSION: nat := 1
  const MAX_STRING: nat := 10 * 1024 * 1024

  datatype Named = Named(name: string, table: Table)

  // What is read, and what is left of the file.
  datatype Read<+T> = Bad | Ok(value: T, rest: seq<bv8>)

  datatype LoadResult = Failed | Loaded(lsn: nat, tables: map<string, Table>)

  // ---- Writing ----

  function StrBytes(s: string): seq<bv8>
    requires Narrow(s)
  {
    Le(|s|, 4) + TextBytes(s)
  }

  function ValueBytes(v: Value): seq<bv8>
    requires Bounded(v)
  {
    Le(Code(TypeOf(v)), 1) + if v.Varchar? then StrBytes(v.s) else FixedBytes(v)
  }

  predicate BoundedRow(row: Row) { forall i :: 0 <= i < |row| ==> Bounded(row[i]) }

  function ValuesBytes(row: Row): seq<bv8>
    requires BoundedRow(row)
  {
    if row == [] then [] else ValueBytes(row[0]) + ValuesBytes(row[1..])
  }

  function RowBytes(row: Row): seq<bv8>
    requires BoundedRow(row)
  {
    Le(|row|, 4) + ValuesBytes(row)
  }

  predicate BoundedRows(rows: seq<Row>) { forall i :: 0 <= i < |rows| ==> BoundedRow(rows[i]) }

  function RowsBytes(rows: seq<Row>): seq<bv8>
    requires BoundedRows(rows)
  {
    if rows == [] then [] else RowBytes(rows[0]) + RowsBytes(rows[1..])
  }

  predicate BoundedColumns(columns: Schema) {
    forall i :: 0 <= i < |columns| ==> Narrow(columns[i].name) && columns[i].maxLen < 0x1_0000
  }

  function ColumnBytes(c: Column): seq<bv8>
    requires Narrow(c.name)
  {
    StrBytes(c.name) + Le(Code(c.kind), 1) + Le(c.maxLen, 2)
  }

  function ColumnsBytes(columns: Schema): seq<bv8>
    requires BoundedColumns(columns)
  {
    if columns == [] then [] else ColumnBytes(columns[0]) + ColumnsBytes(columns[1..])
  }

  predicate BoundedTable(n: Named) {
    Narrow(n.name) && BoundedColumns(n.table.columns) && BoundedRows(n.table.rows)
  }

  function TableBytes(n: Named): seq<bv8>
    requires BoundedTable(n)
  {
    StrBytes(n.name) + Le(|n.table.columns|, 4) + ColumnsBytes(n.table.columns) + Le(|n.table.rows|, 8)
      + RowsBytes(n.table.rows)
  }

  predicate BoundedTables(ts: seq<Named>) { forall i :: 0 <= i < |ts| ==> BoundedTable(ts[i]) }

  function TablesBytes(ts: seq<Named>): seq<bv8>
    requires BoundedTables(ts)
  {
    if ts == [] then [] else TableBytes(ts[0]) + TablesBytes(ts[1..])
  }

  // snapshot.cpp save, with the tables in whatever order the hash map yields them.
  function FileBytes(ts: seq<Named>, lsn: nat): seq<bv8>
    requires BoundedTables(ts)
  {
    Le(SNAPSHOT_MAGIC, 8) + Le(SNAPSHOT_VERSION, 8) + Le(lsn, 8) + Le(|ts|, 4) + TablesBytes(ts)
  }

  // ---- Reading ----

  function Prepend<T>(xs: seq<T>, r: Read<seq<T>>): Read<seq<T>> {
    if r.Bad? then Bad else Ok(xs + r.value, r.rest)
  }

  function ReadNat(f: seq<bv8>, k: nat): Read<nat> {
    if |f| < k then Bad else Ok(FromLe(f[..k]), f[k..])
  }

  function ReadStr(f: seq<bv8>): Read<string> {
    match ReadNat(f, 4)
    case Bad => Bad
    case Ok(len, rest) => if len > MAX_STRING || |rest| < len then Bad else Ok(BytesText(rest[..len]), rest[len..])
  }

  function ReadValue(f: seq<bv8>): Read<Value> {
    match ReadNat(f, 1)
    case Bad => Bad
    case Ok(code, rest) =>
      match KindOf(code)
      case None => Bad
      case Some(kind) =>
        if kind == VARCHAR then
          match ReadStr(rest)
          case Bad => Bad
          case Ok(s, rest') => Ok(Varchar(s), rest')
        else if |rest| < Width(kind) then Bad
        else Ok(FixedValue(kind, rest[..Width(kind)]), rest[Width(kind)..])
  }

  function ReadValues(f: seq<bv8>, n: nat): Read<Row>
    decreases n
  {
    if n == 0 then Ok([], f) else
      match ReadValue(f)
      case Bad => Bad
      case Ok(v, rest) => Prepend([v], ReadValues(rest, n - 1))
  }

  // One row, which the table's insert must accept.
  function ReadRow(f: seq<bv8>, columns: Schema): Read<Row> {
    match ReadNat(f, 4)
    case Bad => Bad
    case Ok(n, rest) =>
      match ReadValues(rest, n)
      case Bad => Bad
      case Ok(row, rest') => if ValidRow(columns, row) then Ok(row, rest') else Bad
  }

  function ReadRows(f: seq<bv8>, n: nat, columns: Schema): Read<seq<Row>>
    decreases n
  {
    if n == 0 then Ok([], f) else
      match ReadRow(f, columns)
      case Bad => Bad
      case Ok(row, rest) => Prepend([row], ReadRows(rest, n - 1, columns))
  }

  function ReadColumn(f: seq<bv8>): Read<Column> {
    match ReadStr(f)
    case Bad => Bad
    case Ok(name, r1) =>
      match ReadNat(r1, 1)
      case Bad => Bad
      case Ok(code, r2) =>
        match ReadNat(r2, 2)
        case Bad => Bad
        case Ok(maxLen, r3) =>
          match KindOf(code)
          case None => Bad
          case Some(kind) => Ok(AddColumn([], name, kind, maxLen)[0], r3)
  }

  function ReadColumns(f: seq<bv8>, n: nat): Read<Schema>
    decreases n
  {
    if n == 0 then Ok([], f) else
      match ReadColumn(f)
      case Bad => Bad
      case Ok(c, rest) => Prepend([c], ReadColumns(rest, n - 1))
  }

  function ReadTable(f: seq<bv8>): Read<Named> {
    match ReadStr(f)
    case Bad => Bad
    case Ok(name, r1) =>
      match ReadNat(r1, 4)
      case Bad => Bad
      case Ok(cols, r2) =>
        match ReadColumns(r2, cols)
        case Bad => Bad
        case Ok(columns, r3) =>
          match ReadNat(r3, 8)
          case Bad => Bad
          case Ok(count, r4) =>
            match ReadRows(r4, count, columns)
            case Bad => Bad
            case Ok(rows, r5) => Ok(Named(name, Table(columns, rows)), r5)
  }

  function ReadTables(f: seq<bv8>, n: nat): Read<seq<Named>>
    decreases n
  {
    if n == 0 then Ok([], f) else
      match ReadTable(f)
      case Bad => Bad
      case Ok(t, rest) => Prepend([t], ReadTables(rest, n - 1))
  }

  // result.tables[name] = table, in file order.
  function AsMap(ts: seq<Named>): map<string, Table> {
    if ts == [] then map[] else AsMap(ts[..|ts| - 1])[ts[|ts| - 1].name := ts[|ts| - 1].table]
  }

  // snapshot.cpp load
  function Load(f: seq<bv8>): LoadResult {
    match ReadNat(f, 8)
    case Bad => Failed
    case Ok(magic, r1) =>
      if magic != SNAPSHOT_MAGIC then Failed else
      match ReadNat(r1, 8)
      case Bad => Failed
      case Ok(version, r2) =>
        if version != SNAPSHOT_VERSION then Failed else
        match ReadNat(r2, 8)
        case Bad => Failed
        case Ok(lsn, r3) =>
          match ReadNat(r3, 4)
          case Bad => Failed
          case Ok(count, r4) =>
            match ReadTables(r4, count)
            case Bad => Failed
            case Ok(ts, _) => Loaded(lsn, AsMap(ts))
  }

  // ---- Loading what was saved ----

  lemma NatBack(n: nat, k: nat, rest: seq<bv8>)
    requires n < Pow256(k)
    ensures ReadNat(Le(n, k) + rest, k) == Ok(n, rest)
  {
    hide Le, FromLe, Pow256;
    LeRoundTrip(n, k);
    assert (Le(n, k) + rest)[..k] == Le(n, k) && (Le(n, k) + rest)[k..] == rest;
  }

  // A string over the reader's limit is written, but cannot be read.
  lemma StrBack(s: string, rest: seq<bv8>)
    requires Narrow(s) && |s| < 0x1_0000_0000
    ensures ReadStr(StrBytes(s) + rest) == if |s| <= MAX_STRING then Ok(s, rest) else Bad
  {
    hide ReadNat, TextBytes, BytesText;
    Widths();
    var t := TextBytes(s) + rest;
    assert StrBytes(s) + rest == Le(|s|, 4) + t;
    NatBack(|s|, 4, t);
    assert t[..|s|] == TextBytes(s) && t[|s|..] == rest;
    TextRoundTrip(s);
  }

  // Strings within the reader's limit.
  predicate Storable(v: Value) { Bounded(v) && (v.Varchar? ==> |v.s| <= MAX_STRING) }

  lemma ValueBack(v: Value, rest: seq<bv8>)
    requires Storable(v)
    ensures ReadValue(ValueBytes(v) + rest) == Ok(v, rest)
  {
    hide ReadNat, ReadStr, Le, FixedValue, FixedBytes;
    Widths();
    if v.Varchar? {
      var t := StrBytes(v.s) + rest;
      assert ValueBytes(v) + rest == Le(2, 1) + t;
      NatBack(2, 1, t);
      StrBack(v.s, rest);
    } else {
      var b := FixedBytes(v);
      var t := b + rest;
      assert ValueBytes(v) + rest == Le(Code(TypeOf(v)), 1) + t;
      NatBack(Code(TypeOf(v)), 1, t);
      assert t[..|b|] == b && t[|b|..] == rest;
      FixedRoundTrip(v);
    }
  }

  lemma {:induction false} ValuesBack(row: Row, rest: seq<bv8>)
    requires forall i :: 0 <= i < |row| ==> Storable(row[i])
    ensures BoundedRow(row) && ReadValues(ValuesBytes(row) + rest, |row|) == Ok(row, rest)
  {
    hide ReadValue, ValueBytes;
    if row == [] {
      assert ValuesBytes(row) + rest == rest;
    } else {
      var t := ValuesBytes(row[1..]) + rest;
      assert ValuesBytes(row) + rest == ValueBytes(row[0]) + t;
      ValueBack(row[0], t);
      ValuesBack(row[1..], rest);
      assert row == [row[0]] + row[1..];
    }
  }

  // A row that the schema accepts; the strings in it are short, since a column's length is a 16-bit number.
  predicate SizedRow(columns: Schema, row: Row) { ValidRow(columns, row) && |row| < 0x1_0000_0000 && BoundedRow(row) }

  lemma SizedIsStorable(columns: Schema, row: Row)
    requires SizedRow(columns, row) && forall i :: 0 <= i < |columns| ==> SizedColumn(columns[i])
    ensures forall i :: 0 <= i < |row| ==> Storable(row[i])
  {
    hide Bounded;
    forall i | 0 <= i < |row| ensures Storable(row[i]) { assert FieldOk(columns[i], row[i]); }
  }

  lemma RowBack(columns: Schema, row: Row, rest: seq<bv8>)
    requires SizedRow(columns, row) && forall i :: 0 <= i < |columns| ==> SizedColumn(columns[i])
    ensures ReadRow(RowBytes(row) + rest, columns) == Ok(row, rest)
  {
    hide ReadNat, ReadValues, ValuesBytes, Le, SizedColumn, Storable;
    Widths();
    var t := ValuesBytes(row) + rest;
    assert RowBytes(row) + rest == Le(|row|, 4) + t;
    NatBack(|row|, 4, t);
    SizedIsStorable(columns, row);
    ValuesBack(row, rest);
  }

  lemma {:induction false} RowsBack(columns: Schema, rows: seq<Row>, rest: seq<bv8>)
    requires forall i :: 0 <= i < |columns| ==> SizedColumn(columns[i])
    requires forall i :: 0 <= i < |rows| ==> SizedRow(columns, rows[i])
    ensures BoundedRows(rows) && ReadRows(RowsBytes(rows) + rest, |rows|, columns) == Ok(rows, rest)
  {
    hide ReadRow, RowBytes, SizedColumn;
    if rows == [] {
      assert RowsBytes(rows) + rest == rest;
    } else {
      RowsBack(columns, rows[1..], rest);
      var t := RowsBytes(rows[1..]) + rest;
      assert RowsBytes(rows) + rest == RowBytes(rows[0]) + t;
      RowBack(columns, rows[0], t);
      assert rows == [rows[0]] + rows[1..];
    }
  }

  predicate NameFits(name: string) { |name| <= MAX_STRING }

  predicate SizedColumn(c: Column) {
    Narrow(c.name) && |c.name| < 0x1_0000_0000 && c.maxLen < 0x1_0000 && (c.kind != VARCHAR ==> c.maxLen == 0)
  }

  lemma ColumnBack(c: Column, rest: seq<bv8>)
    requires SizedColumn(c)
    ensures ReadColumn(ColumnBytes(c) + rest) == if NameFits(c.name) then Ok(c, rest) else Bad
  {
    hide ReadNat, ReadStr, StrBytes, Le;
    Widths();
    var t2 := Le(c.maxLen, 2) + rest;
    var t1 := Le(Code(c.kind), 1) + t2;
    assert ColumnBytes(c) + rest == StrBytes(c.name) + t1;
    StrBack(c.name, t1);
    NatBack(Code(c.kind), 1, t2);
    NatBack(c.maxLen, 2, rest);
  }

  predicate ColumnNamesFit(columns: Schema) { forall i :: 0 <= i < |columns| ==> NameFits(columns[i].name) }

  lemma {:induction false} ColumnsBack(columns: Schema, rest: seq<bv8>)
    requires forall i :: 0 <= i < |columns| ==> SizedColumn(columns[i])
    ensures BoundedColumns(columns)
    ensures ReadColumns(ColumnsBytes(columns) + rest, |columns|) ==
            if ColumnNamesFit(columns) then Ok(columns, rest) else Bad
  {
    hide ReadColumn, ColumnBytes, NameFits;
    if columns == [] {
      assert ColumnsBytes(columns) + rest == rest;
    } else {
      var t := ColumnsBytes(columns[1..]) + rest;
      assert ColumnsBytes(columns) + rest == ColumnBytes(columns[0]) + t;
      ColumnBack(columns[0], t);
      ColumnsBack(columns[1..], rest);
      assert columns == [columns[0]] + columns[1..];
    }
  }

  // A table whose counts and lengths fit the fields of the format, with rows that its schema accepts.
  predicate SizedTable(n: Named) {
    && Narrow(n.name) && |n.name| < 0x1_0000_0000
    && |n.table.columns| < 0x1_0000_0000 && |n.table.rows| < 0x1_0000_0000_0000_0000
    && (forall i :: 0 <= i < |n.table.columns| ==> SizedColumn(n.table.columns[i]))
    && (forall i :: 0 <= i < |n.table.rows| ==> SizedRow(n.table.columns, n.table.rows[i]))
  }

  predicate NamesFit(n: Named) { NameFits(n.name) && ColumnNamesFit(n.table.columns) }

  lemma SizedIsBounded(n: Named)
    requires SizedTable(n)
    ensures BoundedTable(n)
  {
  }

  lemma TableBack(n: Named, rest: seq<bv8>)
    requires SizedTable(n)
    ensures BoundedTable(n) && ReadTable(TableBytes(n) + rest) == if NamesFit(n) then Ok(n, rest) else Bad
  {
    hide ReadNat, ReadStr, ReadColumns, ReadRows, StrBytes, ColumnsBytes, RowsBytes, Le, ColumnNamesFit;
    Widths();
    SizedIsBounded(n);
    var t4 := RowsBytes(n.table.rows) + rest;
    var t3 := Le(|n.table.rows|, 8) + t4;
    var t2 := ColumnsBytes(n.table.columns) + t3;
    var t1 := Le(|n.table.columns|, 4) + t2;
    assert TableBytes(n) + rest == StrBytes(n.name) + t1;
    StrBack(n.name, t1);
    NatBack(|n.table.columns|, 4, t2);
    ColumnsBack(n.table.columns, t3);
    NatBack(|n.table.rows|, 8, t4);
    RowsBack(n.table.columns, n.table.rows, rest);
  }

  predicate AllNamesFit(ts: seq<Named>) { forall i :: 0 <= i < |ts| ==> NamesFit(ts[i]) }

  lemma {:induction false} TablesBack(ts: seq<Named>, rest: seq<bv8>)
    requires forall i :: 0 <= i < |ts| ==> SizedTable(ts[i])
    ensures BoundedTables(ts)
    ensures ReadTables(TablesBytes(ts) + rest, |ts|) == if AllNamesFit(ts) then Ok(ts, rest) else Bad
  {
    hide ReadTable, TableBytes, SizedTable, NamesFit;
    if ts == [] {
      assert TablesBytes(ts) + rest == rest;
    } else {
      TablesBack(ts[1..], rest);
      var t := TablesBytes(ts[1..]) + rest;
      TableBack(ts[0], t);
      assert TablesBytes(ts) + rest == TableBytes(ts[0]) + t;
      assert ts == [ts[0]] + ts[1..];
    }
  }

  // The sequence lists every table of the database once, in some order.
  predicate Lists(ts: seq<Named>, db: map<string, Table>) {
    && (forall i :: 0 <= i < |ts| ==> ts[i].name in db && db[ts[i].name] == ts[i].table)
    && (forall i, j :: 0 <= i < j < |ts| ==> ts[i].name != ts[j].name)
    && (forall name :: name in db ==> exists i :: 0 <= i < |ts| && ts[i].name == name)
  }

  lemma {:induction false} AsMapDomain(ts: seq<Named>, name: string)
    ensures name in AsMap(ts) <==> exists i :: 0 <= i < |ts| && ts[i].name == name
  {
    if ts != [] {
      var init := ts[..|ts| - 1];
      AsMapDomain(init, name);
      if name in AsMap(init) {
        var i :| 0 <= i < |init| && init[i].name == name;
        assert ts[i].name == name;
      }
      if exists i :: 0 <= i < |ts| && ts[i].name == name {
        var i :| 0 <= i < |ts| && ts[i].name == name;
        if i < |ts| - 1 { assert init[i].name == name; }
      }
    }
  }

  lemma {:induction false} AsMapAt(ts: seq<Named>, i: nat)
    requires i < |ts| && forall a, b :: 0 <= a < b < |ts| ==> ts[a].name != ts[b].name
    ensures ts[i].name in AsMap(ts) && AsMap(ts)[ts[i].name] == ts[i].table
  {
    if i < |ts| - 1 { AsMapAt(ts[..|ts| - 1], i); }
  }

  lemma ListsAsMap(ts: seq<Named>, db: map<string, Table>)
    requires Lists(ts, db)
    ensures AsMap(ts) == db
  {
    hide AsMap;
    forall name ensures name in AsMap(ts) <==> name in db { AsMapDomain(ts, name); }
    forall name | name in db ensures AsMap(ts)[name] == db[name] {
      var i :| 0 <= i < |ts| && ts[i].name == name;
      AsMapAt(ts, i);
    }
  }

  // Loading a saved snapshot restores the LSN, and every table with its name, schema and rows, in whatever order they
  // were written, if and only if no table and no column has a name over the reader's limit; else the whole load fails.
  lemma LoadSaved(ts: seq<Named>, db: map<string, Table>, lsn: nat)
    requires Lists(ts, db) && |ts| < 0x1_0000_0000 && lsn < 0x1_0000_0000_0000_0000
    requires forall i :: 0 <= i < |ts| ==> SizedTable(ts[i])
    ensures BoundedTables(ts) && Load(FileBytes(ts, lsn)) == if AllNamesFit(ts) then Loaded(lsn, db) else Failed
  {
    hide ReadNat, ReadTables, TablesBytes, Le, AsMap, Lists, SizedTable, AllNamesFit;
    Widths();
    TablesBack(ts, []);
    var t4 := TablesBytes(ts) + [];
    var t3 := Le(|ts|, 4) + t4;
    var t2 := Le(lsn, 8) + t3;
    var t1 := Le(SNAPSHOT_VERSION, 8) + t2;
    assert FileBytes(ts, lsn) == Le(SNAPSHOT_MAGIC, 8) + t1;
    NatBack(SNAPSHOT_MAGIC, 8, t1);
    NatBack(SNAPSHOT_VERSION, 8, t2);
    NatBack(lsn, 8, t3);
    NatBack(|ts|, 4, t4);
    ListsAsMap(ts, db);
  }

  // ---- The loops of save and load ----

  method WriteRow(row: Row) returns (out: seq<bv8>)
    requires BoundedRow(row)
    ensures out == RowBytes(row)
  {
    hide ValueBytes, Le;
    out := Le(|row|, 4);
    var i := 0;
    while i < |row|
      invariant 0 <= i <= |row|
      invariant out + ValuesBytes(row[i..]) == RowBytes(row)
    {
      assert row[i..][1..] == row[i + 1..];
      out := out + ValueBytes(row[i]);
      i := i + 1;
    }
  }

  method WriteTable(n: Named) returns (out: seq<bv8>)
    requires BoundedTable(n)
    ensures out == TableBytes(n)
  {
    hide ColumnBytes, RowBytes, StrBytes, Le;
    var columns, rows := n.table.columns, n.table.rows;
    out := StrBytes(n.name) + Le(|columns|, 4);
    ghost var start := out;
    var i := 0;
    while i < |columns|
      invariant 0 <= i <= |columns|
      invariant out + ColumnsBytes(columns[i..]) == start + ColumnsBytes(columns)
    {
      assert columns[i..][1..] == columns[i + 1..];
      out := out + ColumnBytes(columns[i]);
      i := i + 1;
    }
    assert columns[i..] == [];
    assert out == start + ColumnsBytes(columns);
    out := out + Le(|rows|, 8);
    start := out;
    i := 0;
    while i < |rows|
      invariant 0 <= i <= |rows|
      invariant out + RowsBytes(rows[i..]) == start + RowsBytes(rows)
    {
      var row := WriteRow(rows[i]);
      assert rows[i..][1..] == rows[i + 1..];
      out := out + row;
      i := i + 1;
    }
    assert rows[i..] == [];
    assert out == start + RowsBytes(rows);
  }

  method Save(ts: seq<Named>, lsn: nat) returns (file: seq<bv8>)
    requires BoundedTables(ts)
    ensures file == FileBytes(ts, lsn)
  {
    hide TableBytes, Le;
    file := Le(SNAPSHOT_MAGIC, 8) + Le(SNAPSHOT_VERSION, 8) + Le(lsn, 8) + Le(|ts|, 4);
    var i := 0;
    while i < |ts|
      invariant 0 <= i <= |ts|
      invariant file + TablesBytes(ts[i..]) == FileBytes(ts, lsn)
    {
      var t := WriteTable(ts[i]);
      assert ts[i..][1..] == ts[i + 1..];
      file := file + t;
      i := i + 1;
    }
  }

  lemma PrependNone<T>(r: Read<seq<T>>)
    ensures Prepend([], r) == r
  {
    if r.Ok? { assert [] + r.value == r.value; }
  }

  lemma PrependOne<T>(xs: seq<T>, x: T, r: Read<seq<T>>)
    ensures Prepend(xs, Prepend([x], r)) == Prepend(xs + [x], r)
  {
    if r.Ok? { assert xs + ([x] + r.value) == (xs + [x]) + r.value; }
  }

  lemma PrependDone<T>(xs: seq<T>, rest: seq<bv8>)
    ensures Prepend(xs, Ok([], rest)) == Ok(xs, rest)
  {
    assert xs + [] == xs;
  }

  method ReadRowLoop(f: seq<bv8>, columns: Schema) returns (r: Read<Row>)
    ensures r == ReadRow(f, columns)
  {
    hide ReadNat, ReadValue;
    var count := ReadNat(f, 4);
    if count.Bad? { return Bad; }
    var n := count.value;
    var row, rest, i: nat := [], count.rest, 0;
    PrependNone(ReadValues(rest, n));
    while i < n
      invariant i <= n
      invariant ReadValues(count.rest, n) == Prepend(row, ReadValues(rest, n - i))
    {
      var v := ReadValue(rest);
      if v.Bad? { return Bad; }
      PrependOne(row, v.value, ReadValues(v.rest, n - i - 1));
      row := row + [v.value];
      rest := v.rest;
      i := i + 1;
    }
    PrependDone(row, rest);
    if ValidRow(columns, row) { return Ok(row, rest); }
    return Bad;
  }

  method ReadRowsLoop(f: seq<bv8>, n: nat, columns: Schema) returns (r: Read<seq<Row>>)
    ensures r == ReadRows(f, n, columns)
  {
    hide ReadRow;
    var rows, rest, i: nat := [], f, 0;
    PrependNone(ReadRows(f, n, columns));
    while i < n
      invariant i <= n
      invariant ReadRows(f, n, columns) == Prepend(rows, ReadRows(rest, n - i, columns))
    {
      var row := ReadRowLoop(rest, columns);
      if row.Bad? { return Bad; }
      PrependOne(rows, row.value, ReadRows(row.rest, n - i - 1, columns));
      rows := rows + [row.value];
      rest := row.rest;
      i := i + 1;
    }
    PrependDone(rows, rest);
    return Ok(rows, rest);
  }

  method ReadColumnsLoop(f: seq<bv8>, n: nat) returns (r: Read<Schema>)
    ensures r == ReadColumns(f, n)
  {
    hide ReadColumn;
    var columns, rest, i: nat := [], f, 0;
    PrependNone(ReadColumns(f, n));
    while i < n
      invariant i <= n
      invariant ReadColumns(f, n) == Prepend(columns, ReadColumns(rest, n - i))
    {
      var c := ReadColumn(rest);
      if c.Bad? { return Bad; }
      PrependOne(columns, c.value, ReadColumns(c.rest, n - i - 1));
      columns := columns + [c.value];
      rest := c.rest;
      i := i + 1;
    }
    PrependDone(columns, rest);
    return Ok(columns, rest);
  }

  method ReadTableLoop(f: seq<bv8>) returns (r: Read<Named>)
    ensures r == ReadTable(f)
  {
    hide ReadStr, ReadNat, ReadColumns, ReadRows;
    var name := ReadStr(f);
    if name.Bad? { return Bad; }
    var cols := ReadNat(name.rest, 4);
    if cols.Bad? { return Bad; }
    var columns := ReadColumnsLoop(cols.rest, cols.value);
    if columns.Bad? { return Bad; }
    var count := ReadNat(columns.rest, 8);
    if count.Bad? { return Bad; }
    var rows := ReadRowsLoop(count.rest, count.value, columns.value);
    if rows.Bad? { return Bad; }
    return Ok(Named(name.value, Table(columns.value, rows.value)), rows.rest);
  }

  method LoadFile(f: seq<bv8>) returns (result: LoadResult)
    ensures result == Load(f)
  {
    hide ReadNat, ReadTable, AsMap;
    var magic := ReadNat(f, 8);
    if magic.Bad? || magic.value != SNAPSHOT_MAGIC { return Failed; }
    var version := ReadNat(magic.rest, 8);
    if version.Bad? || version.value != SNAPSHOT_VERSION { return Failed; }
    var lsn := ReadNat(version.rest, 8);
    if lsn.Bad? { return Failed; }
    var count := ReadNat(lsn.rest, 4);
    if count.Bad? { return Failed; }
    var n := count.value;
    var tables, rest, i: nat := map[], count.rest, 0;
    ghost var ts: seq<Named> := [];
    AsMapSnoc([], []);
    PrependNone(ReadTables(rest, n));
    while i < n
      invariant i <= n
      invariant ReadTables(count.rest, n) == Prepend(ts, ReadTables(rest, n - i))
      invariant tables == AsMap(ts)
    {
      var t := ReadTableLoop(rest);
      if t.Bad? { return Failed; }
      AsMapSnoc(ts, [t.value]);
      PrependOne(ts, t.value, ReadTables(t.rest, n - i - 1));
      tables := tables[t.value.name := t.value.table];
      ts := ts + [t.value];
      rest := t.rest;
      i := i + 1;
    }
    PrependDone(ts, rest);
    return Loaded(lsn.value, tables);
  }

  lemma AsMapSnoc(ts: seq<Named>, more: seq<Named>)
    ensures AsMap([]) == map[]
    ensures |more| == 1 ==> AsMap(ts + more) == AsMap(ts)[more[0].name := more[0].table]
  {
    if |more| == 1 { assert (ts + more)[..|ts|] == ts; }
  }
}
