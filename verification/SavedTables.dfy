/** Tables that a snapshot can hold: executing a text keeps them so, and loading a file yields nothing else. */
module SavedTables {
  import opened Bytes
  import opened Values
  import opened Lexer
  import opened Numbers
  import opened Parser
  import opened Executor
  import opened StatementSizes
  import opened Codec
  import opened Snapshot

  // Everything but the number of rows fits the snapshot format and its reader.
  predicate Savable(name: string, t: Table) {
    && Narrow(name) && NameFits(name)
    && |t.columns| < 0x1_0000_0000
    && (forall i :: 0 <= i < |t.columns| ==> SizedColumn(t.columns[i]) && NameFits(t.columns[i].name))
    && (forall i :: 0 <= i < |t.rows| ==> SizedRow(t.columns, t.rows[i]))
  }

  predicate SavableDb(db: Db) { forall name :: name in db ==> Savable(name, db[name]) }

  // std::stod returns a 64-bit pattern.
  ghost predicate DoubleBits(stod: Stod) { forall s :: stod(s).Some? ==> stod(s).value < 0x1_0000_0000_0000_0000 }

  // Such tables are saved and loaded, if their row counts fit.
  lemma SavableLoads(ts: seq<Named>, db: Db)
    requires SavableDb(db) && Lists(ts, db)
    requires forall i :: 0 <= i < |ts| ==> |ts[i].table.rows| < 0x1_0000_0000_0000_0000
    ensures AllNamesFit(ts) && forall i :: 0 <= i < |ts| ==> SizedTable(ts[i])
  {
    hide SizedColumn, SizedRow, NameFits, Narrow;
    forall i | 0 <= i < |ts| ensures NamesFit(ts[i]) && SizedTable(ts[i]) {
      assert Savable(ts[i].name, ts[i].table);
      SavableSized(ts[i]);
    }
  }

  lemma SavableSized(n: Named)
    requires Savable(n.name, n.table) && |n.table.rows| < 0x1_0000_0000_0000_0000
    ensures NamesFit(n) && SizedTable(n)
  {
    hide SizedColumn, SizedRow, Narrow;
  }

  // ---- Executing ----

  lemma CreateSavable(table: string, columns: seq<ColumnDef>)
    requires Piece(table, MAX_STRING) && SmallColumns(columns, MAX_STRING)
    ensures Savable(UpperAll(table), Table(BuildSchema(columns), []))
  {
    hide BuildSchema, UpperAll, Narrow;
    SchemaColumns(columns);
    UpperPiece(table, MAX_STRING);
    forall i | 0 <= i < |columns|
      ensures SizedColumn(BuildSchema(columns)[i]) && NameFits(BuildSchema(columns)[i].name)
    {
      UpperPiece(columns[i].name, MAX_STRING);
    }
  }

  lemma LiteralBounded(literal: string, kind: DataType, stod: Stod)
    requires Narrow(literal) && DoubleBits(stod)
    ensures ParseLiteral(literal, kind, stod).Some? ==> Bounded(ParseLiteral(literal, kind, stod).value)
  {
    hide ReadInteger, Narrow;
  }

  lemma {:induction false} BuiltBounded(columns: Schema, literals: seq<string>, stod: Stod)
    requires |literals| == |columns| && DoubleBits(stod) && forall i :: 0 <= i < |literals| ==> Narrow(literals[i])
    ensures BuildRow(columns, literals, stod).Some? ==> BoundedRow(BuildRow(columns, literals, stod).value)
  {
    hide ParseLiteral, Narrow, Bounded, DoubleBits;
    if columns != [] {
      LiteralBounded(literals[0], columns[0].kind, stod);
      BuiltBounded(columns[1..], literals[1..], stod);
    }
  }

  lemma {:induction false} AcceptedSized(columns: Schema, batch: seq<seq<string>>, stod: Stod)
    requires |columns| < 0x1_0000_0000 && DoubleBits(stod) && SmallRows(batch)
    ensures forall i :: 0 <= i < |Accepted(columns, batch, stod)| ==>
            SizedRow(columns, Accepted(columns, batch, stod)[i])
  {
    hide BuildRow, ValidRow, Narrow, BoundedRow, DoubleBits;
    if batch != [] {
      FirstRow(batch);
      if |batch[0]| == |columns| { BuiltBounded(columns, batch[0], stod); }
      RowWidth(columns, batch[0], stod);
      AcceptedSized(columns, batch[1..], stod);
    }
  }

  lemma FirstRow(batch: seq<seq<string>>)
    requires SmallRows(batch) && batch != []
    ensures SmallRows(batch[1..]) && forall j :: 0 <= j < |batch[0]| ==> Narrow(batch[0][j])
  {
    hide Narrow;
  }

  lemma RowWidth(columns: Schema, literals: seq<string>, stod: Stod)
    ensures AcceptRow(columns, literals, stod).Some? ==> |AcceptRow(columns, literals, stod).value| == |columns|
  {
    hide BuildRow;
  }

  lemma InsertSavable(db: Db, table: string, batch: seq<seq<string>>, stod: Stod)
    requires SavableDb(db) && DoubleBits(stod) && SmallRows(batch)
    ensures SavableDb(ExecInsert(db, table, batch, stod))
  {
    hide Accepted, SizedRow, SizedColumn, NameFits, Narrow, SmallRows, DoubleBits, UpperAll;
    var name := UpperAll(table);
    if name in db {
      assert Savable(name, db[name]);
      AcceptedSized(db[name].columns, batch, stod);
    }
  }

  // A text of at most 10 MB leaves tables that a snapshot can hold.
  lemma ExecKeepsSavable(db: Db, sql: string, stod: Stod)
    requires SavableDb(db) && Narrow(sql) && |sql| <= MAX_STRING && DoubleBits(stod)
    ensures ExecSql(db, sql, stod).Some? ==> SavableDb(ExecSql(db, sql, stod).value)
  {
    hide ParseSql, Narrow, ExecInsert, BuildSchema, Savable, SmallRows, Piece, DoubleBits, UpperAll;
    if ExecSql(db, sql, stod).Some? && ParseSql(sql).Done? {
      StatementPieces(sql);
      match ParseSql(sql).value
      case CreateTable(table, columns) =>
        Larger(table, columns, |sql|);
        CreateSavable(table, columns);
      case Insert(table, rows) => InsertSavable(db, table, rows, stod);
      case Select(_) =>
    }
  }

  lemma Larger(table: string, columns: seq<ColumnDef>, n: nat)
    requires n <= MAX_STRING && Piece(table, n) && SmallColumns(columns, n)
    ensures Piece(table, MAX_STRING) && SmallColumns(columns, MAX_STRING)
  {
    hide Narrow;
  }

  // ---- Loading ----

  lemma NatRange(f: seq<bv8>, k: nat)
    ensures ReadNat(f, k).Ok? ==> ReadNat(f, k).value < Pow256(k)
  {
    hide FromLe, Pow256;
    if |f| >= k { FromLeRoundTrip(f[..k]); }
  }

  lemma FixedBounded(kind: DataType, b: seq<bv8>)
    requires kind != VARCHAR && |b| == Width(kind)
    ensures Bounded(FixedValue(kind, b))
  {
    hide FromLe, Pow256;
    Widths();
    FromLeRoundTrip(b);
  }

  lemma ValueBounded(f: seq<bv8>)
    ensures ReadValue(f).Ok? ==> Bounded(ReadValue(f).value)
  {
    hide ReadNat, ReadStr, FixedValue, Narrow;
    if ReadValue(f).Ok? {
      var kind, rest := KindOf(ReadNat(f, 1).value).value, ReadNat(f, 1).rest;
      if kind == VARCHAR { StrSized(rest); } else { FixedBounded(kind, rest[..Width(kind)]); }
    }
  }

  lemma {:induction false} ValuesBounded(f: seq<bv8>, n: nat)
    ensures ReadValues(f, n).Ok? ==> BoundedRow(ReadValues(f, n).value)
    decreases n
  {
    hide ReadValue, Bounded;
    if n > 0 {
      ValueBounded(f);
      if ReadValue(f).Ok? { ValuesBounded(ReadValue(f).rest, n - 1); }
    }
  }

  lemma {:induction false} RowsSized(f: seq<bv8>, n: nat, columns: Schema)
    requires |columns| < 0x1_0000_0000
    ensures ReadRows(f, n, columns).Ok? ==>
              forall i :: 0 <= i < |ReadRows(f, n, columns).value| ==>
                SizedRow(columns, ReadRows(f, n, columns).value[i])
    decreases n
  {
    hide ReadRow, SizedRow;
    if n > 0 {
      RowSized(f, columns);
      if ReadRow(f, columns).Ok? { RowsSized(ReadRow(f, columns).rest, n - 1, columns); }
    }
  }

  lemma RowSized(f: seq<bv8>, columns: Schema)
    requires |columns| < 0x1_0000_0000
    ensures ReadRow(f, columns).Ok? ==> SizedRow(columns, ReadRow(f, columns).value)
  {
    hide ReadNat, ReadValues, BoundedRow;
    if ReadRow(f, columns).Ok? { ValuesBounded(ReadNat(f, 4).rest, ReadNat(f, 4).value); }
  }

  lemma ColumnSized(f: seq<bv8>)
    ensures ReadColumn(f).Ok? ==> SizedColumn(ReadColumn(f).value) && NameFits(ReadColumn(f).value.name)
  {
    hide ReadNat, ReadStr, Narrow, Pow256;
    Widths();
    StrSized(f);
    if ReadStr(f).Ok? {
      var r1 := ReadStr(f).rest;
      if ReadNat(r1, 1).Ok? { NatRange(ReadNat(r1, 1).rest, 2); }
    }
  }

  lemma StrSized(f: seq<bv8>)
    ensures ReadStr(f).Ok? ==> Narrow(ReadStr(f).value) && NameFits(ReadStr(f).value)
  {
    hide ReadNat, Narrow;
  }

  lemma {:induction false} ColumnsSized(f: seq<bv8>, n: nat)
    ensures var r := ReadColumns(f, n);
            r.Ok? ==> |r.value| == n && forall i :: 0 <= i < n ==> SizedColumn(r.value[i]) && NameFits(r.value[i].name)
    decreases n
  {
    hide ReadColumn, SizedColumn, NameFits;
    if n > 0 {
      ColumnSized(f);
      if ReadColumn(f).Ok? { ColumnsSized(ReadColumn(f).rest, n - 1); }
    }
  }

  lemma TableSavable(f: seq<bv8>)
    ensures ReadTable(f).Ok? ==> Savable(ReadTable(f).value.name, ReadTable(f).value.table)
  {
    hide ReadNat, ReadStr, ReadColumns, ReadRows, SizedColumn, SizedRow, NameFits, Narrow, Pow256;
    if ReadTable(f).Ok? {
      Widths();
      StrSized(f);
      var r1 := ReadStr(f).rest;
      NatRange(r1, 4);
      var r2, cols := ReadNat(r1, 4).rest, ReadNat(r1, 4).value;
      ColumnsSized(r2, cols);
      var columns, r3 := ReadColumns(r2, cols).value, ReadColumns(r2, cols).rest;
      RowsSized(ReadNat(r3, 8).rest, ReadNat(r3, 8).value, columns);
    }
  }

  lemma {:induction false} TablesSavable(f: seq<bv8>, n: nat)
    ensures var r := ReadTables(f, n);
            r.Ok? ==> forall i :: 0 <= i < |r.value| ==> Savable(r.value[i].name, r.value[i].table)
    decreases n
  {
    hide ReadTable, Savable;
    if n > 0 {
      TableSavable(f);
      if ReadTable(f).Ok? { TablesSavable(ReadTable(f).rest, n - 1); }
    }
  }

  lemma {:induction false} MapSavable(ts: seq<Named>)
    requires forall i :: 0 <= i < |ts| ==> Savable(ts[i].name, ts[i].table)
    ensures SavableDb(AsMap(ts))
  {
    hide Savable;
    if ts != [] { MapSavable(ts[..|ts| - 1]); }
  }

  // Whatever a file holds, the tables loaded from it can be saved again.
  lemma LoadedSavable(f: seq<bv8>)
    ensures Load(f).Loaded? ==> SavableDb(Load(f).tables)
  {
    hide ReadNat, ReadTables, AsMap, Savable;
    if Load(f).Loaded? {
      var r4 := ReadNat(ReadNat(ReadNat(ReadNat(f, 8).rest, 8).rest, 8).rest, 4);
      TablesSavable(r4.rest, r4.value);
      MapSavable(ReadTables(r4.rest, r4.value).value);
    }
  }
}
