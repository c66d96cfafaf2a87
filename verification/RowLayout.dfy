/** A row as bytes: the fields at their schema offsets, then the expiry time and the valid flag. */
module RowLayout {
  import opened Bytes
  import opened Values
  import opened Codec

  // schema.cpp add_column: each column starts where the one before it ends.
  function Offset(columns: Schema, i: nat): nat
    requires i <= |columns|
  {
    if i == 0 then 0 else Offset(columns, i - 1) + StorageSize(columns[i - 1])
  }

  function RowSize(columns: Schema): nat { Offset(columns, |columns|) }

  function TotalSize(columns: Schema): nat { RowSize(columns) + 9 }

  // No field reaches into a later one.
  lemma {:induction false} OffsetsApart(columns: Schema, i: nat, j: nat)
    requires i < j <= |columns|
    ensures Offset(columns, i) + StorageSize(columns[i]) <= Offset(columns, j)
  {
    if i < j - 1 { OffsetsApart(columns, i, j - 1); }
  }

  predicate StorableRow(columns: Schema, row: Row) {
    ValidRow(columns, row) && forall i :: 0 <= i < |row| ==> Bounded(row[i])
  }

  // What write_row copies to the field: the length and the text of a string, the raw bytes of anything else.
  function FieldBytes(v: Value): (b: seq<bv8>)
    requires Bounded(v)
    ensures v.Varchar? ==> |b| == 2 + |v.s|
    ensures !v.Varchar? ==> |b| == Width(TypeOf(v))
  {
    if v.Varchar? then Le(|v.s|, 2) + TextBytes(v.s) else FixedBytes(v)
  }

  lemma FieldFits(c: Column, v: Value)
    requires FieldOk(c, v) && Bounded(v)
    ensures |FieldBytes(v)| <= StorageSize(c)
  {
  }

  predicate BytesAt(mem: seq<bv8>, at: nat, data: seq<bv8>) {
    at + |data| <= |mem| && mem[at..at + |data|] == data
  }

  predicate FieldAt(mem: seq<bv8>, at: nat, v: Value)
    requires Bounded(v)
  {
    BytesAt(mem, at, FieldBytes(v))
  }

  function ExpiryBytes(expiry: int): (b: seq<bv8>)
    requires Bounded(Datetime(expiry))
    ensures |b| == 8
  {
    FixedBytes(Datetime(expiry))
  }

  // The row lies at this place of the memory.
  predicate RowAt(mem: seq<bv8>, at: nat, columns: Schema, row: Row)
    requires StorableRow(columns, row)
  {
    forall i :: 0 <= i < |row| ==> FieldAt(mem, at + Offset(columns, i), row[i])
  }

  predicate TailAt(mem: seq<bv8>, at: nat, columns: Schema, expiry: int, valid: bool)
    requires Bounded(Datetime(expiry))
  {
    && BytesAt(mem, at + RowSize(columns), ExpiryBytes(expiry))
    && BytesAt(mem, at + RowSize(columns) + 8, [if valid then 1 else 0])
  }

  // memcpy(&mem[at], data)
  method Copy(mem: array<bv8>, at: nat, data: seq<bv8>)
    requires at + |data| <= mem.Length
    modifies mem
    ensures mem[..] == old(mem[..at]) + data + old(mem[at + |data|..])
  {
    for k := 0 to |data|
      invariant mem[..] == old(mem[..at]) + data[..k] + old(mem[at + k..])
    {
      mem[at + k] := data[k];
    }
    assert data[..|data|] == data;
  }

  lemma CopiedAt(before: seq<bv8>, after: seq<bv8>, at: nat, data: seq<bv8>)
    requires at + |data| <= |before| && after == before[..at] + data + before[at + |data|..]
    ensures BytesAt(after, at, data)
  {
  }

  // Bytes that lie outside what was copied are still there.
  lemma CopiedElsewhere(before: seq<bv8>, after: seq<bv8>, at: nat, data: seq<bv8>, other: nat, kept: seq<bv8>)
    requires at + |data| <= |before| && after == before[..at] + data + before[at + |data|..]
    requires BytesAt(before, other, kept) && (other + |kept| <= at || at + |data| <= other)
    ensures BytesAt(after, other, kept)
  {
    forall k | 0 <= k < |kept| ensures after[other..other + |kept|][k] == kept[k] {
      assert before[other..other + |kept|][k] == kept[k];
    }
  }

  // Only the given stretch differs.
  predicate SameOutside(before: seq<bv8>, after: seq<bv8>, from: nat, to: nat) {
    |before| == |after| && forall k :: 0 <= k < |before| && !(from <= k < to) ==> after[k] == before[k]
  }

  lemma SameItself(mem: seq<bv8>, from: nat, to: nat)
    ensures SameOutside(mem, mem, from, to)
  {
  }

  lemma SameBoth(a: seq<bv8>, b: seq<bv8>, c: seq<bv8>, from: nat, to: nat, from': nat, to': nat)
    requires SameOutside(a, b, from, to) && SameOutside(b, c, from', to') && from <= from' && to <= to'
    ensures SameOutside(a, c, from, to')
  {
  }

  // table.cpp write_row
  method WriteRow(mem: array<bv8>, at: nat, columns: Schema, row: Row, expiry: int)
    requires StorableRow(columns, row) && Bounded(Datetime(expiry)) && at + TotalSize(columns) <= mem.Length
    modifies mem
    ensures RowAt(mem[..], at, columns, row) && TailAt(mem[..], at, columns, expiry, true)
    ensures SameOutside(old(mem[..]), mem[..], at, at + TotalSize(columns))
  {
    hide FieldBytes, ExpiryBytes, FieldAt, TailAt, Offset, SameOutside;
    SameItself(mem[..], at, at + RowSize(columns));
    var i := 0;
    while i < |columns|
      invariant i <= |columns|
      invariant forall j :: 0 <= j < i ==> FieldAt(mem[..], at + Offset(columns, j), row[j])
      invariant SameOutside(old(mem[..]), mem[..], at, at + RowSize(columns))
    {
      ghost var before := mem[..];
      WriteField(mem, at, columns, row, i);
      SameBoth(old(mem[..]), before, mem[..], at, at + RowSize(columns), at, at + RowSize(columns));
      i := i + 1;
    }
    ghost var before := mem[..];
    WriteTail(mem, at, columns, row, expiry);
    SameBoth(old(mem[..]), before, mem[..], at, at + RowSize(columns), at + RowSize(columns), at + TotalSize(columns));
  }

  method WriteField(mem: array<bv8>, at: nat, columns: Schema, row: Row, i: nat)
    requires StorableRow(columns, row) && i < |columns| && at + TotalSize(columns) <= mem.Length
    requires forall j :: 0 <= j < i ==> FieldAt(mem[..], at + Offset(columns, j), row[j])
    modifies mem
    ensures forall j :: 0 <= j <= i ==> FieldAt(mem[..], at + Offset(columns, j), row[j])
    ensures SameOutside(old(mem[..]), mem[..], at, at + RowSize(columns))
  {
    hide FieldBytes, BytesAt, Offset;
    var off, data := at + Offset(columns, i), FieldBytes(row[i]);
    FieldFits(columns[i], row[i]);
    OffsetsApart(columns, i, |columns|);
    Copy(mem, off, data);
    CopiedAt(old(mem[..]), mem[..], off, data);
    forall j | 0 <= j < i ensures FieldAt(mem[..], at + Offset(columns, j), row[j]) {
      FieldFits(columns[j], row[j]);
      OffsetsApart(columns, j, i);
      CopiedElsewhere(old(mem[..]), mem[..], off, data, at + Offset(columns, j), FieldBytes(row[j]));
    }
  }

  method WriteTail(mem: array<bv8>, at: nat, columns: Schema, row: Row, expiry: int)
    requires StorableRow(columns, row) && Bounded(Datetime(expiry)) && at + TotalSize(columns) <= mem.Length
    requires RowAt(mem[..], at, columns, row)
    modifies mem
    ensures RowAt(mem[..], at, columns, row) && TailAt(mem[..], at, columns, expiry, true)
    ensures SameOutside(old(mem[..]), mem[..], at + RowSize(columns), at + TotalSize(columns))
  {
    hide FieldBytes, ExpiryBytes, BytesAt, Offset;
    var off := at + RowSize(columns);
    Copy(mem, off, ExpiryBytes(expiry));
    CopiedAt(old(mem[..]), mem[..], off, ExpiryBytes(expiry));
    RowKept(old(mem[..]), mem[..], at, columns, row, off, ExpiryBytes(expiry));
    label copied:
    Copy(mem, off + 8, [1]);
    CopiedAt(old@copied(mem[..]), mem[..], off + 8, [1]);
    CopiedElsewhere(old@copied(mem[..]), mem[..], off + 8, [1], off, ExpiryBytes(expiry));
    RowKept(old@copied(mem[..]), mem[..], at, columns, row, off + 8, [1]);
  }

  // Writing behind the fields keeps the fields.
  lemma RowKept(before: seq<bv8>, after: seq<bv8>, at: nat, columns: Schema, row: Row, to: nat, data: seq<bv8>)
    requires StorableRow(columns, row) && RowAt(before, at, columns, row)
    requires to + |data| <= |before| && after == before[..to] + data + before[to + |data|..]
             && to >= at + RowSize(columns)
    ensures RowAt(after, at, columns, row)
  {
    hide FieldBytes, BytesAt, Offset;
    forall i | 0 <= i < |row| ensures FieldAt(after, at + Offset(columns, i), row[i]) {
      FieldFits(columns[i], row[i]);
      OffsetsApart(columns, i, |columns|);
      CopiedElsewhere(before, after, to, data, at + Offset(columns, i), FieldBytes(row[i]));
    }
  }

  // ---- Reading ----

  // table.cpp read_value; None where the length field points past the memory.
  function ValueAt(mem: seq<bv8>, at: nat, kind: DataType): Option<Value> {
    if kind == VARCHAR then
      if at + 2 <= |mem| && at + 2 + FromLe(mem[at..at + 2]) <= |mem| then
        Some(Varchar(BytesText(mem[at + 2..at + 2 + FromLe(mem[at..at + 2])])))
      else None
    else if at + Width(kind) <= |mem| then Some(FixedValue(kind, mem[at..at + Width(kind)]))
    else None
  }

  // What was written is read back.
  lemma FieldBack(mem: seq<bv8>, at: nat, c: Column, v: Value)
    requires FieldOk(c, v) && Bounded(v) && c.maxLen < 0x1_0000 && FieldAt(mem, at, v)
    ensures ValueAt(mem, at, c.kind) == Some(v)
  {
    hide Le, FromLe;
    if v.Varchar? {
      var b := mem[at..at + 2 + |v.s|];
      assert mem[at..at + 2] == b[..2] == Le(|v.s|, 2);
      assert mem[at + 2..at + 2 + |v.s|] == b[2..] == TextBytes(v.s);
      Widths();
      LeRoundTrip(|v.s|, 2);
      TextRoundTrip(v.s);
    } else {
      FixedRoundTrip(v);
    }
  }

  // table.cpp read_row
  method ReadRow(mem: array<bv8>, at: nat, columns: Schema, ghost row: Row) returns (r: Row)
    requires ValidSchema(columns) && StorableRow(columns, row) && RowAt(mem[..], at, columns, row)
    ensures r == row
  {
    hide FieldBytes, FieldAt, ValueAt, Offset;
    r := [];
    var i := 0;
    while i < |columns|
      invariant i <= |columns| && r == row[..i]
    {
      FieldBack(mem[..], at + Offset(columns, i), columns[i], row[i]);
      var v := ValueAt(mem[..], at + Offset(columns, i), columns[i].kind);
      r := r + [v.value];
      i := i + 1;
    }
  }

  // table.cpp read_row_projected
  method ReadListed(mem: array<bv8>, at: nat, columns: Schema, ghost row: Row, cols: seq<nat>) returns (r: Row)
    requires ValidSchema(columns) && StorableRow(columns, row) && RowAt(mem[..], at, columns, row)
    requires forall i :: 0 <= i < |cols| ==> cols[i] < |columns|
    ensures |r| == |cols| && forall i :: 0 <= i < |cols| ==> r[i] == row[cols[i]]
  {
    hide FieldBytes, FieldAt, ValueAt, Offset;
    r := [];
    for i := 0 to |cols|
      invariant |r| == i && forall j :: 0 <= j < i ==> r[j] == row[cols[j]]
    {
      var c := cols[i];
      FieldBack(mem[..], at + Offset(columns, c), columns[c], row[c]);
      var v := ValueAt(mem[..], at + Offset(columns, c), columns[c].kind);
      r := r + [v.value];
    }
  }

  // The flag and the expiry time of is_row_valid.
  method ReadTail(mem: array<bv8>, at: nat, columns: Schema, ghost expiry: int, ghost valid: bool)
    returns (e: int, v: bool)
    requires Bounded(Datetime(expiry)) && TailAt(mem[..], at, columns, expiry, valid)
    ensures e == expiry && v == valid
  {
    hide Offset, Le, FromLe;
    var off := at + RowSize(columns);
    FixedRoundTrip(Datetime(expiry));
    e := FixedValue(DATETIME, mem[off..off + 8]).t;
    assert mem[..][off + 8..off + 9] == [if valid then 1 else 0];
    assert mem[off + 8] == mem[..][off + 8..off + 9][0];
    v := mem[off + 8] != 0;
  }
}
