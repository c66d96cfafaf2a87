/** The table: row bytes in the arena, a list of row pointers, and the primary-key index. */
module RowStore {
  import opened Keys
  import opened Values
  import opened RowLayout
  import opened BPTreePool
  import opened BPTreeContents
  import opened BPTreeOrder
  import opened BPTreeScan
  import opened BPTreeNode
  import opened KeyOrder
  import opened TableSpec
  import BPTree
  import Arena

  const ARENA_CHUNK_SIZE: nat := 0x40_0000
  const BPTREE_ORDER: nat := 256

  // Flag, expiry time and fields of a stored row lie at this place.
  predicate HeldAt(mem: seq<bv8>, at: nat, columns: Schema, s: Stored) {
    && StorableRow(columns, s.row) && Bounded(Datetime(s.expiry))
    && RowAt(mem, at, columns, s.row) && TailAt(mem, at, columns, s.expiry, s.valid)
  }

  // A row stays as it was when the memory changes only outside it.
  lemma HeldElsewhere(before: seq<bv8>, after: seq<bv8>, from: nat, to: nat, at: nat, columns: Schema, s: Stored)
    requires HeldAt(before, at, columns, s) && SameOutside(before, after, from, to)
    requires at + TotalSize(columns) <= from || to <= at
    ensures HeldAt(after, at, columns, s)
  {
    hide FieldBytes, ExpiryBytes, Offset, BytesAt;
    forall i | 0 <= i < |s.row| ensures FieldAt(after, at + Offset(columns, i), s.row[i]) {
      FieldFits(columns[i], s.row[i]);
      OffsetsApart(columns, i, |columns|);
      BytesElsewhere(before, after, from, to, at + Offset(columns, i), FieldBytes(s.row[i]));
    }
    BytesElsewhere(before, after, from, to, at + RowSize(columns), ExpiryBytes(s.expiry));
    BytesElsewhere(before, after, from, to, at + RowSize(columns) + 8, [if s.valid then 1 else 0]);
  }

  lemma BytesElsewhere(before: seq<bv8>, after: seq<bv8>, from: nat, to: nat, at: nat, data: seq<bv8>)
    requires BytesAt(before, at, data) && SameOutside(before, after, from, to)
    requires at + |data| <= from || to <= at
    ensures BytesAt(after, at, data)
  {
    assert after[at..at + |data|] == before[at..at + |data|];
  }

  // Clearing the flag byte changes the flag only.
  lemma FlagCleared(before: seq<bv8>, after: seq<bv8>, at: nat, columns: Schema, s: Stored)
    requires HeldAt(before, at, columns, s) && at + TotalSize(columns) <= |before|
    requires after == before[at + RowSize(columns) + 8 := 0]
    ensures HeldAt(after, at, columns, s.(valid := false))
  {
    hide FieldBytes, ExpiryBytes, Offset, BytesAt;
    var pos := at + RowSize(columns) + 8;
    assert SameOutside(before, after, pos, pos + 1);
    forall i | 0 <= i < |s.row| ensures FieldAt(after, at + Offset(columns, i), s.row[i]) {
      FieldFits(columns[i], s.row[i]);
      OffsetsApart(columns, i, |columns|);
      BytesElsewhere(before, after, pos, pos + 1, at + Offset(columns, i), FieldBytes(s.row[i]));
    }
    BytesElsewhere(before, after, pos, pos + 1, at + RowSize(columns), ExpiryBytes(s.expiry));
    OneByte(after, pos, 0);
  }

  lemma OneByte(mem: seq<bv8>, at: nat, b: bv8)
    requires at < |mem| && mem[at] == b
    ensures BytesAt(mem, at, [b])
  {
  }

  class Table {
    const columns: Schema
    const ttl: nat
    const arena: Arena.Arena
    const index: BPTree.Index
    var rows: seq<Arena.Ptr>
    var rowCount: nat
    ghost var stored: seq<Stored>

    ghost function Footprint(): set<object>
      reads arena, index
    {
      {this, arena} + (set c | c in arena.chunks) + index.Footprint()
    }

    ghost predicate RowOk(i: nat)
      requires i < |rows| && i < |stored| && i < |arena.blocks|
      reads this`rows, this`stored, arena, arena.chunks
    {
      && arena.blocks[i] == Arena.Block(rows[i], TotalSize(columns), 8)
      && rows[i].chunk < |arena.chunks|
      && HeldAt(arena.chunks[rows[i].chunk][..], rows[i].offset, columns, stored[i])
    }

    // The rows are in the arena, each in a block of its own; there may be newer blocks.
    ghost predicate Holding(spare: nat)
      reads this`rows, this`stored, arena, arena.chunks
    {
      && ValidSchema(columns)
      && arena.Valid()
      && |rows| == |stored| == |arena.blocks| - spare
      && (forall i :: 0 <= i < |rows| ==> RowOk(i))
    }

    ghost predicate Stores()
      reads this`rows, this`stored, arena, arena.chunks
    {
      Holding(0)
    }

    // The index maps every key to its last row.
    ghost predicate Indexes()
      reads this`stored, index, index.pool, Memory(index.pool)
    {
      index.Valid() && ToMap(Contents(index.model)) == ToMap(PkEntries(AllRows(stored)))
    }

    ghost predicate Apart()
      reads arena, index
    {
      && this !in index.Footprint() && arena !in index.Footprint()
      && forall c :: c in arena.chunks ==> c !in index.Footprint()
    }

    ghost predicate Valid()
      reads this, arena, arena.chunks, index, index.pool, Memory(index.pool)
    {
      Stores() && Indexes() && Apart() && rowCount == CountValid(stored)
    }

    // The same, as a matter of the footprint.
    ghost predicate Sound()
      reads this, arena, index, Footprint()
    {
      assert forall c :: c in arena.chunks ==> c in Footprint();
      assert forall n :: n in index.pool ==> n in Memory(index.pool);
      assert Memory(index.pool) <= Footprint();
      Valid()
    }

    constructor (columns: Schema, ttl: nat)
      requires ValidSchema(columns)
      ensures Valid() && fresh(Footprint()) && stored == [] && this.columns == columns && this.ttl == ttl
    {
      hide Contents, ValidSchema, BPTree.Index.Valid, Arena.Arena.Valid, Holding, Indexes, Valid;
      this.columns, this.ttl := columns, ttl;
      arena := new Arena.Arena(ARENA_CHUNK_SIZE);
      index := new BPTree.Index(BPTREE_ORDER);
      rows, rowCount, stored := [], 0, [];
      new;
      EmptyValid();
    }

    lemma EmptyValid()
      requires ValidSchema(columns) && arena.Valid() && arena.blocks == []
      requires index.Valid() && Contents(index.model) == []
      requires Apart() && rows == [] && stored == [] && rowCount == 0
      ensures Valid()
    {
      hide Contents, ValidSchema, BPTree.Index.Valid, Arena.Arena.Valid;
      NothingIndexed();
    }

    ghost predicate Grown(before: seq<array<bv8>>)
      reads arena
    {
      arena.chunks == before || (|arena.chunks| == |before| + 1 && arena.chunks[..|before|] == before)
    }

    method NewBlock() returns (p: Arena.Ptr)
      requires Stores()
      modifies arena
      ensures Holding(1) && arena.blocks[|rows|] == Arena.Block(p, TotalSize(columns), 8)
      ensures Grown(old(arena.chunks)) && fresh((set c | c in arena.chunks) - old(set c | c in arena.chunks))
    {
      hide HeldAt, Offset;
      var ok;
      p, ok := arena.Allocate(TotalSize(columns), 8);
      forall i | 0 <= i < |rows| ensures RowOk(i) { assert old(RowOk(i)); }
    }

    // Allocate a block and write the row into it.
    method StoreRow(row: Row, expiry: int)
      requires Stores() && StorableRow(columns, row) && Bounded(Datetime(expiry))
      modifies this`rows, this`stored, arena, arena.chunks
      ensures Stores() && stored == old(stored) + [Stored(row, expiry, true)]
      ensures Grown(old(arena.chunks)) && fresh((set c | c in arena.chunks) - old(set c | c in arena.chunks))
    {
      hide HeldAt, RowAt, TailAt, StorableRow, FieldBytes, Offset;
      var p := NewBlock();
      assert arena.BlockOk(arena.blocks[|rows|]);
      var mem := arena.chunks[p.chunk];
      label blank:
      WriteRow(mem, p.offset, columns, row, expiry);
      forall i | 0 <= i < |rows| ensures RowOk(i) {
        assert old@blank(RowOk(i));
        assert Arena.Before(arena.blocks[i], arena.blocks[|rows|]);
        var at := rows[i];
        if at.chunk == p.chunk {
          HeldElsewhere(old@blank(mem[..]), mem[..], p.offset, p.offset + TotalSize(columns), at.offset, columns,
                        stored[i]);
        } else {
          assert arena.chunks[at.chunk] != mem;
        }
      }
      JustHeld(mem[..], p.offset, columns, row, expiry);
      AddRow(p, Stored(row, expiry, true));
    }

    method AddRow(p: Arena.Ptr, ghost x: Stored)
      requires Holding(1) && arena.blocks[|rows|] == Arena.Block(p, TotalSize(columns), 8) && p.chunk < |arena.chunks|
      requires HeldAt(arena.chunks[p.chunk][..], p.offset, columns, x)
      modifies this`rows, this`stored
      ensures Stores() && stored == old(stored) + [x]
    {
      hide HeldAt, Offset;
      rows := rows + [p];
      stored := stored + [x];
      forall i | 0 <= i < |rows| ensures RowOk(i) {
        if i < |rows| - 1 { assert old(RowOk(i)); }
      }
    }

    // Put the newest row into the index and count it.
    method IndexRow(key: Key, id: nat, ghost x: Stored)
      requires Stores() && Apart() && index.Valid() && stored != [] && stored[|stored| - 1] == x && x.valid
      requires key == KeyOfRow(x.row) && id == |stored| - 1
      requires ToMap(Contents(index.model)) == ToMap(PkEntries(AllRows(stored[..id])))
      requires rowCount == CountValid(stored[..id])
      modifies this`rowCount, index.Footprint()
      ensures Valid() && fresh(index.Footprint() - old(index.Footprint()))
      ensures stored == old(stored) && arena.chunks == old(arena.chunks)
    {
      hide RowOk, ToMap, Contents, CountValid, Inv, Ordered, Holds;
      ghost var before := stored[..id];
      assert stored == before + [x];
      CountSnoc(before, x);
      NewEntry(before, x);
      var done := index.Insert(key, id);
      rowCount := rowCount + 1;
    }

    // table.cpp insert
    method Insert(row: Row, now: int) returns (ok: bool)
      requires Valid() && Bounded(Datetime(ExpiryAt(now, ttl))) && forall i :: 0 <= i < |row| ==> Bounded(row[i])
      modifies Footprint()
      ensures Valid() && fresh(Footprint() - old(Footprint())) && ok == ValidRow(columns, row)
      ensures stored == if ok then After(old(stored), ttl, Add(row, now)) else old(stored)
      ensures !ok ==> rowCount == old(rowCount)
    {
      hide Holding, ToMap, Contents, CountValid, BPTree.Index.Valid;
      if !ValidRow(columns, row) { return false; }
      var id := |rows|;
      assert id == |stored| && |columns| > 0 by { SchemaKnown(); }
      ghost var x := Stored(row, ExpiryAt(now, ttl), true);
      StoreRow(row, ExpiryAt(now, ttl));
      assert index.Valid() && Apart();
      assert stored[..id] == old(stored);
      IndexRow(KeyOf(row[0]), id, x);
      return true;
    }

    // table.cpp is_row_valid
    method IsRowValid(i: nat, now: int) returns (b: bool)
      requires Stores() && i < |rows|
      ensures b == Live(stored[i], now)
    {
      hide RowAt, TailAt, Offset;
      assert RowOk(i);
      var mem := arena.chunks[rows[i].chunk];
      var expiry, valid := ReadTail(mem, rows[i].offset, columns, stored[i].expiry, stored[i].valid);
      b := valid && !(expiry > 0 && now > expiry);
    }

    // table.cpp read_row
    method ReadRowAt(i: nat) returns (row: Row)
      requires Stores() && i < |rows|
      ensures row == stored[i].row
    {
      hide RowAt, TailAt, Offset;
      assert RowOk(i);
      row := ReadRow(arena.chunks[rows[i].chunk], rows[i].offset, columns, stored[i].row);
    }

    // The row, or the listed columns of it.
    method ReadListedAt(i: nat, cols: seq<nat>) returns (row: Row)
      requires Stores() && i < |rows| && forall j :: 0 <= j < |cols| ==> cols[j] < |columns|
      ensures row == Listed(stored[i].row, cols)
    {
      hide RowAt, TailAt, Offset;
      if cols == [] {
        row := ReadRowAt(i);
      } else {
        assert RowOk(i);
        row := ReadListed(arena.chunks[rows[i].chunk], rows[i].offset, columns, stored[i].row, cols);
        assert row == Pick(stored[i].row, cols);
      }
    }

    // table.cpp scan_all
    method ScanAll(now: int) returns (results: seq<Row>)
      requires Stores()
      ensures results == LiveRows(stored, now)
    {
      hide RowOk, Live;
      results := [];
      var i := 0;
      while i < |rows|
        invariant i <= |rows| && results == LiveRows(stored[..i], now)
      {
        LiveSnoc(stored[..i], stored[i], now);
        assert stored[..i + 1] == stored[..i] + [stored[i]];
        var live := IsRowValid(i, now);
        if live {
          var row := ReadRowAt(i);
          results := results + [row];
        }
        i := i + 1;
      }
      assert stored[..|rows|] == stored;
    }

    // table.cpp index_range: the callback takes every row the index reports and keeps the live ones.
    method IndexRange(op: CmpOp, v: Value, cols: seq<nat>, now: int) returns (results: seq<Row>)
      requires Valid() && forall i :: 0 <= i < |cols| ==> cols[i] < |columns|
      ensures results == ListedRows(Gather(stored, now, Select(EntryOrder(PkEntries(AllRows(stored))), op, KeyOf(v))),
                                    cols)
      ensures var all := Filter(RowOrder(LiveRows(stored, now)), OnKey(op, KeyOf(v)));
              && (LastsLive(stored, now, op, KeyOf(v)) ==> results == ListedRows(all, cols))
              && (cols == [] && results == all ==> LastsLive(stored, now, op, KeyOf(v)))
    {
      hide RowOk, Live, ToMap, Contents, BPTree.Index.Valid, Gather, Select, EntryOrder, RowOrder, Filter, LiveRows;
      hide LastsLive, Ascending, PkEntries;
      IndexContents();
      var ids := ScanIndex(op, KeyOf(v));
      IndexAnswerIff(stored, now, Contents(index.model), op, KeyOf(v));
      results := Collect(ids, cols, now);
    }

    // The index lists each key's last row.
    lemma IndexContents()
      requires Valid()
      ensures index.Valid() && Ordered(index.model) && Ascending(Contents(index.model))
      ensures Contents(index.model) == EntryOrder(PkEntries(AllRows(stored)))
    {
      hide Inv, Holds, ToMap, Contents, EntryOrder, Less, RowOk;
      var t, s := index.model, PkEntries(AllRows(stored));
      ContentsAscending(t);
      EntryOrderMap(s);
      ToMapInjective(Contents(t), EntryOrder(s));
    }

    method ScanIndex(op: CmpOp, key: Key) returns (ids: seq<nat>)
      requires index.Valid() && Ordered(index.model)
      ensures ids == Select(Contents(index.model), op, key)
    {
      hide Contents, Select, BPTree.Index.Valid, Ordered;
      var all := (_: seq<nat>) => true;
      match op {
        case EQ => ids := index.RangeEq(key, all);
        case NE => ids := index.RangeNe(key, all);
        case LT => ids := index.RangeLt(key, all);
        case GT => ids := index.RangeGt(key, all);
        case LE => ids := index.RangeLe(key, all);
        case GE => ids := index.RangeGe(key, all);
      }
    }

    method Collect(ids: seq<nat>, cols: seq<nat>, now: int) returns (results: seq<Row>)
      requires Stores() && forall i :: 0 <= i < |cols| ==> cols[i] < |columns|
      ensures results == ListedRows(Gather(stored, now, ids), cols)
    {
      hide RowOk, Live, Listed, ListedRows;
      ListedParts([], [], cols);
      results := [];
      for k := 0 to |ids|
        invariant results == ListedRows(Gather(stored, now, ids[..k]), cols)
      {
        assert ids[..k + 1][..k] == ids[..k];
        ghost var before := Gather(stored, now, ids[..k]);
        assert before + [] == before;
        if ids[k] < |rows| {
          var live := IsRowValid(ids[k], now);
          if live {
            ListedParts(before, [stored[ids[k]].row], cols);
            var row := ReadListedAt(ids[k], cols);
            results := results + [row];
          }
        }
      }
      assert ids[..|ids|] == ids;
    }

    // table.cpp scan_where: through the index when the column is the primary key.
    method ScanWhere(col: nat, op: CmpOp, v: Value, cols: seq<nat>, now: int) returns (results: seq<Row>)
      requires Valid() && col < |columns| && forall i :: 0 <= i < |cols| ==> cols[i] < |columns|
      ensures col == 0 ==>
                results == ListedRows(Gather(stored, now, Select(EntryOrder(PkEntries(AllRows(stored))), op, KeyOf(v))),
                                      cols)
      ensures col == 0 && LastsLive(stored, now, op, KeyOf(v)) ==>
                results == ListedRows(Filter(RowOrder(LiveRows(stored, now)), OnKey(op, KeyOf(v))), cols)
      ensures col != 0 ==> results == ListedRows(Filter(LiveRows(stored, now), OnColumn(col, op, v)), cols)
    {
      hide Indexes, Compare, Gather, Select, EntryOrder, Filter, LiveRows, RowOrder, LastsLive, ListedRows;
      if col == 0 {
        results := IndexRange(op, v, cols, now);
      } else {
        results := ScanFilter(col, op, v, cols, now);
      }
    }

    method ScanFilter(col: nat, op: CmpOp, v: Value, cols: seq<nat>, now: int) returns (results: seq<Row>)
      requires Stores() && col < |columns| && forall i :: 0 <= i < |cols| ==> cols[i] < |columns|
      ensures results == ListedRows(Filter(LiveRows(stored, now), OnColumn(col, op, v)), cols)
    {
      hide RowOk, Live, Compare, Filter, LiveRows, Listed, ListedRows;
      ghost var keep := OnColumn(col, op, v);
      results := [];
      NothingListed(now, keep, cols);
      var i := 0;
      while i < |rows|
        invariant i <= |rows| && results == ListedRows(Filter(LiveRows(stored[..i], now), keep), cols)
      {
        ListedStep(stored, i, now, keep, cols);
        var live := IsRowValid(i, now);
        if live {
          var row := ReadRowAt(i);
          FullRow(i);
          if Compare(op, row[col], v) {
            var listed := ReadListedAt(i, cols);
            results := results + [listed];
          }
        }
        i := i + 1;
      }
      assert stored[..|rows|] == stored;
    }

    lemma FullRow(i: nat)
      requires Stores() && i < |rows|
      ensures |stored[i].row| == |columns|
    {
      assert RowOk(i);
    }

    // One step of the sweep: clear the flag of a row that has expired.
    method SweepRow(i: nat, now: int) returns (cleared: bool)
      requires Stores() && i < |rows|
      modifies this`stored, arena.chunks
      ensures Stores() && i < |old(stored)|
              && stored == old(stored)[i := old(stored)[i].(valid := Live(old(stored)[i], now))]
      ensures cleared == (old(stored)[i].valid && !Live(old(stored)[i], now))
    {
      hide RowAt, TailAt, Offset;
      assert RowOk(i) && arena.BlockOk(arena.blocks[i]);
      var mem, at := arena.chunks[rows[i].chunk], rows[i].offset;
      var expiry, valid := ReadTail(mem, at, columns, stored[i].expiry, stored[i].valid);
      if !(valid && expiry > 0 && now > expiry) {
        assert stored == stored[i := stored[i].(valid := Live(stored[i], now))];
        return false;
      }
      ClearFlag(i);
      return true;
    }

    method ClearFlag(i: nat)
      requires Stores() && i < |rows|
      modifies this`stored, arena.chunks
      ensures Stores() && i < |old(stored)| && stored == old(stored)[i := old(stored)[i].(valid := false)]
    {
      hide HeldAt, Offset;
      assert RowOk(i) && arena.BlockOk(arena.blocks[i]);
      var mem, at := arena.chunks[rows[i].chunk], rows[i].offset;
      var pos := at + RowSize(columns) + 8;
      mem[pos] := 0;
      FlagCleared(old(mem[..]), mem[..], at, columns, stored[i]);
      stored := stored[i := stored[i].(valid := false)];
      forall j | 0 <= j < |rows| ensures RowOk(j) {
        assert old(RowOk(j));
        if j != i && rows[j].chunk == rows[i].chunk {
          assert Arena.Before(arena.blocks[if j < i then j else i], arena.blocks[if j < i then i else j]);
          HeldElsewhere(old(mem[..]), mem[..], pos, pos + 1, rows[j].offset, columns, stored[j]);
        } else if j != i {
          assert arena.chunks[rows[j].chunk] != mem;
        }
      }
    }

    // table.cpp cleanup_expired
    method CleanupExpired(now: int) returns (cleaned: nat)
      requires Valid()
      modifies this`rowCount, this`stored, arena.chunks
      ensures Valid() && stored == After(old(stored), ttl, Clean(now))
      ensures rowCount == old(rowCount) - cleaned && Footprint() == old(Footprint())
    {
      hide RowOk, Live, Holding, CountValid, ToMap, Contents, BPTree.Index.Valid;
      cleaned := 0;
      var i := 0;
      SchemaKnown();
      while i < |rows|
        invariant i <= |rows| == |stored| == |old(stored)| && Stores()
        invariant forall j :: 0 <= j < |stored| ==>
                  stored[j] == if j < i then old(stored)[j].(valid := Live(old(stored)[j], now)) else old(stored)[j]
        invariant CountValid(stored) + cleaned == CountValid(old(stored)) && rowCount == old(rowCount)
      {
        ghost var before := stored;
        var cleared := SweepRow(i, now);
        CountUpdate(before, i, stored[i]);
        LiveValid(before[i], now);
        if cleared { cleaned := cleaned + 1; }
        i := i + 1;
      }
      assert stored == Swept(old(stored), now);
      assert AllRows(stored) == AllRows(old(stored));
      rowCount := rowCount - cleaned;
      assert index.Valid();
    }

    lemma SchemaKnown()
      requires Stores()
      ensures |rows| == |stored| && |columns| > 0
    {
    }
  }

  lemma NothingIndexed()
    ensures ToMap([]) == ToMap(PkEntries(AllRows([]))) && CountValid([]) == 0
  {
    hide ToMap;
    assert AllRows([]) == [] && PkEntries([]) == [];
  }

  lemma ScanStep(stored: seq<Stored>, i: nat, now: int, keep: Row -> bool)
    requires i < |stored|
    ensures Filter(LiveRows(stored[..i + 1], now), keep) ==
            Filter(LiveRows(stored[..i], now), keep) +
            if Live(stored[i], now) && keep(stored[i].row) then [stored[i].row] else []
  {
    hide Live, Filter;
    LiveSnoc(stored[..i], stored[i], now);
    FilterSnoc(LiveRows(stored[..i], now), stored[i].row, keep);
    assert stored[..i + 1] == stored[..i] + [stored[i]];
    var rows := LiveRows(stored[..i], now);
    assert rows + [] == rows && Filter(rows, keep) + [] == Filter(rows, keep);
  }

  lemma ListedStep(stored: seq<Stored>, i: nat, now: int, keep: Row -> bool, cols: seq<nat>)
    requires i < |stored|
    ensures ListedRows(Filter(LiveRows(stored[..i + 1], now), keep), cols) ==
            ListedRows(Filter(LiveRows(stored[..i], now), keep), cols) +
            if Live(stored[i], now) && keep(stored[i].row) then [Listed(stored[i].row, cols)] else []
  {
    hide Live, Filter, LiveRows, Listed, ListedRows;
    var before := Filter(LiveRows(stored[..i], now), keep);
    ScanStep(stored, i, now, keep);
    ListedParts(before, [stored[i].row], cols);
    assert before + [] == before && ListedRows(before, cols) + [] == ListedRows(before, cols);
  }

  lemma NothingListed(now: int, keep: Row -> bool, cols: seq<nat>)
    ensures ListedRows(Filter(LiveRows([], now), keep), cols) == []
  {
    hide ListedRows, Filter, LiveRows;
    NothingScanned(now, keep);
    ListedParts([], [], cols);
  }

  lemma NothingScanned(now: int, keep: Row -> bool)
    ensures Filter(LiveRows([], now), keep) == []
  {
  }

  lemma LiveValid(s: Stored, now: int)
    ensures Live(s, now) ==> s.valid
  {
  }

  lemma {:induction false} CountUpdate(stored: seq<Stored>, i: nat, x: Stored)
    requires i < |stored|
    ensures CountValid(stored[i := x]) ==
            CountValid(stored) - (if stored[i].valid then 1 else 0) + (if x.valid then 1 else 0)
  {
    var n := |stored| - 1;
    if i < n {
      assert stored[i := x][..n] == stored[..n][i := x];
      CountUpdate(stored[..n], i, x);
    } else {
      assert stored[i := x][..n] == stored[..n];
    }
  }

  lemma JustHeld(mem: seq<bv8>, at: nat, columns: Schema, row: Row, expiry: int)
    requires StorableRow(columns, row) && Bounded(Datetime(expiry))
    requires RowAt(mem, at, columns, row) && TailAt(mem, at, columns, expiry, true)
    ensures HeldAt(mem, at, columns, Stored(row, expiry, true))
  {
  }

  lemma NewEntry(stored: seq<Stored>, x: Stored)
    ensures ToMap(PkEntries(AllRows(stored + [x]))) == ToMap(PkEntries(AllRows(stored)))[KeyOfRow(x.row) := |stored|]
  {
    var s := PkEntries(AllRows(stored + [x]));
    assert s[..|s| - 1] == PkEntries(AllRows(stored));
  }
}
