/** A table as the rows stored in it, with their expiry times and valid flags. */
module TableSpec {
  import opened Keys
  import opened Values
  import opened BPTreeContents
  import opened BPTreeScan
  import opened KeyOrder

  datatype Stored = Stored(row: Row, expiry: int, valid: bool)

  // table.cpp is_row_valid at time now
  predicate Live(s: Stored, now: int) { s.valid && !(s.expiry > 0 && now > s.expiry) }

  function AllRows(stored: seq<Stored>): (rows: seq<Row>)
    ensures |rows| == |stored| && forall i :: 0 <= i < |rows| ==> rows[i] == stored[i].row
  {
    seq(|stored|, i requires 0 <= i < |stored| => stored[i].row)
  }

  function LiveRows(stored: seq<Stored>, now: int): seq<Row> {
    if stored == [] then []
    else LiveRows(stored[..|stored| - 1], now) +
         if Live(stored[|stored| - 1], now) then [stored[|stored| - 1].row] else []
  }

  // The live rows among the given row numbers, in that order.
  function Gather(stored: seq<Stored>, now: int, ids: seq<nat>): seq<Row> {
    if ids == [] then []
    else Gather(stored, now, ids[..|ids| - 1]) +
         var id := ids[|ids| - 1]; if id < |stored| && Live(stored[id], now) then [stored[id].row] else []
  }

  function CountValid(stored: seq<Stored>): (n: nat)
    ensures n <= |stored|
  {
    if stored == [] then 0 else CountValid(stored[..|stored| - 1]) + if stored[|stored| - 1].valid then 1 else 0
  }

  // ---- The index ----

  // The entries the inserts put into the index: each row's key and number.
  function PkEntries(rows: seq<Row>): (s: seq<Entry>)
    ensures |s| == |rows| && forall i :: 0 <= i < |s| ==> s[i] == Entry(KeyOfRow(rows[i]), i)
  {
    seq(|rows|, i requires 0 <= i < |rows| => Entry(KeyOfRow(rows[i]), i))
  }

  function Put(s: seq<Entry>, e: Entry): seq<Entry> {
    if s == [] then [e]
    else if Less(s[0].key, e.key) then [s[0]] + Put(s[1..], e)
    else if s[0].key == e.key then [e] + s[1..]
    else [e] + s
  }

  function EntryOrder(s: seq<Entry>): seq<Entry> {
    if s == [] then [] else Put(EntryOrder(s[..|s| - 1]), s[|s| - 1])
  }

  lemma {:induction false} ToMapConcat(a: seq<Entry>, b: seq<Entry>)
    ensures ToMap(a + b) == ToMap(a) + ToMap(b)
  {
    if b == [] {
      assert a + b == a;
    } else {
      assert (a + b)[..|a + b| - 1] == a + b[..|b| - 1];
      ToMapConcat(a, b[..|b| - 1]);
    }
  }

  lemma ToMapCons(x: Entry, t: seq<Entry>)
    ensures ToMap([x] + t) == map[x.key := x.row] + ToMap(t)
  {
    ToMapConcat([x], t);
    assert [x][..0] == [];
    assert ToMap([x]) == map[x.key := x.row];
  }

  lemma {:induction false} PutAscending(s: seq<Entry>, e: Entry)
    requires Ascending(s)
    ensures Ascending(Put(s, e))
    ensures forall x :: x in Put(s, e) ==> x == e || x in s
  {
    hide Less;
    if s != [] {
      PutAscending(s[1..], e);
      LessTotal(s[0].key, e.key);
      if Less(s[0].key, e.key) {
        var rest := Put(s[1..], e);
        forall j | 0 <= j < |rest| ensures Less(s[0].key, rest[j].key) { assert rest[j] in rest; }
      } else if s[0].key != e.key {
        forall j | 0 <= j < |s| ensures Less(e.key, s[j].key) {
          if j > 0 { LessTransitive(e.key, s[0].key, s[j].key); }
        }
      }
    }
  }

  lemma {:induction false} PutMap(s: seq<Entry>, e: Entry)
    requires Ascending(s)
    ensures ToMap(Put(s, e)) == ToMap(s)[e.key := e.row]
  {
    hide Less, ToMap;
    if s == [] {
      ToMapCons(e, []);
      assert [e] + [] == [e];
      NoMap();
    } else {
      var rest := s[1..];
      assert s == [s[0]] + rest;
      ToMapCons(s[0], rest);
      LessTotal(s[0].key, e.key);
      if Less(s[0].key, e.key) {
        PutMap(rest, e);
        ToMapCons(s[0], Put(rest, e));
        LessIrreflexive(e.key);
      } else if s[0].key == e.key {
        NotInTail(s);
        ToMapCons(e, rest);
      } else {
        NotBelow(s, e.key);
        ToMapCons(e, s);
      }
    }
  }

  lemma NoMap()
    ensures ToMap([]) == map[]
  {
  }

  lemma NotInTail(s: seq<Entry>)
    requires Ascending(s) && s != []
    ensures s[0].key !in ToMap(s[1..])
  {
    hide Less;
    ToMapDomain(s[1..], s[0].key);
    LessIrreflexive(s[0].key);
    assert forall i :: 0 <= i < |s[1..]| ==> s[1..][i] == s[i + 1];
  }

  lemma NotBelow(s: seq<Entry>, k: Key)
    requires Ascending(s) && s != [] && Less(k, s[0].key)
    ensures k !in ToMap(s)
  {
    hide Less;
    ToMapDomain(s, k);
    LessIrreflexive(k);
    forall i | 0 <= i < |s| ensures s[i].key != k {
      if i > 0 { LessTransitive(k, s[0].key, s[i].key); }
    }
  }

  lemma {:induction false} EntryOrderMap(s: seq<Entry>)
    ensures Ascending(EntryOrder(s)) && ToMap(EntryOrder(s)) == ToMap(s)
    ensures forall x :: x in EntryOrder(s) ==> x in s
  {
    hide Less, Put;
    if s != [] {
      EntryOrderMap(s[..|s| - 1]);
      PutAscending(EntryOrder(s[..|s| - 1]), s[|s| - 1]);
      PutMap(EntryOrder(s[..|s| - 1]), s[|s| - 1]);
    }
  }

  // ---- Index answers as rows ----

  // The last row of its key.
  predicate LastOf(rows: seq<Row>, i: nat) {
    i < |rows| && forall j :: i < j < |rows| ==> KeyOfRow(rows[j]) != KeyOfRow(rows[i])
  }

  lemma LastExists(rows: seq<Row>, i: nat) returns (j: nat)
    requires i < |rows|
    ensures i <= j && LastOf(rows, j) && KeyOfRow(rows[j]) == KeyOfRow(rows[i])
  {
    j := i;
    var n := i + 1;
    while n < |rows|
      invariant i <= j < n <= |rows| && KeyOfRow(rows[j]) == KeyOfRow(rows[i])
      invariant forall m :: j < m < n ==> KeyOfRow(rows[m]) != KeyOfRow(rows[i])
    {
      if KeyOfRow(rows[n]) == KeyOfRow(rows[i]) { j := n; }
      n := n + 1;
    }
  }

  // The index maps every key to its last row.
  lemma {:induction false} PkLast(rows: seq<Row>, k: Key)
    ensures var m := ToMap(PkEntries(rows)); k in m ==> LastOf(rows, m[k]) && KeyOfRow(rows[m[k]]) == k
    ensures var m := ToMap(PkEntries(rows));
            forall i: nat :: LastOf(rows, i) && KeyOfRow(rows[i]) == k ==> k in m && m[k] == i
  {
    hide ToMap, PkEntries;
    PkMap(rows);
    if rows != [] {
      var n := |rows| - 1;
      PkLast(rows[..n], k);
      assert forall i: nat :: LastOf(rows, i) && i < n ==> LastOf(rows[..n], i);
    }
  }

  lemma PkMap(rows: seq<Row>)
    ensures rows == [] ==> ToMap(PkEntries(rows)) == map[]
    ensures rows != [] ==>
              var n := |rows| - 1; ToMap(PkEntries(rows)) == ToMap(PkEntries(rows[..n]))[KeyOfRow(rows[n]) := n]
  {
    if rows != [] { assert PkEntries(rows)[..|rows| - 1] == PkEntries(rows[..|rows| - 1]); }
  }

  lemma EntryMember(rows: seq<Row>, s: seq<Entry>, e: Entry)
    requires Ascending(s) && ToMap(s) == ToMap(PkEntries(rows))
    ensures e in s <==> LastOf(rows, e.row) && e.key == KeyOfRow(rows[e.row])
  {
    hide Less, ToMap, PkEntries;
    PkLast(rows, e.key);
    ToMapDomain(s, e.key);
    if e in s {
      var i :| 0 <= i < |s| && s[i] == e;
      ToMapAt(s, i);
    }
    if LastOf(rows, e.row) && e.key == KeyOfRow(rows[e.row]) {
      var i :| 0 <= i < |s| && s[i].key == e.key;
      ToMapAt(s, i);
      assert s[i] == e;
    }
  }

  predicate Coherent(rows: seq<Row>, s: seq<Entry>) {
    forall i :: 0 <= i < |s| ==> s[i].row < |rows| && s[i].key == KeyOfRow(rows[s[i].row])
  }

  lemma EntriesCoherent(rows: seq<Row>, s: seq<Entry>)
    requires Ascending(s) && ToMap(s) == ToMap(PkEntries(rows))
    ensures Coherent(rows, s)
  {
    hide Less, ToMap, PkEntries;
    forall i | 0 <= i < |s| ensures s[i].row < |rows| && s[i].key == KeyOfRow(rows[s[i].row]) {
      EntryMember(rows, s, s[i]);
    }
  }

  // The entry is reported and its row is live.
  predicate Shown(stored: seq<Stored>, now: int, op: CmpOp, key: Key, e: Entry) {
    Satisfies(op, e.key, key) && e.row < |stored| && Live(stored[e.row], now)
  }

  // An index query yields the rows of the entries shown, in ascending key order.
  lemma {:induction false} AnswerRows(stored: seq<Stored>, now: int, s: seq<Entry>, op: CmpOp, key: Key)
    requires Ascending(s) && Coherent(AllRows(stored), s)
    ensures var a := Gather(stored, now, Select(s, op, key));
            Rising(a) && forall x :: x in a <==>
              exists e :: e in s && Shown(stored, now, op, key, e) && x == stored[e.row].row
  {
    hide Less, Satisfies, Live, Gather, Select, Ascending, Rising;
    if s == [] {
      NothingGathered(stored, now, op, key);
    } else {
      var n := |s| - 1;
      var init, last := s[..n], s[n];
      assert s == init + [last];
      AscendingInit(s);
      AnswerRows(stored, now, init, op, key);
      SelectStep(init, last, op, key);
      GatherSnoc(stored, now, Select(init, op, key), last.row);
      var before := Gather(stored, now, Select(init, op, key));
      assert before + [] == before && Select(init, op, key) + [] == Select(init, op, key);
      forall x | x in before ensures Less(KeyOfRow(x), last.key) {
        var e :| e in init && Shown(stored, now, op, key, e) && x == stored[e.row].row;
        var i :| 0 <= i < |init| && init[i] == e;
        AscendingLast(s, i);
      }
      RisingSnoc(before, stored[last.row].row);
      assert forall e :: e in s <==> e in init || e == last;
    }
  }

  lemma NothingGathered(stored: seq<Stored>, now: int, op: CmpOp, key: Key)
    ensures Gather(stored, now, Select([], op, key)) == [] && Rising([])
  {
  }

  lemma AscendingInit(s: seq<Entry>)
    requires Ascending(s) && s != []
    ensures Ascending(s[..|s| - 1])
  {
  }

  lemma AscendingLast(s: seq<Entry>, i: nat)
    requires Ascending(s) && i < |s| - 1
    ensures Less(s[i].key, s[|s| - 1].key)
  {
  }

  lemma RisingSnoc(rows: seq<Row>, x: Row)
    requires Rising(rows) && forall y :: y in rows ==> Less(KeyOfRow(y), KeyOfRow(x))
    ensures Rising(rows + [x])
  {
    hide Less;
    forall i | 0 <= i < |rows| ensures Less(KeyOfRow(rows[i]), KeyOfRow(x)) { assert rows[i] in rows; }
  }

  lemma GatherSnoc(stored: seq<Stored>, now: int, ids: seq<nat>, id: nat)
    requires id < |stored|
    ensures Gather(stored, now, ids + [id]) ==
            Gather(stored, now, ids) + if Live(stored[id], now) then [stored[id].row] else []
  {
    assert (ids + [id])[..|ids|] == ids;
  }

  // The last live row of its key.
  predicate LastLive(stored: seq<Stored>, now: int, i: nat) {
    && i < |stored| && Live(stored[i], now)
    && forall j :: i < j < |stored| && Live(stored[j], now) ==> KeyOfRow(stored[j].row) != KeyOfRow(stored[i].row)
  }

  lemma {:induction false} LiveOrderMember(stored: seq<Stored>, now: int, x: Row)
    ensures x in RowOrder(LiveRows(stored, now)) <==> exists i: nat :: LastLive(stored, now, i) && x == stored[i].row
  {
    hide Live, PutRow, Less;
    if stored != [] {
      var n := |stored| - 1;
      var init, last := stored[..n], stored[n];
      assert stored == init + [last];
      LiveOrderMember(init, now, x);
      LiveSnoc(init, last, now);
      var rows := LiveRows(init, now);
      assert rows + [] == rows;
      RowOrderRising(rows);
      RowOrderSnoc(rows, last.row);
      PutRowMember(RowOrder(rows), last.row, x);
      forall i | 0 <= i < n
        ensures LastLive(stored, now, i) <==>
                LastLive(init, now, i) && !(Live(last, now) && KeyOfRow(last.row) == KeyOfRow(stored[i].row))
      {
        assert forall j :: i < j < n ==> stored[j] == init[j];
      }
      assert LastLive(stored, now, n) <==> Live(last, now);
    }
  }

  lemma LiveHasKey(stored: seq<Stored>, now: int, i: nat)
    requires i < |stored| && Live(stored[i], now)
    ensures stored[i].row in LiveRows(stored, now)
  {
    hide Live;
    var n := |stored| - 1;
    if i < n { LiveHasKey(stored[..n], now, i); }
  }

  // Whenever a row of a selected key is live, so is the last row of that key.
  predicate LastsLive(stored: seq<Stored>, now: int, op: CmpOp, key: Key) {
    forall i, j :: 0 <= i < |stored| && Live(stored[i], now) && Satisfies(op, KeyOfRow(stored[i].row), key)
                   && 0 <= j < |stored| && LastOf(AllRows(stored), j)
                     && KeyOfRow(stored[j].row) == KeyOfRow(stored[i].row) ==>
                     Live(stored[j], now)
  }

  // Any index that maps each key to its last row answers a key condition with the live rows' latest per key, in key
  // order, if and only if no selected key has a live row but a dead last row.
  lemma IndexAnswerIff(stored: seq<Stored>, now: int, s: seq<Entry>, op: CmpOp, key: Key)
    requires Ascending(s) && ToMap(s) == ToMap(PkEntries(AllRows(stored)))
    ensures Gather(stored, now, Select(s, op, key)) == Filter(RowOrder(LiveRows(stored, now)), OnKey(op, key))
            <==> LastsLive(stored, now, op, key)
  {
    hide Less, Satisfies, Live, Gather, Select, Ascending, RowOrder, LiveRows, Filter, ToMap, PkEntries, Rising;
    var rows, keep := AllRows(stored), OnKey(op, key);
    var a, order := Gather(stored, now, Select(s, op, key)), RowOrder(LiveRows(stored, now));
    EntriesCoherent(rows, s);
    AnswerRows(stored, now, s, op, key);
    RowOrderRising(LiveRows(stored, now));
    FilterRising(order, keep);
    if LastsLive(stored, now, op, key) {
      forall x ensures x in a <==> x in Filter(order, keep) {
        FilterFrom(order, keep, x);
        LiveOrderMember(stored, now, x);
        AnswerForward(stored, now, s, op, key, x);
        AnswerBackward(stored, now, s, op, key, x);
      }
      RisingUnique(a, Filter(order, keep));
    }
    if a == Filter(order, keep) {
      forall i, j | 0 <= i < |stored| && Live(stored[i], now) && Satisfies(op, KeyOfRow(stored[i].row), key)
                    && 0 <= j < |stored| && LastOf(rows, j) && KeyOfRow(stored[j].row) == KeyOfRow(stored[i].row)
        ensures Live(stored[j], now)
      {
        LastShown(stored, now, s, op, key, i, j);
      }
    }
  }

  // What the index shows is the last live row of its key.
  lemma AnswerForward(stored: seq<Stored>, now: int, s: seq<Entry>, op: CmpOp, key: Key, x: Row)
    requires Ascending(s) && ToMap(s) == ToMap(PkEntries(AllRows(stored)))
    ensures (exists e :: e in s && Shown(stored, now, op, key, e) && x == stored[e.row].row) ==>
              (exists i: nat :: LastLive(stored, now, i) && x == stored[i].row) && OnKey(op, key)(x)
  {
    hide Less, Satisfies, Live, Ascending, ToMap, PkEntries;
    if exists e :: e in s && Shown(stored, now, op, key, e) && x == stored[e.row].row {
      var e :| e in s && Shown(stored, now, op, key, e) && x == stored[e.row].row;
      EntryMember(AllRows(stored), s, e);
      assert LastLive(stored, now, e.row);
    }
  }

  lemma AnswerBackward(stored: seq<Stored>, now: int, s: seq<Entry>, op: CmpOp, key: Key, x: Row)
    requires Ascending(s) && ToMap(s) == ToMap(PkEntries(AllRows(stored))) && LastsLive(stored, now, op, key)
    ensures (exists i: nat :: LastLive(stored, now, i) && x == stored[i].row) && OnKey(op, key)(x) ==>
              exists e :: e in s && Shown(stored, now, op, key, e) && x == stored[e.row].row
  {
    hide Less, Satisfies, Live, Ascending, ToMap, PkEntries;
    if (exists i: nat :: LastLive(stored, now, i) && x == stored[i].row) && OnKey(op, key)(x) {
      var i: nat :| LastLive(stored, now, i) && x == stored[i].row;
      var rows := AllRows(stored);
      var j := LastExists(rows, i);
      assert Live(stored[j], now) && j == i;
      var e := Entry(KeyOfRow(x), i);
      EntryMember(rows, s, e);
      assert Shown(stored, now, op, key, e);
    }
  }

  // If the answers agree, a live row of a selected key is witnessed by the key's last row.
  lemma LastShown(stored: seq<Stored>, now: int, s: seq<Entry>, op: CmpOp, key: Key, i: nat, j: nat)
    requires Ascending(s) && ToMap(s) == ToMap(PkEntries(AllRows(stored)))
    requires Gather(stored, now, Select(s, op, key)) == Filter(RowOrder(LiveRows(stored, now)), OnKey(op, key))
    requires i < |stored| && Live(stored[i], now) && Satisfies(op, KeyOfRow(stored[i].row), key)
    requires LastOf(AllRows(stored), j) && KeyOfRow(stored[j].row) == KeyOfRow(stored[i].row)
    ensures Live(stored[j], now)
  {
    hide Less, Satisfies, Live, Gather, Select, Ascending, RowOrder, LiveRows, Filter, ToMap, PkEntries, Rising;
    var rows, k := AllRows(stored), KeyOfRow(stored[i].row);
    LiveHasKey(stored, now, i);
    RowOrderKeys(LiveRows(stored, now), k);
    var y :| y in RowOrder(LiveRows(stored, now)) && KeyOfRow(y) == k;
    FilterFrom(RowOrder(LiveRows(stored, now)), OnKey(op, key), y);
    EntriesCoherent(rows, s);
    AnswerRows(stored, now, s, op, key);
    var e :| e in s && Shown(stored, now, op, key, e) && y == stored[e.row].row;
    EntryMember(rows, s, e);
    assert e.row == j;
  }

  // ---- Expiry ----

  // Rows die in insertion order.
  predicate Aging(stored: seq<Stored>, now: int) {
    forall i, j :: 0 <= i < j < |stored| && Live(stored[i], now) ==> Live(stored[j], now)
  }

  // Rows that die in insertion order meet the condition for every query.
  lemma AgingLasts(stored: seq<Stored>, now: int, op: CmpOp, key: Key)
    requires Aging(stored, now)
    ensures LastsLive(stored, now, op, key)
  {
    hide Live, Satisfies;
  }

  lemma IndexAnswer(stored: seq<Stored>, now: int, s: seq<Entry>, op: CmpOp, key: Key)
    requires Ascending(s) && ToMap(s) == ToMap(PkEntries(AllRows(stored))) && Aging(stored, now)
    ensures Gather(stored, now, Select(s, op, key)) == Filter(RowOrder(LiveRows(stored, now)), OnKey(op, key))
  {
    hide Ascending, Gather, Select, Filter, ToMap, RowOrder, LiveRows, PkEntries, Aging, LastsLive;
    AgingLasts(stored, now, op, key);
    IndexAnswerIff(stored, now, s, op, key);
  }

  // ---- Histories ----

  // What happens to a table's rows: inserts and expiry sweeps, at the clock's readings.
  datatype Event = Add(row: Row, now: int) | Clean(now: int)

  // table.cpp insert: the expiry written, for a time to live of ttl seconds.
  function ExpiryAt(now: int, ttl: nat): int { if ttl > 0 then now + ttl else 0 }

  // table.cpp cleanup_expired
  function Swept(stored: seq<Stored>, now: int): (r: seq<Stored>)
    ensures |r| == |stored|
    ensures forall i :: 0 <= i < |r| ==> r[i] == stored[i].(valid := Live(stored[i], now))
  {
    seq(|stored|, i requires 0 <= i < |stored| => stored[i].(valid := Live(stored[i], now)))
  }

  function After(stored: seq<Stored>, ttl: nat, e: Event): seq<Stored> {
    match e
    case Add(row, now) => stored + [Stored(row, ExpiryAt(now, ttl), true)]
    case Clean(now) => Swept(stored, now)
  }

  function History(ttl: nat, events: seq<Event>): seq<Stored> {
    if events == [] then [] else After(History(ttl, events[..|events| - 1]), ttl, events[|events| - 1])
  }

  // The clock starts after time zero and never goes back.
  predicate Forward(events: seq<Event>) {
    && (forall i :: 0 <= i < |events| ==> events[i].now > 0)
    && (forall i, j :: 0 <= i < j < |events| ==> events[i].now <= events[j].now)
  }

  predicate AgeOk(s: Stored, ttl: nat, clock: int) {
    if ttl == 0 then s.expiry == 0 && s.valid else 0 < s.expiry <= clock + ttl && (!s.valid ==> clock > s.expiry)
  }

  predicate AgesOk(stored: seq<Stored>, ttl: nat, clock: int) {
    && (forall i :: 0 <= i < |stored| ==> AgeOk(stored[i], ttl, clock))
    && (forall i, j :: 0 <= i < j < |stored| ==> stored[i].expiry <= stored[j].expiry)
  }

  lemma AfterAges(stored: seq<Stored>, ttl: nat, clock: int, e: Event)
    requires AgesOk(stored, ttl, clock) && e.now >= clock && e.now > 0
    ensures AgesOk(After(stored, ttl, e), ttl, e.now)
  {
  }

  lemma {:induction false} HistoryAges(ttl: nat, events: seq<Event>)
    requires Forward(events)
    ensures AgesOk(History(ttl, events), ttl, if events == [] then 0 else events[|events| - 1].now)
  {
    hide AgesOk;
    if events == [] {
      NoAges(ttl);
    } else {
      var init := events[..|events| - 1];
      HistoryAges(ttl, init);
      AfterAges(History(ttl, init), ttl, if init == [] then 0 else init[|init| - 1].now, events[|events| - 1]);
    }
  }

  lemma NoAges(ttl: nat)
    ensures AgesOk([], ttl, 0)
  {
  }

  lemma AgesAge(stored: seq<Stored>, ttl: nat, clock: int, now: int)
    requires AgesOk(stored, ttl, clock) && now >= clock
    ensures Aging(stored, now)
  {
    forall i, j | 0 <= i < j < |stored| && Live(stored[i], now) ensures Live(stored[j], now) {
      assert AgeOk(stored[i], ttl, clock) && AgeOk(stored[j], ttl, clock);
    }
  }

  // Under a clock that never goes back, rows die in insertion order.
  lemma HistoryAging(ttl: nat, events: seq<Event>, now: int)
    requires Forward(events) && now >= if events == [] then 0 else events[|events| - 1].now
    ensures Aging(History(ttl, events), now)
  {
    hide AgesOk, Aging;
    HistoryAges(ttl, events);
    AgesAge(History(ttl, events), ttl, if events == [] then 0 else events[|events| - 1].now, now);
  }

  // A sweep cannot be seen by later readers, whatever they read.
  lemma {:induction false} SweepInvisible(stored: seq<Stored>, swept: int, now: int)
    requires now >= swept
    ensures LiveRows(Swept(stored, swept), now) == LiveRows(stored, now)
  {
    if stored != [] {
      SweepInvisible(stored[..|stored| - 1], swept, now);
      assert Swept(stored, swept)[..|stored| - 1] == Swept(stored[..|stored| - 1], swept);
    }
  }

  lemma {:induction false} SweepUnread(stored: seq<Stored>, swept: int, now: int, ids: seq<nat>)
    requires now >= swept
    ensures Gather(Swept(stored, swept), now, ids) == Gather(stored, now, ids)
  {
    if ids != [] { SweepUnread(stored, swept, now, ids[..|ids| - 1]); }
  }

  // The rows added since the start of history, without the sweeps.
  function Added(ttl: nat, events: seq<Event>): seq<Stored> {
    if events == [] then [] else
      match events[|events| - 1]
      case Add(row, now) => Added(ttl, events[..|events| - 1]) + [Stored(row, ExpiryAt(now, ttl), true)]
      case Clean(_) => Added(ttl, events[..|events| - 1])
  }

  // A scan at time now returns the rows added that have not expired by then, in insertion order, however often the
  // table was swept before.
  lemma {:induction false} ScanIsHistory(ttl: nat, events: seq<Event>, now: int)
    requires forall i :: 0 <= i < |events| ==> events[i].now <= now
    ensures LiveRows(History(ttl, events), now) == LiveRows(Added(ttl, events), now)
  {
    hide Live;
    if events != [] {
      var init, e := events[..|events| - 1], events[|events| - 1];
      ScanIsHistory(ttl, init, now);
      match e
      case Add(row, at) =>
        var x := Stored(row, ExpiryAt(at, ttl), true);
        LiveSnoc(History(ttl, init), x, now);
        LiveSnoc(Added(ttl, init), x, now);
      case Clean(at) => SweepInvisible(History(ttl, init), at, now);
    }
  }

  lemma LiveSnoc(stored: seq<Stored>, x: Stored, now: int)
    ensures LiveRows(stored + [x], now) == LiveRows(stored, now) + if Live(x, now) then [x.row] else []
  {
    assert (stored + [x])[..|stored|] == stored;
  }

  // ---- The row counter ----

  lemma CountSnoc(stored: seq<Stored>, x: Stored)
    ensures CountValid(stored + [x]) == CountValid(stored) + if x.valid then 1 else 0
  {
    assert (stored + [x])[..|stored|] == stored;
  }

  // ---- Reloading ----

  // Rows stored with one expiry time, as by a batch, or by a load that inserts the rows of a snapshot again.
  function Stamped(rows: seq<Row>, expiry: int): (r: seq<Stored>)
    ensures |r| == |rows| && forall i :: 0 <= i < |r| ==> r[i] == Stored(rows[i], expiry, true)
  {
    seq(|rows|, i requires 0 <= i < |rows| => Stored(rows[i], expiry, true))
  }

  lemma {:induction false} StampedLive(rows: seq<Row>, expiry: int, now: int)
    requires expiry <= 0 || now <= expiry
    ensures LiveRows(Stamped(rows, expiry), now) == rows && AllRows(Stamped(rows, expiry)) == rows
            && Aging(Stamped(rows, expiry), now)
  {
    if rows != [] {
      var n := |rows| - 1;
      StampedLive(rows[..n], expiry, now);
      assert Stamped(rows, expiry)[..n] == Stamped(rows[..n], expiry);
      assert rows == rows[..n] + [rows[n]];
    }
  }

  // At a fixed clock the rebuilt index, which numbers the live rows anew, answers a key condition as the old one did if
  // and only if no selected key has a live row but a dead last row.
  lemma ReloadAnswers(stored: seq<Stored>, s: seq<Entry>, s': seq<Entry>, expiry: int, now: int, op: CmpOp, key: Key)
    requires expiry <= 0 || now <= expiry
    requires Ascending(s) && ToMap(s) == ToMap(PkEntries(AllRows(stored)))
    requires Ascending(s') && ToMap(s') == ToMap(PkEntries(LiveRows(stored, now)))
    ensures Gather(Stamped(LiveRows(stored, now), expiry), now, Select(s', op, key)) ==
            Gather(stored, now, Select(s, op, key))
            <==> LastsLive(stored, now, op, key)
  {
    hide Ascending, ToMap, PkEntries, Gather, Select, LiveRows, AllRows, Aging, LastsLive, RowOrder, Filter;
    var rows := LiveRows(stored, now);
    StampedLive(rows, expiry, now);
    IndexAnswerIff(stored, now, s, op, key);
    IndexAnswer(Stamped(rows, expiry), now, s', op, key);
  }

  // When the clock has gone back between two inserts of one key, a scan can show a row that the index hides.
  lemma ClockWentBack()
    ensures var stored := [Stored([Int(1)], 100, true), Stored([Int(1)], 50, true)];
            && !Aging(stored, 60) && LiveRows(stored, 60) == [[Int(1)]]
            && Gather(stored, 60, Select(EntryOrder(PkEntries(AllRows(stored))), EQ, Num(1))) == []
  {
    var a, b := Stored([Int(1)], 100, true), Stored([Int(1)], 50, true);
    var stored := [a, b];
    assert Live(a, 60) && !Live(b, 60) && stored[0] == a && stored[1] == b;
    assert stored[..1] == [a] && [a][..0] == [];
    assert LiveRows([a], 60) == [[Int(1)]];
    var s := PkEntries(AllRows(stored));
    assert s == [Entry(Num(1), 0), Entry(Num(1), 1)];
    assert s[..1] == [Entry(Num(1), 0)] && s[..1][..0] == [];
    assert EntryOrder(s[..1]) == [Entry(Num(1), 0)];
    var e := EntryOrder(s);
    assert e == [Entry(Num(1), 1)];
    assert e[..0] == [] && Select(e, EQ, Num(1)) == [1];
    assert [1][..0] == [];
  }
}
