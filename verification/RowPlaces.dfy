/** Where the rows of a filter, a scan, the index order and a join come from: the positions they had. */
module RowPlaces {
  import opened Keys
  import opened Values
  import opened KeyOrder
  import opened TableSpec
  import opened Query

  predicate InRange(at: seq<nat>, n: nat) { forall k :: 0 <= k < |at| ==> at[k] < n }

  predicate Climbing(at: seq<nat>) { forall a, b :: 0 <= a < b < |at| ==> at[a] < at[b] }

  function RowsAt(rows: seq<Row>, at: seq<nat>): (r: seq<Row>)
    requires InRange(at, |rows|)
    ensures |r| == |at| && forall k :: 0 <= k < |at| ==> r[k] == rows[at[k]]
  {
    seq(|at|, k requires 0 <= k < |at| => rows[at[k]])
  }

  // ---- Filters ----

  // A filter keeps exactly the rows that pass, in their order.
  lemma {:induction false} FilterAt(rows: seq<Row>, keep: Row -> bool) returns (at: seq<nat>)
    ensures InRange(at, |rows|) && Filter(rows, keep) == RowsAt(rows, at) && Climbing(at)
    ensures forall i: nat :: i < |rows| ==> (i in at <==> keep(rows[i]))
  {
    hide Filter;
    if rows == [] {
      at := [];
      FilterNothing(keep);
    } else {
      var n := |rows| - 1;
      var before := FilterAt(rows[..n], keep);
      assert rows == rows[..n] + [rows[n]];
      FilterSnoc(rows[..n], rows[n], keep);
      at := before + if keep(rows[n]) then [n] else [];
      assert RowsAt(rows, at) == RowsAt(rows[..n], before) + if keep(rows[n]) then [rows[n]] else [];
      OneMorePlace(before, n, keep(rows[n]));
    }
  }

  // A new last position joins the others, or does not.
  lemma OneMorePlace(before: seq<nat>, n: nat, more: bool)
    requires InRange(before, n) && Climbing(before)
    ensures var at := before + if more then [n] else [];
            && InRange(at, n + 1) && Climbing(at) && (n in at <==> more)
            && forall i: nat :: i < n ==> (i in at <==> i in before)
  {
    assert n !in before;
  }

  // ---- Expiry ----

  // An insert whose row has not outlived its time to live, counted from the time of the insert.
  predicate Lasts(e: Event, ttl: nat, now: int) {
    e.Add? && (ttl == 0 || e.now + ttl <= 0 || now <= e.now + ttl)
  }

  predicate RowsOfAdds(rows: seq<Row>, events: seq<Event>, at: seq<nat>) {
    && InRange(at, |events|) && |rows| == |at|
    && forall k :: 0 <= k < |at| ==> events[at[k]].Add? && rows[k] == events[at[k]].row
  }

  // A scan returns the rows of exactly the inserts that last, in their order, however often the table was swept.
  lemma ScanAt(ttl: nat, events: seq<Event>, now: int) returns (at: seq<nat>)
    requires forall i :: 0 <= i < |events| ==> events[i].now <= now
    ensures RowsOfAdds(LiveRows(History(ttl, events), now), events, at) && Climbing(at)
    ensures forall i: nat :: i < |events| ==> (i in at <==> Lasts(events[i], ttl, now))
  {
    hide LiveRows, History, Lasts;
    ScanIsHistory(ttl, events, now);
    at := AddedAt(ttl, events, now);
  }

  lemma {:induction false} AddedAt(ttl: nat, events: seq<Event>, now: int) returns (at: seq<nat>)
    ensures InRange(at, |events|) && Climbing(at) && RowsOfAdds(LiveRows(Added(ttl, events), now), events, at)
    ensures forall i: nat :: i < |events| ==> (i in at <==> Lasts(events[i], ttl, now))
  {
    hide LiveRows, Added, RowsOfAdds, Climbing, InRange;
    if events == [] {
      at := [];
      NothingAdded(ttl, now);
    } else {
      var n := |events| - 1;
      var init, e := events[..n], events[n];
      var before := AddedAt(ttl, init, now);
      OneMorePlace(before, n, Lasts(e, ttl, now));
      at := if Lasts(e, ttl, now) then before + [n] else before;
      assert before + [] == before;
      LastEvent(ttl, init, e, now);
      assert init + [e] == events;
      assert LiveRows(Added(ttl, init), now) + [] == LiveRows(Added(ttl, init), now);
      AddsMore(LiveRows(Added(ttl, init), now), events, before);
      forall i: nat | i < |events| ensures i in at <==> Lasts(events[i], ttl, now) {
        if i < n { assert init[i] == events[i]; }
      }
    }
  }

  lemma NothingAdded(ttl: nat, now: int)
    ensures InRange([], 0) && Climbing([]) && RowsOfAdds(LiveRows(Added(ttl, []), now), [], [])
  {
  }

  lemma LastEvent(ttl: nat, init: seq<Event>, e: Event, now: int)
    ensures (init + [e])[..|init|] == init
    ensures Lasts(e, ttl, now) ==>
              LiveRows(Added(ttl, init + [e]), now) == LiveRows(Added(ttl, init), now) + [e.row]
    ensures !Lasts(e, ttl, now) ==>
              LiveRows(Added(ttl, init + [e]), now) == LiveRows(Added(ttl, init), now) + []
  {
    hide LiveRows;
    assert (init + [e])[..|init|] == init;
    if e.Add? { LiveSnoc(Added(ttl, init), Stored(e.row, ExpiryAt(e.now, ttl), true), now); }
  }

  lemma AddsMore(rows: seq<Row>, events: seq<Event>, at: seq<nat>)
    requires events != [] && RowsOfAdds(rows, events[..|events| - 1], at)
    ensures RowsOfAdds(rows, events, at)
    ensures var e := events[|events| - 1]; e.Add? ==> RowsOfAdds(rows + [e.row], events, at + [|events| - 1])
  {
  }

  // ---- The index order ----

  predicate LastOfKey(rows: seq<Row>, i: nat)
    requires i < |rows|
  {
    forall j :: i < j < |rows| ==> KeyOfRow(rows[j]) != KeyOfRow(rows[i])
  }

  // Which positions are left when a row is put in its place.
  predicate PutPlaces(at': seq<nat>, at: seq<nat>, rows: seq<Row>, row: Row) {
    && |rows| in at'
    && forall i: nat :: i < |rows| ==> (i in at' <==> i in at && KeyOfRow(rows[i]) != KeyOfRow(row))
  }

  // A position before others, in a table with one row more.
  lemma RowsAtCons(rows: seq<Row>, row: Row, i: nat, rest: seq<nat>)
    requires i <= |rows| && InRange(rest, |rows| + 1)
    ensures InRange([i] + rest, |rows| + 1)
    ensures RowsAt(rows + [row], [i] + rest) == [(rows + [row])[i]] + RowsAt(rows + [row], rest)
  {
  }

  lemma RowsAtMore(rows: seq<Row>, row: Row, at: seq<nat>)
    requires InRange(at, |rows|)
    ensures InRange(at, |rows| + 1) && RowsAt(rows + [row], at) == RowsAt(rows, at)
  {
  }

  lemma RowsAtTail(rows: seq<Row>, at: seq<nat>)
    requires InRange(at, |rows|) && at != []
    ensures at[0] < |rows| && RowsAt(rows, at)[0] == rows[at[0]]
    ensures InRange(at[1..], |rows|) && RowsAt(rows, at)[1..] == RowsAt(rows, at[1..])
  {
  }

  lemma {:induction false} PutAt(s: seq<Row>, at: seq<nat>, rows: seq<Row>, row: Row) returns (at': seq<nat>)
    requires Rising(s) && InRange(at, |rows|) && s == RowsAt(rows, at)
    ensures InRange(at', |rows| + 1) && PutRow(s, row) == RowsAt(rows + [row], at') && PutPlaces(at', at, rows, row)
    decreases |s|
  {
    hide Less, PutPlaces, InRange;
    var n, k := |rows|, KeyOfRow(row);
    if s == [] {
      at' := [n] + at;
      PlacesFirst(s, at, rows, row);
      RowsAtMore(rows, row, at);
      RowsAtCons(rows, row, n, at);
    } else {
      LessTotal(KeyOfRow(s[0]), k);
      RowsAtTail(rows, at);
      if Less(KeyOfRow(s[0]), k) {
        var rest := PutAt(s[1..], at[1..], rows, row);
        at' := [at[0]] + rest;
        RowsAtCons(rows, row, at[0], rest);
        PlacesLater(at, rest, rows, row);
      } else if KeyOfRow(s[0]) == k {
        at' := [n] + at[1..];
        RisingTail(s, k);
        RowsAtMore(rows, row, at[1..]);
        RowsAtCons(rows, row, n, at[1..]);
        PlacesFirst(s[1..], at[1..], rows, row);
        PlacesOver(at, at', rows, row);
      } else {
        at' := [n] + at;
        RisingAbove(s, k);
        RowsAtMore(rows, row, at);
        RowsAtCons(rows, row, n, at);
        PlacesFirst(s, at, rows, row);
      }
    }
  }

  lemma PlacesLater(at: seq<nat>, rest: seq<nat>, rows: seq<Row>, row: Row)
    requires at != [] && InRange(at, |rows|) && PutPlaces(rest, at[1..], rows, row)
    requires Less(KeyOfRow(rows[at[0]]), KeyOfRow(row))
    ensures PutPlaces([at[0]] + rest, at, rows, row)
  {
    hide Less;
    LessIrreflexive(KeyOfRow(row));
    assert forall i: nat :: i in at <==> i == at[0] || i in at[1..];
    assert forall i: nat :: i in [at[0]] + rest <==> i == at[0] || i in rest;
  }

  lemma PlacesFirst(s: seq<Row>, at: seq<nat>, rows: seq<Row>, row: Row)
    requires InRange(at, |rows|) && s == RowsAt(rows, at)
    requires forall i :: 0 <= i < |s| ==> Less(KeyOfRow(row), KeyOfRow(s[i]))
    ensures PutPlaces([|rows|] + at, at, rows, row)
  {
    hide Less;
    OthersKept(s, at, rows, KeyOfRow(row));
    assert forall i: nat :: i in [|rows|] + at <==> i == |rows| || i in at;
  }

  lemma PlacesOver(at: seq<nat>, at': seq<nat>, rows: seq<Row>, row: Row)
    requires at != [] && InRange(at, |rows|) && KeyOfRow(rows[at[0]]) == KeyOfRow(row)
    requires PutPlaces(at', at[1..], rows, row)
    ensures PutPlaces(at', at, rows, row)
  {
    assert forall i: nat :: i in at <==> i == at[0] || i in at[1..];
  }

  lemma OthersKept(s: seq<Row>, at: seq<nat>, rows: seq<Row>, k: Key)
    requires InRange(at, |rows|) && s == RowsAt(rows, at) && forall i :: 0 <= i < |s| ==> Less(k, KeyOfRow(s[i]))
    ensures forall i: nat :: i in at ==> KeyOfRow(rows[i]) != k
  {
    hide Less;
    LessIrreflexive(k);
    forall i: nat | i in at ensures KeyOfRow(rows[i]) != k {
      var j :| 0 <= j < |at| && at[j] == i;
      assert s[j] == rows[i];
    }
  }

  // The index order holds exactly the last row of each key.
  lemma {:induction false} OrderAt(rows: seq<Row>) returns (at: seq<nat>)
    ensures InRange(at, |rows|) && RowOrder(rows) == RowsAt(rows, at)
    ensures forall i: nat :: i < |rows| ==> (i in at <==> LastOfKey(rows, i))
  {
    hide PutRow, Rising;
    if rows == [] {
      at := [];
    } else {
      var n := |rows| - 1;
      var before := OrderAt(rows[..n]);
      RowOrderRising(rows[..n]);
      at := PutAt(RowOrder(rows[..n]), before, rows[..n], rows[n]);
      assert rows == rows[..n] + [rows[n]];
      forall i: nat | i < |rows| ensures i in at <==> LastOfKey(rows, i) {
        if i < n { assert LastOfKey(rows, i) <==> LastOfKey(rows[..n], i) && KeyOfRow(rows[i]) != KeyOfRow(rows[n]); }
      }
    }
  }

  // A condition on the index order finds the last rows of the keys that pass.
  lemma OrderFilterAt(rows: seq<Row>, keep: Row -> bool) returns (at: seq<nat>)
    ensures InRange(at, |rows|) && Filter(RowOrder(rows), keep) == RowsAt(rows, at)
    ensures forall i: nat :: i < |rows| ==> (i in at <==> keep(rows[i]) && LastOfKey(rows, i))
  {
    hide Filter, RowOrder, LastOfKey;
    var order := OrderAt(rows);
    var kept := FilterAt(RowOrder(rows), keep);
    at := seq(|kept|, k requires 0 <= k < |kept| => order[kept[k]]);
    assert RowsAt(RowOrder(rows), kept) == RowsAt(rows, at);
    forall i: nat | i < |rows| ensures i in at <==> keep(rows[i]) && LastOfKey(rows, i) {
      if i in at {
        var k :| 0 <= k < |at| && at[k] == i;
        assert kept[k] in kept && order[kept[k]] in order;
      }
      if keep(rows[i]) && LastOfKey(rows, i) {
        var m :| 0 <= m < |order| && order[m] == i;
        assert m in kept;
        var k :| 0 <= k < |kept| && kept[k] == m;
        assert at[k] == i;
      }
    }
  }

  // ---- Joins ----

  datatype Pair = Pair(left: nat, right: nat)

  predicate Earlier(p: Pair, q: Pair) { p.left < q.left || (p.left == q.left && p.right < q.right) }

  predicate PairsClimb(ps: seq<Pair>) { forall a, b :: 0 <= a < b < |ps| ==> Earlier(ps[a], ps[b]) }

  predicate PairsIn(ps: seq<Pair>, m: nat, n: nat) { forall k :: 0 <= k < |ps| ==> ps[k].left < m && ps[k].right < n }

  predicate OutAt(ms: seq<Row>, l: Row, right: seq<Row>, at: seq<nat>, out: (Row, Row) -> Row) {
    InRange(at, |right|) && |ms| == |at| && forall k :: 0 <= k < |at| ==> ms[k] == out(l, right[at[k]])
  }

  lemma OutMore(ms: seq<Row>, l: Row, right: seq<Row>, at: seq<nat>, out: (Row, Row) -> Row)
    requires right != [] && OutAt(ms, l, right[..|right| - 1], at, out)
    ensures OutAt(ms, l, right, at, out)
    ensures OutAt(ms + [out(l, right[|right| - 1])], l, right, at + [|right| - 1], out)
  {
  }

  lemma {:induction false} MatchesAt(l: Row, right: seq<Row>, on: (Row, Row) -> bool, out: (Row, Row) -> Row)
    returns (at: seq<nat>)
    ensures InRange(at, |right|) && Climbing(at) && OutAt(Matches(l, right, on, out), l, right, at, out)
    ensures forall j: nat :: j < |right| ==> (j in at <==> on(l, right[j]))
  {
    hide Climbing, OutAt, InRange;
    if right == [] {
      at := [];
      NoMatches(l, on, out);
    } else {
      var n := |right| - 1;
      var before := MatchesAt(l, right[..n], on, out);
      at := if on(l, right[n]) then before + [n] else before;
      var ms := Matches(l, right[..n], on, out);
      OutMore(ms, l, right, before, out);
      OneMorePlace(before, n, on(l, right[n]));
      assert before + [] == before && ms + [] == ms;
      forall j: nat | j < |right| ensures j in at <==> on(l, right[j]) {
        if j < n { assert right[..n][j] == right[j]; }
      }
    }
  }

  lemma NoMatches(l: Row, on: (Row, Row) -> bool, out: (Row, Row) -> Row)
    ensures InRange([], 0) && Climbing([]) && OutAt(Matches(l, [], on, out), l, [], [], out)
  {
  }

  // The pairs of positions whose rows are joined, in the order of the answer.
  ghost predicate Joins(ps: seq<Pair>, left: seq<Row>, right: seq<Row>, on: (Row, Row) -> bool) {
    && PairsIn(ps, |left|, |right|) && PairsClimb(ps)
    && forall i: nat, j: nat :: i < |left| && j < |right| ==> (Pair(i, j) in ps <==> on(left[i], right[j]))
  }

  lemma {:induction false} ProductAt(left: seq<Row>, right: seq<Row>, on: (Row, Row) -> bool, out: (Row, Row) -> Row)
    returns (ps: seq<Pair>)
    ensures Joins(ps, left, right, on) && PairsIn(ps, |left|, |right|) && |Product(left, right, on, out)| == |ps|
    ensures forall k :: 0 <= k < |ps| ==> Product(left, right, on, out)[k] == out(left[ps[k].left], right[ps[k].right])
  {
    hide Matches, Joins;
    if left == [] {
      ps := [];
      NoPairs(right, on);
    } else {
      var n := |left| - 1;
      var before := ProductAt(left[..n], right, on, out);
      var at := MatchesAt(left[n], right, on, out);
      ps := before + Beside(n, at);
      JoinsMore(before, at, left, right, on);
      assert Product(left, right, on, out) == Product(left[..n], right, on, out) + Matches(left[n], right, on, out);
    }
  }

  function Beside(n: nat, at: seq<nat>): (ps: seq<Pair>)
    ensures |ps| == |at| && forall k :: 0 <= k < |at| ==> ps[k] == Pair(n, at[k])
  {
    seq(|at|, k requires 0 <= k < |at| => Pair(n, at[k]))
  }

  lemma NoPairs(right: seq<Row>, on: (Row, Row) -> bool)
    ensures Joins([], [], right, on)
  {
  }

  lemma JoinsMore(before: seq<Pair>, at: seq<nat>, left: seq<Row>, right: seq<Row>,
                  on: (Row, Row) -> bool)
    requires left != [] && Joins(before, left[..|left| - 1], right, on) && InRange(at, |right|) && Climbing(at)
    requires forall j: nat :: j < |right| ==> (j in at <==> on(left[|left| - 1], right[j]))
    ensures Joins(before + Beside(|left| - 1, at), left, right, on)
    ensures PairsIn(before + Beside(|left| - 1, at), |left|, |right|)
  {
    var n := |left| - 1;
    var ps := before + Beside(n, at);
    forall i: nat, j: nat | i < |left| && j < |right| ensures Pair(i, j) in ps <==> on(left[i], right[j]) {
      LastPairs(before, at, n, j);
      if i < n { assert Pair(i, j) in ps <==> Pair(i, j) in before; }
    }
  }

  lemma LastPairs(before: seq<Pair>, at: seq<nat>, n: nat, j: nat)
    requires forall k :: 0 <= k < |before| ==> before[k].left < n
    ensures var ps := before + Beside(n, at);
            (Pair(n, j) in ps <==> j in at) && forall i: nat :: i < n ==> (Pair(i, j) in ps <==> Pair(i, j) in before)
  {
    if j in at {
      var k :| 0 <= k < |at| && at[k] == j;
      assert (before + Beside(n, at))[|before| + k] == Pair(n, j);
    }
  }
}
