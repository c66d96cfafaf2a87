/** What the comparison operators mean: of integers, of real numbers, and of texts. */
module Comparisons {
  import opened Keys
  import opened Values
  import opened Doubles
  import opened BPTreeContents
  import opened BPTreeScan

  predicate IntHolds(op: CmpOp, x: int, y: int) {
    match op
    case EQ => x == y
    case NE => x != y
    case LT => x < y
    case GT => x > y
    case LE => x <= y
    case GE => x >= y
  }

  predicate RealHolds(op: CmpOp, x: real, y: real) {
    match op
    case EQ => x == y
    case NE => x != y
    case LT => x < y
    case GT => x > y
    case LE => x <= y
    case GE => x >= y
  }

  // The texts agree up to i, and there x has ended first or has the smaller character.
  predicate DifferAt(x: string, y: string, i: nat) {
    && i <= |x| && i < |y| && x[..i] == y[..i]
    && (i == |x| || x[i] < y[i])
  }

  // The order of a dictionary.
  predicate Precedes(x: string, y: string) { exists i: nat | i < |y| :: DifferAt(x, y, i) }

  ghost predicate TextHolds(op: CmpOp, x: string, y: string) {
    match op
    case EQ => x == y
    case NE => x != y
    case LT => Precedes(x, y)
    case GT => Precedes(y, x)
    case LE => x == y || Precedes(x, y)
    case GE => x == y || Precedes(y, x)
  }

  // Values of one type compare as what they stand for. Values of different types are not equal, and do not compare
  // otherwise.
  ghost predicate Holds(op: CmpOp, a: Value, b: Value) {
    match (a, b)
    case (Int(x), Int(y)) => IntHolds(op, x, y)
    case (Datetime(x), Datetime(y)) => IntHolds(op, x, y)
    case (Decimal(x), Decimal(y)) => RealHolds(op, RealOf(x), RealOf(y))
    case (Varchar(x), Varchar(y)) => TextHolds(op, x, y)
    case _ => op == NE
  }

  // ---- Texts ----

  lemma {:induction false} StrLessFinds(x: string, y: string) returns (i: nat)
    requires StrLess(x, y)
    ensures DifferAt(x, y, i)
  {
    if x == "" || x[0] != y[0] {
      i := 0;
    } else {
      i := StrLessFinds(x[1..], y[1..]);
      assert x[..i + 1] == [x[0]] + x[1..][..i] && y[..i + 1] == [y[0]] + y[1..][..i];
      i := i + 1;
    }
  }

  lemma {:induction false} FoundIsStrLess(x: string, y: string, i: nat)
    requires DifferAt(x, y, i)
    ensures StrLess(x, y)
  {
    if i > 0 {
      assert x[0] == x[..i][0] && y[0] == y[..i][0];
      assert x[1..][..i - 1] == x[..i][1..] && y[1..][..i - 1] == y[..i][1..];
      FoundIsStrLess(x[1..], y[1..], i - 1);
    }
  }

  lemma StrLessIff(x: string, y: string)
    ensures StrLess(x, y) <==> Precedes(x, y)
  {
    hide StrLess, DifferAt;
    if StrLess(x, y) {
      var i := StrLessFinds(x, y);
      assert i < |y| by { Within(x, y, i); }
    }
    if Precedes(x, y) {
      var i: nat :| i < |y| && DifferAt(x, y, i);
      FoundIsStrLess(x, y, i);
    }
  }

  lemma Within(x: string, y: string, i: nat)
    requires DifferAt(x, y, i)
    ensures i < |y|
  {
  }

  lemma TextSatisfies(op: CmpOp, x: string, y: string)
    ensures Satisfies(op, Str(x), Str(y)) <==> TextHolds(op, x, y)
  {
    hide StrLess, Precedes;
    StrLessIff(x, y);
    StrLessIff(y, x);
    StrLessTotal(x, y);
    StrLessIrreflexive(x);
    if StrLess(x, y) && StrLess(y, x) { StrLessTransitive(x, y, x); }
  }

  // ---- Values ----

  lemma RealSatisfies(op: CmpOp, x: nat, y: nat)
    ensures Satisfies(op, Num(Rank(x)), Num(Rank(y))) <==> RealHolds(op, RealOf(x), RealOf(y))
  {
    hide Rank, RealOf;
    RankIsReal(x, y);
    RankIsReal(y, x);
  }

  // Values that can be compared: of one type, or for equality only.
  predicate Comparable(op: CmpOp, a: DataType, b: DataType) { a == b || op == EQ || op == NE }

  // All six operators on values mean what they say.
  lemma CompareHolds(op: CmpOp, a: Value, b: Value)
    requires Comparable(op, TypeOf(a), TypeOf(b))
    ensures Compare(op, a, b) <==> Holds(op, a, b)
  {
    hide Satisfies, RealOf, TextHolds, RealHolds, Rank;
    if TypeOf(a) == TypeOf(b) {
      CompareIsSatisfies(op, a, b);
      match a
      case Int(x) => NumSatisfies(op, x, b.i);
      case Datetime(x) => NumSatisfies(op, x, b.t);
      case Decimal(x) => RealSatisfies(op, x, b.bits);
      case Varchar(x) => TextSatisfies(op, x, b.s);
    }
  }

  lemma NumSatisfies(op: CmpOp, x: int, y: int)
    ensures Satisfies(op, Num(x), Num(y)) <==> IntHolds(op, x, y)
  {
  }

  // ---- Range scans ----

  // Keys of one kind compare as integers or as texts.
  ghost predicate KeyHolds(op: CmpOp, a: Key, b: Key) {
    match (a, b)
    case (Num(x), Num(y)) => IntHolds(op, x, y)
    case (Str(x), Str(y)) => TextHolds(op, x, y)
    case _ => false
  }

  predicate OneKind(s: seq<Entry>, key: Key) { forall i :: 0 <= i < |s| ==> s[i].key.Num? == key.Num? }

  lemma KeySatisfies(op: CmpOp, a: Key, b: Key)
    requires a.Num? == b.Num?
    ensures Satisfies(op, a, b) <==> KeyHolds(op, a, b)
  {
    hide Satisfies, TextHolds;
    match a
    case Num(x) => NumSatisfies(op, x, b.n);
    case Str(x) => TextSatisfies(op, x, b.s);
  }

  function RowsOf(s: seq<Entry>): (r: seq<nat>)
    ensures |r| == |s| && forall i :: 0 <= i < |r| ==> r[i] == s[i].row
  {
    seq(|s|, i requires 0 <= i < |s| => s[i].row)
  }

  // The entries a scan reports are those whose key satisfies the operator, as a number or as a text.
  ghost predicate Picks(picked: seq<Entry>, s: seq<Entry>, op: CmpOp, key: Key) {
    forall e :: e in picked <==> e in s && KeyHolds(op, e.key, key)
  }

  // By rising number, or in the order of a dictionary.
  ghost predicate KeysRise(s: seq<Entry>) {
    forall i, j :: 0 <= i < j < |s| ==> KeyHolds(LT, s[i].key, s[j].key)
  }

  // On keys of one kind a range scan reports the rows of exactly the entries that the operator picks, by rising key.
  lemma {:induction false} ScanMeans(s: seq<Entry>, op: CmpOp, key: Key) returns (picked: seq<Entry>)
    requires Ascending(s) && OneKind(s, key)
    ensures Select(s, op, key) == RowsOf(picked) && Picks(picked, s, op, key) && KeysRise(picked)
  {
    hide Less, Satisfies, KeyHolds, Picks, KeysRise;
    if s == [] {
      picked := [];
      NothingPicked(op, key);
    } else {
      var n := |s| - 1;
      var before := ScanMeans(s[..n], op, key);
      KeySatisfies(op, s[n].key, key);
      picked := before + if Satisfies(op, s[n].key, key) then [s[n]] else [];
      assert s == s[..n] + [s[n]];
      PicksMore(before, s[..n], s[n], op, key);
      LastGreatest(s, before, op, key);
      assert before + [] == before;
    }
  }

  // What range_lt, range_gt and the others report, for any callback: on INT, DATETIME and DECIMAL keys the rows of the
  // entries whose number satisfies the operator, by rising number, up to where the callback stops.
  lemma ReportMeans(s: seq<Entry>, op: CmpOp, n: int, visited: seq<nat>, more: seq<nat> -> bool)
    returns (picked: seq<Entry>)
    requires Ascending(s) && OneKind(s, Num(n)) && IsVisit(visited, Select(s, op, Num(n)), more)
    ensures forall e :: e in picked <==> e in s && e.key.Num? && IntHolds(op, e.key.n, n)
    ensures forall i, j :: 0 <= i < j < |picked| ==>
              picked[i].key.Num? && picked[j].key.Num? && picked[i].key.n < picked[j].key.n
    ensures visited <= RowsOf(picked)
    ensures visited == RowsOf(picked) || (visited != [] && !more(visited))
  {
    hide Less, Select, Ascending;
    picked := ScanMeans(s, op, Num(n));
    forall e ensures e in picked <==> e in s && e.key.Num? && IntHolds(op, e.key.n, n) {
      assert e in picked <==> e in s && KeyHolds(op, e.key, Num(n));
    }
    forall i, j | 0 <= i < j < |picked|
      ensures picked[i].key.Num? && picked[j].key.Num? && picked[i].key.n < picked[j].key.n
    {
      assert KeyHolds(LT, picked[i].key, picked[j].key) && picked[i] in picked && picked[j] in picked;
    }
  }

  lemma NothingPicked(op: CmpOp, key: Key)
    ensures Picks([], [], op, key) && KeysRise([])
  {
  }

  lemma PicksMore(picked: seq<Entry>, s: seq<Entry>, e: Entry, op: CmpOp, key: Key)
    requires Picks(picked, s, op, key)
    ensures Picks(picked + if KeyHolds(op, e.key, key) then [e] else [], s + [e], op, key)
  {
    hide KeyHolds;
  }

  lemma LastGreatest(s: seq<Entry>, picked: seq<Entry>, op: CmpOp, key: Key)
    requires s != [] && Ascending(s) && OneKind(s, key) && Picks(picked, s[..|s| - 1], op, key) && KeysRise(picked)
    ensures KeysRise(picked + [s[|s| - 1]])
  {
    hide Less, Satisfies, KeyHolds;
    var n := |s| - 1;
    forall i | 0 <= i < |picked| ensures KeyHolds(LT, picked[i].key, s[n].key) {
      assert picked[i] in picked;
      var k :| 0 <= k < n && s[..n][k] == picked[i];
      LessSatisfies(s[k].key, s[n].key);
      KeySatisfies(LT, s[k].key, s[n].key);
    }
  }

  lemma LessSatisfies(a: Key, b: Key)
    ensures Satisfies(LT, a, b) <==> Less(a, b)
  {
  }
}
