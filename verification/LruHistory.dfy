/** The cache over whole runs: who is in it, in which order, with which value. */
module LruHistory {
  import opened Values
  import opened LruCache

  // The cache's operations, with keys already normalized.
  datatype Op<V> = Get(key: string) | Put(key: string, value: V) | Drop(table: string)

  function After<V>(l: seq<Item<V>>, capacity: nat, op: Op<V>): seq<Item<V>> {
    match op
    case Get(key) => Touch(l, key)
    case Put(key, value) => Place(l, capacity, key, value)
    case Drop(table) => Purge(l, table)
  }

  function Run<V>(capacity: nat, ops: seq<Op<V>>): seq<Item<V>> {
    if ops == [] then [] else After(Run(capacity, ops[..|ops| - 1]), capacity, ops[|ops| - 1])
  }

  predicate Uses<V>(op: Op<V>, key: string) { !op.Drop? && op.key == key }

  // When a key was last looked up or stored; 0 for never.
  function LastUse<V>(ops: seq<Op<V>>, key: string): (n: nat)
    ensures n <= |ops|
  {
    if ops == [] then 0 else if Uses(ops[|ops| - 1], key) then |ops| else LastUse(ops[..|ops| - 1], key)
  }

  // The value a key was last given, unless its table was invalidated since.
  function Current<V>(ops: seq<Op<V>>, key: string): Option<V> {
    if ops == [] then None else
      var rest := ops[..|ops| - 1];
      match ops[|ops| - 1]
      case Get(_) => Current(rest, key)
      case Put(k, v) => if k == key then Some(v) else Current(rest, key)
      case Drop(t) => if TableOf(key) == Some(t) then None else Current(rest, key)
  }

  // Most recently used first, without repetition.
  predicate ByRecency<V>(l: seq<Item<V>>, ops: seq<Op<V>>) {
    forall i, j :: 0 <= i < j < |l| ==> LastUse(ops, l[i].key) > LastUse(ops, l[j].key)
  }

  ghost predicate UpToDate<V(!new)>(l: seq<Item<V>>, ops: seq<Op<V>>) {
    forall x :: x in l ==> Current(ops, x.key) == Some(x.value)
  }

  lemma RecencyDistinct<V>(l: seq<Item<V>>, ops: seq<Op<V>>)
    requires ByRecency(l, ops)
    ensures Distinct(l)
  {
  }

  // An operation that does not use the keys in the list keeps their order.
  lemma OthersKeep<V>(l: seq<Item<V>>, ops: seq<Op<V>>, op: Op<V>)
    requires ByRecency(l, ops) && forall x :: x in l ==> !Uses(op, x.key)
    ensures ByRecency(l, ops + [op])
  {
    assert (ops + [op])[..|ops|] == ops;
    forall i | 0 <= i < |l| ensures LastUse(ops + [op], l[i].key) == LastUse(ops, l[i].key) { assert l[i] in l; }
  }

  // A key that an operation uses comes first.
  lemma UsedFirst<V>(x: Item<V>, rest: seq<Item<V>>, ops: seq<Op<V>>, op: Op<V>)
    requires ByRecency(rest, ops) && Uses(op, x.key) && forall y :: y in rest ==> y.key != x.key
    ensures ByRecency([x] + rest, ops + [op])
  {
    hide LastUse;
    OthersKeep(rest, ops, op);
    LastUseNow(ops, op, x.key);
    forall j | 0 <= j < |rest| ensures LastUse(ops + [op], rest[j].key) <= |ops| {
      assert rest[j] in rest;
      LastUseBefore(ops, op, rest[j].key);
    }
  }

  lemma LastUseNow<V>(ops: seq<Op<V>>, op: Op<V>, key: string)
    requires Uses(op, key)
    ensures LastUse(ops + [op], key) == |ops| + 1
  {
  }

  lemma LastUseBefore<V>(ops: seq<Op<V>>, op: Op<V>, key: string)
    requires !Uses(op, key)
    ensures LastUse(ops + [op], key) == LastUse(ops, key)
  {
    assert (ops + [op])[..|ops|] == ops;
  }

  lemma {:induction false} WithoutSorted<V>(l: seq<Item<V>>, key: string, ops: seq<Op<V>>)
    requires ByRecency(l, ops)
    ensures ByRecency(Without(l, key), ops)
    ensures forall x :: x in Without(l, key) ==> x in l && x.key != key
  {
    hide LastUse;
    if l != [] {
      var rest := l[1..];
      WithoutSorted(rest, key, ops);
      if l[0].key != key {
        var kept := Without(rest, key);
        forall j | 0 <= j < |kept| ensures LastUse(ops, l[0].key) > LastUse(ops, kept[j].key) {
          assert kept[j] in kept;
          var i :| 0 <= i < |rest| && rest[i] == kept[j];
        }
      }
    }
  }

  lemma WithoutSize<V>(l: seq<Item<V>>, key: string)
    requires Distinct(l) && Has(l, key)
    ensures |Without(l, key)| == |l| - 1
  {
    hide Without;
    var i :| 0 <= i < |l| && l[i].key == key;
    WithoutAt(l, i);
  }

  lemma {:induction false} PurgeSorted<V>(l: seq<Item<V>>, table: string, ops: seq<Op<V>>)
    requires ByRecency(l, ops)
    ensures ByRecency(Purge(l, table), ops) && |Purge(l, table)| <= |l|
    ensures forall x :: x in Purge(l, table) ==> x in l && TableOf(x.key) != Some(table)
  {
    hide LastUse, TableOf;
    if l != [] {
      var rest := l[1..];
      PurgeSorted(rest, table, ops);
      if TableOf(l[0].key) != Some(table) {
        var kept := Purge(rest, table);
        forall j | 0 <= j < |kept| ensures LastUse(ops, l[0].key) > LastUse(ops, kept[j].key) {
          assert kept[j] in kept;
          var i :| 0 <= i < |rest| && rest[i] == kept[j];
        }
      }
    }
  }

  // What every operation keeps.
  ghost predicate Sound<V(!new)>(l: seq<Item<V>>, capacity: nat, ops: seq<Op<V>>) {
    |l| <= capacity && ByRecency(l, ops) && UpToDate(l, ops)
  }

  lemma CurrentSnoc<V>(ops: seq<Op<V>>, op: Op<V>, key: string)
    ensures Current(ops + [op], key) == match op
                                        case Get(_) => Current(ops, key)
                                        case Put(k, v) => if k == key then Some(v) else Current(ops, key)
                                        case Drop(t) => if TableOf(key) == Some(t) then None else Current(ops, key)
  {
    hide TableOf;
    assert (ops + [op])[..|ops|] == ops;
  }

  lemma GetKeeps<V(!new)>(l: seq<Item<V>>, capacity: nat, ops: seq<Op<V>>, key: string)
    requires Sound(l, capacity, ops)
    ensures Sound(Touch(l, key), capacity, ops + [Get(key)])
  {
    hide LastUse, Current, Without, Lookup;
    var op, r := Op<V>.Get(key), Touch(l, key);
    if Has(l, key) {
      RecencyDistinct(l, ops);
      LookupMember(l, key);
      WithoutSorted(l, key, ops);
      WithoutSize(l, key);
      UsedFirst(Item(key, Lookup(l, key)), Without(l, key), ops, op);
    } else {
      forall x | x in l ensures !Uses(op, x.key) { var i :| 0 <= i < |l| && l[i] == x; }
      OthersKeep(l, ops, op);
    }
    forall x | x in r ensures Current(ops + [op], x.key) == Some(x.value) {
      CurrentSnoc(ops, op, x.key); assert x in l;
    }
  }

  lemma PutKeeps<V(!new)>(l: seq<Item<V>>, capacity: nat, ops: seq<Op<V>>, key: string, value: V)
    requires Sound(l, capacity, ops) && capacity >= 1
    ensures Sound(Place(l, capacity, key, value), capacity, ops + [Put(key, value)])
  {
    hide LastUse, Current, Without;
    var op, r := Put(key, value), Place(l, capacity, key, value);
    var rest := if Has(l, key) then Without(l, key) else if |l| >= capacity && l != [] then l[..|l| - 1] else l;
    assert r == [Item(key, value)] + rest;
    if Has(l, key) {
      RecencyDistinct(l, ops);
      WithoutSize(l, key);
      WithoutSorted(l, key, ops);
    } else {
      forall x | x in rest ensures x.key != key { var i :| 0 <= i < |l| && l[i] == x; }
    }
    UsedFirst(Item(key, value), rest, ops, op);
    forall x | x in r ensures Current(ops + [op], x.key) == Some(x.value) {
      CurrentSnoc(ops, op, x.key);
      assert x == Item(key, value) || (x in l && x.key != key);
    }
  }

  lemma DropKeeps<V(!new)>(l: seq<Item<V>>, capacity: nat, ops: seq<Op<V>>, table: string)
    requires Sound(l, capacity, ops)
    ensures Sound(Purge(l, table), capacity, ops + [Drop(table)])
  {
    hide LastUse, Current, Purge, TableOf;
    var op, r := Op<V>.Drop(table), Purge(l, table);
    PurgeSorted(l, table, ops);
    OthersKeep(r, ops, op);
    forall x | x in r ensures Current(ops + [op], x.key) == Some(x.value) { CurrentSnoc(ops, op, x.key); }
  }

  // After any run: at most `capacity` entries, no key twice, most recently used first, every value the one last stored
  // under its key with no invalidation of its table since.
  lemma {:induction false} RunSound<V(!new)>(capacity: nat, ops: seq<Op<V>>)
    requires capacity >= 1
    ensures Sound(Run(capacity, ops), capacity, ops) && Distinct(Run(capacity, ops))
  {
    hide LastUse, Current;
    if ops != [] {
      var before, op := ops[..|ops| - 1], ops[|ops| - 1];
      assert ops == before + [op];
      RunSound(capacity, before);
      match op {
        case Get(key) => GetKeeps(Run(capacity, before), capacity, before, key);
        case Put(key, value) => PutKeeps(Run(capacity, before), capacity, before, key, value);
        case Drop(table) => DropKeeps(Run(capacity, before), capacity, before, table);
      }
    }
    RecencyDistinct(Run(capacity, ops), ops);
  }

  // What a put pushes out is the last entry of a full list.
  lemma LeavesLast<V>(l: seq<Item<V>>, capacity: nat, key: string, value: V, x: Item<V>)
    requires x.key != key && x in l && x !in Place(l, capacity, key, value) && |l| <= capacity
    ensures |l| == capacity && x == l[|l| - 1]
  {
    hide Without;
    WithoutMembers(l, key, x);
    var rest, n := Place(l, capacity, key, value)[1..], |l| - 1;
    assert !Has(l, key);
    assert |l| >= capacity && rest == l[..n];
    var i :| 0 <= i < |l| && l[i] == x;
    assert forall j :: 0 <= j < n ==> l[j] in rest;
  }

  // A key leaves a full cache only when it is the one whose last use lies furthest back.
  lemma EvictsLeastRecent<V(!new)>(capacity: nat, ops: seq<Op<V>>, key: string, value: V, x: Item<V>)
    requires capacity >= 1 && x.key != key
    requires x in Run(capacity, ops) && x !in Run(capacity, ops + [Put(key, value)])
    ensures |Run(capacity, ops)| == capacity
    ensures forall y :: y in Run(capacity, ops) && y != x ==> LastUse(ops, y.key) > LastUse(ops, x.key)
  {
    hide LastUse, Current, Place;
    RunSound(capacity, ops);
    assert (ops + [Put(key, value)])[..|ops|] == ops;
    var l := Run(capacity, ops);
    LeavesLast(l, capacity, key, value, x);
    forall y | y in l && y != x ensures LastUse(ops, y.key) > LastUse(ops, x.key) {
      var j :| 0 <= j < |l| && l[j] == y;
    }
  }
}
