/** What a B+ tree denotes: the entries of its leaves in chain order, and the map they form. */
module BPTreeContents {
  import opened Keys
  import opened BPTreePool

  datatype Entry = Entry(key: Key, row: nat)

  function Entries(node: Node): seq<Entry>
    requires |node.slots| >= |node.keys|
  {
    seq(|node.keys|, i requires 0 <= i < |node.keys| => Entry(node.keys[i], node.slots[i]))
  }

  // Leaves named by a chain exist and carry one row id per key.
  predicate Readable(pool: seq<Node>, chain: seq<nat>) {
    forall i :: 0 <= i < |chain| ==> chain[i] < |pool| && |pool[chain[i]].slots| >= |pool[chain[i]].keys|
  }

  function Flat(pool: seq<Node>, chain: seq<nat>): seq<Entry>
    requires Readable(pool, chain)
  {
    if chain == [] then [] else Entries(pool[chain[0]]) + Flat(pool, chain[1..])
  }

  lemma {:induction false} FlatConcat(pool: seq<Node>, a: seq<nat>, b: seq<nat>)
    requires Readable(pool, a) && Readable(pool, b)
    ensures Readable(pool, a + b) && Flat(pool, a + b) == Flat(pool, a) + Flat(pool, b)
  {
    if a == [] {
      assert a + b == b;
    } else {
      FlatConcat(pool, a[1..], b);
      assert (a + b)[1..] == a[1..] + b;
    }
  }

  lemma FlatOne(pool: seq<Node>, l: nat)
    requires l < |pool| && |pool[l].slots| >= |pool[l].keys|
    ensures Flat(pool, [l]) == Entries(pool[l])
  {
    assert [l][1..] == [];
  }

  // Leaves that are outside a change contribute what they did before.
  lemma {:induction false} FlatSame(pool: seq<Node>, pool': seq<Node>, chain: seq<nat>)
    requires Readable(pool, chain) && Readable(pool', chain)
    requires forall i :: 0 <= i < |chain| ==>
      pool'[chain[i]].keys == pool[chain[i]].keys && pool'[chain[i]].slots == pool[chain[i]].slots
    ensures Flat(pool', chain) == Flat(pool, chain)
  {
    if chain != [] {
      assert Entries(pool'[chain[0]]) == Entries(pool[chain[0]]);
      FlatSame(pool, pool', chain[1..]);
    }
  }

  lemma FlatSplit(pool: seq<Node>, chain: seq<nat>, i: nat)
    requires Readable(pool, chain) && i < |chain|
    ensures Readable(pool, chain[..i]) && Readable(pool, chain[i + 1..])
    ensures Flat(pool, chain) == Flat(pool, chain[..i]) + Entries(pool[chain[i]]) + Flat(pool, chain[i + 1..])
  {
    assert chain == chain[..i] + chain[i..];
    FlatConcat(pool, chain[..i], chain[i..]);
    assert chain[i..][1..] == chain[i + 1..];
  }

  // ---- Sorted association lists as maps ----

  predicate Ascending(s: seq<Entry>) {
    forall i, j :: 0 <= i < j < |s| ==> Less(s[i].key, s[j].key)
  }

  // The map an entry list denotes; a later entry wins.
  function ToMap(s: seq<Entry>): map<Key, nat> {
    if s == [] then map[] else ToMap(s[..|s| - 1])[s[|s| - 1].key := s[|s| - 1].row]
  }

  lemma {:induction false} ToMapDomain(s: seq<Entry>, k: Key)
    ensures k in ToMap(s) <==> exists i :: 0 <= i < |s| && s[i].key == k
  {
    if s != [] {
      var init := s[..|s| - 1];
      ToMapDomain(init, k);
      if k in ToMap(s) && k != s[|s| - 1].key {
        var i :| 0 <= i < |init| && init[i].key == k;
        assert s[i].key == k;
      }
      if exists i :: 0 <= i < |s| && s[i].key == k {
        var i :| 0 <= i < |s| && s[i].key == k;
        if i < |s| - 1 { assert init[i].key == k; }
      }
    }
  }

  lemma {:induction false} ToMapAt(s: seq<Entry>, i: nat)
    requires Ascending(s) && i < |s|
    ensures s[i].key in ToMap(s) && ToMap(s)[s[i].key] == s[i].row
  {
    hide Less;
    if i < |s| - 1 {
      ToMapAt(s[..|s| - 1], i);
      LessIrreflexive(s[i].key);
    }
  }

  // Two ascending lists with the same map are the same list: the contents are a canonical form.
  lemma {:induction false} ToMapInjective(s: seq<Entry>, t: seq<Entry>)
    requires Ascending(s) && Ascending(t) && ToMap(s) == ToMap(t)
    ensures s == t
  {
    hide Less, ToMap;
    if s == [] || t == [] {
      NothingInMap();
      if s != [] { ToMapAt(s, 0); }
      if t != [] { ToMapAt(t, 0); }
    } else {
      var s', t' := s[..|s| - 1], t[..|t| - 1];
      SameLast(s, t);
      ToMapInjective(s', t');
      assert s == s' + [s[|s| - 1]] && t == t' + [t[|t| - 1]];
    }
  }

  lemma NothingInMap()
    ensures ToMap([]) == map[]
  {
  }

  lemma SameLast(s: seq<Entry>, t: seq<Entry>)
    requires Ascending(s) && Ascending(t) && ToMap(s) == ToMap(t)
    requires s != [] && t != []
    ensures s[|s| - 1] == t[|t| - 1] && ToMap(s[..|s| - 1]) == ToMap(t[..|t| - 1])
  {
    hide Less, ToMap, Ascending;
    LastIsGreatest(s, t);
    LastIsGreatest(t, s);
    LessTotal(s[|s| - 1].key, t[|t| - 1].key);
    ToMapAt(s, |s| - 1);
    ToMapAt(t, |t| - 1);
    ToMapInit(s);
    ToMapInit(t);
  }

  lemma LastIsGreatest(s: seq<Entry>, t: seq<Entry>)
    requires Ascending(s) && Ascending(t) && ToMap(s) == ToMap(t)
    requires s != [] && t != []
    ensures !Less(s[|s| - 1].key, t[|t| - 1].key)
  {
    hide Less;
    var k := t[|t| - 1].key;
    ToMapAt(t, |t| - 1);
    ToMapDomain(s, k);
    var i :| 0 <= i < |s| && s[i].key == k;
    if i < |s| - 1 { LessAsymmetric(s[i].key, s[|s| - 1].key); } else { LessIrreflexive(k); }
  }

  lemma ToMapInit(s: seq<Entry>)
    requires Ascending(s) && s != []
    ensures ToMap(s[..|s| - 1]) == ToMap(s) - {s[|s| - 1].key}
  {
    hide Less;
    var last := s[|s| - 1].key;
    ToMapDomain(s[..|s| - 1], last);
    forall i | 0 <= i < |s| - 1 ensures s[i].key != last { LessIrreflexive(last); }
  }

  lemma {:induction false} ToMapSize(s: seq<Entry>)
    requires Ascending(s)
    ensures |ToMap(s)| == |s|
  {
    hide Less;
    if s != [] {
      var init := s[..|s| - 1];
      ToMapSize(init);
      ToMapInit(s);
      ToMapAt(s, |s| - 1);
      assert ToMap(s).Keys == ToMap(init).Keys + {s[|s| - 1].key};
    }
  }
}
