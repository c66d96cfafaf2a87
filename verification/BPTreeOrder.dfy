/** The leaf chain read as one ascending list, and where a key falls in it. */
module BPTreeOrder {
  import opened Keys
  import opened BPTreePool
  import opened BPTreeContents

  // The part of the invariant that reading the leaves relies on.
  predicate Ordered(t: Tree) {
    && |t.place| == |t.pool|
    && Chained(t)
    && forall i :: 0 <= i < |t.chain| ==> LeafOk(t, t.chain[i])
  }

  predicate LeafOk(t: Tree, l: nat) {
    && l < |t.pool| == |t.place|
    && |t.pool[l].slots| == |t.pool[l].keys|
    && NonEmpty(t.place[l])
    && Sorted(t.pool[l].keys)
    && forall i :: 0 <= i < |t.pool[l].keys| ==> Within(t.pool[l].keys[i], t.place[l])
  }

  lemma InvOrdered(t: Tree, pend: Pending, full: int)
    requires Inv(t, pend, full)
    ensures Ordered(t) && Readable(t.pool, t.chain)
  {
    hide Less;
    forall i | 0 <= i < |t.chain| ensures LeafOk(t, t.chain[i]) {
      assert LinkOk(t, i) && NodeOk(t, pend, t.chain[i]);
    }
  }

  function Contents(t: Tree): seq<Entry>
    requires Ordered(t)
  {
    OrderedReadable(t);
    Flat(t.pool, t.chain)
  }

  lemma OrderedReadable(t: Tree)
    requires Ordered(t)
    ensures Readable(t.pool, t.chain)
  {
    hide Less;
    forall i | 0 <= i < |t.chain|
      ensures t.chain[i] < |t.pool| && |t.pool[t.chain[i]].slots| >= |t.pool[t.chain[i]].keys| {
      assert LeafOk(t, t.chain[i]);
    }
  }

  function EmptyTree(order: nat): Tree {
    Tree(order, [Node(true, [], [], NULL, NULL, NULL)], [Place(Open, Open, 0)], 0, [0])
  }

  // A single empty leaf is a good tree with no entries.
  lemma EmptyTreeInv(order: nat)
    requires order >= 3
    ensures Inv(EmptyTree(order), Settled, NULL) && Ordered(EmptyTree(order)) && Contents(EmptyTree(order)) == []
  {
    var t := EmptyTree(order);
    assert LinkOk(t, 0) && NodeOk(t, Settled, 0) && ParentOk(t, Settled, 0) && LevelOk(t, Settled, 0);
    InvOrdered(t, Settled, NULL);
    assert Entries(t.pool[0]) == [];
    assert Flat(t.pool, t.chain[1..]) == [];
  }

  predicate AllBelow(s: seq<Entry>, k: Key) { forall i :: 0 <= i < |s| ==> Less(s[i].key, k) }
  predicate AllAbove(k: Key, s: seq<Entry>) { forall i :: 0 <= i < |s| ==> Less(k, s[i].key) }

  lemma LeafBelow(t: Tree, l: nat, k: Key)
    requires LeafOk(t, l) && t.place[l].hi.At? && !Less(k, t.place[l].hi.key)
    ensures AllBelow(Entries(t.pool[l]), k) && AtLeast(t.place[l].lo, k)
  {
    hide Less;
    forall j | 0 <= j < |t.pool[l].keys| ensures Less(t.pool[l].keys[j], k) {
      assert Within(t.pool[l].keys[j], t.place[l]);
      LessMixed(t.pool[l].keys[j], t.place[l].hi.key, k);
    }
    if t.place[l].lo.At? {
      LessMixed(t.place[l].lo.key, t.place[l].hi.key, k);
      LessAsymmetric(t.place[l].lo.key, k);
    }
  }

  lemma LeafAbove(t: Tree, l: nat, k: Key)
    requires LeafOk(t, l) && t.place[l].lo.At? && Less(k, t.place[l].lo.key)
    ensures AllAbove(k, Entries(t.pool[l])) && Below(k, t.place[l].hi)
  {
    hide Less;
    forall j | 0 <= j < |t.pool[l].keys| ensures Less(k, t.pool[l].keys[j]) {
      assert Within(t.pool[l].keys[j], t.place[l]);
      LessMixed(k, t.place[l].lo.key, t.pool[l].keys[j]);
    }
    if t.place[l].hi.At? { LessTransitive(k, t.place[l].lo.key, t.place[l].hi.key); }
  }

  // A key at or above the lower end of a leaf is above everything in the leaves before it.
  lemma {:induction false} PrefixBelow(t: Tree, i: nat, k: Key)
    requires Ordered(t) && i < |t.chain| && LinkOk(t, i)
    requires AtLeast(t.place[t.chain[i]].lo, k)
    ensures Readable(t.pool, t.chain[..i]) && AllBelow(Flat(t.pool, t.chain[..i]), k)
  {
    hide Less, Sorted, Before, NonEmpty, Within, Flat, Entries;
    OrderedReadable(t);
    if i > 0 {
      var l := t.chain[i - 1];
      assert LinkOk(t, i - 1) && LeafOk(t, l);
      LeafBelow(t, l, k);
      PrefixBelow(t, i - 1, k);
      assert t.chain[..i] == t.chain[..i - 1] + [l];
      FlatConcat(t.pool, t.chain[..i - 1], [l]);
      FlatOne(t.pool, l);
    } else {
      assert t.chain[..0] == [];
      NothingBelow(t.pool, k);
    }
  }

  lemma NextAbove(t: Tree, i: nat, k: Key)
    requires Ordered(t) && i + 1 < |t.chain| && LinkOk(t, i)
    requires Below(k, t.place[t.chain[i]].hi)
    ensures LinkOk(t, i + 1) && LeafOk(t, t.chain[i + 1])
    ensures AllAbove(k, Entries(t.pool[t.chain[i + 1]])) && Below(k, t.place[t.chain[i + 1]].hi)
  {
    hide Less, Sorted, Before, NonEmpty, Within, AllAbove;
    var l := t.chain[i + 1];
    assert LinkOk(t, i + 1) && LeafOk(t, l);
    LeafAbove(t, l, k);
  }

  lemma BothAbove(k: Key, a: seq<Entry>, b: seq<Entry>)
    requires AllAbove(k, a) && AllAbove(k, b)
    ensures AllAbove(k, a + b)
  {
    hide Less;
  }

  lemma NothingAbove(pool: seq<Node>, k: Key)
    ensures AllAbove(k, Flat(pool, []))
  {
  }

  lemma NothingBelow(pool: seq<Node>, k: Key)
    ensures AllBelow(Flat(pool, []), k)
  {
  }

  // A key below the upper end of a leaf is below everything in the leaves after it.
  lemma {:induction false} SuffixAbove(t: Tree, i: nat, k: Key)
    requires Ordered(t) && i < |t.chain| && LinkOk(t, i)
    requires Below(k, t.place[t.chain[i]].hi)
    ensures Readable(t.pool, t.chain[i + 1..]) && AllAbove(k, Flat(t.pool, t.chain[i + 1..]))
    decreases |t.chain| - i
  {
    hide Less, Ordered, LinkOk, LeafOk, Below, AllAbove, Flat, Entries;
    OrderedReadable(t);
    if i + 1 < |t.chain| {
      var l := t.chain[i + 1];
      NextAbove(t, i, k);
      SuffixAbove(t, i + 1, k);
      assert t.chain[i + 1..] == [l] + t.chain[i + 2..];
      FlatConcat(t.pool, [l], t.chain[i + 2..]);
      FlatOne(t.pool, l);
      BothAbove(k, Entries(t.pool[l]), Flat(t.pool, t.chain[i + 2..]));
    } else {
      assert t.chain[i + 1..] == [];
      NothingAbove(t.pool, k);
    }
  }

  lemma {:induction false} SuffixAscending(t: Tree, i: nat)
    requires Ordered(t) && i <= |t.chain|
    ensures Readable(t.pool, t.chain[i..]) && Ascending(Flat(t.pool, t.chain[i..]))
    decreases |t.chain| - i
  {
    hide Less;
    OrderedReadable(t);
    if i < |t.chain| {
      var l := t.chain[i];
      SuffixAscending(t, i + 1);
      assert LinkOk(t, i) && LeafOk(t, l);
      var rest := Flat(t.pool, t.chain[i + 1..]);
      forall j, q | 0 <= j < |t.pool[l].keys| && 0 <= q < |rest| ensures Less(t.pool[l].keys[j], rest[q].key) {
        assert Within(t.pool[l].keys[j], t.place[l]);
        SuffixAbove(t, i, t.pool[l].keys[j]);
      }
      assert t.chain[i..][1..] == t.chain[i + 1..];
    }
  }

  lemma ContentsAscending(t: Tree)
    requires Ordered(t)
    ensures Ascending(Contents(t))
  {
    SuffixAscending(t, 0);
    assert t.chain[0..] == t.chain;
  }

  // The contents around the leaf responsible for a key: what is before is smaller, what is after is greater.
  lemma LeafWindow(t: Tree, i: nat, k: Key) returns (before: seq<Entry>, after: seq<Entry>)
    requires Ordered(t) && i < |t.chain| && t.chain[i] < |t.pool|
    requires Within(k, t.place[t.chain[i]])
    ensures Readable(t.pool, t.chain[..i]) && before == Flat(t.pool, t.chain[..i])
    ensures Readable(t.pool, t.chain[i + 1..]) && after == Flat(t.pool, t.chain[i + 1..])
    ensures LeafOk(t, t.chain[i])
    ensures Contents(t) == before + Entries(t.pool[t.chain[i]]) + after
    ensures AllBelow(before, k) && AllAbove(k, after)
  {
    hide Less;
    OrderedReadable(t);
    assert LinkOk(t, i) && LeafOk(t, t.chain[i]);
    before, after := Flat(t.pool, t.chain[..i]), Flat(t.pool, t.chain[i + 1..]);
    FlatSplit(t.pool, t.chain, i);
    PrefixBelow(t, i, k);
    SuffixAbove(t, i, k);
  }

  // Splicing a new entry in at its place updates the denoted map.
  lemma {:induction false} SpliceMap(a: seq<Entry>, e: Entry, b: seq<Entry>)
    requires Ascending(a + b) && AllBelow(a, e.key) && AllAbove(e.key, b)
    ensures e.key !in ToMap(a + b) && ToMap(a + [e] + b) == ToMap(a + b)[e.key := e.row]
  {
    hide Less;
    ToMapDomain(a + b, e.key);
    LessIrreflexive(e.key);
    if b == [] {
      assert a + b == a && (a + [e] + b)[..|a|] == a;
    } else {
      var b' := b[..|b| - 1];
      assert (a + b)[..|a + b| - 1] == a + b';
      assert (a + [e] + b)[..|a + [e] + b| - 1] == a + [e] + b';
      SpliceMap(a, e, b');
    }
  }

  lemma {:induction false} OverwriteMap(a: seq<Entry>, e: Entry, x: nat, b: seq<Entry>)
    requires Ascending(a + [e] + b)
    ensures ToMap(a + [Entry(e.key, x)] + b) == ToMap(a + [e] + b)[e.key := x]
  {
    hide Less;
    var f := Entry(e.key, x);
    if b == [] {
      assert (a + [e] + b)[..|a|] == a && (a + [f] + b)[..|a|] == a;
    } else {
      var b' := b[..|b| - 1];
      assert (a + [e] + b)[..|a + [e] + b| - 1] == a + [e] + b';
      assert (a + [f] + b)[..|a + [f] + b| - 1] == a + [f] + b';
      OverwriteMap(a, e, x, b');
      assert (a + [e] + b)[|a|] == e;
      LessIrreflexive(e.key);
    }
  }
}
