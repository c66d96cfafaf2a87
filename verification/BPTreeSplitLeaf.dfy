/** Splitting an overfull leaf. */
module BPTreeSplitLeaf {
  import opened Keys
  import opened BPTreePool
  import opened BPTreeContents
  import opened BPTreeOrder

  function LeftLeaf(t: Tree, l: nat): Node
    requires l < |t.pool| && |t.pool[l].slots| == |t.pool[l].keys|
  {
    var was := t.pool[l];
    var mid := |was.keys| / 2;
    was.(keys := was.keys[..mid], slots := was.slots[..mid], next := |t.pool|)
  }

  function RightLeaf(t: Tree, l: nat): Node
    requires l < |t.pool| && |t.pool[l].slots| == |t.pool[l].keys|
  {
    var was := t.pool[l];
    var mid := |was.keys| / 2;
    Node(true, was.keys[mid..], was.slots[mid..], was.next, l, NULL)
  }

  // flexql/src/server/index/bptree.cpp: split_leaf up to the call of insert_into_parent.
  function SplitLeafPool(t: Tree, l: nat): (pool: seq<Node>)
    requires l < |t.pool| && |t.pool[l].slots| == |t.pool[l].keys|
    requires t.pool[l].next == NULL || 0 <= t.pool[l].next < |t.pool|
  {
    var next := t.pool[l].next;
    var relinked := t.pool[l := LeftLeaf(t, l)];
    var patched := if next == NULL then relinked else relinked[next := relinked[next].(prev := |t.pool|)];
    patched + [RightLeaf(t, l)]
  }

  // The step in the order the code takes it: move the upper half, then relink.
  function Halved(t: Tree, l: nat): seq<Node>
    requires l < |t.pool| && |t.pool[l].slots| == |t.pool[l].keys|
  {
    var was := t.pool[l];
    var mid := |was.keys| / 2;
    t.pool[l := was.(keys := was.keys[..mid], slots := was.slots[..mid])]
    + [Node(true, was.keys[mid..], was.slots[mid..], NULL, NULL, NULL)]
  }

  function Linked(pool: seq<Node>, l: nat, right: nat): seq<Node>
    requires l < |pool| && right < |pool|
    requires pool[l].next == NULL || 0 <= pool[l].next < |pool|
  {
    var next := pool[l].next;
    var a := pool[right := pool[right].(next := next, prev := l)];
    var b := if next == NULL then a else a[next := a[next].(prev := right)];
    b[l := b[l].(next := right)]
  }

  lemma HalvedLinked(t: Tree, l: nat)
    requires l < |t.pool| && |t.pool[l].slots| == |t.pool[l].keys|
    requires t.pool[l].next == NULL || 0 <= t.pool[l].next < |t.pool|
    requires t.pool[l].next != l
    ensures Linked(Halved(t, l), l, |t.pool|) == SplitLeafPool(t, l)
  {
  }

  // The same step with the places and the chain brought along; i is the leaf's position in the chain.
  function SplitLeaf(t: Tree, i: nat): (r: Tree)
    requires Inv(t, Settled, if i < |t.chain| then t.chain[i] else NULL)
    requires i < |t.chain|
  {
    assert LinkOk(t, i) && NodeOk(t, Settled, t.chain[i]) && CountOk(t, Settled, t.chain[i], t.chain[i]);
    assert i + 1 < |t.chain| ==> LinkOk(t, i + 1);
    var l := t.chain[i];
    var was := t.pool[l];
    var key := was.keys[|was.keys| / 2];
    Tree(t.order, SplitLeafPool(t, l),
         t.place[l := t.place[l].(hi := At(key))] + [Place(At(key), t.place[l].hi, 0)],
         t.root, t.chain[..i + 1] + [|t.pool|] + t.chain[i + 1..])
  }

  lemma LeafToHalve(t: Tree, i: nat)
    requires i < |t.chain| && Inv(t, Settled, t.chain[i])
    ensures var l := t.chain[i];
            && l < |t.pool| == |t.place| && t.pool[l].leaf && t.place[l].level == 0
            && |t.pool[l].keys| == |t.pool[l].slots| == t.order
            && (t.pool[l].next == NULL || 0 <= t.pool[l].next < |t.pool|)
            && t.pool[l].next != l
  {
    hide Less, Sorted, Within;
    var l := t.chain[i];
    assert LinkOk(t, i) && NodeOk(t, Settled, l) && CountOk(t, Settled, l, l);
    if i + 1 < |t.chain| { assert LinkOk(t, i + 1) && Before(t, t.chain[i], t.chain[i + 1]); }
  }

  // What changed in the pool, node by node.
  lemma SplitLeafNodes(t: Tree, i: nat, n: nat)
    requires i < |t.chain| && Inv(t, Settled, t.chain[i])
    requires n < |t.pool|
    ensures t.chain[i] < |t.pool| && |t.pool[t.chain[i]].slots| == |t.pool[t.chain[i]].keys|
    ensures var r := SplitLeaf(t, i); var l := t.chain[i];
            && |r.pool| == |t.pool| + 1 == |r.place|
            && r.pool[l] == LeftLeaf(t, l)
            && r.pool[|t.pool|] == RightLeaf(t, l)
            && (n != l ==> r.pool[n] == t.pool[n].(prev := r.pool[n].prev) && r.place[n] == t.place[n])
            && (n != l && n != t.pool[l].next ==> r.pool[n] == t.pool[n])
            && (t.pool[l].next != NULL && n == t.pool[l].next ==> r.pool[n].prev == |t.pool|)
  {
    hide Less;
    assert LinkOk(t, i) && NodeOk(t, Settled, t.chain[i]);
    assert i + 1 < |t.chain| ==> LinkOk(t, i + 1) && Before(t, t.chain[i], t.chain[i + 1]);
  }

  lemma SplitLeafShape(t: Tree, i: nat)
    requires i < |t.chain| && Inv(t, Settled, t.chain[i])
    ensures var r := SplitLeaf(t, i); var pend := Split(t.chain[i], |t.pool|);
            Shape(r, pend) && PendOk(r, pend) && RootOk(r, pend)
  {
    hide Less;
    assert LinkOk(t, i) && NodeOk(t, Settled, t.chain[i]);
    SplitLeafNodes(t, i, t.chain[i]);
    SplitLeafNodes(t, i, t.root);
  }

  lemma SplitLeafKeepsHead(t: Tree, i: nat)
    requires i < |t.chain| && Inv(t, Settled, t.chain[i])
    ensures var r := SplitLeaf(t, i);
            && r.order == t.order && r.root == t.root < |r.place| && r.place[r.root].level == t.place[t.root].level
            && |r.chain| > 0 && r.chain[0] == t.chain[0]
  {
    hide Less, Sorted, Within;
    SplitLeafNodes(t, i, t.root);
    assert LinkOk(t, i) && NodeOk(t, Settled, t.chain[i]);
  }

  // Both halves obey the node invariant.
  lemma SplitLeafHalves(t: Tree, i: nat)
    requires i < |t.chain| && Inv(t, Settled, t.chain[i])
    ensures var r := SplitLeaf(t, i); var pend := Split(t.chain[i], |t.pool|);
            Shape(r, pend) && NodeOk(r, pend, t.chain[i]) && NodeOk(r, pend, |t.pool|)
  {
    hide Less;
    var l := t.chain[i];
    assert LinkOk(t, i) && NodeOk(t, Settled, l) && CountOk(t, Settled, l, l);
    SplitLeafNodes(t, i, l);
    SplitLeafShape(t, i);
    var keys := t.pool[l].keys;
    var mid := |keys| / 2;
    assert Less(keys[0], keys[mid]);
    if t.place[l].lo.At? { LessMixed(t.place[l].lo.key, keys[0], keys[mid]); }
    forall j | mid <= j < |keys| ensures !Less(keys[j], keys[mid]) {
      if j == mid { LessIrreflexive(keys[mid]); } else { LessAsymmetric(keys[mid], keys[j]); }
    }
  }

  lemma SplitLeafKids(t: Tree, i: nat, n: nat)
    requires i < |t.chain| && Inv(t, Settled, t.chain[i])
    requires n < |t.pool| && n != t.chain[i]
    ensures var r := SplitLeaf(t, i); var pend := Split(t.chain[i], |t.pool|);
            Shape(r, pend) && NodeOk(r, pend, n)
  {
    hide Less;
    var r, pend := SplitLeaf(t, i), Split(t.chain[i], |t.pool|);
    assert NodeOk(t, Settled, n);
    SplitLeafNodes(t, i, n);
    SplitLeafShape(t, i);
    assert LinkOk(t, i);
    if !t.pool[n].leaf {
      forall j | 0 <= j < |r.pool[n].slots| ensures KidOk(r, pend, n, j) {
        assert KidOk(t, Settled, n, j);
        SplitLeafNodes(t, i, t.pool[n].slots[j]);
      }
    }
  }

  lemma SplitLeafAround(t: Tree, i: nat, n: nat)
    requires i < |t.chain| && Inv(t, Settled, t.chain[i])
    requires n <= |t.pool|
    ensures var r := SplitLeaf(t, i); var pend := Split(t.chain[i], |t.pool|);
            Shape(r, pend) && ParentOk(r, pend, n) && LevelOk(r, pend, n) && CountOk(r, pend, NULL, n)
  {
    hide Less;
    var l := t.chain[i];
    assert LinkOk(t, i) && CountOk(t, Settled, l, l) && LevelOk(t, Settled, l) && NodeOk(t, Settled, l);
    SplitLeafShape(t, i);
    SplitLeafNodes(t, i, l);
    SplitLeafNodes(t, i, t.root);
    if n < |t.pool| {
      assert ParentOk(t, Settled, n) && LevelOk(t, Settled, n) && CountOk(t, Settled, l, n);
      SplitLeafNodes(t, i, n);
      if n != t.root { SplitLeafNodes(t, i, t.pool[n].parent); }
    }
  }

  // Position j of the new chain, in terms of the leaf that held it or was split to make it.
  lemma SplitLeafPlaces(t: Tree, i: nat, j: nat)
    requires i < |t.chain| && Inv(t, Settled, t.chain[i])
    requires j <= |t.chain|
    ensures t.chain[i] < |t.pool| && |t.pool[t.chain[i]].keys| > 0
    ensures var r, l, p := SplitLeaf(t, i), t.chain[i], if j <= i then j else j - 1;
            var key := t.pool[l].keys[|t.pool[l].keys| / 2];
            && |r.chain| == |t.chain| + 1
            && t.chain[p] < |t.pool| == |t.place|
            && r.chain[j] == (if j == i + 1 then |t.pool| else t.chain[p])
            && r.chain[j] < |r.pool| == |r.place|
            && r.place[r.chain[j]].lo == (if j == i + 1 then At(key) else t.place[t.chain[p]].lo)
            && r.place[r.chain[j]].hi == (if j == i then At(key) else t.place[t.chain[p]].hi)
  {
    hide Less, Sorted, Within, NonEmpty, KidOk;
    var l, p := t.chain[i], if j <= i then j else j - 1;
    assert LinkOk(t, i) && LinkOk(t, p) && CountOk(t, Settled, l, l);
    SplitLeafNodes(t, i, l);
    SplitLeafNodes(t, i, t.chain[p]);
    if p != i { assert Before(t, t.chain[p], t.chain[i]) || Before(t, t.chain[i], t.chain[p]); }
  }

  lemma SplitLeafLinks(t: Tree, i: nat, j: nat)
    requires i < |t.chain| && Inv(t, Settled, t.chain[i])
    requires j <= |t.chain|
    ensures var r := SplitLeaf(t, i); |r.place| == |r.pool| && |r.chain| == |t.chain| + 1 && LinkOk(r, j)
  {
    hide Less, Sorted, Within, NonEmpty, Counts, Nodes, PendOk, RootOk, SlotHi, SplitLeaf;
    SplitLeafPlaces(t, i, j);
    SplitLeafPointers(t, i, j);
    if j < |t.chain| { SplitLeafPlaces(t, i, j + 1); }
    assert LinkOk(t, i) && LinkOk(t, if j <= i then j else j - 1);
  }

  lemma SplitLeafPointers(t: Tree, i: nat, j: nat)
    requires i < |t.chain| && Inv(t, Settled, t.chain[i])
    requires j <= |t.chain|
    ensures var r := SplitLeaf(t, i);
            && |r.chain| == |t.chain| + 1 && r.chain[j] < |r.pool| && r.pool[r.chain[j]].leaf
            && r.pool[r.chain[j]].next == (if j < |t.chain| then r.chain[j + 1] else NULL)
            && r.pool[r.chain[j]].prev == (if j > 0 then r.chain[j - 1] else NULL)
  {
    hide Less, Sorted, Within, NonEmpty, Counts, Nodes, PendOk, RootOk, SlotHi;
    SplitLeafPlaces(t, i, j);
    if j > 0 { SplitLeafPlaces(t, i, j - 1); }
    if j < |t.chain| { SplitLeafPlaces(t, i, j + 1); }
    var k := if j <= i then j else j - 1;
    assert LinkOk(t, i) && LinkOk(t, k);
    SplitLeafNodes(t, i, t.chain[k]);
    if k != i { assert Before(t, t.chain[k], t.chain[i]) || Before(t, t.chain[i], t.chain[k]); }
    if i + 1 < |t.chain| && k != i + 1 {
      assert Before(t, t.chain[k], t.chain[i + 1]) || Before(t, t.chain[i + 1], t.chain[k]);
    }
  }

  lemma SplitLeafOrder(t: Tree, i: nat, a: nat, b: nat)
    requires i < |t.chain| && Inv(t, Settled, t.chain[i])
    requires a < b <= |t.chain|
    ensures var r := SplitLeaf(t, i); |r.chain| == |t.chain| + 1 && Before(r, r.chain[a], r.chain[b])
  {
    hide Less, Sorted, Counts, SplitLeaf, KidOk;
    var l := t.chain[i];
    SplitLeafPlaces(t, i, a);
    SplitLeafPlaces(t, i, b);
    var key := t.pool[l].keys[|t.pool[l].keys| / 2];
    assert NodeOk(t, Settled, l);
    assert Within(key, t.place[l]);
    var p, q := if a <= i then a else a - 1, if b <= i then b else b - 1;
    if p == q {
      LessIrreflexive(key);
    } else {
      assert Before(t, t.chain[p], t.chain[q]);
      if a == i {
        NotLessTransitive(key, t.place[l].hi.key, t.place[t.chain[q]].lo.key) by {
          LessAsymmetric(key, t.place[l].hi.key);
        }
      }
      if b == i + 1 { NotLessTransitive(t.place[t.chain[p]].hi.key, t.place[l].lo.key, key); }
    }
  }

  lemma SplitLeafChained(t: Tree, i: nat)
    requires i < |t.chain| && Inv(t, Settled, t.chain[i])
    ensures var r := SplitLeaf(t, i); |r.place| == |r.pool| && Chained(r)
  {
    hide Less;
    var r := SplitLeaf(t, i);
    assert LinkOk(t, i);
    SplitLeafNodes(t, i, t.chain[i]);
    forall j | 0 <= j < |r.chain| ensures LinkOk(r, j) { SplitLeafLinks(t, i, j); }
    forall a, b | 0 <= a < b < |r.chain| ensures Before(r, r.chain[a], r.chain[b]) { SplitLeafOrder(t, i, a, b); }
    forall n | 0 <= n < |r.pool| && r.pool[n].leaf ensures n in r.chain {
      if n == |t.pool| {
        assert r.chain[i + 1] == n;
      } else {
        SplitLeafNodes(t, i, n);
        var j :| 0 <= j < |t.chain| && t.chain[j] == n;
        assert r.chain[if j <= i then j else j + 1] == n;
      }
    }
  }

  // The whole step: the invariant holds again, with the right half waiting for a parent.
  lemma SplitLeafKeepsInv(t: Tree, i: nat)
    requires i < |t.chain| && Inv(t, Settled, t.chain[i])
    ensures Inv(SplitLeaf(t, i), Split(t.chain[i], |t.pool|), NULL)
  {
    hide Less;
    var r, pend := SplitLeaf(t, i), Split(t.chain[i], |t.pool|);
    SplitLeafShape(t, i);
    SplitLeafChained(t, i);
    assert LinkOk(t, i);
    SplitLeafNodes(t, i, t.chain[i]);
    forall n | 0 <= n < |r.pool|
      ensures NodeOk(r, pend, n) && ParentOk(r, pend, n) && LevelOk(r, pend, n) && CountOk(r, pend, NULL, n) {
      SplitLeafAround(t, i, n);
      if n == t.chain[i] || n == |t.pool| { SplitLeafHalves(t, i); } else { SplitLeafKids(t, i, n); }
    }
  }

  // Splitting moves entries but changes none.
  lemma SplitLeafContents(t: Tree, i: nat)
    requires i < |t.chain| && Inv(t, Settled, t.chain[i])
    ensures Ordered(t) && Ordered(SplitLeaf(t, i))
    ensures Contents(SplitLeaf(t, i)) == Contents(t)
  {
    hide Less, Sorted, Counts, Nodes, Within, Entries, Chained, PendOk, RootOk, LeafOk, Flat;
    var r, l := SplitLeaf(t, i), t.chain[i];
    InvOrdered(t, Settled, l);
    SplitLeafKeepsInv(t, i);
    InvOrdered(r, Split(l, |t.pool|), NULL);
    var pre, suf := t.chain[..i], t.chain[i + 1..];
    SplitLeafOutside(t, i, pre);
    SplitLeafOutside(t, i, suf);
    SplitLeafEntries(t, i);
    FlatSplit(t.pool, t.chain, i);
    assert r.chain == pre + [l, |t.pool|] + suf;
    FlatPair(r.pool, pre, l, |t.pool|, suf);
  }

  lemma FlatPair(pool: seq<Node>, pre: seq<nat>, a: nat, b: nat, suf: seq<nat>)
    requires Readable(pool, pre) && Readable(pool, [a, b]) && Readable(pool, suf)
    ensures Readable(pool, pre + [a, b] + suf) && [a, b][0] < |pool| && [a, b][1] < |pool|
    ensures Flat(pool, pre + [a, b] + suf) == Flat(pool, pre) + (Entries(pool[a]) + Entries(pool[b])) + Flat(pool, suf)
  {
    hide Entries;
    var pair := [a, b];
    assert pair[0] < |pool| && pair[1] < |pool|;
    FlatConcat(pool, pre, pair);
    FlatConcat(pool, pre + pair, suf);
    assert pair == [a] + [b];
    FlatConcat(pool, [a], [b]);
    assert Flat(pool, [a]) == Entries(pool[a]) && Flat(pool, [b]) == Entries(pool[b]);
  }

  lemma SplitLeafEntries(t: Tree, i: nat)
    requires i < |t.chain| && Inv(t, Settled, t.chain[i])
    ensures var r, l := SplitLeaf(t, i), t.chain[i];
            && l < |t.pool| < |r.pool|
            && |t.pool[l].slots| == |t.pool[l].keys|
            && |r.pool[l].slots| >= |r.pool[l].keys| && |r.pool[|t.pool|].slots| >= |r.pool[|t.pool|].keys|
            && Entries(t.pool[l]) == Entries(r.pool[l]) + Entries(r.pool[|t.pool|])
  {
    hide Less, Sorted, Within;
    var r, l := SplitLeaf(t, i), t.chain[i];
    assert LinkOk(t, i) && NodeOk(t, Settled, l);
    SplitLeafNodes(t, i, l);
  }

  lemma SplitLeafOutside(t: Tree, i: nat, part: seq<nat>)
    requires i < |t.chain| && Inv(t, Settled, t.chain[i])
    requires part == t.chain[..i] || part == t.chain[i + 1..]
    ensures Readable(t.pool, part) && Readable(SplitLeaf(t, i).pool, part)
    ensures Flat(SplitLeaf(t, i).pool, part) == Flat(t.pool, part)
  {
    hide Less, Sorted, Counts, Within, Nodes, NonEmpty;
    var r, l := SplitLeaf(t, i), t.chain[i];
    InvOrdered(t, Settled, l);
    assert LinkOk(t, i);
    forall j | 0 <= j < |t.chain| && j != i
      ensures t.chain[j] < |t.pool| < |r.pool|
              && r.pool[t.chain[j]] == t.pool[t.chain[j]].(prev := r.pool[t.chain[j]].prev)
    {
      assert LinkOk(t, j);
      assert Before(t, t.chain[i], t.chain[j]) || Before(t, t.chain[j], t.chain[i]);
      SplitLeafNodes(t, i, t.chain[j]);
    }
    FlatSame(t.pool, r.pool, part);
  }
}
