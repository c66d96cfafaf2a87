/** Writing an entry into the leaf responsible for its key. */
module BPTreePutLeaf {
  import opened Keys
  import opened BPTreePool
  import opened BPTreeContents
  import opened BPTreeOrder

  // pos is the first position whose key is not below k.
  predicate LowerBound(keys: seq<Key>, k: Key, pos: nat) {
    && pos <= |keys|
    && (forall i :: 0 <= i < pos ==> Less(keys[i], k))
    && (forall i :: pos <= i < |keys| ==> !Less(keys[i], k))
  }

  lemma LowerBoundMiss(keys: seq<Key>, k: Key, pos: nat)
    requires Sorted(keys) && LowerBound(keys, k, pos)
    requires pos < |keys| ==> keys[pos] != k
    ensures forall i :: pos <= i < |keys| ==> Less(k, keys[i])
    ensures k !in keys
  {
    hide Less;
    LessIrreflexive(k);
    if pos < |keys| { LessTotal(k, keys[pos]); }
    forall i | pos < i < |keys| ensures Less(k, keys[i]) { LessTransitive(k, keys[pos], keys[i]); }
  }

  function InsertAt<T>(s: seq<T>, pos: nat, x: T): seq<T>
    requires pos <= |s|
  {
    s[..pos] + [x] + s[pos..]
  }

  // bptree.cpp insert: overwrite the row id of an existing key, or shift and insert.
  function PutNode(node: Node, pos: nat, k: Key, row: nat): Node
    requires pos <= |node.keys| == |node.slots|
  {
    if pos < |node.keys| && node.keys[pos] == k then node.(slots := node.slots[pos := row])
    else node.(keys := InsertAt(node.keys, pos, k), slots := InsertAt(node.slots, pos, row))
  }

  function PutLeaf(t: Tree, l: nat, pos: nat, k: Key, row: nat): Tree
    requires l < |t.pool| && pos <= |t.pool[l].keys| == |t.pool[l].slots|
  {
    t.(pool := t.pool[l := PutNode(t.pool[l], pos, k, row)])
  }

  predicate Target(t: Tree, l: nat, pos: nat, k: Key) {
    && Inv(t, Settled, NULL)
    && l < |t.pool|
    && t.pool[l].leaf
    && |t.pool[l].keys| == |t.pool[l].slots|
    && Within(k, t.place[l])
    && pos <= |t.pool[l].keys|
    && LowerBound(t.pool[l].keys, k, pos)
  }

  lemma LeafRoom(t: Tree, l: nat)
    requires Inv(t, Settled, NULL) && l < |t.pool|
    ensures |t.pool[l].keys| < t.order
  {
    hide Less;
    assert CountOk(t, Settled, NULL, l);
  }

  lemma PutNodeSorted(t: Tree, l: nat, pos: nat, k: Key, row: nat)
    requires Target(t, l, pos, k)
    ensures var keys := PutLeaf(t, l, pos, k, row).pool[l].keys;
            Sorted(keys) && forall i :: 0 <= i < |keys| ==> Within(keys[i], t.place[l])
  {
    hide Less;
    assert NodeOk(t, Settled, l);
    if !(pos < |t.pool[l].keys| && t.pool[l].keys[pos] == k) { LowerBoundMiss(t.pool[l].keys, k, pos); }
  }

  lemma PutLeafNode(t: Tree, l: nat, pos: nat, k: Key, row: nat, n: nat)
    requires Target(t, l, pos, k) && n < |t.pool|
    ensures var r := PutLeaf(t, l, pos, k, row);
            Shape(r, Settled) && NodeOk(r, Settled, n) && ParentOk(r, Settled, n) && LevelOk(r, Settled, n)
  {
    hide Less, Sorted, Within, LowerBound;
    var r := PutLeaf(t, l, pos, k, row);
    assert NodeOk(t, Settled, n) && ParentOk(t, Settled, n) && LevelOk(t, Settled, n);
    PutNodeSorted(t, l, pos, k, row);
    if !t.pool[n].leaf {
      forall j | 0 <= j < |r.pool[n].slots| ensures KidOk(r, Settled, n, j) {
        assert KidOk(t, Settled, n, j);
      }
    }
  }

  lemma PutLeafChained(t: Tree, l: nat, pos: nat, k: Key, row: nat)
    requires Target(t, l, pos, k)
    ensures var r := PutLeaf(t, l, pos, k, row); |r.place| == |r.pool| && Chained(r)
  {
    hide Less, Sorted, Within, LowerBound, Nodes, Counts;
    var r := PutLeaf(t, l, pos, k, row);
    forall i | 0 <= i < |r.chain| ensures LinkOk(r, i) { assert LinkOk(t, i); }
    forall i, j | 0 <= i < j < |r.chain| ensures Before(r, r.chain[i], r.chain[j]) {
      assert Before(t, t.chain[i], t.chain[j]);
    }
  }

  // The invariant survives; the leaf may now be due for a split.
  lemma PutLeafKeepsInv(t: Tree, l: nat, pos: nat, k: Key, row: nat)
    requires Target(t, l, pos, k)
    ensures var r := PutLeaf(t, l, pos, k, row);
            Inv(r, Settled, if |r.pool[l].keys| == t.order then l else NULL)
  {
    hide Less, Sorted, Within, LowerBound;
    var r := PutLeaf(t, l, pos, k, row);
    var full := if |r.pool[l].keys| == t.order then l else NULL;
    PutLeafChained(t, l, pos, k, row);
    forall n | 0 <= n < |r.pool|
      ensures NodeOk(r, Settled, n) && ParentOk(r, Settled, n) && LevelOk(r, Settled, n)
              && CountOk(r, Settled, full, n) {
      PutLeafNode(t, l, pos, k, row, n);
      assert CountOk(t, Settled, NULL, n);
    }
  }

  lemma PutEntriesAre(node: Node, pos: nat, k: Key, row: nat)
    requires pos <= |node.keys| == |node.slots|
    ensures var e := Entries(node);
            Entries(PutNode(node, pos, k, row)) ==
            e[..pos] + [Entry(k, row)] + if pos < |node.keys| && node.keys[pos] == k then e[pos + 1..] else e[pos..]
  {
  }

  // One leaf: its entries around the position of k, before and after the write.
  lemma PutEntries(node: Node, pos: nat, k: Key, row: nat) returns (a: seq<Entry>, b: seq<Entry>)
    requires pos <= |node.keys| == |node.slots| && Sorted(node.keys) && LowerBound(node.keys, k, pos)
    ensures AllBelow(a, k) && AllAbove(k, b)
    ensures Entries(PutNode(node, pos, k, row)) == a + [Entry(k, row)] + b
    ensures Entries(node) ==
            a + (if pos < |node.keys| && node.keys[pos] == k then [Entry(k, node.slots[pos])] else []) + b
  {
    hide Less;
    var hit := pos < |node.keys| && node.keys[pos] == k;
    var e := Entries(node);
    a, b := e[..pos], if hit then e[pos + 1..] else e[pos..];
    if !hit { LowerBoundMiss(node.keys, k, pos); }
    PutEntriesAre(node, pos, k, row);
    if hit { assert e == a + [e[pos]] + b; } else { assert a + [] + b == e; }
  }

  // The contents read as a list gain one entry or have one overwritten...
  lemma PutLeafFlat(t: Tree, l: nat, pos: nat, k: Key, row: nat)
    returns (before: seq<Entry>, after: seq<Entry>)
    requires Target(t, l, pos, k)
    ensures Ordered(t) && Ordered(PutLeaf(t, l, pos, k, row))
    ensures AllBelow(before, k) && AllAbove(k, after)
    ensures var node, r := t.pool[l], PutLeaf(t, l, pos, k, row);
            && Contents(r) == before + [Entry(k, row)] + after
            && if pos < |node.keys| && node.keys[pos] == k
               then Contents(t) == before + [Entry(k, node.slots[pos])] + after
               else Contents(t) == before + after
  {
    hide Less, Sorted, Counts, Nodes, Chained, Entries, PutNode, LowerBound, Within, AllBelow, AllAbove, Flat;
    var r := PutLeaf(t, l, pos, k, row);
    InvOrdered(t, Settled, NULL);
    PutLeafKeepsInv(t, l, pos, k, row);
    InvOrdered(r, Settled, if |r.pool[l].keys| == t.order then l else NULL);
    var i := ChainIndex(t, l);
    var pre, suf := LeafWindow(t, i, k);
    var pre', suf' := LeafWindow(r, i, k);
    PutLeafOutside(t, l, pos, k, row, i);
    var a, b := PutEntries(t.pool[l], pos, k, row);
    before, after := pre + a, b + suf;
    Glue(pre, a, [Entry(k, row)], b, suf, k);
    var here := if pos < |t.pool[l].keys| && t.pool[l].keys[pos] == k then [Entry(k, t.pool[l].slots[pos])] else [];
    Glue(pre, a, here, b, suf, k);
    assert before + [] == before;
  }

  lemma Glue(pre: seq<Entry>, a: seq<Entry>, m: seq<Entry>, b: seq<Entry>, suf: seq<Entry>, k: Key)
    requires AllBelow(pre, k) && AllBelow(a, k) && AllAbove(k, b) && AllAbove(k, suf)
    ensures AllBelow(pre + a, k) && AllAbove(k, b + suf)
    ensures pre + (a + m + b) + suf == pre + a + m + (b + suf)
  {
    hide Less;
  }

  lemma ChainIndex(t: Tree, l: nat) returns (i: nat)
    requires |t.place| == |t.pool| && Chained(t) && l < |t.pool| && t.pool[l].leaf
    ensures i < |t.chain| && t.chain[i] == l
  {
    i :| 0 <= i < |t.chain| && t.chain[i] == l;
  }

  lemma PutLeafOutside(t: Tree, l: nat, pos: nat, k: Key, row: nat, i: nat)
    requires Target(t, l, pos, k) && Ordered(t) && i < |t.chain| && t.chain[i] == l
    ensures var r := PutLeaf(t, l, pos, k, row);
            && Readable(t.pool, t.chain[..i]) && Readable(r.pool, t.chain[..i])
            && Readable(t.pool, t.chain[i + 1..]) && Readable(r.pool, t.chain[i + 1..])
            && Flat(r.pool, t.chain[..i]) == Flat(t.pool, t.chain[..i])
            && Flat(r.pool, t.chain[i + 1..]) == Flat(t.pool, t.chain[i + 1..])
  {
    hide Less, Sorted, Within, LowerBound, Nodes, Counts;
    var r := PutLeaf(t, l, pos, k, row);
    OrderedReadable(t);
    forall j | 0 <= j < |t.chain| && j != i ensures t.chain[j] != l {
      assert Before(t, t.chain[i], t.chain[j]) || Before(t, t.chain[j], t.chain[i]);
    }
    FlatSame(t.pool, r.pool, t.chain[..i]);
    FlatSame(t.pool, r.pool, t.chain[i + 1..]);
  }

  // ... so the denoted map is updated at exactly this key.
  lemma PutLeafMap(t: Tree, l: nat, pos: nat, k: Key, row: nat)
    requires Target(t, l, pos, k)
    ensures Ordered(t) && Ordered(PutLeaf(t, l, pos, k, row))
    ensures var r := PutLeaf(t, l, pos, k, row);
            && ToMap(Contents(r)) == ToMap(Contents(t))[k := row]
            && |Contents(r)| == |Contents(t)| + (if k in ToMap(Contents(t)) then 0 else 1)
  {
    hide Less, Inv;
    var before, after := PutLeafFlat(t, l, pos, k, row);
    var node := t.pool[l];
    ContentsAscending(t);
    if pos < |node.keys| && node.keys[pos] == k {
      OverwriteMap(before, Entry(k, node.slots[pos]), row, after);
      ToMapAt(Contents(t), |before|);
    } else {
      SpliceMap(before, Entry(k, row), after);
    }
  }
}
