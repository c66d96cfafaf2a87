/** Descending to a leaf, and what the leaf found says about the whole index. */
module BPTreeSearch {
  import opened Keys
  import opened BPTreePool
  import opened BPTreeContents
  import opened BPTreeOrder
  import opened BPTreePutLeaf
  import opened BPTreeScan

  // The child that find_leaf moves to: an equal separator sends the search right.
  function Route(node: Node, key: Key, pos: nat): nat
    requires pos <= |node.keys|
  {
    if pos < |node.keys| && node.keys[pos] == key then pos + 1 else pos
  }

  lemma RouteStays(t: Tree, n: nat, key: Key, pos: nat)
    requires Shape(t, Settled) && Nodes(t, Settled) && n < |t.pool| && !t.pool[n].leaf
    requires Within(key, t.place[n]) && LowerBound(t.pool[n].keys, key, pos)
    ensures Route(t.pool[n], key, pos) < |t.pool[n].slots|
    ensures var c := t.pool[n].slots[Route(t.pool[n], key, pos)];
            c < |t.pool| && Within(key, t.place[c]) && t.place[c].level < t.place[n].level
  {
    hide Less;
    assert NodeOk(t, Settled, n);
    var keys := t.pool[n].keys;
    var j := Route(t.pool[n], key, pos);
    assert KidOk(t, Settled, n, j);
    if j == pos {
      if pos > 0 { LessAsymmetric(keys[pos - 1], key); }
      if pos < |keys| { LessTotal(key, keys[pos]); }
    } else {
      LessIrreflexive(key);
    }
  }

  // A key is in the index exactly when it is in the leaf responsible for it, with the row id stored there.
  lemma LeafDecides(t: Tree, l: nat, pos: nat, k: Key)
    requires Target(t, l, pos, k)
    ensures Ordered(t)
    ensures var node, m := t.pool[l], ToMap(Contents(t));
            if pos < |node.keys| && node.keys[pos] == k then k in m && m[k] == node.slots[pos] else k !in m
  {
    hide Less, Inv;
    var before, after := PutLeafFlat(t, l, pos, k, 0);
    ContentsAscending(t);
    var node := t.pool[l];
    if pos < |node.keys| && node.keys[pos] == k {
      ToMapAt(Contents(t), |before|);
    } else {
      SpliceMap(before, Entry(k, 0), after);
    }
  }

  // Starting a scan at the lower bound in the responsible leaf.
  lemma LateStart(t: Tree, l: nat, pos: nat, op: CmpOp, key: Key) returns (i: nat)
    requires Target(t, l, pos, key) && Ordered(t) && (op == GT || op == GE)
    ensures i < |t.chain| && t.chain[i] == l && Select(Done(t, i, pos), op, key) == []
  {
    hide Less, Nodes, Counts;
    i := ChainIndex(t, l);
    StartsLate(t, i, pos, op, key);
  }

  lemma GeFromHere(t: Tree, l: nat, pos: nat, i: nat, key: Key)
    requires Target(t, l, pos, key) && Ordered(t) && i < |t.chain| && t.chain[i] == l
    ensures forall q :: |Done(t, i, pos)| <= q < |Contents(t)| ==> Satisfies(GE, Contents(t)[q].key, key)
  {
    hide Less, Nodes, Counts, Chained;
    var before, after := LeafWindow(t, i, key);
    var e := Entries(t.pool[l]);
    assert Done(t, i, pos) == before + e[..pos];
    forall q | |before| + pos <= q < |Contents(t)| ensures Satisfies(GE, Contents(t)[q].key, key) {
      if q >= |before| + |e| {
        LessAsymmetric(key, after[q - |before| - |e|].key);
      }
    }
  }

  lemma EqIsPoint(t: Tree, l: nat, pos: nat, k: Key)
    requires Target(t, l, pos, k)
    ensures Ordered(t)
    ensures var node := t.pool[l];
            Select(Contents(t), EQ, k) == if pos < |node.keys| && node.keys[pos] == k then [node.slots[pos]] else []
  {
    hide Less, Inv;
    var before, after := PutLeafFlat(t, l, pos, k, 0);
    var node := t.pool[l];
    LessIrreflexive(k);
    SelectNone(before, EQ, k);
    SelectNone(after, EQ, k);
    if pos < |node.keys| && node.keys[pos] == k {
      var e := Entry(k, node.slots[pos]);
      SelectStep(before, e, EQ, k);
      SelectConcat(before + [e], after, EQ, k);
    } else {
      SelectConcat(before, after, EQ, k);
    }
  }
}
