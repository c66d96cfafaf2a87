/** Splitting an overfull internal node and moving half of its children. */
module BPTreeSplitInternal {
  import opened Keys
  import opened BPTreePool
  import opened BPTreeOrder
  import opened BPTreePromote

  predicate Overfull(t: Tree, n: nat) {
    && n < |t.pool| == |t.place|
    && !t.pool[n].leaf
    && Inv(t, Settled, n)
    && |t.pool[n].keys| == t.order
    && |t.pool[n].slots| == t.order + 1
  }

  lemma OverfullHere(t: Tree, n: nat)
    requires Inv(t, Settled, n) && n < |t.pool| && !t.pool[n].leaf
    ensures Overfull(t, n)
    ensures forall c :: c in t.pool[n].slots ==> c < |t.pool| && c != n
  {
    hide Less, Sorted, Within, Chained, RootOk;
    assert NodeOk(t, Settled, n) && CountOk(t, Settled, n, n);
    forall c | c in t.pool[n].slots ensures c < |t.pool| && c != n {
      var j :| 0 <= j < |t.pool[n].slots| && t.pool[n].slots[j] == c;
      assert KidOk(t, Settled, n, j);
    }
  }

  function Mid(t: Tree): nat { t.order / 2 }

  function LeftPart(t: Tree, n: nat): Node
    requires Overfull(t, n)
  {
    t.pool[n].(keys := t.pool[n].keys[..Mid(t)], slots := t.pool[n].slots[..Mid(t) + 1])
  }

  function RightPart(t: Tree, n: nat): Node
    requires Overfull(t, n)
  {
    Node(false, t.pool[n].keys[Mid(t) + 1..], t.pool[n].slots[Mid(t) + 1..], NULL, NULL, NULL)
  }

  function MovedNode(t: Tree, n: nat, x: nat): Node
    requires Overfull(t, n) && x < |t.pool|
  {
    if x == n then LeftPart(t, n)
    else if x in RightPart(t, n).slots then t.pool[x].(parent := |t.pool|)
    else t.pool[x]
  }

  // bptree.cpp split_internal up to the call of insert_into_parent.
  function SplitInternalPool(t: Tree, n: nat): seq<Node>
    requires Overfull(t, n)
  {
    seq(|t.pool|, x requires 0 <= x < |t.pool| => MovedNode(t, n, x)) + [RightPart(t, n)]
  }

  lemma SplitInternalIs(t: Tree, n: nat, pool: seq<Node>)
    requires Overfull(t, n) && |pool| == |t.pool| + 1
    requires pool[|t.pool|] == RightPart(t, n)
    requires forall x :: 0 <= x < |t.pool| ==> pool[x] == MovedNode(t, n, x)
    ensures pool == SplitInternalPool(t, n)
  {
    hide Overfull, RightPart, MovedNode;
  }

  function SplitInternal(t: Tree, n: nat): Tree
    requires Overfull(t, n)
  {
    var key := t.pool[n].keys[Mid(t)];
    Tree(t.order, SplitInternalPool(t, n),
         t.place[n := t.place[n].(hi := At(key))] + [Place(At(key), t.place[n].hi, t.place[n].level)],
         t.root, t.chain)
  }

  lemma SplitInternalShape(t: Tree, n: nat)
    requires Overfull(t, n)
    ensures var r, pend := SplitInternal(t, n), Split(n, |t.pool|); Shape(r, pend) && PendOk(r, pend) && RootOk(r, pend)
  {
    hide Less, Nodes, Counts, Chained, MovedNode;
  }

  // Both halves are sorted, non-empty intervals around the promoted key.
  lemma SplitInternalRanges(t: Tree, n: nat)
    requires Overfull(t, n)
    ensures var r := SplitInternal(t, n);
            && NonEmpty(r.place[n]) && NonEmpty(r.place[|t.pool|])
            && Sorted(LeftPart(t, n).keys) && Sorted(RightPart(t, n).keys)
            && (forall i :: 0 <= i < |LeftPart(t, n).keys| ==> Within(LeftPart(t, n).keys[i], r.place[n]))
            && (forall i :: 0 <= i < |RightPart(t, n).keys| ==> Within(RightPart(t, n).keys[i], r.place[|t.pool|]))
  {
    hide Less, KidOk, MovedNode;
    assert NodeOk(t, Settled, n);
    var keys, mid := t.pool[n].keys, Mid(t);
    assert Less(keys[0], keys[mid]);
    assert Within(keys[0], t.place[n]) && Within(keys[mid], t.place[n]);
    if t.place[n].lo.At? { LessMixed(t.place[n].lo.key, keys[0], keys[mid]); }
    forall j | mid < j < |keys| ensures !Less(keys[j], keys[mid]) { LessAsymmetric(keys[mid], keys[j]); }
  }

  lemma SplitInternalLeft(t: Tree, n: nat)
    requires Overfull(t, n)
    ensures var r, pend := SplitInternal(t, n), Split(n, |t.pool|); Shape(r, pend) && NodeOk(r, pend, n)
  {
    hide Less, Sorted, Within, Counts, Chained;
    var r, pend := SplitInternal(t, n), Split(n, |t.pool|);
    SplitInternalShape(t, n);
    SplitInternalRanges(t, n);
    assert NodeOk(t, Settled, n);
    forall j | 0 <= j < |r.pool[n].slots| ensures KidOk(r, pend, n, j) {
      assert KidOk(t, Settled, n, j);
    }
  }

  lemma SplitInternalRight(t: Tree, n: nat)
    requires Overfull(t, n)
    ensures var r, pend := SplitInternal(t, n), Split(n, |t.pool|); Shape(r, pend) && NodeOk(r, pend, |t.pool|)
  {
    hide Less, Sorted, Within, Counts, Chained;
    var r, pend, top := SplitInternal(t, n), Split(n, |t.pool|), |t.pool|;
    SplitInternalShape(t, n);
    SplitInternalRanges(t, n);
    assert NodeOk(t, Settled, n);
    forall j | 0 <= j < |r.pool[top].slots| ensures KidOk(r, pend, top, j) {
      assert KidOk(t, Settled, n, Mid(t) + 1 + j);
      assert r.pool[top].slots[j] == t.pool[n].slots[Mid(t) + 1 + j];
    }
  }

  lemma MovedKid(t: Tree, n: nat, c: nat)
    requires Overfull(t, n) && c in RightPart(t, n).slots
    ensures c < |t.pool| && c != n && c != t.root && t.pool[c].parent == n
  {
    hide Less, Sorted, Within, Counts, Chained, RootOk;
    var q :| 0 <= q < |RightPart(t, n).slots| && RightPart(t, n).slots[q] == c;
    assert NodeOk(t, Settled, n) && KidOk(t, Settled, n, Mid(t) + 1 + q);
  }

  // A child of another node is not one of those that move.
  lemma SplitInternalOther(t: Tree, n: nat, x: nat)
    requires Overfull(t, n) && x < |t.pool| && x != n
    ensures var r, pend := SplitInternal(t, n), Split(n, |t.pool|); Shape(r, pend) && NodeOk(r, pend, x)
  {
    hide Less, Sorted, Within, Counts, Chained;
    var r, pend := SplitInternal(t, n), Split(n, |t.pool|);
    SplitInternalShape(t, n);
    assert NodeOk(t, Settled, x) && NodeOk(t, Settled, n);
    if !t.pool[x].leaf {
      forall j | 0 <= j < |r.pool[x].slots| ensures KidOk(r, pend, x, j) {
        assert KidOk(t, Settled, x, j);
        var c := t.pool[x].slots[j];
        if c in RightPart(t, n).slots { MovedKid(t, n, c); }
      }
    }
  }

  lemma SplitInternalAround(t: Tree, n: nat, x: nat)
    requires Overfull(t, n) && x <= |t.pool|
    ensures var r, pend := SplitInternal(t, n), Split(n, |t.pool|);
            Shape(r, pend) && ParentOk(r, pend, x) && LevelOk(r, pend, x)
  {
    hide Less, Sorted, Within, Counts, Chained;
    var r, pend := SplitInternal(t, n), Split(n, |t.pool|);
    SplitInternalShape(t, n);
    assert LevelOk(t, Settled, n) && NodeOk(t, Settled, n);
    if x < |t.pool| {
      assert ParentOk(t, Settled, x) && LevelOk(t, Settled, x);
      if x in RightPart(t, n).slots {
        MovedKid(t, n, x);
      } else if x != t.root && t.pool[x].parent == n {
        var q :| 0 <= q < |t.pool[n].slots| && t.pool[n].slots[q] == x;
        var slots := t.pool[n].slots;
        assert slots == LeftPart(t, n).slots + RightPart(t, n).slots;
        assert x in LeftPart(t, n).slots;
      }
    }
  }

  lemma SplitInternalCount(t: Tree, n: nat, x: nat)
    requires Overfull(t, n) && x <= |t.pool|
    ensures CountOk(SplitInternal(t, n), Split(n, |t.pool|), NULL, x)
  {
    hide Less, Sorted, Within, Nodes, Chained;
    assert CountOk(t, Settled, n, n);
    if x < |t.pool| { assert CountOk(t, Settled, n, x); }
  }

  lemma SplitInternalChained(t: Tree, n: nat)
    requires Overfull(t, n)
    ensures var r := SplitInternal(t, n); |r.place| == |r.pool| && Chained(r)
  {
    hide Less, Sorted, Within, Nodes, Counts;
    var r := SplitInternal(t, n);
    forall i | 0 <= i < |r.chain| ensures LinkOk(r, i) {
      assert LinkOk(t, i);
      assert i + 1 < |t.chain| ==> LinkOk(t, i + 1);
    }
    forall i, j | 0 <= i < j < |r.chain| ensures Before(r, r.chain[i], r.chain[j]) {
      assert LinkOk(t, i) && LinkOk(t, j);
      assert Before(t, t.chain[i], t.chain[j]);
    }
  }

  lemma SplitInternalKeepsInv(t: Tree, n: nat)
    requires Overfull(t, n)
    ensures Inv(SplitInternal(t, n), Split(n, |t.pool|), NULL)
  {
    hide Less, Sorted, Within, Chained, MovedNode;
    var r, pend := SplitInternal(t, n), Split(n, |t.pool|);
    SplitInternalShape(t, n);
    SplitInternalChained(t, n);
    assert Counts(r, pend, NULL) by {
      forall x | 0 <= x < |r.pool| ensures CountOk(r, pend, NULL, x) { SplitInternalCount(t, n, x); }
    }
    forall x | 0 <= x < |r.pool| ensures NodeOk(r, pend, x) && ParentOk(r, pend, x) && LevelOk(r, pend, x) {
      SplitInternalAround(t, n, x);
      if x == n { SplitInternalLeft(t, n); }
      else if x == |t.pool| { SplitInternalRight(t, n); }
      else { SplitInternalOther(t, n, x); }
    }
  }

  lemma SplitInternalContents(t: Tree, n: nat)
    requires Overfull(t, n)
    ensures var r := SplitInternal(t, n); Ordered(t) && Ordered(r) && Contents(r) == Contents(t)
  {
    hide Less, Sorted, Within, Nodes, Counts, Chained;
    var r := SplitInternal(t, n);
    SplitInternalKeepsInv(t, n);
    InvOrdered(t, Settled, n);
    InvOrdered(r, Split(n, |t.pool|), NULL);
    SameContents(t, r);
  }
}
