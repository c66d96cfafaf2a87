/** Giving the right half of a split a parent: a new root, or a slot beside its left sibling. */
module BPTreePromote {
  import opened Keys
  import opened BPTreePool
  import opened BPTreeContents
  import opened BPTreeOrder
  import opened BPTreePutLeaf

  // ---- A new root ----

  // bptree.cpp insert_into_parent, the branch left == root_.
  function NewRoot(t: Tree, right: nat): Tree
    requires Shape(t, Split(t.root, right)) && t.place[right].lo.At?
  {
    var top := |t.pool|;
    Tree(t.order,
         t.pool[t.root := t.pool[t.root].(parent := top)][right := t.pool[right].(parent := top)]
         + [Node(false, [t.place[right].lo.key], [t.root, right], NULL, NULL, NULL)],
         t.place + [Place(Open, Open, t.place[t.root].level + 1)],
         top, t.chain)
  }

  // The writes that make a new root, one after another.
  lemma RootSteps(t: Tree, right: nat, key: Key)
    requires Shape(t, Split(t.root, right)) && t.place[right].lo == At(key)
    ensures var top := |t.pool|;
            var a := t.(pool := t.pool + [Node(false, [], [0], NULL, NULL, NULL)],
                        place := t.place + [Place(Open, Open, t.place[t.root].level + 1)]);
            var b := a.(pool := a.pool[top := a.pool[top].(keys := [key], slots := [t.root, right])]);
            var c := b.(pool := b.pool[t.root := b.pool[t.root].(parent := top)]);
            var d := c.(pool := c.pool[right := c.pool[right].(parent := top)]);
            d.(root := top) == NewRoot(t, right)
  {
  }

  lemma NewRootNode(t: Tree, right: nat, n: nat)
    requires Inv(t, Split(t.root, right), NULL) && t.place[right].lo.At?
    requires n < |t.pool|
    ensures var r := NewRoot(t, right);
            Shape(r, Settled) && NodeOk(r, Settled, n) && ParentOk(r, Settled, n) && LevelOk(r, Settled, n)
  {
    hide Less, Sorted, Within;
    var r, pend := NewRoot(t, right), Split(t.root, right);
    assert NodeOk(t, pend, n) && ParentOk(t, pend, n) && LevelOk(t, pend, n);
    if !t.pool[n].leaf {
      forall j | 0 <= j < |r.pool[n].slots| ensures KidOk(r, Settled, n, j) {
        assert KidOk(t, pend, n, j);
      }
    }
  }

  lemma NewRootTop(t: Tree, right: nat)
    requires Inv(t, Split(t.root, right), NULL) && t.place[right].lo.At?
    ensures var r := NewRoot(t, right);
            Shape(r, Settled) && NodeOk(r, Settled, |t.pool|) && ParentOk(r, Settled, |t.pool|)
              && LevelOk(r, Settled, |t.pool|)
  {
    hide Less;
    var r, pend := NewRoot(t, right), Split(t.root, right);
    forall j | 0 <= j < 2 ensures KidOk(r, Settled, |t.pool|, j) {}
  }

  lemma NewRootChained(t: Tree, right: nat)
    requires Inv(t, Split(t.root, right), NULL) && t.place[right].lo.At?
    ensures var r := NewRoot(t, right); |r.place| == |r.pool| && Chained(r)
  {
    hide Less, Sorted, Within, Nodes, Counts;
    var r := NewRoot(t, right);
    forall i | 0 <= i < |r.chain| ensures LinkOk(r, i) {
      assert LinkOk(t, i);
      assert i + 1 < |t.chain| ==> LinkOk(t, i + 1);
    }
    forall i, j | 0 <= i < j < |r.chain| ensures Before(r, r.chain[i], r.chain[j]) {
      assert Before(t, t.chain[i], t.chain[j]);
    }
  }

  lemma NewRootKeepsInv(t: Tree, right: nat)
    requires Inv(t, Split(t.root, right), NULL) && t.place[right].lo.At?
    ensures Inv(NewRoot(t, right), Settled, NULL)
  {
    hide Less, Sorted, Within;
    var r, pend := NewRoot(t, right), Split(t.root, right);
    NewRootChained(t, right);
    forall n | 0 <= n < |r.pool|
      ensures NodeOk(r, Settled, n) && ParentOk(r, Settled, n) && LevelOk(r, Settled, n)
              && CountOk(r, Settled, NULL, n) {
      if n == |t.pool| {
        NewRootTop(t, right);
      } else {
        NewRootNode(t, right, n);
        assert CountOk(t, pend, NULL, n);
        assert CountOk(t, pend, NULL, right);
      }
    }
  }

  // ---- A slot in an existing parent ----

  // bptree.cpp insert_into_parent, the general branch; pos is the position of left among the parent's children.
  function Attach(t: Tree, up: nat, pos: nat, right: nat): Tree
    requires up < |t.pool| && right < |t.pool| == |t.place| && up != right && t.place[right].lo.At?
    requires pos <= |t.pool[up].keys| && |t.pool[up].slots| == |t.pool[up].keys| + 1
  {
    var node := t.pool[up];
    t.(pool := t.pool[right := t.pool[right].(parent := up)]
                     [up := node.(keys := InsertAt(node.keys, pos, t.place[right].lo.key),
                                  slots := InsertAt(node.slots, pos + 1, right))])
  }

  predicate Slot(t: Tree, left: nat, right: nat, up: nat, pos: nat) {
    && Inv(t, Split(left, right), NULL)
    && left != t.root
    && t.place[right].lo.At?
    && up < |t.pool|
    && t.pool[left].parent == up
    && up != right
    && up != left
    && !t.pool[up].leaf
    && |t.pool[up].slots| == |t.pool[up].keys| + 1
    && pos < |t.pool[up].slots|
    && t.pool[up].slots[pos] == left
  }

  // The parent of a split node exists, is internal, has room, and is neither half.
  lemma ParentHasSlot(t: Tree, left: nat, right: nat)
    requires Inv(t, Split(left, right), NULL) && left != t.root
    ensures t.place[right].lo.At?
    ensures var up := t.pool[left].parent;
            && 0 <= up < |t.pool| && up != right && up != left && !t.pool[up].leaf
            && |t.pool[up].slots| == |t.pool[up].keys| + 1 <= t.order
            && left in t.pool[up].slots
            && t.place[up].level == t.place[left].level + 1 <= t.place[t.root].level
  {
    hide Less, Sorted, Within, Chained;
    var pend, up := Split(left, right), t.pool[left].parent;
    assert ParentOk(t, pend, left);
    assert NodeOk(t, pend, up) && LevelOk(t, pend, up) && CountOk(t, pend, NULL, up);
    var j :| 0 <= j < |t.pool[up].slots| && t.pool[up].slots[j] == left;
    assert KidOk(t, pend, up, j);
  }

  // The promoted key fits strictly between its neighbours in the parent.
  lemma AttachSorted(t: Tree, left: nat, right: nat, up: nat, pos: nat)
    requires Slot(t, left, right, up, pos)
    ensures var keys := InsertAt(t.pool[up].keys, pos, t.place[right].lo.key);
            Sorted(keys) && forall i :: 0 <= i < |keys| ==> Within(keys[i], t.place[up])
  {
    hide Less;
    var pend, key, keys := Split(left, right), t.place[right].lo.key, t.pool[up].keys;
    assert NodeOk(t, pend, up) && KidOk(t, pend, up, pos);
    assert NodeOk(t, pend, left) && NodeOk(t, pend, right);
    forall i | 0 <= i < pos ensures Less(keys[i], key) {
      if i < pos - 1 { LessTransitive(keys[i], keys[pos - 1], key); }
    }
    forall i | pos <= i < |keys| ensures Less(key, keys[i]) {
      if i > pos { LessTransitive(key, keys[pos], keys[i]); }
    }
    AttachWithin(t, left, right, up, pos);
  }

  lemma AttachWithin(t: Tree, left: nat, right: nat, up: nat, pos: nat)
    requires Slot(t, left, right, up, pos)
    ensures Within(t.place[right].lo.key, t.place[up])
  {
    hide Less, Sorted;
    var pend, key, place, keys := Split(left, right), t.place[right].lo.key, t.place[up], t.pool[up].keys;
    assert NodeOk(t, pend, up) && KidOk(t, pend, up, pos);
    assert NodeOk(t, pend, left) && NodeOk(t, pend, right);
    if place.lo.At? {
      if pos > 0 {
        assert Within(keys[pos - 1], place);
        LessMixed(place.lo.key, keys[pos - 1], key);
      }
      LessAsymmetric(place.lo.key, key);
    }
    if place.hi.At? && pos < |keys| {
      assert Within(keys[pos], place);
      LessTransitive(key, keys[pos], place.hi.key);
    }
  }

  lemma AttachParent(t: Tree, left: nat, right: nat, up: nat, pos: nat)
    requires Slot(t, left, right, up, pos)
    ensures var r := Attach(t, up, pos, right); Shape(r, Settled) && NodeOk(r, Settled, up)
  {
    hide Less, Sorted, Within;
    var r, pend := Attach(t, up, pos, right), Split(left, right);
    assert NodeOk(t, pend, up);
    AttachSorted(t, left, right, up, pos);
    var slots, slots' := t.pool[up].slots, r.pool[up].slots;
    forall j | 0 <= j < |slots'| ensures KidOk(r, Settled, up, j) {
      if j <= pos { assert KidOk(t, pend, up, j); } else { assert KidOk(t, pend, up, j - 1); }
    }
    AttachDistinct(t, left, right, up, pos);
  }

  lemma AttachDistinct(t: Tree, left: nat, right: nat, up: nat, pos: nat)
    requires Slot(t, left, right, up, pos)
    ensures var slots := Attach(t, up, pos, right).pool[up].slots;
            forall i, j :: 0 <= i < j < |slots| ==> slots[i] != slots[j]
  {
    hide Less, Sorted, Within, SlotHi, NonEmpty;
    var pend := Split(left, right);
    assert NodeOk(t, pend, up);
    var slots, slots' := t.pool[up].slots, Attach(t, up, pos, right).pool[up].slots;
    forall i, j | 0 <= i < j < |slots'| ensures slots'[i] != slots'[j] {
      assert j - 1 < |slots| && KidOk(t, pend, up, j - 1);
      assert i < |slots| && KidOk(t, pend, up, i);
      if i > 0 { assert KidOk(t, pend, up, i - 1); }
      if j < |slots| { assert KidOk(t, pend, up, j); }
    }
  }

  lemma AttachNode(t: Tree, left: nat, right: nat, up: nat, pos: nat, n: nat)
    requires Slot(t, left, right, up, pos) && n < |t.pool| && n != up
    ensures var r := Attach(t, up, pos, right); Shape(r, Settled) && NodeOk(r, Settled, n)
  {
    hide Less, Sorted, Within;
    var r, pend := Attach(t, up, pos, right), Split(left, right);
    assert NodeOk(t, pend, n);
    if !t.pool[n].leaf {
      forall j | 0 <= j < |r.pool[n].slots| ensures KidOk(r, Settled, n, j) {
        assert KidOk(t, pend, n, j);
      }
    }
  }

  lemma AttachAround(t: Tree, left: nat, right: nat, up: nat, pos: nat, n: nat)
    requires Slot(t, left, right, up, pos) && n < |t.pool|
    ensures var r := Attach(t, up, pos, right); Shape(r, Settled) && ParentOk(r, Settled, n) && LevelOk(r, Settled, n)
  {
    hide Less, Sorted, Within;
    var r, pend := Attach(t, up, pos, right), Split(left, right);
    assert ParentOk(t, pend, n) && LevelOk(t, pend, n);
    assert LevelOk(t, pend, left);
    assert r.pool[up].slots[pos + 1] == right;
    if n != t.root && n != right && t.pool[n].parent == up {
      var j :| 0 <= j < |t.pool[up].slots| && t.pool[up].slots[j] == n;
      assert r.pool[up].slots[if j <= pos then j else j + 1] == n;
    }
  }

  lemma AttachChained(t: Tree, left: nat, right: nat, up: nat, pos: nat)
    requires Slot(t, left, right, up, pos)
    ensures var r := Attach(t, up, pos, right); |r.place| == |r.pool| && Chained(r)
  {
    hide Less, Sorted, Within, Nodes, Counts;
    var r := Attach(t, up, pos, right);
    forall i | 0 <= i < |r.chain| ensures LinkOk(r, i) { assert LinkOk(t, i); }
    forall i, j | 0 <= i < j < |r.chain| ensures Before(r, r.chain[i], r.chain[j]) {
      assert Before(t, t.chain[i], t.chain[j]);
    }
  }

  lemma AttachKeepsInv(t: Tree, left: nat, right: nat, up: nat, pos: nat)
    requires Slot(t, left, right, up, pos)
    ensures var r := Attach(t, up, pos, right);
            Inv(r, Settled, if |r.pool[up].keys| == t.order then up else NULL)
  {
    hide Less, Sorted, Within;
    var r, pend := Attach(t, up, pos, right), Split(left, right);
    var full := if |r.pool[up].keys| == t.order then up else NULL;
    AttachChained(t, left, right, up, pos);
    forall n | 0 <= n < |r.pool|
      ensures NodeOk(r, Settled, n) && ParentOk(r, Settled, n) && LevelOk(r, Settled, n)
              && CountOk(r, Settled, full, n) {
      AttachAround(t, left, right, up, pos, n);
      if n == up { AttachParent(t, left, right, up, pos); } else { AttachNode(t, left, right, up, pos, n); }
      assert CountOk(t, pend, NULL, n);
    }
  }

  // Only internal nodes and links changed, so the entries are those of before.
  lemma SameContents(t: Tree, r: Tree)
    requires Ordered(t) && Ordered(r) && r.chain == t.chain
    requires forall n :: 0 <= n < |t.pool| && t.pool[n].leaf ==>
               n < |r.pool| && r.pool[n].keys == t.pool[n].keys && r.pool[n].slots == t.pool[n].slots
    ensures Contents(r) == Contents(t)
  {
    hide Less, Sorted, Within;
    OrderedReadable(t);
    OrderedReadable(r);
    forall i | 0 <= i < |t.chain| ensures t.pool[t.chain[i]].leaf { assert LinkOk(t, i); }
    FlatSame(t.pool, r.pool, t.chain);
  }

  lemma NewRootContents(t: Tree, right: nat)
    requires Inv(t, Split(t.root, right), NULL) && t.place[right].lo.At?
    ensures Ordered(t) && Ordered(NewRoot(t, right)) && Contents(NewRoot(t, right)) == Contents(t)
  {
    hide Less, Sorted, Within, Nodes, Counts, Chained;
    NewRootKeepsInv(t, right);
    InvOrdered(t, Split(t.root, right), NULL);
    InvOrdered(NewRoot(t, right), Settled, NULL);
    SameContents(t, NewRoot(t, right));
  }

  lemma AttachContents(t: Tree, left: nat, right: nat, up: nat, pos: nat)
    requires Slot(t, left, right, up, pos)
    ensures var r := Attach(t, up, pos, right); Ordered(t) && Ordered(r) && Contents(r) == Contents(t)
  {
    hide Less, Sorted, Within, Nodes, Counts, Chained;
    var r := Attach(t, up, pos, right);
    AttachKeepsInv(t, left, right, up, pos);
    InvOrdered(t, Split(left, right), NULL);
    InvOrdered(r, Settled, if |r.pool[up].keys| == t.order then up else NULL);
    SameContents(t, r);
  }
}
