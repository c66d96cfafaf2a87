/** The B+ tree index: insert with cascading splits, point lookup and range scans. */
module BPTree {
  import opened Keys
  import opened BPTreePool
  import opened BPTreeContents
  import opened BPTreeOrder
  import opened BPTreePutLeaf
  import opened BPTreeSplitLeaf
  import opened BPTreePromote
  import opened BPTreeSplitInternal
  import opened BPTreeSearch
  import opened BPTreeScan
  import opened BPTreeNode

  // How a scan loop treats a key: report every one, skip those that fail the operator, or return at the first that
  // fails.
  datatype Treatment = Every | Skip | Return

  class Index {
    const order: nat
    var pool: seq<TreeNode>
    var root: nat
    var leftmost: nat
    var size: nat
    var height: nat
    ghost var model: Tree

    ghost function Footprint(): set<object>
      reads this
    {
      {this} + Memory(pool)
    }

    // The model is what lies in memory.
    ghost predicate Shaped()
      reads this, pool, Memory(pool)
    {
      && model.order == order
      && model.root == root
      && |pool| == |model.pool|
      && Holds(pool, order, model.pool)
    }

    ghost predicate Good(pend: Pending, full: int)
      reads this, pool, Memory(pool)
    {
      && Shaped()
      && Inv(model, pend, full)
      && Ordered(model)
      && height == model.place[root].level + 1
    }

    ghost predicate Valid()
      reads this, pool, Memory(pool)
    {
      && Good(Settled, NULL)
      && leftmost == model.chain[0]
      && size == |Contents(model)|
    }

    constructor (order: nat)
      requires order >= 3
      ensures Valid() && this.order == order && fresh(Footprint())
      ensures Contents(model) == []
    {
      hide Inv, Ordered, Contents, Memory, Less;
      var node := new TreeNode(order, true);
      this.order := order;
      pool, root, leftmost, size, height := [node], 0, 0, 0, 1;
      model := EmptyTree(order);
      new;
      EmptyTreeInv(order);
      MemoryAppend([], node);
      assert Memory([]) == {} by { NoMemory(); }
      assert pool == [] + [node];
    }

    // bptree.cpp find_leaf
    method FindLeaf(key: Key) returns (l: nat)
      requires Good(Settled, NULL)
      ensures Good(Settled, NULL) && l < |pool| && pool[l].isLeaf && l < |model.place| && Within(key, model.place[l])
    {
      hide Less, Counts, Chained, Ordered;
      ghost var t := model;
      l := root;
      while !pool[l].isLeaf
        invariant Shaped() && model == t
        invariant l < |pool| && l < |t.place| && Within(key, t.place[l])
        decreases t.place[l].level
      {
        assert NodeOk(t, Settled, l);
        var cur := pool[l];
        assert cur.Shows(order, t.pool[l]);
        assert cur.keys[..cur.numKeys] == t.pool[l].keys;
        var idx := cur.FindLowerBound(key);
        RouteStays(t, l, key, idx);
        if idx == cur.numKeys {
          l := cur.slots[idx];
        } else if cur.keys[idx] == key {
          l := cur.slots[idx + 1];
        } else {
          l := cur.slots[idx];
        }
      }
      assert pool[l].Shows(order, t.pool[l]);
    }

    // bptree.cpp alloc_node
    method Alloc(leaf: bool, ghost where: Place) returns (n: nat)
      requires Shaped()
      modifies this`pool, this`model
      ensures Shaped() && n == |old(pool)| && |pool| == n + 1 && pool[..n] == old(pool)
      ensures fresh(pool[n]) && fresh(pool[n].keys) && fresh(pool[n].slots) && pool[n].isLeaf == leaf
      ensures Footprint() == old(Footprint()) + {pool[n], pool[n].keys, pool[n].slots}
      ensures model == old(model).(pool := old(model).pool
                                   + [Node(leaf, [], if leaf then [] else [0], NULL, NULL, NULL)],
                                   place := old(model).place + [where])
    {
      hide Memory;
      var node := new TreeNode(order, leaf);
      n := |pool|;
      pool := pool + [node];
      model := model.(pool := model.pool + [Node(leaf, [], if leaf then [] else [0], NULL, NULL, NULL)],
                      place := model.place + [where]);
      MemoryAppend(old(pool), node);
      forall i | 0 <= i < n ensures pool[i].Shows(order, model.pool[i]) && Apart(pool[i], node) {
        assert old(pool[i].Shows(order, model.pool[i]));
      }
    }

    // Single-field writes node->parent, node->next, node->prev.
    method SetLinks(n: nat, next: int, prev: int, parent: int)
      requires Shaped() && n < |pool|
      modifies pool[n], this`model
      ensures Shaped()
      ensures model == old(model).(pool :=
                old(model).pool[n := old(model).pool[n].(next := next, prev := prev, parent := parent)])
    {
      ApartFrom(pool, order, model.pool, n);
      pool[n].next, pool[n].prev, pool[n].parent := next, prev, parent;
      model := model.(pool := model.pool[n := pool[n].View()]);
    }

    method SetParent(n: nat, parent: int)
      requires Shaped() && n < |pool|
      modifies pool[n], this`model
      ensures Shaped() && model == old(model).(pool := old(model).pool[n := old(model).pool[n].(parent := parent)])
    {
      hide Memory;
      ApartFrom(pool, order, model.pool, n);
      SetLinks(n, pool[n].next, pool[n].prev, parent);
    }

    // Fill the node just allocated for a new root.
    method FillRoot(top: nat, key: Key, left: nat, right: nat)
      requires Shaped() && order >= 3 && top < |pool| && !pool[top].isLeaf
      modifies pool[top], pool[top].keys, pool[top].slots, this`model
      ensures Shaped()
      ensures model == old(model).(pool :=
                old(model).pool[top := old(model).pool[top].(keys := [key], slots := [left, right])])
    {
      ApartFrom(pool, order, model.pool, top);
      var node := pool[top];
      node.keys[0] := key;
      node.slots[0] := left;
      node.slots[1] := right;
      node.numKeys := 1;
      assert node.keys[..1] == [key] && node.slots[..2] == [left, right];
      model := model.(pool := model.pool[top := node.View()]);
    }

    method SetRoot(top: nat)
      requires Shaped() && top < |pool|
      modifies this`root, this`height, this`model
      ensures Shaped() && model == old(model).(root := top)
      ensures root == top && height == old(height) + 1
    {
      root := top;
      height := height + 1;
      model := model.(root := top);
    }

    // bptree.cpp insert_into_parent, first branch: the root was split.
    method GrowRoot(key: Key, right: nat)
      requires Good(Split(root, right), NULL) && model.place[right].lo == At(key)
      modifies Footprint()
      ensures Shaped() && model == NewRoot(old(model), right)
      ensures height == old(height) + 1 && size == old(size) && leftmost == old(leftmost)
      ensures fresh(Footprint() - old(Footprint()))
    {
      hide Less, PendOk, RootOk, Nodes, Counts, Chained, Ordered, Memory, Holds, NewRoot;
      var left := root;
      InMemory(pool, left);
      InMemory(pool, right);
      var top := Alloc(false, Place(Open, Open, model.place[root].level + 1));
      FillRoot(top, key, left, right);
      Adopt(left, right, top);
      SetRoot(top);
      RootSteps(old(model), right, key);
    }

    // left->parent = right->parent = top
    method Adopt(left: nat, right: nat, top: nat)
      requires Shaped() && left < |pool| && right < |pool|
      modifies pool[left], pool[right], this`model
      ensures Shaped()
      ensures var a := old(model).(pool := old(model).pool[left := old(model).pool[left].(parent := top)]);
              model == a.(pool := a.pool[right := a.pool[right].(parent := top)])
    {
      hide Memory, Holds;
      SetParent(left, top);
      SetParent(right, top);
    }

    method InsertChildAt(n: nat, pos: nat, key: Key, child: nat)
      requires Shaped() && n < |pool| && !pool[n].isLeaf && pos <= |model.pool[n].keys| < order
      modifies pool[n], pool[n].keys, pool[n].slots, this`model
      ensures Shaped()
      ensures |old(model).pool[n].slots| == |old(model).pool[n].keys| + 1
      ensures var node := old(model).pool[n];
              model == old(model).(pool := old(model).pool[n :=
                node.(keys := InsertAt(node.keys, pos, key), slots := InsertAt(node.slots, pos + 1, child))])
    {
      ApartFrom(pool, order, model.pool, n);
      pool[n].InsertChild(pos, key, child);
      model := model.(pool := model.pool[n := pool[n].View()]);
    }

    // bptree.cpp insert_into_parent, second branch, up to the overflow test.
    method AttachChild(left: nat, key: Key, right: nat) returns (up: nat, ghost pos: nat)
      requires Good(Split(left, right), NULL) && left != root && model.place[right].lo == At(key)
      modifies Memory(pool), this`model
      ensures pool == old(pool)
      ensures root == old(root) && height == old(height) && size == old(size) && leftmost == old(leftmost)
      ensures old(Slot(model, left, right, up, pos))
      ensures Shaped() && model == Attach(old(model), up, pos, right)
    {
      hide Less, PendOk, RootOk, Nodes, Counts, Chained, Ordered, Memory, Holds;
      ParentHasSlot(model, left, right);
      ReadNode(left);
      up := pool[left].parent;
      ReadNode(up);
      InMemory(pool, up);
      InMemory(pool, right);
      SetParent(right, up);
      var at := FindSlot(up, left);
      pos := at;
      InsertChildAt(up, at, key, right);
    }

    // The scan for the position of a child among its parent's children.
    method FindSlot(up: nat, child: nat) returns (pos: nat)
      requires Shaped() && up < |pool| && !pool[up].isLeaf && child in model.pool[up].slots
      ensures Shaped() && pos < |model.pool[up].slots| && model.pool[up].slots[pos] == child
    {
      ApartFrom(pool, order, model.pool, up);
      var node := pool[up];
      ghost var slots := model.pool[up].slots;
      ghost var j :| 0 <= j < |slots| && slots[j] == child;
      pos := 0;
      while pos <= node.numKeys && node.slots[pos] != child
        invariant 0 <= pos <= j
      {
        assert node.slots[pos] == slots[pos];
        pos := pos + 1;
      }
      assert slots[pos] == node.slots[pos];
    }

    method TakeUpperInto(dst: nat, src: nat, start: nat)
      requires Shaped() && dst < |pool| && src < |pool| && dst != src && pool[dst].isLeaf == pool[src].isLeaf
      requires start <= |model.pool[src].keys|
      modifies pool[dst], pool[dst].keys, pool[dst].slots, this`model
      ensures Shaped() && start <= |old(model).pool[src].slots|
      ensures var node := old(model).pool[src];
              model == old(model).(pool := old(model).pool[dst :=
                old(model).pool[dst].(keys := node.keys[start..], slots := node.slots[start..])])
    {
      ApartFrom(pool, order, model.pool, dst);
      pool[dst].TakeUpper(pool[src], start);
      model := model.(pool := model.pool[dst := pool[dst].View()]);
    }

    method DropUpperOf(n: nat, count: nat)
      requires Shaped() && n < |pool| && count <= |model.pool[n].keys|
      modifies pool[n], this`model
      ensures Shaped() && count + (if pool[n].isLeaf then 0 else 1) <= |old(model).pool[n].slots|
      ensures var node := old(model).pool[n];
              model == old(model).(pool := old(model).pool[n :=
                node.(keys := node.keys[..count], slots := node.slots[..count + if pool[n].isLeaf then 0 else 1])])
    {
      ApartFrom(pool, order, model.pool, n);
      pool[n].DropUpper(count);
      model := model.(pool := model.pool[n := pool[n].View()]);
    }

    method AdoptChildren(n: nat)
      requires Shaped() && n < |pool| && !pool[n].isLeaf
      requires forall c :: c in model.pool[n].slots ==> c < |pool| && c != n
      modifies Memory(pool), this`model
      ensures pool == old(pool) && Shaped() && |model.pool| == |old(model).pool|
      ensures root == old(root) && height == old(height) && size == old(size) && leftmost == old(leftmost)
      ensures model == old(model).(pool := model.pool)
      ensures forall x :: 0 <= x < |pool| ==>
                model.pool[x] == if x in old(model).pool[n].slots then old(model).pool[x].(parent := n)
                  else old(model).pool[x]
    {
      hide Memory, Holds;
      ghost var base := model;
      ghost var slots := model.pool[n].slots;
      ReadNode(n);
      var count := pool[n].numKeys + 1;
      var i := 0;
      while i < count
        invariant 0 <= i <= count == |slots| && pool == old(pool)
        invariant root == old(root) && height == old(height) && size == old(size) && leftmost == old(leftmost)
        invariant Shaped() && |model.pool| == |base.pool| && model == base.(pool := model.pool)
        invariant model.pool[n] == base.pool[n]
        invariant forall x :: 0 <= x < |pool| ==>
                    model.pool[x] == if x in slots[..i] then base.pool[x].(parent := n) else base.pool[x]
      {
        ReadNode(n);
        var c := pool[n].slots[i];
        assert c == slots[i] && c in slots;
        InMemory(pool, c);
        SetParent(c, n);
        assert slots[..i + 1] == slots[..i] + [c];
        i := i + 1;
      }
      assert slots[..i] == slots;
    }

    lemma ReadNode(n: nat)
      requires Shaped() && n < |pool|
      ensures pool[n].isLeaf == model.pool[n].leaf && pool[n].parent == model.pool[n].parent
      ensures pool[n].next == model.pool[n].next && pool[n].prev == model.pool[n].prev
      ensures pool[n].keys.Length == order && pool[n].slots.Length == order + 1 && pool[n].numKeys <= order
      ensures pool[n].keys[..pool[n].numKeys] == model.pool[n].keys
      ensures pool[n].slots[..pool[n].numKeys + (if pool[n].isLeaf then 0 else 1)] == model.pool[n].slots
    {
      ApartFrom(pool, order, model.pool, n);
    }

    // The upper part of an internal node goes to a new node, which becomes its children's parent.
    method MoveUpper(n: nat, mid: nat, key: Key) returns (right: nat)
      requires Shaped() && n < |pool| && !pool[n].isLeaf
      requires Overfull(model, n) && mid == Mid(model) < model.order
      requires forall c :: c in model.pool[n].slots ==> c < |pool| && c != n
      modifies Footprint()
      ensures Shaped() && right == |old(pool)| && |pool| == right + 1 && pool[..right] == old(pool) && !pool[n].isLeaf
      ensures var t := old(model);
              && model == t.(pool := model.pool, place := t.place + [Place(At(key), t.place[n].hi, t.place[n].level)])
              && model.pool[right] == RightPart(t, n)
              && forall x :: 0 <= x < right ==>
                   model.pool[x] == if x in RightPart(t, n).slots then t.pool[x].(parent := right) else t.pool[x]
      ensures n !in RightPart(old(model), n).slots
      ensures root == old(root) && height == old(height) && size == old(size) && leftmost == old(leftmost)
      ensures fresh(Footprint() - old(Footprint()))
    {
      hide Inv, Memory, Holds;
      ghost var t := model;
      InMemory(pool, n);
      right := Alloc(false, Place(At(key), t.place[n].hi, t.place[n].level));
      TakeUpperInto(right, n, mid + 1);
      ghost var moved := model.pool[right].slots;
      assert forall c :: c in moved ==> c in t.pool[n].slots;
      AdoptChildren(right);
      ReadNode(n);
    }

    // bptree.cpp split_internal up to its call of insert_into_parent.
    method HalveInternal(n: nat) returns (key: Key, right: nat)
      requires Good(Settled, n) && n < |pool| && !pool[n].isLeaf
      modifies Footprint()
      ensures Overfull(old(model), n)
      ensures Shaped() && model == SplitInternal(old(model), n)
      ensures right == |old(pool)| && model.place[right].lo == At(key)
      ensures root == old(root) && height == old(height) && size == old(size) && leftmost == old(leftmost)
      ensures fresh(Footprint() - old(Footprint()))
    {
      hide Less, PendOk, RootOk, Nodes, Counts, Chained, Ordered, Memory, Holds;
      ghost var t := model;
      ReadNode(n);
      OverfullHere(t, n);
      var mid := pool[n].numKeys / 2;
      key := pool[n].keys[mid];
      assert key == t.pool[n].keys[mid];
      right := MoveUpper(n, mid, key);
      InMemory(pool, n);
      DropUpperOf(n, mid);
      SetHi(n, key);
      SplitInternalIs(t, n, model.pool);
    }

    ghost method SetHi(n: nat, key: Key)
      requires Shaped() && n < |model.place|
      modifies this`model
      ensures Shaped() && model == old(model).(place := old(model).place[n := old(model).place[n].(hi := At(key))])
    {
      model := model.(place := model.place[n := model.place[n].(hi := At(key))]);
    }

    // Link leaf `right` in after leaf l.
    method LinkAfter(l: nat, right: nat)
      requires Shaped() && l < |pool| && right < |pool| && l != right
      requires var next := model.pool[l].next; next == NULL || (0 <= next < |pool| && next != l && next != right)
      modifies Memory(pool), this`model
      ensures pool == old(pool) && Shaped()
      ensures root == old(root) && height == old(height) && size == old(size) && leftmost == old(leftmost)
      ensures model == old(model).(pool := Linked(old(model).pool, l, right))
    {
      hide Memory, Holds;
      ReadNode(l);
      ReadNode(right);
      InMemory(pool, l);
      InMemory(pool, right);
      var next := pool[l].next;
      SetLinks(right, next, l, pool[right].parent);
      if next != NULL {
        InMemory(pool, next);
        ReadNode(next);
        SetLinks(next, pool[next].next, right, pool[next].parent);
      }
      ReadNode(l);
      SetLinks(l, right, pool[l].prev, pool[l].parent);
    }

    // bptree.cpp split_leaf up to its call of insert_into_parent; i is the leaf's place in the chain.
    method HalveLeaf(l: nat, ghost i: nat) returns (key: Key, right: nat)
      requires Good(Settled, l) && i < |model.chain| && model.chain[i] == l
      modifies Footprint()
      ensures Shaped() && model == SplitLeaf(old(model), i)
      ensures right == |old(pool)| && model.place[right].lo == At(key)
      ensures root == old(root) && height == old(height) && size == old(size) && leftmost == old(leftmost)
      ensures fresh(Footprint() - old(Footprint()))
    {
      hide Less, PendOk, RootOk, Nodes, Counts, Chained, Ordered, Memory, Holds, Linked, SplitLeafPool;
      ghost var t := model;
      LeafToHalve(t, i);
      ReadNode(l);
      var mid := pool[l].numKeys / 2;
      ghost var first := t.pool[l].keys[mid];
      InMemory(pool, l);
      right := Alloc(true, Place(At(first), t.place[l].hi, 0));
      TakeUpperInto(right, l, mid);
      DropUpperOf(l, mid);
      assert model.pool == Halved(t, l);
      HalvedLinked(t, l);
      ReadNode(right);
      key := pool[right].keys[0];
      assert model.pool[right].keys[0] == first;
      LinkAfter(l, right);
      SetHi(l, first);
      Enlist(i, right);
    }

    // The new leaf takes its place in the chain after position i.
    ghost method Enlist(i: nat, right: nat)
      requires Shaped() && i < |model.chain|
      modifies this`model
      ensures Shaped() && model == old(model).(chain := old(model).chain[..i + 1] + [right] + old(model).chain[i + 1..])
    {
      model := model.(chain := model.chain[..i + 1] + [right] + model.chain[i + 1..]);
    }

    // bptree.cpp insert_into_parent: give the right half a parent, splitting upwards while nodes overflow.
    method InsertIntoParent(left: nat, key: Key, right: nat)
      requires Good(Split(left, right), NULL) && model.place[right].lo == At(key)
      modifies Footprint()
      ensures Good(Settled, NULL) && fresh(Footprint() - old(Footprint()))
      ensures Contents(model) == old(Contents(model)) && model.chain == old(model.chain)
      ensures size == old(size) && leftmost == old(leftmost)
      decreases height - model.place[left].level, 0
    {
      hide Less, PendOk, RootOk, Nodes, Counts, Chained, Ordered, Holds, Contents;
      ghost var t := model;
      if left == root {
        NewRootKeepsInv(t, right);
        NewRootContents(t, right);
        GrowRoot(key, right);
      } else {
        ParentHasSlot(t, left, right);
        var up, pos := AttachChild(left, key, right);
        AttachKeepsInv(t, left, right, up, pos);
        AttachContents(t, left, right, up, pos);
        ReadNode(up);
        if pool[up].numKeys >= order {
          SplitInternalNode(up);
        }
      }
    }

    // bptree.cpp split_internal
    method SplitInternalNode(n: nat)
      requires Good(Settled, n) && n < |pool| && !pool[n].isLeaf
      modifies Footprint()
      ensures Good(Settled, NULL) && fresh(Footprint() - old(Footprint()))
      ensures Contents(model) == old(Contents(model)) && model.chain == old(model.chain)
      ensures size == old(size) && leftmost == old(leftmost)
      decreases height - model.place[n].level, 1
    {
      hide Less, PendOk, RootOk, Nodes, Counts, Chained, Ordered, Holds, Contents;
      ghost var t := model;
      var key, right := HalveInternal(n);
      SplitInternalKeepsInv(t, n);
      SplitInternalContents(t, n);
      ghost var mid := Footprint();
      InsertIntoParent(n, key, right);
      assert Footprint() - old(Footprint()) <= (Footprint() - mid) + (mid - old(Footprint()));
    }

    // bptree.cpp split_leaf
    method SplitLeafNode(l: nat)
      requires Good(Settled, l) && l < |pool| && model.pool[l].leaf
      modifies Footprint()
      ensures Good(Settled, NULL) && fresh(Footprint() - old(Footprint()))
      ensures Contents(model) == old(Contents(model)) && model.chain[0] == old(model.chain[0])
      ensures size == old(size) && leftmost == old(leftmost)
    {
      hide Less, PendOk, RootOk, Nodes, Counts, Chained, Ordered, Holds, Contents, SplitLeaf;
      ghost var t := model;
      ghost var i := ChainIndex(t, l);
      var key, right := HalveLeaf(l, i);
      SplitLeafKeepsInv(t, i);
      SplitLeafKeepsHead(t, i);
      SplitLeafContents(t, i);
      ghost var mid := Footprint();
      InsertIntoParent(l, key, right);
      assert Footprint() - old(Footprint()) <= (Footprint() - mid) + (mid - old(Footprint()));
    }

    // Write an entry into a leaf: overwrite the row id of an equal key, or shift and insert.
    method PutEntry(l: nat, pos: nat, key: Key, row: nat)
      requires Good(Settled, NULL) && l < |pool| && Target(model, l, pos, key)
      modifies Memory(pool), this`model, this`size
      ensures pool == old(pool) && Shaped() && model == PutLeaf(old(model), l, pos, key, row)
      ensures root == old(root) && height == old(height) && leftmost == old(leftmost)
      ensures size == old(size) + |model.pool[l].keys| - |old(model).pool[l].keys|
    {
      hide Less, PendOk, RootOk, Nodes, Counts, Chained, Ordered, LowerBound, Memory;
      ApartFrom(pool, order, model.pool, l);
      LeafRoom(model, l);
      InMemory(pool, l);
      var leaf := pool[l];
      if pos < leaf.numKeys && leaf.keys[pos] == key {
        leaf.slots[pos] := row;
      } else {
        leaf.InsertEntry(pos, key, row);
        size := size + 1;
      }
      model := model.(pool := model.pool[l := leaf.View()]);
    }

    // bptree.cpp insert: the index afterwards denotes the old map with key bound to row.
    method Insert(key: Key, row: nat) returns (done: bool)
      requires Valid()
      modifies Footprint()
      ensures done && Valid() && fresh(Footprint() - old(Footprint()))
      ensures ToMap(Contents(model)) == old(ToMap(Contents(model)))[key := row]
    {
      hide Less, PendOk, RootOk, Nodes, Counts, Chained, Ordered, Holds, Contents, LowerBound;
      var l := FindLeaf(key);
      var pos := Locate(l, key);
      ghost var t := model;
      PutLeafKeepsInv(t, l, pos, key, row);
      PutLeafMap(t, l, pos, key, row);
      LeafDecides(t, l, pos, key);
      PutEntry(l, pos, key, row);
      ReadNode(l);
      if pool[l].numKeys >= order {
        SplitLeafNode(l);
      }
      done := true;
    }

    method Locate(l: nat, key: Key) returns (pos: nat)
      requires Good(Settled, NULL) && l < |pool| && pool[l].isLeaf && Within(key, model.place[l])
      ensures Good(Settled, NULL) && Target(model, l, pos, key)
    {
      hide Less, Counts, Chained, Ordered;
      ReadNode(l);
      assert NodeOk(model, Settled, l);
      pos := pool[l].FindLowerBound(key);
    }

    // bptree.cpp find
    method Find(key: Key) returns (row: int)
      requires Valid()
      ensures var m := ToMap(Contents(model)); row == if key in m then m[key] else -1
    {
      hide Less, PendOk, RootOk, Nodes, Counts, Chained, Ordered, Holds, Contents, LowerBound;
      var l := FindLeaf(key);
      var pos := Locate(l, key);
      LeafDecides(model, l, pos, key);
      ReadNode(l);
      if pos < pool[l].numKeys && pool[l].keys[pos] == key {
        row := pool[l].slots[pos];
      } else {
        row := -1;
      }
    }

    lemma ReadLeaf(c: nat)
      requires Good(Settled, NULL) && c < |model.chain|
      ensures var l := model.chain[c];
              && l < |pool| && |model.pool[l].keys| == |model.pool[l].slots| == pool[l].numKeys
              && pool[l].next == if c + 1 < |model.chain| then model.chain[c + 1] else NULL
      ensures var l := model.chain[c];
              && pool[l].numKeys <= pool[l].keys.Length && pool[l].numKeys <= pool[l].slots.Length
              && forall j :: 0 <= j < pool[l].numKeys ==>
                   pool[l].keys[j] == model.pool[l].keys[j] && pool[l].slots[j] == model.pool[l].slots[j]
    {
      hide Less;
      assert LinkOk(model, c) && NodeOk(model, Settled, model.chain[c]);
      var node, view := pool[model.chain[c]], model.pool[model.chain[c]];
      ReadNode(model.chain[c]);
      forall j | 0 <= j < node.numKeys ensures node.keys[j] == view.keys[j] && node.slots[j] == view.slots[j] {
        assert node.keys[..node.numKeys][j] == node.keys[j] && node.slots[..node.numKeys][j] == node.slots[j];
      }
    }

    // Every entry from position `floor` of the listing on satisfies the operator.
    ghost predicate AllFrom(floor: nat, op: CmpOp, key: Key)
      requires Ordered(model)
      reads this
    {
      forall q :: floor <= q < |Contents(model)| ==> Satisfies(op, Contents(model)[q].key, key)
    }

    // The inner loop of the scans, over one leaf.
    method WalkLeaf(leaf: nat, from: nat, ghost c: nat, ghost floor: nat, seen: seq<nat>,
                    how: Treatment, op: CmpOp, key: Key, more: seq<nat> -> bool)
      returns (visited: seq<nat>, stopped: bool)
      requires Valid() && c < |model.chain| && model.chain[c] == leaf < |model.pool|
               && from <= |model.pool[leaf].keys| == |model.pool[leaf].slots|
      requires seen == Select(Done(model, c, from), op, key) && Running(seen, more)
      requires how == Every ==> floor <= |Done(model, c, from)| && AllFrom(floor, op, key)
      requires how == Return ==> op == LT || op == LE
      ensures Valid()
      ensures stopped ==> IsVisit(visited, Select(Contents(model), op, key), more)
      ensures !stopped ==> visited == Select(Done(model, c, |model.pool[leaf].keys|), op, key) && Running(visited, more)
      ensures !stopped && how == Every ==> floor <= |Done(model, c, |model.pool[leaf].keys|)|
    {
      hide Less, Satisfies, Inv, Ordered, Holds, Contents, Done, Ahead, Select;
      ghost var t := model;
      ReadLeaf(c);
      var i := from;
      visited, stopped := seen, false;
      while i < pool[leaf].numKeys
        invariant Valid() && model == t && i <= |t.pool[leaf].keys| == pool[leaf].numKeys
        invariant visited == Select(Done(t, c, i), op, key) && Running(visited, more)
        invariant how == Every ==> floor <= |Done(t, c, i)| && AllFrom(floor, op, key)
      {
        ReadLeaf(c);
        assert pool[leaf].keys[i] == t.pool[leaf].keys[i] && pool[leaf].slots[i] == t.pool[leaf].slots[i];
        NextEntry(t, c, i);
        DoneEntry(t, c, i);
        SelectStep(Done(t, c, i), Entry(pool[leaf].keys[i], pool[leaf].slots[i]), op, key);
        if how != Every && !Satisfies(op, pool[leaf].keys[i], key) {
          if how == Return {
            FailsForGood(t, c, i, op, key);
            return visited, true;
          }
        } else {
          RunOn(visited, pool[leaf].slots[i], more);
          visited := visited + [pool[leaf].slots[i]];
          if !more(visited) {
            SelectPrefix(t, c, i + 1, op, key);
            return visited, true;
          }
        }
        i := i + 1;
      }
    }

    // The loop shared by the scans: from position `from` of a leaf to the end of the chain.
    method Walk(start: nat, from: nat, ghost at: nat, how: Treatment, op: CmpOp, key: Key, more: seq<nat> -> bool)
      returns (visited: seq<nat>)
      requires Valid() && at < |model.chain| && model.chain[at] == start < |model.pool|
               && from <= |model.pool[start].keys| == |model.pool[start].slots|
      requires Select(Done(model, at, from), op, key) == []
      requires how == Every ==> AllFrom(|Done(model, at, from)|, op, key)
      requires how == Return ==> op == LT || op == LE
      ensures IsVisit(visited, Select(Contents(model), op, key), more)
    {
      hide Less, Satisfies, Inv, Ordered, Holds, Contents, Done, Ahead, Select;
      ghost var t, floor := model, |Done(model, at, from)|;
      var leaf: int, pos: nat := start, from;
      ghost var c := at;
      visited := [];
      while leaf != NULL
        invariant Valid() && model == t
        invariant c <= |t.chain| && leaf == if c < |t.chain| then t.chain[c] else NULL
        invariant c < |t.chain| ==>
                  t.chain[c] < |t.pool| && pos <= |t.pool[t.chain[c]].keys| == |t.pool[t.chain[c]].slots|
        invariant visited == Select(Done(t, c, pos), op, key) && Running(visited, more)
        invariant how == Every ==> floor <= |Done(t, c, pos)| && AllFrom(floor, op, key)
        decreases |t.chain| - c
      {
        ReadLeaf(c);
        if c + 1 < |t.chain| { ReadLeaf(c + 1); }
        var stopped;
        visited, stopped := WalkLeaf(leaf, pos, c, floor, visited, how, op, key, more);
        if stopped { return; }
        DoneLeaf(t, c);
        leaf := pool[leaf].next;
        pos := 0;
        c := c + 1;
      }
      DoneAll(t, pos);
    }

    // A walk from the leftmost leaf has nothing behind it.
    lemma FromLeftmost(op: CmpOp, key: Key)
      requires Valid()
      ensures |model.chain| > 0 && model.chain[0] == leftmost < |model.pool|
      ensures |model.pool[leftmost].keys| == |model.pool[leftmost].slots|
      ensures Done(model, 0, 0) == []
    {
      hide Less;
      ReadLeaf(0);
      assert model.chain[..0] == [];
    }

    // bptree.cpp range_lt: from the leftmost leaf, return at the first key >= key.
    method RangeLt(key: Key, more: seq<nat> -> bool) returns (visited: seq<nat>)
      requires Valid()
      ensures IsVisit(visited, Select(Contents(model), LT, key), more)
    {
      FromLeftmost(LT, key);
      visited := Walk(leftmost, 0, 0, Return, LT, key, more);
    }

    // bptree.cpp range_le
    method RangeLe(key: Key, more: seq<nat> -> bool) returns (visited: seq<nat>)
      requires Valid()
      ensures IsVisit(visited, Select(Contents(model), LE, key), more)
    {
      FromLeftmost(LE, key);
      visited := Walk(leftmost, 0, 0, Return, LE, key, more);
    }

    // bptree.cpp range_ne
    method RangeNe(key: Key, more: seq<nat> -> bool) returns (visited: seq<nat>)
      requires Valid()
      ensures IsVisit(visited, Select(Contents(model), NE, key), more)
    {
      FromLeftmost(NE, key);
      visited := Walk(leftmost, 0, 0, Skip, NE, key, more);
    }

    // bptree.cpp range_gt: from the leaf responsible for key, skipping an equal key.
    method RangeGt(key: Key, more: seq<nat> -> bool) returns (visited: seq<nat>)
      requires Valid()
      ensures IsVisit(visited, Select(Contents(model), GT, key), more)
    {
      hide Less, Satisfies, Inv, Ordered, Holds, Contents, Done, Ahead, Select, LowerBound;
      var l := FindLeaf(key);
      var pos := Locate(l, key);
      ghost var i := LateStart(model, l, pos, GT, key);
      visited := Walk(l, pos, i, Skip, GT, key, more);
    }

    // bptree.cpp range_ge: from the lower bound on, every key.
    method RangeGe(key: Key, more: seq<nat> -> bool) returns (visited: seq<nat>)
      requires Valid()
      ensures IsVisit(visited, Select(Contents(model), GE, key), more)
    {
      hide Less, Satisfies, Inv, Ordered, Holds, Contents, Done, Ahead, Select, LowerBound;
      var l := FindLeaf(key);
      var pos := Locate(l, key);
      ghost var i := LateStart(model, l, pos, GE, key);
      GeFromHere(model, l, pos, i, key);
      visited := Walk(l, pos, i, Every, GE, key, more);
    }

    // bptree.cpp range_eq
    method RangeEq(key: Key, more: seq<nat> -> bool) returns (visited: seq<nat>)
      requires Valid()
      ensures IsVisit(visited, Select(Contents(model), EQ, key), more)
    {
      hide Less, Satisfies, Inv, Ordered, Holds, Contents, LowerBound;
      var l := FindLeaf(key);
      var pos := Locate(l, key);
      EqIsPoint(model, l, pos, key);
      ReadNode(l);
      if pos < pool[l].numKeys && pool[l].keys[pos] == key {
        visited := [pool[l].slots[pos]];
      } else {
        visited := [];
      }
    }
  }

  // Any sequence of inserts: the index denotes the map they build, the last row id winning for each key.
  method Build(order: nat, inserts: seq<Entry>) returns (index: Index)
    requires order >= 3
    ensures index.Valid() && index.order == order && fresh(index.Footprint())
    ensures ToMap(Contents(index.model)) == ToMap(inserts)
    ensures index.size == |ToMap(inserts)|
  {
    hide Less, Contents, Inv, Ordered, Holds;
    index := new Index(order);
    for i := 0 to |inserts|
      invariant index.Valid() && index.order == order && fresh(index.Footprint())
      invariant ToMap(Contents(index.model)) == ToMap(inserts[..i])
    {
      var done := index.Insert(inserts[i].key, inserts[i].row);
      assert inserts[..i + 1][..i] == inserts[..i];
    }
    assert inserts[..|inserts|] == inserts;
    ContentsAscending(index.model);
    ToMapSize(Contents(index.model));
  }
}
