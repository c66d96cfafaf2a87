/** The B+ tree as a pool of nodes: what every insert, split and promotion keeps. */
module BPTreePool {
  import opened Keys

  const NULL := -1

  // A node as the index code sees it: the first num_keys keys, and the matching row ids (leaf)
  // or child positions (internal). Links are positions in the pool.
  datatype Node = Node(leaf: bool, keys: seq<Key>, slots: seq<nat>, next: int, prev: int, parent: int)

  // An end of a half-open key interval [lo, hi).
  datatype Bound = Open | At(key: Key)

  // Where a node sits: the keys it is responsible for and its distance from the leaves.
  datatype Place = Place(lo: Bound, hi: Bound, level: nat)

  // The pool together with the place of each node and the order of the leaves.
  datatype Tree = Tree(order: nat, pool: seq<Node>, place: seq<Place>, root: nat, chain: seq<nat>)

  // A split whose right half is not yet known to any parent.
  datatype Pending = Settled | Split(left: nat, right: nat)

  function MinKeys(order: nat): nat
    requires order >= 1
  {
    (order - 1) / 2
  }

  predicate AtLeast(lo: Bound, k: Key) { lo.Open? || !Less(k, lo.key) }
  predicate Below(k: Key, hi: Bound) { hi.Open? || Less(k, hi.key) }
  predicate NonEmpty(p: Place) { p.lo.Open? || p.hi.Open? || Less(p.lo.key, p.hi.key) }

  predicate Within(k: Key, p: Place) { AtLeast(p.lo, k) && Below(k, p.hi) }

  predicate Sorted(keys: seq<Key>) {
    forall i, j :: 0 <= i < j < |keys| ==> Less(keys[i], keys[j])
  }

  // ---- The invariant, clause by clause ----

  predicate Shape(t: Tree, pend: Pending) {
    && t.order >= 3
    && |t.place| == |t.pool|
    && t.root < |t.pool|
    && (pend.Split? ==>
        pend.left < |t.pool| && pend.right < |t.pool| && pend.left != pend.right && pend.right != t.root)
  }

  // The upper end that the slot of node c must show to its parent.
  function SlotHi(t: Tree, pend: Pending, c: nat): Bound
    requires Shape(t, pend) && c < |t.pool|
  {
    if pend.Split? && c == pend.left then t.place[pend.right].hi else t.place[c].hi
  }

  predicate KidOk(t: Tree, pend: Pending, n: nat, i: nat)
    requires Shape(t, pend) && n < |t.pool|
    requires i < |t.pool[n].slots| == |t.pool[n].keys| + 1
  {
    var c := t.pool[n].slots[i];
    && c < |t.pool|
    && c != t.root
    && (pend.Split? ==> c != pend.right)
    && t.pool[c].parent == n
    && t.place[c].level + 1 == t.place[n].level
    && t.place[c].lo == (if i == 0 then t.place[n].lo else At(t.pool[n].keys[i - 1]))
    && SlotHi(t, pend, c) == (if i == |t.pool[n].keys| then t.place[n].hi else At(t.pool[n].keys[i]))
  }

  predicate NodeOk(t: Tree, pend: Pending, n: nat)
    requires Shape(t, pend) && n < |t.pool|
  {
    var node := t.pool[n];
    && (node.leaf <==> t.place[n].level == 0)
    && NonEmpty(t.place[n])
    && Sorted(node.keys)
    && (forall i :: 0 <= i < |node.keys| ==> Within(node.keys[i], t.place[n]))
    && |node.slots| == |node.keys| + (if node.leaf then 0 else 1)
    && (!node.leaf ==> forall i :: 0 <= i < |node.slots| ==> KidOk(t, pend, n, i))
    && (!node.leaf ==> forall i, j :: 0 <= i < j < |node.slots| ==> node.slots[i] != node.slots[j])
  }

  predicate ParentOk(t: Tree, pend: Pending, n: nat)
    requires Shape(t, pend) && n < |t.pool|
  {
    var up := t.pool[n].parent;
    if n == t.root || (pend.Split? && n == pend.right) then up == NULL
    else 0 <= up < |t.pool| && !t.pool[up].leaf && n in t.pool[up].slots
  }

  // Heights: nothing is above the root, and nothing else is level with it.
  predicate LevelOk(t: Tree, pend: Pending, n: nat)
    requires Shape(t, pend) && n < |t.pool|
  {
    && t.place[n].level <= t.place[t.root].level
    && (t.place[n].level == t.place[t.root].level ==> n == t.root || (pend.Split? && n == pend.right))
  }

  predicate PendOk(t: Tree, pend: Pending)
    requires Shape(t, pend)
  {
    pend.Split? ==>
      && t.place[pend.left].level == t.place[pend.right].level
      && t.place[pend.left].hi.At?
      && t.place[pend.left].hi == t.place[pend.right].lo
  }

  predicate RootOk(t: Tree, pend: Pending)
    requires Shape(t, pend)
  {
    t.place[t.root].lo == Open && SlotHi(t, pend, t.root) == Open
  }

  predicate Nodes(t: Tree, pend: Pending)
    requires Shape(t, pend)
  {
    forall n :: 0 <= n < |t.pool| ==> NodeOk(t, pend, n) && ParentOk(t, pend, n) && LevelOk(t, pend, n)
  }

  // Occupancy. `full` is the one node that may hold ORDER keys while its split is due, or NULL.
  predicate CountOk(t: Tree, pend: Pending, full: int, n: nat)
    requires t.order >= 3 && n < |t.pool|
  {
    var count := |t.pool[n].keys|;
    && (if n == full then count == t.order else count < t.order)
    && (n != t.root || (pend.Split? && n == pend.left) ==>
        count >= if t.pool[n].leaf then t.order / 2 else MinKeys(t.order))
    && (!t.pool[n].leaf ==> count >= 1)
  }

  predicate Counts(t: Tree, pend: Pending, full: int)
    requires t.order >= 3
  {
    forall n :: 0 <= n < |t.pool| ==> CountOk(t, pend, full, n)
  }

  // The doubly linked list of leaves, in key order.
  predicate LinkOk(t: Tree, i: nat)
    requires |t.place| == |t.pool| && i < |t.chain|
  {
    var l := t.chain[i];
    && l < |t.pool|
    && t.pool[l].leaf
    && t.pool[l].next == (if i + 1 < |t.chain| then t.chain[i + 1] else NULL)
    && t.pool[l].prev == (if i > 0 then t.chain[i - 1] else NULL)
    && (i == 0 ==> t.place[l].lo == Open)
    && (i + 1 == |t.chain| ==> t.place[l].hi == Open)
    && (i + 1 < |t.chain| ==>
        t.chain[i + 1] < |t.pool| && t.place[l].hi.At? && t.place[t.chain[i + 1]].lo == t.place[l].hi)
  }

  predicate Chained(t: Tree)
    requires |t.place| == |t.pool|
  {
    && |t.chain| > 0
    && (forall i :: 0 <= i < |t.chain| ==> LinkOk(t, i))
    && (forall i, j :: 0 <= i < j < |t.chain| ==> Before(t, t.chain[i], t.chain[j]))
    && (forall n :: 0 <= n < |t.pool| && t.pool[n].leaf ==> n in t.chain)
  }

  // Every key of leaf a is below every key of leaf b.
  predicate Before(t: Tree, a: nat, b: nat) {
    && a < |t.place|
    && b < |t.place|
    && a != b
    && t.place[a].hi.At?
    && t.place[b].lo.At?
    && !Less(t.place[b].lo.key, t.place[a].hi.key)
  }

  predicate Inv(t: Tree, pend: Pending, full: int) {
    && Shape(t, pend)
    && PendOk(t, pend)
    && RootOk(t, pend)
    && Nodes(t, pend)
    && Counts(t, pend, full)
    && Chained(t)
  }
}
