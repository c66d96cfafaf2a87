/** A node of the index as it lies in memory: fixed-size arrays edited in place. */
module BPTreeNode {
  import opened Keys
  import opened BPTreePool
  import opened BPTreePutLeaf

  // Shift a[pos..n) one place right and write x at pos.
  method ShiftIn<T>(a: array<T>, n: nat, pos: nat, x: T)
    requires pos <= n < a.Length
    modifies a
    ensures a[..n + 1] == InsertAt(old(a[..n]), pos, x)
  {
    var i := n;
    while i > pos
      invariant pos <= i <= n
      invariant forall j :: 0 <= j <= i && j < n ==> a[j] == old(a[j])
      invariant forall j :: i < j <= n ==> a[j] == old(a[j - 1])
    {
      a[i] := a[i - 1];
      i := i - 1;
    }
    a[pos] := x;
  }

  // Copy count elements of src, from position `from` on, to the front of dst.
  method CopyUp<T>(dst: array<T>, src: array<T>, from: nat, count: nat)
    requires dst != src && count <= dst.Length && from + count <= src.Length
    modifies dst
    ensures dst[..count] == src[from..from + count]
  {
    var i := 0;
    while i < count
      invariant 0 <= i <= count
      invariant forall j :: 0 <= j < i ==> dst[j] == src[from + j]
    {
      dst[i] := src[from + i];
      i := i + 1;
    }
  }

  class TreeNode {
    const isLeaf: bool
    const keys: array<Key>
    const slots: array<nat>   // children of an internal node, row ids of a leaf: one union in memory
    var numKeys: nat
    var next: int
    var prev: int
    var parent: int

    constructor (order: nat, leaf: bool)
      ensures isLeaf == leaf && numKeys == 0 && next == prev == parent == NULL
      ensures keys.Length == order && slots.Length == order + 1
      ensures fresh(keys) && fresh(slots)
      ensures View() == Node(leaf, [], if leaf then [] else [0], NULL, NULL, NULL)
    {
      isLeaf := leaf;
      keys := new Key[order](_ => Num(0));
      slots := new nat[order + 1](_ => 0);
      numKeys := 0;
      next, prev, parent := NULL, NULL, NULL;
    }

    ghost function View(): Node
      requires numKeys <= keys.Length && numKeys < slots.Length
      reads this, keys, slots
    {
      Node(isLeaf, keys[..numKeys], slots[..numKeys + (if isLeaf then 0 else 1)], next, prev, parent)
    }

    ghost predicate Shows(order: nat, view: Node)
      reads this, keys, slots
    {
      && keys.Length == order
      && slots.Length == order + 1
      && numKeys <= order
      && View() == view
    }

    // bptree.cpp lower_bound: binary search for the first key not below the target.
    method FindLowerBound(key: Key) returns (pos: nat)
      requires numKeys <= keys.Length && Sorted(keys[..numKeys])
      ensures LowerBound(keys[..numKeys], key, pos)
    {
      hide Less;
      var lo, hi := 0, numKeys;
      while lo < hi
        invariant 0 <= lo <= hi <= numKeys
        invariant forall i :: 0 <= i < lo ==> Less(keys[i], key)
        invariant forall i :: hi <= i < numKeys ==> !Less(keys[i], key)
      {
        var mid := (lo + hi) / 2;
        ghost var ks := keys[..numKeys];
        if Less(keys[mid], key) {
          forall i | 0 <= i < mid ensures Less(keys[i], key) {
            assert Less(ks[i], ks[mid]);
            LessTransitive(keys[i], keys[mid], key);
          }
          lo := mid + 1;
        } else {
          forall i | mid < i < numKeys ensures !Less(keys[i], key) {
            assert Less(ks[mid], ks[i]);
            LessAsymmetric(keys[mid], keys[i]);
            NotLessTransitive(key, keys[mid], keys[i]);
          }
          hi := mid;
        }
      }
      pos := lo;
    }

    // The tail of insert: shift both arrays and write the new entry.
    method InsertEntry(pos: nat, key: Key, row: nat)
      requires isLeaf && pos <= numKeys < keys.Length && slots.Length == keys.Length + 1
      modifies this`numKeys, keys, slots
      ensures numKeys == old(numKeys) + 1
      ensures View() == old(View()).(keys := InsertAt(old(View()).keys, pos, key),
                                     slots := InsertAt(old(View()).slots, pos, row))
    {
      ShiftIn(keys, numKeys, pos, key);
      ShiftIn(slots, numKeys, pos, row);
      numKeys := numKeys + 1;
    }

    // The middle of insert_into_parent: shift keys and children, then write the promoted key and the new child.
    method InsertChild(pos: nat, key: Key, child: nat)
      requires !isLeaf && pos <= numKeys < keys.Length && slots.Length == keys.Length + 1
      modifies this`numKeys, keys, slots
      ensures numKeys == old(numKeys) + 1
      ensures View() == old(View()).(keys := InsertAt(old(View()).keys, pos, key),
                                     slots := InsertAt(old(View()).slots, pos + 1, child))
    {
      ShiftIn(keys, numKeys, pos, key);
      ShiftIn(slots, numKeys + 1, pos + 1, child);
      numKeys := numKeys + 1;
    }

    // Take the keys and the slots of `from` at and after position start.
    method TakeUpper(from: TreeNode, start: nat)
      requires from.isLeaf == isLeaf && keys != from.keys && slots != from.slots
      requires keys.Length == from.keys.Length && slots.Length == from.slots.Length == keys.Length + 1
      requires start <= from.numKeys <= keys.Length && numKeys <= keys.Length
      modifies this`numKeys, keys, slots
      ensures numKeys == from.numKeys - start
      ensures View() == old(View()).(keys := from.View().keys[start..], slots := from.View().slots[start..])
    {
      numKeys := from.numKeys - start;
      CopyUp(keys, from.keys, start, numKeys);
      CopyUp(slots, from.slots, start, if isLeaf then numKeys else numKeys + 1);
    }

    method DropUpper(count: nat)
      requires count <= numKeys <= keys.Length && numKeys < slots.Length
      modifies this`numKeys
      ensures numKeys == count
      ensures View() == old(View()).(keys := old(View()).keys[..count],
                                     slots := old(View()).slots[..count + (if isLeaf then 0 else 1)])
    {
      numKeys := count;
    }
  }

  ghost function Memory(nodes: seq<TreeNode>): set<object> {
    (set n | n in nodes :: n as object) + (set n | n in nodes :: n.keys) + (set n | n in nodes :: n.slots)
  }

  lemma NoMemory()
    ensures Memory([]) == {}
  {
  }

  lemma MemoryAppend(nodes: seq<TreeNode>, node: TreeNode)
    ensures Memory(nodes + [node]) == Memory(nodes) + {node, node.keys, node.slots}
  {
    var more := nodes + [node];
    assert forall n :: n in more <==> n in nodes || n == node;
    assert node in more;
  }

  lemma InMemory(nodes: seq<TreeNode>, n: nat)
    requires n < |nodes|
    ensures {nodes[n], nodes[n].keys, nodes[n].slots} <= Memory(nodes)
  {
    assert nodes[n] in nodes;
  }

  // The nodes in memory are those of the pool, and no two share an array.
  ghost predicate Holds(nodes: seq<TreeNode>, order: nat, views: seq<Node>)
    reads nodes, Memory(nodes)
  {
    && |nodes| == |views|
    && (forall i :: 0 <= i < |nodes| ==> nodes[i].Shows(order, views[i]))
    && (forall i, j :: 0 <= i < j < |nodes| ==> Apart(nodes[i], nodes[j]))
  }

  ghost predicate Apart(a: TreeNode, b: TreeNode) {
    a != b && a.keys != b.keys && a.slots != b.slots
  }

  lemma ApartFrom(nodes: seq<TreeNode>, order: nat, views: seq<Node>, n: nat)
    requires Holds(nodes, order, views) && n < |nodes|
    ensures nodes[n].Shows(order, views[n])
    ensures forall i :: 0 <= i < |nodes| && i != n ==> Apart(nodes[n], nodes[i]) && nodes[i].Shows(order, views[i])
  {
    forall i | 0 <= i < |nodes| && i != n ensures Apart(nodes[n], nodes[i]) {
      if i < n { assert Apart(nodes[i], nodes[n]); }
    }
  }
}
