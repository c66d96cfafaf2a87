/** How many entries a tree of a given height must hold. */
module BPTreeSize {
  import opened Keys
  import opened BPTreePool
  import opened BPTreeContents
  import opened BPTreeOrder

  function Power(base: nat, exp: nat): nat {
    if exp == 0 then 1 else base * Power(base, exp - 1)
  }

  // The leaves under a node, and under its first k children, from left to right.
  ghost function Leaves(t: Tree, n: nat): seq<nat>
    requires Inv(t, Settled, NULL) && n < |t.pool|
    decreases t.place[n].level, 1, 0
  {
    if t.pool[n].leaf then [n] else
      assert NodeOk(t, Settled, n);
      LeavesUnder(t, n, |t.pool[n].slots|)
  }

  ghost function LeavesUnder(t: Tree, n: nat, k: nat): seq<nat>
    requires Inv(t, Settled, NULL) && n < |t.pool| && !t.pool[n].leaf && k <= |t.pool[n].slots|
    decreases t.place[n].level, 0, k
  {
    if k == 0 then [] else
      assert NodeOk(t, Settled, n) && KidOk(t, Settled, n, k - 1);
      LeavesUnder(t, n, k - 1) + Leaves(t, t.pool[n].slots[k - 1])
  }

  // Leaves of the chain are told apart by their lower ends.
  lemma LoDiffers(t: Tree, i: nat, j: nat)
    requires Inv(t, Settled, NULL) && i < j < |t.chain|
    ensures t.chain[i] < |t.place| && t.chain[j] < |t.place| && t.place[t.chain[i]].lo != t.place[t.chain[j]].lo
  {
    hide Less, Sorted, Within, KidOk, Counts;
    assert Before(t, t.chain[i], t.chain[j]) && NodeOk(t, Settled, t.chain[i]);
  }

  // Only the ends of the chain are unbounded.
  lemma ChainEnds(t: Tree, i: nat)
    requires Inv(t, Settled, NULL) && i < |t.chain|
    ensures t.chain[i] < |t.place|
    ensures t.place[t.chain[i]].lo == Open <==> i == 0
    ensures t.place[t.chain[i]].hi == Open <==> i + 1 == |t.chain|
  {
    hide Less, Sorted, Within, KidOk, Counts, Nodes;
    assert LinkOk(t, i) && (i > 0 ==> LinkOk(t, i - 1));
  }

  // A stretch of the chain covers exactly the interval from lo to hi.
  predicate Covers(t: Tree, a: nat, b: nat, lo: Bound, hi: Bound)
    requires |t.place| == |t.pool|
  {
    && a < b <= |t.chain|
    && t.chain[a] < |t.pool| && t.place[t.chain[a]].lo == lo
    && t.chain[b - 1] < |t.pool| && t.place[t.chain[b - 1]].hi == hi
  }

  lemma CoversJoin(t: Tree, a: nat, b: nat, c: nat, d: nat, lo: Bound, mid: Bound, hi: Bound)
    requires Inv(t, Settled, NULL) && mid.At?
    requires Covers(t, a, b, lo, mid) && Covers(t, c, d, mid, hi)
    ensures b == c && Covers(t, a, d, lo, hi)
  {
    hide Less, Sorted, Within, KidOk, Counts, Nodes;
    assert LinkOk(t, b - 1) && LinkOk(t, c);
    ChainEnds(t, b - 1);
    assert LinkOk(t, b);
    if b < c { LoDiffers(t, b, c); } else if c < b { LoDiffers(t, c, b); }
  }

  // The leaves under a node are a stretch of the chain: the tree and the linked list agree.
  lemma {:induction false} LeavesAreStretch(t: Tree, n: nat) returns (a: nat, b: nat)
    requires Inv(t, Settled, NULL) && n < |t.pool|
    ensures Covers(t, a, b, t.place[n].lo, t.place[n].hi) && Leaves(t, n) == t.chain[a..b]
    decreases t.place[n].level, 1, 0
  {
    hide Less, Sorted, Within, Counts;
    assert NodeOk(t, Settled, n);
    if t.pool[n].leaf {
      a :| 0 <= a < |t.chain| && t.chain[a] == n;
      b := a + 1;
      assert LinkOk(t, a);
    } else {
      a, b := UnderAreStretch(t, n, |t.pool[n].slots|);
    }
  }

  lemma {:induction false} UnderAreStretch(t: Tree, n: nat, k: nat) returns (a: nat, b: nat)
    requires Inv(t, Settled, NULL) && n < |t.pool| && !t.pool[n].leaf
    requires 1 <= k <= |t.pool[n].slots| == |t.pool[n].keys| + 1
    ensures Covers(t, a, b, t.place[n].lo, if k == |t.pool[n].slots| then t.place[n].hi else At(t.pool[n].keys[k - 1]))
    ensures LeavesUnder(t, n, k) == t.chain[a..b]
    decreases t.place[n].level, 0, k
  {
    hide Less, Sorted, Within, Counts;
    assert NodeOk(t, Settled, n) && KidOk(t, Settled, n, k - 1);
    var c := t.pool[n].slots[k - 1];
    a, b := LeavesAreStretch(t, c);
    if k == 1 {
      assert LeavesUnder(t, n, 0) == [];
    } else {
      var a0, b0 := UnderAreStretch(t, n, k - 1);
      var mid := At(t.pool[n].keys[k - 2]);
      CoversJoin(t, a0, b0, a, b, t.place[n].lo, mid, t.place[c].hi);
      assert t.chain[a0..b0] + t.chain[b0..b] == t.chain[a0..b];
      a := a0;
    }
  }

  // In particular, all leaves of the pool hang under the root, in chain order.
  lemma RootLeaves(t: Tree)
    requires Inv(t, Settled, NULL)
    ensures Leaves(t, t.root) == t.chain
  {
    hide Less, Sorted, Within, Counts, Nodes, Leaves;
    var a, b := LeavesAreStretch(t, t.root);
    ChainEnds(t, a);
    ChainEnds(t, b - 1);
    assert t.chain[0..|t.chain|] == t.chain;
  }

  // Entries under non-root nodes: at least order/2 per leaf and MinKeys + 1 children per internal node.
  lemma {:induction false} EntriesBelow(t: Tree, n: nat)
    requires Inv(t, Settled, NULL) && n < |t.pool| && n != t.root
    ensures Readable(t.pool, Leaves(t, n))
    ensures |Flat(t.pool, Leaves(t, n))| >= t.order / 2 * Power(MinKeys(t.order) + 1, t.place[n].level)
    decreases t.place[n].level, 1, 0
  {
    hide Less, Sorted, Within, Chained;
    assert NodeOk(t, Settled, n) && CountOk(t, Settled, NULL, n);
    if t.pool[n].leaf {
      assert Flat(t.pool, [n]) == Entries(t.pool[n]) + Flat(t.pool, []);
    } else {
      var k := |t.pool[n].slots|;
      EntriesUnder(t, n, k);
      var each := t.order / 2 * Power(MinKeys(t.order) + 1, t.place[n].level - 1);
      Monotone(MinKeys(t.order) + 1, k, each);
      Regroup(MinKeys(t.order) + 1, t.order / 2, Power(MinKeys(t.order) + 1, t.place[n].level - 1));
    }
  }

  lemma Monotone(a: nat, b: nat, c: nat)
    requires a <= b
    ensures a * c <= b * c
  {
  }

  lemma OneMore(k: nat, c: nat)
    requires k > 0
    ensures k * c == (k - 1) * c + c
  {
  }

  lemma Regroup(a: nat, b: nat, c: nat)
    ensures a * (b * c) == b * (a * c)
  {
  }

  lemma {:induction false} EntriesUnder(t: Tree, n: nat, k: nat)
    requires Inv(t, Settled, NULL) && n < |t.pool| && !t.pool[n].leaf
    requires k <= |t.pool[n].slots| && t.place[n].level >= 1
    ensures Readable(t.pool, LeavesUnder(t, n, k))
    ensures |Flat(t.pool, LeavesUnder(t, n, k))| >=
            k * (t.order / 2 * Power(MinKeys(t.order) + 1, t.place[n].level - 1))
    decreases t.place[n].level, 0, k
  {
    hide Less, Sorted, Within, Chained, Counts, Power, Flat, Leaves;
    if k > 0 {
      assert NodeOk(t, Settled, n) && KidOk(t, Settled, n, k - 1);
      var c := t.pool[n].slots[k - 1];
      var each := t.order / 2 * Power(MinKeys(t.order) + 1, t.place[n].level - 1);
      EntriesUnder(t, n, k - 1);
      EntriesBelow(t, c);
      FlatConcat(t.pool, LeavesUnder(t, n, k - 1), Leaves(t, c));
      OneMore(k, each);
    }
  }

  // A tree of height h >= 2 holds at least 2 * (MinKeys + 1)^(h - 2) * (order / 2) entries.
  lemma SizeBound(t: Tree)
    requires Inv(t, Settled, NULL) && Ordered(t)
    ensures var h := t.place[t.root].level + 1;
            h >= 2 ==> |Contents(t)| >= 2 * (t.order / 2 * Power(MinKeys(t.order) + 1, h - 2))
  {
    hide Less, Sorted, Within, Chained, Ordered;
    var r := t.root;
    assert NodeOk(t, Settled, r) && CountOk(t, Settled, NULL, r);
    if t.place[r].level >= 1 {
      RootLeaves(t);
      EntriesUnder(t, r, |t.pool[r].slots|);
      Monotone(2, |t.pool[r].slots|, t.order / 2 * Power(MinKeys(t.order) + 1, t.place[r].level - 1));
    }
  }

  // At ORDER 256 that is 2 * 128^(h - 1).
  lemma SizeBound256(t: Tree)
    requires Inv(t, Settled, NULL) && Ordered(t) && t.order == 256
    ensures var h := t.place[t.root].level + 1; h >= 2 ==> |Contents(t)| >= 2 * Power(128, h - 1)
  {
    hide Inv, Ordered, Contents;
    SizeBound(t);
  }
}
