/** What a range scan must report, and how far a walk along the leaves has come. */
module BPTreeScan {
  import opened Keys
  import opened BPTreePool
  import opened BPTreeContents
  import opened BPTreeOrder

  // The row ids whose keys satisfy the operator, in list order.
  function Select(s: seq<Entry>, op: CmpOp, key: Key): seq<nat> {
    if s == [] then [] else
      var last := s[|s| - 1];
      Select(s[..|s| - 1], op, key) + if Satisfies(op, last.key, key) then [last.row] else []
  }

  lemma {:induction false} SelectConcat(a: seq<Entry>, b: seq<Entry>, op: CmpOp, key: Key)
    ensures Select(a + b, op, key) == Select(a, op, key) + Select(b, op, key)
  {
    hide Satisfies;
    if b == [] {
      assert a + b == a;
    } else {
      SelectConcat(a, b[..|b| - 1], op, key);
      assert (a + b)[..|a + b| - 1] == a + b[..|b| - 1];
    }
  }

  lemma {:induction false} SelectNone(s: seq<Entry>, op: CmpOp, key: Key)
    requires forall i :: 0 <= i < |s| ==> !Satisfies(op, s[i].key, key)
    ensures Select(s, op, key) == []
  {
    hide Satisfies;
    if s != [] { SelectNone(s[..|s| - 1], op, key); }
  }

  // The callback sees the row ids reported so far and says whether to go on.
  predicate Running(visited: seq<nat>, more: seq<nat> -> bool) {
    forall n :: 1 <= n <= |visited| ==> more(visited[..n])
  }

  lemma RunOn(visited: seq<nat>, row: nat, more: seq<nat> -> bool)
    requires Running(visited, more)
    ensures forall n :: 1 <= n <= |visited| ==> more((visited + [row])[..n])
    ensures more(visited + [row]) ==> Running(visited + [row], more)
  {
    var longer := visited + [row];
    forall n | 1 <= n <= |visited| ensures more(longer[..n]) { assert longer[..n] == visited[..n]; }
    assert longer[..|longer|] == longer;
  }

  // All of the rows, unless the callback stopped the scan; then the rows up to and including that call.
  predicate IsVisit(visited: seq<nat>, all: seq<nat>, more: seq<nat> -> bool) {
    && visited <= all
    && (forall n :: 1 <= n < |visited| ==> more(visited[..n]))
    && (visited == all || (visited != [] && !more(visited)))
  }

  // The outcome of a scan is determined by the rows and the callback.
  lemma IsVisitUnique(v: seq<nat>, w: seq<nat>, all: seq<nat>, more: seq<nat> -> bool)
    requires IsVisit(v, all, more) && IsVisit(w, all, more)
    ensures v == w
  {
    assert |v| <= |w| ==> v == w[..|v|];
    assert |w| <= |v| ==> w == v[..|w|];
  }

  // ---- Progress along the chain: c leaves and j entries of the next are behind us ----

  ghost function Done(t: Tree, c: nat, j: nat): seq<Entry>
    requires Ordered(t) && c <= |t.chain|
    requires c < |t.chain| ==> t.chain[c] < |t.pool| && j <= |t.pool[t.chain[c]].keys| == |t.pool[t.chain[c]].slots|
  {
    OrderedReadable(t);
    assert Readable(t.pool, t.chain[..c]);
    Flat(t.pool, t.chain[..c]) + if c < |t.chain| then Entries(t.pool[t.chain[c]])[..j] else []
  }

  ghost function Ahead(t: Tree, c: nat, j: nat): seq<Entry>
    requires Ordered(t) && c <= |t.chain|
    requires c < |t.chain| ==> t.chain[c] < |t.pool| && j <= |t.pool[t.chain[c]].keys| == |t.pool[t.chain[c]].slots|
  {
    OrderedReadable(t);
    assert Readable(t.pool, t.chain[c..]);
    if c < |t.chain| then Entries(t.pool[t.chain[c]])[j..] + Flat(t.pool, t.chain[c + 1..]) else []
  }

  lemma DoneAhead(t: Tree, c: nat, j: nat)
    requires Ordered(t) && c <= |t.chain|
    requires c < |t.chain| ==> t.chain[c] < |t.pool| && j <= |t.pool[t.chain[c]].keys| == |t.pool[t.chain[c]].slots|
    ensures Contents(t) == Done(t, c, j) + Ahead(t, c, j)
  {
    hide Less, Chained, LeafOk;
    OrderedReadable(t);
    if c < |t.chain| {
      FlatSplit(t.pool, t.chain, c);
      var e := Entries(t.pool[t.chain[c]]);
      assert e == e[..j] + e[j..];
    } else {
      assert t.chain[..c] == t.chain;
    }
  }

  lemma DoneEntry(t: Tree, c: nat, j: nat)
    requires Ordered(t) && c < |t.chain| && t.chain[c] < |t.pool|
    requires j < |t.pool[t.chain[c]].keys| == |t.pool[t.chain[c]].slots|
    ensures var node := t.pool[t.chain[c]];
            Done(t, c, j + 1) == Done(t, c, j) + [Entry(node.keys[j], node.slots[j])]
  {
    hide Less, Chained, LeafOk;
  }

  lemma DoneLeaf(t: Tree, c: nat)
    requires Ordered(t) && c < |t.chain| && t.chain[c] < |t.pool|
             && |t.pool[t.chain[c]].keys| == |t.pool[t.chain[c]].slots|
    requires c + 1 < |t.chain| ==>
             t.chain[c + 1] < |t.pool| && |t.pool[t.chain[c + 1]].keys| == |t.pool[t.chain[c + 1]].slots|
    ensures Done(t, c, |t.pool[t.chain[c]].keys|) == Done(t, c + 1, 0)
  {
    hide Less, Chained, LeafOk;
    OrderedReadable(t);
    assert t.chain[..c + 1] == t.chain[..c] + [t.chain[c]];
    FlatConcat(t.pool, t.chain[..c], [t.chain[c]]);
    assert Flat(t.pool, [t.chain[c]]) == Entries(t.pool[t.chain[c]]);
  }

  lemma DoneAll(t: Tree, j: nat)
    requires Ordered(t)
    ensures Done(t, |t.chain|, j) == Contents(t)
  {
    hide Ordered;
    DoneAhead(t, |t.chain|, j);
  }

  // Reporting one more row keeps the account.
  lemma SelectStep(done: seq<Entry>, e: Entry, op: CmpOp, key: Key)
    ensures Select(done + [e], op, key) == Select(done, op, key) + if Satisfies(op, e.key, key) then [e.row] else []
  {
    hide Satisfies;
    assert (done + [e])[..|done|] == done;
  }

  // What has been reported so far is a prefix of what is due.
  lemma SelectPrefix(t: Tree, c: nat, j: nat, op: CmpOp, key: Key)
    requires Ordered(t) && c <= |t.chain|
    requires c < |t.chain| ==> t.chain[c] < |t.pool| && j <= |t.pool[t.chain[c]].keys| == |t.pool[t.chain[c]].slots|
    ensures Select(Done(t, c, j), op, key) <= Select(Contents(t), op, key)
  {
    hide Satisfies, Ordered, Done, Ahead;
    DoneAhead(t, c, j);
    SelectConcat(Done(t, c, j), Ahead(t, c, j), op, key);
  }

  // LT and LE fail for good: after the first key that fails, nothing later satisfies.
  lemma FailsForGood(t: Tree, c: nat, j: nat, op: CmpOp, key: Key)
    requires Ordered(t) && c < |t.chain| && t.chain[c] < |t.pool|
    requires j < |t.pool[t.chain[c]].keys| == |t.pool[t.chain[c]].slots|
    requires op == LT || op == LE
    requires !Satisfies(op, t.pool[t.chain[c]].keys[j], key)
    ensures Select(Done(t, c, j), op, key) == Select(Contents(t), op, key)
  {
    hide Less, Ordered, Done;
    ContentsAscending(t);
    DoneAhead(t, c, j);
    var done, rest := Done(t, c, j), Ahead(t, c, j);
    var first := t.pool[t.chain[c]].keys[j];
    assert rest[0].key == first;
    forall i | 0 <= i < |rest| ensures !Satisfies(op, rest[i].key, key) {
      if i > 0 {
        assert Less((done + rest)[|done|].key, (done + rest)[|done| + i].key);
        if op == LT {
          LessAsymmetric(first, rest[i].key);
          NotLessTransitive(key, first, rest[i].key);
        } else {
          LessTransitive(key, first, rest[i].key);
        }
      }
    }
    SelectNone(rest, op, key);
    SelectConcat(done, rest, op, key);
  }

  // GT and GE may start at the lower bound of the responsible leaf: nothing before it satisfies.
  lemma StartsLate(t: Tree, i: nat, pos: nat, op: CmpOp, key: Key)
    requires Ordered(t) && i < |t.chain| && t.chain[i] < |t.pool|
    requires |t.pool[t.chain[i]].keys| == |t.pool[t.chain[i]].slots| && pos <= |t.pool[t.chain[i]].keys|
    requires Within(key, t.place[t.chain[i]])
    requires forall j :: 0 <= j < pos ==> Less(t.pool[t.chain[i]].keys[j], key)
    requires op == GT || op == GE
    ensures Select(Done(t, i, pos), op, key) == []
  {
    hide Less, Ordered;
    var before, after := LeafWindow(t, i, key);
    var done := Done(t, i, pos);
    forall j | 0 <= j < |done| ensures !Satisfies(op, done[j].key, key) {
      assert Less(done[j].key, key);
      LessAsymmetric(done[j].key, key);
    }
    SelectNone(done, op, key);
  }

  // The entry the walk looks at next is the one at this position of the contents.
  lemma NextEntry(t: Tree, c: nat, j: nat)
    requires Ordered(t) && c < |t.chain| && t.chain[c] < |t.pool|
    requires j < |t.pool[t.chain[c]].keys| == |t.pool[t.chain[c]].slots|
    ensures var node, at := t.pool[t.chain[c]], |Done(t, c, j)|;
            at < |Contents(t)| && Contents(t)[at] == Entry(node.keys[j], node.slots[j]) && |Done(t, c, j + 1)| == at + 1
  {
    hide Ordered, Done, Ahead, Contents;
    DoneEntry(t, c, j);
    DoneAhead(t, c, j + 1);
  }
}
