/** The query-result cache: a hash map into a recency list, with entries tracked per table. */
module LruCache {
  import opened Values
  import opened Lexer

  // ---- Keys ----

  // lru_cache.cpp normalize: collapse white space, upper-case, then trim.
  function Squeeze(query: string, result: string, inSpace: bool): string
    decreases |query|
  {
    if query == "" then result
    else if IsSpace(query[0]) then
      if !inSpace && result != "" then Squeeze(query[1..], result + " ", true) else Squeeze(query[1..], result, inSpace)
    else Squeeze(query[1..], result + [ToUpper(query[0])], false)
  }

  function DropSpace(s: string): string { if s != "" && s[|s| - 1] == ' ' then s[..|s| - 1] else s }

  function DropSemicolons(s: string): string {
    if s != "" && s[|s| - 1] == ';' then DropSemicolons(s[..|s| - 1]) else s
  }

  function Normalize(query: string): string { DropSemicolons(DropSpace(Squeeze(query, "", false))) }

  method NormalizeLoop(query: string) returns (result: string)
    ensures result == Normalize(query)
  {
    result := "";
    var inSpace := false;
    for i := 0 to |query|
      invariant Squeeze(query[i..], result, inSpace) == Squeeze(query, "", false)
    {
      assert query[i..][1..] == query[i + 1..];
      if IsSpace(query[i]) {
        if !inSpace && result != "" {
          result := result + " ";
          inSpace := true;
        }
      } else {
        result := result + [ToUpper(query[i])];
        inSpace := false;
      }
    }
    if result != "" && result[|result| - 1] == ' ' {
      result := result[..|result| - 1];
    }
    while result != "" && result[|result| - 1] == ';'
      invariant DropSemicolons(result) == Normalize(query)
      decreases |result|
    {
      result := result[..|result| - 1];
    }
  }

  // The text after the first "FROM ", or None.
  function AfterFrom(key: string): Option<string> {
    if |key| < 5 then None
    else if key[..5] == "FROM " then Some(key[5..])
    else AfterFrom(key[1..])
  }

  predicate EndsName(c: char) { c == ' ' || c == ';' || c == ',' || c == ')' }

  function NamePrefix(s: string): string {
    if s == "" || EndsName(s[0]) then "" else [s[0]] + NamePrefix(s[1..])
  }

  // lru_cache.cpp put: the table a key is tracked under.
  function TableOf(key: string): Option<string> {
    match AfterFrom(key)
    case None => None
    case Some(rest) => Some(NamePrefix(rest))
  }

  // ---- The cache as a recency list, most recent first ----

  datatype Item<V> = Item(key: string, value: V)

  predicate Distinct<V>(l: seq<Item<V>>) { forall i, j :: 0 <= i < j < |l| ==> l[i].key != l[j].key }

  function Without<V>(l: seq<Item<V>>, key: string): seq<Item<V>> {
    if l == [] then [] else if l[0].key == key then Without(l[1..], key) else [l[0]] + Without(l[1..], key)
  }

  predicate Has<V>(l: seq<Item<V>>, key: string) { exists i :: 0 <= i < |l| && l[i].key == key }

  function Lookup<V>(l: seq<Item<V>>, key: string): V
    requires Has(l, key)
  {
    if l[0].key == key then l[0].value else
      assert Has(l[1..], key) by {
        var i :| 0 <= i < |l| && l[i].key == key;
        assert l[1..][i - 1].key == key;
      }
      Lookup(l[1..], key)
  }

  // get: a hit moves the entry to the front.
  function Touch<V>(l: seq<Item<V>>, key: string): seq<Item<V>> {
    if Has(l, key) then [Item(key, Lookup(l, key))] + Without(l, key) else l
  }

  // put: update in front, or insert in front after dropping the least recent entry of a full cache.
  function Place<V>(l: seq<Item<V>>, capacity: nat, key: string, value: V): seq<Item<V>> {
    if Has(l, key) then [Item(key, value)] + Without(l, key)
    else [Item(key, value)] + if |l| >= capacity && l != [] then l[..|l| - 1] else l
  }

  // invalidate_table: drop the entries tracked under the table.
  function Purge<V>(l: seq<Item<V>>, table: string): seq<Item<V>> {
    if l == [] then [] else if TableOf(l[0].key) == Some(table) then Purge(l[1..], table)
      else [l[0]] + Purge(l[1..], table)
  }

  function Cut<T>(s: seq<T>, i: nat): (r: seq<T>)
    requires i < |s|
    ensures |r| == |s| - 1 && forall j :: 0 <= j < |r| ==> r[j] == if j < i then s[j] else s[j + 1]
  {
    s[..i] + s[i + 1..]
  }

  // Removing a key from a list without duplicates takes out one position.
  lemma {:induction false} WithoutAt<V>(l: seq<Item<V>>, i: nat)
    requires Distinct(l) && i < |l|
    ensures Without(l, l[i].key) == Cut(l, i)
  {
    if i == 0 {
      WithoutNone(l[1..], l[0].key);
    } else {
      var rest := l[1..];
      assert rest[i - 1] == l[i];
      WithoutAt(rest, i - 1);
      assert [l[0]] + Cut(rest, i - 1) == Cut(l, i);
    }
  }

  lemma {:induction false} LookupAt<V>(l: seq<Item<V>>, i: nat)
    requires Distinct(l) && i < |l|
    ensures Has(l, l[i].key) && Lookup(l, l[i].key) == l[i].value
  {
    if i > 0 {
      assert l[1..][i - 1] == l[i];
      LookupAt(l[1..], i - 1);
    }
  }

  lemma {:induction false} LookupMember<V>(l: seq<Item<V>>, key: string)
    requires Has(l, key)
    ensures Item(key, Lookup(l, key)) in l
  {
    if l[0].key != key {
      var i :| 0 <= i < |l| && l[i].key == key;
      assert l[1..][i - 1].key == key;
      LookupMember(l[1..], key);
    }
  }

  lemma {:induction false} WithoutMembers<V>(l: seq<Item<V>>, key: string, x: Item<V>)
    ensures x in Without(l, key) <==> x in l && x.key != key
  {
    if l != [] {
      WithoutMembers(l[1..], key, x);
      assert x in l <==> x == l[0] || x in l[1..];
    }
  }

  lemma {:induction false} WithoutNone<V>(l: seq<Item<V>>, key: string)
    requires forall i :: 0 <= i < |l| ==> l[i].key != key
    ensures Without(l, key) == l
  {
    if l != [] { WithoutNone(l[1..], key); }
  }

  // Purging is removing the tracked keys one after another, whichever of them are present and however often they are
  // named.
  function WithoutAll<V>(l: seq<Item<V>>, keys: seq<string>): seq<Item<V>>
    decreases |keys|
  {
    if keys == [] then l else WithoutAll(Without(l, keys[0]), keys[1..])
  }

  lemma {:induction false} PurgeWithout<V>(l: seq<Item<V>>, table: string, key: string)
    requires TableOf(key) == Some(table)
    ensures Purge(Without(l, key), table) == Purge(l, table)
  {
    hide TableOf;
    if l != [] { PurgeWithout(l[1..], table, key); }
  }

  lemma {:induction false} PurgeNone<V>(l: seq<Item<V>>, table: string)
    requires forall i :: 0 <= i < |l| ==> TableOf(l[i].key) != Some(table)
    ensures Purge(l, table) == l
  {
    hide TableOf;
    if l != [] { PurgeNone(l[1..], table); }
  }

  lemma {:induction false} PurgeIsWithoutAll<V>(l: seq<Item<V>>, table: string, keys: seq<string>)
    requires forall k :: k in keys ==> TableOf(k) == Some(table)
    requires forall x :: x in l && TableOf(x.key) == Some(table) ==> x.key in keys
    ensures WithoutAll(l, keys) == Purge(l, table)
    decreases |keys|
  {
    hide TableOf, Purge;
    if keys == [] {
      forall i | 0 <= i < |l| ensures TableOf(l[i].key) != Some(table) { assert l[i] in l; }
      PurgeNone(l, table);
    } else {
      PurgeWithout(l, table, keys[0]);
      assert keys[0] in keys;
      forall x | x in Without(l, keys[0]) && TableOf(x.key) == Some(table) ensures x.key in keys[1..] {
        WithoutMembers(l, keys[0], x);
      }
      PurgeIsWithoutAll(Without(l, keys[0]), table, keys[1..]);
    }
  }

  // ---- The implementation: list nodes, and a map from key to list node ----

  datatype Rep<V> = Rep(order: seq<nat>, nodes: map<nat, Item<V>>, index: map<string, nat>)

  predicate Present<V>(rep: Rep<V>) {
    forall i :: 0 <= i < |rep.order| ==> rep.order[i] in rep.nodes
  }

  predicate NodeOk<V>(rep: Rep<V>, i: nat)
    requires i < |rep.order|
  {
    var id := rep.order[i];
    id in rep.nodes && rep.nodes[id].key in rep.index && rep.index[rep.nodes[id].key] == id
  }

  predicate KeyOk<V>(rep: Rep<V>, k: string)
    requires k in rep.index
  {
    rep.index[k] in rep.order && rep.index[k] in rep.nodes && rep.nodes[rep.index[k]].key == k
  }

  predicate Apart(order: seq<nat>) { forall i, j :: 0 <= i < j < |order| ==> order[i] != order[j] }

  // Map and list are in bijection.
  predicate Linked<V>(rep: Rep<V>) {
    && Present(rep)
    && Apart(rep.order)
    && (forall i :: 0 <= i < |rep.order| ==> NodeOk(rep, i))
    && (forall k :: k in rep.index ==> KeyOk(rep, k))
    && |rep.index| == |rep.order|
  }

  // The list as the cache's users see it.
  function Listing<V>(rep: Rep<V>): (l: seq<Item<V>>)
    requires Linked(rep)
    ensures |l| == |rep.order| && forall i :: 0 <= i < |l| ==> l[i] == rep.nodes[rep.order[i]]
  {
    seq(|rep.order|, i requires 0 <= i < |rep.order| => rep.nodes[rep.order[i]])
  }

  lemma LinkedDistinct<V>(rep: Rep<V>)
    requires Linked(rep)
    ensures Distinct(Listing(rep))
  {
    var l := Listing(rep);
    forall i, j | 0 <= i < j < |l| ensures l[i].key != l[j].key { assert NodeOk(rep, i) && NodeOk(rep, j); }
  }

  // list.splice(begin, list, it)
  function Spliced<V>(rep: Rep<V>, i: nat): Rep<V>
    requires i < |rep.order|
  {
    rep.(order := [rep.order[i]] + Cut(rep.order, i))
  }

  lemma SplicedKeeps<V>(rep: Rep<V>, i: nat)
    requires Linked(rep) && i < |rep.order|
    ensures var r := Spliced(rep, i); Linked(r) && Listing(r) == [Listing(rep)[i]] + Cut(Listing(rep), i)
  {
    hide NodeOk, KeyOk;
    var r := Spliced(rep, i);
    SplicedLinks(rep, i);
    assert Apart(r.order);
    assert Listing(r) == [Listing(rep)[i]] + Cut(Listing(rep), i);
  }

  lemma SplicedLinks<V>(rep: Rep<V>, i: nat)
    requires Linked(rep) && i < |rep.order|
    ensures var r := Spliced(rep, i);
            Present(r) && (forall j :: 0 <= j < |r.order| ==> NodeOk(r, j))
              && (forall k :: k in r.index ==> KeyOk(r, k))
  {
    hide Apart, KeyOk;
    var r := Spliced(rep, i);
    forall j | 0 <= j < |r.order| ensures NodeOk(r, j) {
      assert NodeOk(rep, if j == 0 then i else if j <= i then j - 1 else j);
    }
    SplicedKeys(rep, i);
  }

  lemma SplicedKeys<V>(rep: Rep<V>, i: nat)
    requires Linked(rep) && i < |rep.order|
    ensures var r := Spliced(rep, i); forall k :: k in r.index ==> KeyOk(r, k)
  {
    hide Apart, NodeOk;
    var r := Spliced(rep, i);
    forall k | k in r.index ensures KeyOk(r, k) {
      assert KeyOk(rep, k);
      var j :| 0 <= j < |rep.order| && rep.order[j] == rep.index[k];
      assert r.order[if j == i then 0 else if j < i then j + 1 else j] == rep.index[k];
    }
  }

  // map.erase(key); list.erase(it)
  function Erased<V>(rep: Rep<V>, i: nat): Rep<V>
    requires i < |rep.order| && rep.order[i] in rep.nodes
  {
    Rep(Cut(rep.order, i), rep.nodes - {rep.order[i]}, rep.index - {rep.nodes[rep.order[i]].key})
  }

  lemma ErasedKeeps<V>(rep: Rep<V>, i: nat)
    requires Linked(rep) && i < |rep.order|
    ensures var r := Erased(rep, i); Linked(r) && Listing(r) == Cut(Listing(rep), i)
  {
    hide KeyOk;
    var r, key := Erased(rep, i), rep.nodes[rep.order[i]].key;
    assert NodeOk(rep, i);
    assert rep.index.Keys == r.index.Keys + {key};
    ErasedLinks(rep, i);
    assert Listing(r) == Cut(Listing(rep), i);
  }

  lemma ErasedLinks<V>(rep: Rep<V>, i: nat)
    requires Linked(rep) && i < |rep.order|
    ensures var r := Erased(rep, i);
            && Present(r) && Apart(r.order)
            && (forall j :: 0 <= j < |r.order| ==> NodeOk(r, j)) && (forall k :: k in r.index ==> KeyOk(r, k))
  {
    var r := Erased(rep, i);
    assert NodeOk(rep, i);
    forall j | 0 <= j < |r.order| ensures NodeOk(r, j) {
      assert NodeOk(rep, if j < i then j else j + 1);
    }
    ErasedKeys(rep, i);
  }

  lemma ErasedKeys<V>(rep: Rep<V>, i: nat)
    requires Linked(rep) && i < |rep.order|
    ensures var r := Erased(rep, i); forall k :: k in r.index ==> KeyOk(r, k)
  {
    hide Apart;
    var r := Erased(rep, i);
    assert NodeOk(rep, i);
    forall k | k in r.index ensures KeyOk(r, k) {
      assert KeyOk(rep, k);
      var j :| 0 <= j < |rep.order| && rep.order[j] == rep.index[k];
      assert r.order[if j < i then j else j - 1] == rep.index[k];
    }
  }

  // list.push_front({key, value}); map[key] = begin
  function Pushed<V>(rep: Rep<V>, id: nat, item: Item<V>): Rep<V> {
    Rep([id] + rep.order, rep.nodes[id := item], rep.index[item.key := id])
  }

  lemma PushedKeeps<V>(rep: Rep<V>, id: nat, item: Item<V>)
    requires Linked(rep) && id !in rep.nodes && item.key !in rep.index
    ensures var r := Pushed(rep, id, item); Linked(r) && Listing(r) == [item] + Listing(rep)
  {
    hide KeyOk, NodeOk, Apart;
    var r := Pushed(rep, id, item);
    PushedApart(rep, id, item);
    PushedLinks(rep, id, item);
    assert Listing(r) == [item] + Listing(rep);
  }

  lemma PushedApart<V>(rep: Rep<V>, id: nat, item: Item<V>)
    requires Present(rep) && Apart(rep.order) && id !in rep.nodes && item.key !in rep.index
             && |rep.index| == |rep.order|
    ensures var r := Pushed(rep, id, item); Apart(r.order) && |r.index| == |r.order|
  {
    var r := Pushed(rep, id, item);
    assert r.index.Keys == rep.index.Keys + {item.key};
  }

  lemma PushedLinks<V>(rep: Rep<V>, id: nat, item: Item<V>)
    requires Linked(rep) && id !in rep.nodes && item.key !in rep.index
    ensures var r := Pushed(rep, id, item);
            Present(r) && (forall j :: 0 <= j < |r.order| ==> NodeOk(r, j))
              && (forall k :: k in r.index ==> KeyOk(r, k))
  {
    hide Apart;
    var r := Pushed(rep, id, item);
    forall j | 0 <= j < |r.order| ensures NodeOk(r, j) {
      if j > 0 { assert NodeOk(rep, j - 1); }
    }
    forall k | k in r.index ensures KeyOk(r, k) {
      if k == item.key {
        assert r.order[0] == id;
      } else {
        assert KeyOk(rep, k);
        var j :| 0 <= j < |rep.order| && rep.order[j] == rep.index[k];
        assert r.order[j + 1] == rep.index[k];
      }
    }
  }

  // it->second->second = value
  function Updated<V>(rep: Rep<V>, i: nat, value: V): Rep<V>
    requires i < |rep.order| && rep.order[i] in rep.nodes
  {
    rep.(nodes := rep.nodes[rep.order[i] := Item(rep.nodes[rep.order[i]].key, value)])
  }

  lemma UpdatedKeeps<V>(rep: Rep<V>, i: nat, value: V)
    requires Linked(rep) && i < |rep.order|
    ensures var r := Updated(rep, i, value);
            Linked(r) && Listing(r) == Listing(rep)[i := Item(Listing(rep)[i].key, value)]
  {
    var r := Updated(rep, i, value);
    forall j | 0 <= j < |r.order| ensures NodeOk(r, j) { assert NodeOk(rep, j) && NodeOk(rep, i); }
    forall k | k in r.index ensures KeyOk(r, k) { assert KeyOk(rep, k); }
  }

  class Cache<V(==)> {
    const capacity: nat
    var rep: Rep<V>                              // lru_list_ and cache_map_
    var tableEntries: map<string, seq<string>>   // from table to the keys ever tracked under it
    var hits: nat
    var misses: nat

    // Every cached key is tracked under its table, and tracked keys, cached or not, belong there.
    ghost predicate Tracked()
      reads this
    {
      && (forall t, k :: t in tableEntries && k in tableEntries[t] ==> TableOf(k) == Some(t))
      && (forall k :: k in rep.index && TableOf(k).Some? ==>
          TableOf(k).value in tableEntries && k in tableEntries[TableOf(k).value])
    }

    ghost predicate Valid()
      reads this
    {
      capacity >= 1 && Linked(rep) && |rep.order| <= capacity && Tracked()
    }

    ghost function Contents(): seq<Item<V>>
      requires Valid()
      reads this
    {
      Listing(rep)
    }

    constructor (capacity: nat)
      requires capacity >= 1
      ensures Valid() && Contents() == [] && this.capacity == capacity && hits == misses == 0
    {
      this.capacity := capacity;
      rep, tableEntries, hits, misses := Rep([], map[], map[]), map[], 0, 0;
    }

    // lru_cache.cpp get
    method Get(query: string) returns (result: Option<V>)
      requires Valid()
      modifies this`rep, this`hits, this`misses
      ensures Valid() && Contents() == Touch(old(Contents()), Normalize(query))
      ensures result == if Has(old(Contents()), Normalize(query)) then Some(Lookup(old(Contents()), Normalize(query)))
              else None
      ensures hits + misses == old(hits + misses) + 1 && (hits > old(hits) <==> result.Some?)
    {
      hide TableOf, Linked, Listing, Without;
      var key := NormalizeLoop(query);
      if key !in rep.index {
        AbsentKey(rep, key);
        misses := misses + 1;
        return None;
      }
      var i := Position(rep, key);
      SplicedKeeps(rep, i);
      rep := Spliced(rep, i);
      hits := hits + 1;
      FrontKey(rep, key);
      result := Some(rep.nodes[rep.order[0]].value);
    }

    // The eviction step of put: the least recently used entry leaves a full cache.
    method Evict()
      requires Valid()
      modifies this`rep
      ensures Valid() && |rep.order| < capacity
      ensures Contents() == if |old(Contents())| >= capacity then old(Contents())[..|old(Contents())| - 1]
              else old(Contents())
      ensures forall k :: k in rep.index ==> k in old(rep).index
    {
      hide TableOf, Linked, Listing;
      LinkedSize(rep);
      if |rep.index| >= capacity {
        var back := |rep.order| - 1;
        ErasedKeeps(rep, back);
        assert Cut(Listing(rep), back) == Listing(rep)[..back];
        NodePresent(rep, back);
        rep := Erased(rep, back);
        LinkedSize(rep);
      }
    }

    // lru_cache.cpp put
    method Put(query: string, value: V)
      requires Valid()
      modifies this`rep, this`tableEntries
      ensures Valid() && Contents() == Place(old(Contents()), capacity, Normalize(query), value)
    {
      hide TableOf, Linked, Listing, Without;
      var key := NormalizeLoop(query);
      if key in rep.index {
        Refresh(key, value);
        return;
      }
      AbsentKey(rep, key);
      Evict();
      var id := FreshId(rep.nodes);
      PushedKeeps(rep, id, Item(key, value));
      rep := Pushed(rep, id, Item(key, value));
      LinkedSize(rep);
      Track(key);
    }

    // The first branch of put: overwrite the value and move the entry to the front.
    method Refresh(key: string, value: V)
      requires Valid() && key in rep.index
      modifies this`rep
      ensures Valid() && Has(old(Contents()), key) && Contents() == [Item(key, value)] + Without(old(Contents()), key)
    {
      hide TableOf, Linked, Listing, Without;
      var i := Position(rep, key);
      ghost var l := Listing(rep);
      UpdatedKeeps(rep, i, value);
      rep := Updated(rep, i, value);
      SplicedKeeps(rep, i);
      rep := Spliced(rep, i);
      assert Cut(l[i := Item(key, value)], i) == Cut(l, i);
    }

    // The last part of put: remember the key under the table its text names.
    method Track(key: string)
      requires capacity >= 1 && Linked(rep) && |rep.order| <= capacity
      requires forall t, k :: t in tableEntries && k in tableEntries[t] ==> TableOf(k) == Some(t)
      requires forall k :: k in rep.index && k != key && TableOf(k).Some? ==>
               TableOf(k).value in tableEntries && k in tableEntries[TableOf(k).value]
      modifies this`tableEntries
      ensures Valid()
    {
      hide TableOf, Linked;
      var table := TableOf(key);
      if table.Some? {
        var seen := if table.value in tableEntries then tableEntries[table.value] else [];
        tableEntries := tableEntries[table.value := seen + [key]];
      }
    }

    // lru_cache.cpp invalidate_table: erase every tracked key that is still cached, then forget the table.
    method InvalidateTable(table: string)
      requires Valid()
      modifies this`rep, this`tableEntries
      ensures Valid() && Contents() == Purge(old(Contents()), UpperAll(table))
    {
      hide TableOf, Linked, Listing, Without, Purge;
      var name := UpperAll(table);
      if name !in tableEntries {
        NothingTracked(name);
        return;
      }
      var keys := tableEntries[name];
      ghost var before := Listing(rep);
      AllTracked(name, keys);
      PurgeIsWithoutAll(before, name, keys);
      EraseKeys(keys);
      NoneLeft(rep, before, name);
      tableEntries := tableEntries - {name};
    }

    // The loop of invalidate_table: a key that is no longer cached, or named twice, is passed over.
    method EraseKeys(keys: seq<string>)
      requires Linked(rep) && |rep.order| <= capacity
      modifies this`rep
      ensures Linked(rep) && |rep.order| <= capacity && Listing(rep) == WithoutAll(old(Listing(rep)), keys)
      ensures forall k :: k in rep.index ==> k in old(rep).index
    {
      hide Linked, Listing, Without, Erased, WithoutAll;
      ghost var before := Listing(rep);
      var i := 0;
      assert keys[0..] == keys;
      while i < |keys|
        invariant 0 <= i <= |keys| && Linked(rep) && |rep.order| <= capacity
        invariant WithoutAll(Listing(rep), keys[i..]) == WithoutAll(before, keys)
        invariant forall k :: k in rep.index ==> k in old(rep).index
      {
        WithoutAllStep(Listing(rep), keys, i);
        if keys[i] in rep.index {
          var at := Position(rep, keys[i]);
          ErasedKeeps(rep, at);
          ErasedSize(rep, at);
          rep := Erased(rep, at);
        } else {
          AbsentKey(rep, keys[i]);
          WithoutNone(Listing(rep), keys[i]);
        }
        i := i + 1;
      }
      WithoutAllNone(Listing(rep), keys);
    }

    lemma NothingTracked(table: string)
      requires Valid() && table !in tableEntries
      ensures Purge(Listing(rep), table) == Listing(rep)
    {
      hide TableOf, Purge;
      var l := Listing(rep);
      forall i | 0 <= i < |l| ensures TableOf(l[i].key) != Some(table) { assert NodeOk(rep, i); }
      PurgeNone(l, table);
    }

    lemma AllTracked(table: string, keys: seq<string>)
      requires Valid() && table in tableEntries && tableEntries[table] == keys
      ensures forall x :: x in Listing(rep) && TableOf(x.key) == Some(table) ==> x.key in keys
    {
      hide TableOf;
      forall x | x in Listing(rep) && TableOf(x.key) == Some(table) ensures x.key in keys {
        var i :| 0 <= i < |Listing(rep)| && Listing(rep)[i] == x;
        assert NodeOk(rep, i);
      }
    }
  }

  lemma WithoutAllStep<V>(l: seq<Item<V>>, keys: seq<string>, i: nat)
    requires i < |keys|
    ensures WithoutAll(l, keys[i..]) == WithoutAll(Without(l, keys[i]), keys[i + 1..])
  {
    hide Without;
    assert keys[i..][0] == keys[i] && keys[i..][1..] == keys[i + 1..];
  }

  lemma WithoutAllNone<V>(l: seq<Item<V>>, keys: seq<string>)
    ensures WithoutAll(l, keys[|keys|..]) == l
  {
    assert keys[|keys|..] == [];
  }

  lemma ErasedSize<V>(rep: Rep<V>, i: nat)
    requires Linked(rep) && i < |rep.order|
    ensures rep.order[i] in rep.nodes && |Erased(rep, i).order| < |rep.order|
    ensures forall k :: k in Erased(rep, i).index ==> k in rep.index
  {
  }

  lemma LinkedSize<V>(rep: Rep<V>)
    requires Linked(rep)
    ensures |rep.index| == |rep.order| == |Listing(rep)|
  {
  }

  lemma NodePresent<V>(rep: Rep<V>, i: nat)
    requires Linked(rep) && i < |rep.order|
    ensures rep.order[i] in rep.nodes
  {
  }

  // A new list node.
  method FreshId<V>(nodes: map<nat, Item<V>>) returns (id: nat)
    ensures id !in nodes
  {
    id := 0;
    var below := {};
    while id in nodes
      invariant below <= nodes.Keys && forall k :: k in below <==> 0 <= k < id
      decreases nodes.Keys - below
    {
      below := below + {id};
      id := id + 1;
    }
  }

  // After the purge no cached key belongs to the table.
  lemma NoneLeft<V>(rep: Rep<V>, before: seq<Item<V>>, table: string)
    requires Linked(rep) && Listing(rep) == Purge(before, table)
    ensures forall k :: k in rep.index ==> TableOf(k) != Some(table)
  {
    hide TableOf;
    forall k | k in rep.index ensures TableOf(k) != Some(table) {
      assert KeyOk(rep, k);
      var i :| 0 <= i < |rep.order| && rep.order[i] == rep.index[k];
      assert Listing(rep)[i].key == k;
      PurgeClean(before, table, i);
    }
  }

  lemma {:induction false} PurgeClean<V>(l: seq<Item<V>>, table: string, i: nat)
    requires i < |Purge(l, table)|
    ensures TableOf(Purge(l, table)[i].key) != Some(table)
  {
    hide TableOf;
    if TableOf(l[0].key) == Some(table) {
      PurgeClean(l[1..], table, i);
    } else if i > 0 {
      PurgeClean(l[1..], table, i - 1);
    }
  }

  method Position<V>(rep: Rep<V>, key: string) returns (i: nat)
    requires Linked(rep) && key in rep.index
    ensures i < |rep.order| && rep.order[i] == rep.index[key] && rep.order[i] in rep.nodes && Listing(rep)[i].key == key
    ensures Has(Listing(rep), key) && Lookup(Listing(rep), key) == Listing(rep)[i].value
    ensures Without(Listing(rep), key) == Cut(Listing(rep), i)
  {
    hide Without, Lookup;
    assert KeyOk(rep, key);
    i :| 0 <= i < |rep.order| && rep.order[i] == rep.index[key];
    LinkedDistinct(rep);
    WithoutAt(Listing(rep), i);
    LookupAt(Listing(rep), i);
  }

  lemma AbsentKey<V>(rep: Rep<V>, key: string)
    requires Linked(rep) && key !in rep.index
    ensures !Has(Listing(rep), key)
  {
    var l := Listing(rep);
    forall i | 0 <= i < |l| ensures l[i].key != key { assert NodeOk(rep, i); }
  }

  lemma FrontKey<V>(rep: Rep<V>, key: string)
    requires Linked(rep) && |rep.order| > 0
    ensures rep.order[0] in rep.nodes && Listing(rep)[0] == rep.nodes[rep.order[0]]
  {
    assert NodeOk(rep, 0);
  }
}
