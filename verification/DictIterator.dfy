/** Walking over the table with dictNext while entries already handed out may be deleted. */
module DictIterator {
  import opened Bytes
  import opened Dict
  import opened DictTable

  /** The entries of the buckets from i on, in bucket and chain order. */
  ghost function Flat(chains: seq<seq<Ptr>>, i: nat): seq<Ptr>
    decreases |chains| - i
  {
    if i >= |chains| then [] else chains[i] + Flat(chains, i + 1)
  }

  /** What an iterator inside bucket i, past its first m entries, has not handed out yet; None is between buckets. */
  ghost function Ahead(chains: seq<seq<Ptr>>, i: int, inside: bool, m: nat): seq<Ptr>
    requires i >= -1 && (inside ==> 0 <= i < |chains| && m <= |chains[i]|)
  {
    (if inside then chains[i][m..] else []) + Flat(chains, i + 1)
  }

  lemma HeadOf(mem: Memory, table: seq<Option<Ptr>>, chains: seq<seq<Ptr>>, index: Index, i: nat)
    requires Good(mem, table, chains, index) && i < |table|
    ensures table[i] == At(chains[i], 0) && Ahead(chains, i - 1, false, 0) == Ahead(chains, i, true, 0)
    ensures chains[i] == [] ==> Ahead(chains, i - 1, false, 0) == Ahead(chains, i, false, 0)
  {
    assert Bucket(mem, table[i], chains[i], i, |table|);
  }

  lemma NextOf(mem: Memory, table: seq<Option<Ptr>>, chains: seq<seq<Ptr>>, index: Index, i: nat, j: nat)
    requires Good(mem, table, chains, index) && i < |table| && j < |chains[i]|
    ensures chains[i][j] in mem && mem[chains[i][j]].next == At(chains[i], j + 1)
    ensures Ahead(chains, i, true, j) == [chains[i][j]] + Ahead(chains, i, true, j + 1)
  {
    assert Bucket(mem, table[i], chains[i], i, |table|);
    assert LinkAt(mem, chains[i], j);
  }

  class Iterator {
    const ht: HashTable
    var index: int
    var entry: Option<Ptr>
    var nextEntry: Option<Ptr>
    ghost var passed: nat

    ghost predicate Ready()
      reads this, ht`chains
    {
      && index >= -1
      && (entry.Some? ==> 0 <= index < |ht.chains| && passed <= |ht.chains[index]|
                          && nextEntry == At(ht.chains[index], passed))
    }

    /** The entries still to be handed out. */
    ghost function Todo(): seq<Ptr>
      requires Ready()
      reads this, ht`chains
    {
      Ahead(ht.chains, index, entry.Some?, passed)
    }

    constructor (ht: HashTable)
      ensures this.ht == ht && Ready() && Todo() == Flat(ht.chains, 0)
    {
      this.ht := ht;
      index, entry, nextEntry, passed := -1, None, None, 0;
    }

    /** The entry it hands out is the first of those to do, and stands just before the ones still to do in its bucket. */
    ghost predicate Just(p: Ptr)
      reads this, ht`chains
    {
      Ready() && entry == Some(p) && passed > 0 && ht.chains[index][passed - 1] == p
    }

    method Next() returns (r: Option<Ptr>)
      requires ht.Sound() && Ready()
      modifies this
      ensures Ready() && r == At(old(Todo()), 0)
      ensures r.Some? ==> Just(r.value) && old(Todo()) == [r.value] + Todo()
      ensures r.None? ==> Todo() == []
    {
      while true
        invariant Ready() && Todo() == old(Todo())
        decreases |ht.chains| - index, entry.Some?
      {
        if entry.None? {
          index := index + 1;
          if index >= ht.size {
            break;
          }
          HeadOf(ht.mem, ht.table, ht.chains, ht.index, index);
          entry := ht.table[index];
          passed := 0;
        } else {
          entry := nextEntry;
        }
        if entry.Some? {
          SaveNext();
          return entry;
        }
      }
      r := None;
    }

    /** The next pointer is read before the caller can free the entry. */
    method SaveNext()
      requires ht.Sound() && entry.Some? && 0 <= index < |ht.chains| && passed <= |ht.chains[index]|
      requires entry == At(ht.chains[index], passed)
      modifies this`nextEntry, this`passed
      ensures Just(entry.value) && old(Ahead(ht.chains, index, true, passed)) == [entry.value] + Todo()
    {
      NextOf(ht.mem, ht.table, ht.chains, ht.index, index, passed);
      nextEntry := ht.mem[entry.value].next;
      passed := passed + 1;
    }

    /** The caller deletes the entry it was just given: what is still to do stays what it was. */
    method DeleteGiven(p: Ptr)
      requires ht.Valid() && Just(p) && p in ht.mem
      modifies this`passed, ht`mem, ht`table, ht`used, ht`chains, ht`index
      ensures ht.Valid() && Ready() && Todo() == old(Todo())
      ensures ht.Contents() == old(ht.Contents()) - {old(ht.mem)[p].key} && SameKeys(old(ht.mem), ht.mem)
    {
      ghost var chains := ht.chains;
      GivenPlace(ht.mem, ht.table, ht.chains, ht.index, index, passed - 1);
      var ok, j := ht.Delete(ht.mem[p].key);
      assert j == passed - 1;
      passed := passed - 1;
      DeleteBehind(chains, index, j);
    }
  }

  lemma GivenPlace(mem: Memory, table: seq<Option<Ptr>>, chains: seq<seq<Ptr>>, index: Index, i: nat, j: nat)
    requires Good(mem, table, chains, index) && i < |table| && j < |chains[i]|
    ensures chains[i][j] in mem && Slot(mem[chains[i][j]].key, |table|) == i
    ensures mem[chains[i][j]].key in index && index[mem[chains[i][j]].key] == chains[i][j] && NoRepeats(chains[i])
  {
    IndexedFacts(mem, index);
    assert Bucket(mem, table[i], chains[i], i, |table|);
    assert Belongs(mem, chains[i][j], i, |table|);
  }

  lemma DeleteBehind(chains: seq<seq<Ptr>>, i: nat, j: nat)
    requires i < |chains| && j < |chains[i]|
    ensures var chains' := chains[i := Without(chains[i], j)];
            Ahead(chains', i, true, j) == Ahead(chains, i, true, j + 1) && At(chains'[i], j) == At(chains[i], j + 1)
  {
    var chains' := chains[i := Without(chains[i], j)];
    FlatSame(chains, chains', i + 1);
    assert Without(chains[i], j)[j..] == chains[i][j + 1..];
  }

  lemma {:induction false} FlatSame(chains: seq<seq<Ptr>>, chains': seq<seq<Ptr>>, i: nat)
    requires |chains'| == |chains| && forall k :: i <= k < |chains| ==> chains'[k] == chains[k]
    ensures Flat(chains', i) == Flat(chains, i)
    decreases |chains| - i
  {
    if i < |chains| {
      FlatSame(chains, chains', i + 1);
    }
  }

  // ------------------------------------------------------------ each entry once

  lemma {:induction false} FlatMembers(mem: Memory, table: seq<Option<Ptr>>, chains: seq<seq<Ptr>>, index: Index, i: nat)
    requires Good(mem, table, chains, index) && i <= |table|
    ensures NoRepeats(Flat(chains, i))
    ensures forall p :: p in Flat(chains, i) <==> p in mem && |table| > 0 && Slot(mem[p].key, |table|) >= i
    decreases |table| - i
  {
    IndexedFacts(mem, index);
    if i < |table| {
      FlatMembers(mem, table, chains, index, i + 1);
      assert Bucket(mem, table[i], chains[i], i, |table|);
      forall p | p in mem && Slot(mem[p].key, |table|) == i ensures p in chains[i] {
        assert Filed(chains, index, mem[p].key);
      }
      forall p | p in chains[i] ensures p in mem && Slot(mem[p].key, |table|) == i {
        assert Belongs(mem, p, i, |table|);
      }
      Apart(chains[i], Flat(chains, i + 1));
    } else {
      forall p | p in mem ensures |table| > 0 && Slot(mem[p].key, |table|) < i {
        assert Filed(chains, index, mem[p].key);
      }
    }
  }

  lemma Apart(a: seq<Ptr>, b: seq<Ptr>)
    requires NoRepeats(a) && NoRepeats(b) && forall p :: p in a ==> p !in b
    ensures NoRepeats(a + b)
  {
    var c := a + b;
    forall i, j | 0 <= i < j < |c| ensures c[i] != c[j] {
      if i < |a| <= j {
        assert a[i] in a && b[j - |a|] in b;
      }
    }
  }

  ghost predicate Distinct(keys: seq<Key>) {
    forall i, j :: 0 <= i < j < |keys| ==> keys[i] != keys[j]
  }

  /** The keys of the entries in the given order. */
  ghost predicate KeysOf(mem: Memory, ps: seq<Ptr>, keys: seq<Key>) {
    |keys| == |ps| && forall i :: 0 <= i < |ps| ==> ps[i] in mem && mem[ps[i]].key == keys[i]
  }

  lemma EachOnce(mem: Memory, table: seq<Option<Ptr>>, chains: seq<seq<Ptr>>, index: Index, keys: seq<Key>)
    requires Good(mem, table, chains, index) && KeysOf(mem, Flat(chains, 0), keys)
    ensures Distinct(keys) && forall k :: k in keys <==> k in Model(mem, index)
  {
    IndexedFacts(mem, index);
    FlatMembers(mem, table, chains, index, 0);
    var ps := Flat(chains, 0);
    forall k | k in index ensures k in keys {
      assert Filed(chains, index, k);
      assert index[k] in ps;
      var i :| 0 <= i < |ps| && ps[i] == index[k];
      assert keys[i] == k;
    }
  }

  /** The caller looks at the key of the entry it was given and may delete it. */
  method Visit(iter: Iterator, p: Ptr, doomed: set<Key>) returns (key: Key)
    requires iter.ht.Valid() && iter.Just(p)
    modifies iter`passed, iter.ht`mem, iter.ht`table, iter.ht`used, iter.ht`chains, iter.ht`index
    ensures iter.ht.Valid() && iter.Ready() && iter.Todo() == old(iter.Todo())
    ensures SameKeys(old(iter.ht.mem), iter.ht.mem)
    ensures p in old(iter.ht.mem) && key == old(iter.ht.mem)[p].key
    ensures iter.ht.Contents() == old(iter.ht.Contents()) - (doomed * {key})
  {
    GivenPlace(iter.ht.mem, iter.ht.table, iter.ht.chains, iter.ht.index, iter.index, iter.passed - 1);
    key := iter.ht.mem[p].key;
    if key in doomed {
      iter.DeleteGiven(p);
      assert doomed * {key} == {key};
    }
  }

  /** What is to do begins with the next entry. */
  ghost predicate Begins(todo: seq<Ptr>, next: Option<Ptr>, rest: seq<Ptr>) {
    todo == match next { case Some(q) => [q] + rest case None => [] }
  }

  /** One round of the caller's loop. */
  method VisitNext(iter: Iterator, p: Ptr, doomed: set<Key>) returns (key: Key, next: Option<Ptr>)
    requires iter.ht.Valid() && iter.Just(p)
    modifies iter, iter.ht`mem, iter.ht`table, iter.ht`used, iter.ht`chains, iter.ht`index
    ensures iter.ht.Valid() && iter.Ready() && Begins(old(iter.Todo()), next, iter.Todo())
    ensures next.Some? ==> iter.Just(next.value)
    ensures SameKeys(old(iter.ht.mem), iter.ht.mem)
    ensures p in old(iter.ht.mem) && key == old(iter.ht.mem)[p].key
    ensures iter.ht.Contents() == old(iter.ht.Contents()) - (doomed * {key})
  {
    key := Visit(iter, p, doomed);
    next := iter.Next();
  }

  /** How far a walk has come: ps were handed out, with these keys, p is being handed out, rest is to do. */
  ghost predicate Along(all: seq<Ptr>, ps: seq<Ptr>, p: Option<Ptr>, rest: seq<Ptr>) {
    all == ps + match p { case Some(q) => [q] + rest case None => [] }
  }

  lemma AlongFurther(all: seq<Ptr>, ps: seq<Ptr>, p: Ptr, rest: seq<Ptr>, q: Option<Ptr>, rest': seq<Ptr>)
    requires Along(all, ps, Some(p), rest) && Begins(rest, q, rest')
    ensures Along(all, ps + [p], q, rest') && |ps| < |all|
  {
  }

  /** The map m0 without the doomed among the visited keys. */
  ghost predicate Thinned(m0: map<Key, Val>, m: map<Key, Val>, doomed: set<Key>, visited: seq<Key>) {
    && (forall k :: k in m <==> k in m0 && !(k in doomed && k in visited))
    && (forall k :: k in m ==> m[k] == m0[k])
  }

  lemma ThinnedFurther(m0: map<Key, Val>, m: map<Key, Val>, doomed: set<Key>, visited: seq<Key>, key: Key)
    requires Thinned(m0, m, doomed, visited)
    ensures Thinned(m0, m - (doomed * {key}), doomed, visited + [key])
  {
  }

  lemma ThinnedAll(m0: map<Key, Val>, m: map<Key, Val>, doomed: set<Key>, visited: seq<Key>)
    requires Thinned(m0, m, doomed, visited) && forall k :: k in m0 ==> k in visited
    ensures m == m0 - doomed
  {
  }

  lemma KeysFurther(mem: Memory, mem': Memory, ps: seq<Ptr>, keys: seq<Key>, p: Ptr)
    requires KeysOf(mem, ps, keys) && SameKeys(mem, mem') && p in mem'
    ensures KeysOf(mem, ps + [p], keys + [mem'[p].key])
  {
  }

  /** A walk under way: the entries ps, with these keys, were handed out, and `de` is being handed out. */
  ghost predicate Walking(iter: Iterator, de: Option<Ptr>, doomed: set<Key>, all: seq<Ptr>, ps: seq<Ptr>, visited: seq<Key>,
                          mem0: Memory, m0: map<Key, Val>)
    reads iter, iter.ht
  {
    && iter.ht.Valid() && iter.Ready() && (de.Some? ==> iter.Just(de.value))
    && Along(all, ps, de, iter.Todo()) && Passed(mem0, iter.ht.mem, m0, iter.ht.Contents(), doomed, ps, visited)
  }

  /** A round, in the context of the whole walk. */
  method OneRound(iter: Iterator, p: Ptr, doomed: set<Key>, ghost all: seq<Ptr>, ghost ps: seq<Ptr>, ghost visited: seq<Key>,
                  ghost mem0: Memory, ghost m0: map<Key, Val>)
    returns (key: Key, next: Option<Ptr>)
    requires Walking(iter, Some(p), doomed, all, ps, visited, mem0, m0)
    modifies iter, iter.ht`mem, iter.ht`table, iter.ht`used, iter.ht`chains, iter.ht`index
    ensures Walking(iter, next, doomed, all, ps + [p], visited + [key], mem0, m0) && |ps| < |all|
  {
    ghost var mem1, m1, rest := iter.ht.mem, iter.ht.Contents(), iter.Todo();
    key, next := VisitNext(iter, p, doomed);
    PassedFurther(mem0, mem1, iter.ht.mem, m0, m1, iter.ht.Contents(), doomed, ps, visited, p);
    AlongFurther(all, ps, p, rest, next, iter.Todo());
  }

  /** The caller's loop, from the first entry on. */
  method Rounds(iter: Iterator, first: Option<Ptr>, doomed: set<Key>, ghost all: seq<Ptr>) returns (visited: seq<Key>)
    requires iter.ht.Valid() && iter.Ready() && (first.Some? ==> iter.Just(first.value))
    requires Begins(all, first, iter.Todo())
    modifies iter, iter.ht`mem, iter.ht`table, iter.ht`used, iter.ht`chains, iter.ht`index
    ensures iter.ht.Valid() && KeysOf(old(iter.ht.mem), all, visited)
    ensures Thinned(old(iter.ht.Contents()), iter.ht.Contents(), doomed, visited)
  {
    ghost var mem0, m0 := iter.ht.mem, iter.ht.Contents();
    visited := [];
    var de := first;
    ghost var ps: seq<Ptr> := [];
    while de.Some?
      invariant Walking(iter, de, doomed, all, ps, visited, mem0, m0)
      decreases |all| - |ps|
    {
      var key, next := OneRound(iter, de.value, doomed, all, ps, visited, mem0, m0);
      visited := visited + [key];
      ps := ps + [de.value];
      de := next;
    }
  }

  /** What has become of the table once the entries ps, with these keys, were handed out. */
  ghost predicate Passed(mem0: Memory, mem: Memory, m0: map<Key, Val>, m: map<Key, Val>, doomed: set<Key>,
                         ps: seq<Ptr>, visited: seq<Key>) {
    SameKeys(mem0, mem) && KeysOf(mem0, ps, visited) && Thinned(m0, m, doomed, visited)
  }

  lemma PassedFurther(mem0: Memory, mem: Memory, mem': Memory, m0: map<Key, Val>, m: map<Key, Val>, m': map<Key, Val>,
                      doomed: set<Key>, ps: seq<Ptr>, visited: seq<Key>, p: Ptr)
    requires Passed(mem0, mem, m0, m, doomed, ps, visited) && p in mem && SameKeys(mem, mem')
    requires m' == m - (doomed * {mem[p].key})
    ensures Passed(mem0, mem', m0, m', doomed, ps + [p], visited + [mem[p].key])
  {
    ThinnedFurther(m0, m, doomed, visited, mem[p].key);
    KeysFurther(mem0, mem, ps, visited, p);
  }

  /** A whole walk; the caller deletes the entries whose keys are doomed as they come. */
  method Walk(ht: HashTable, doomed: set<Key>) returns (visited: seq<Key>)
    requires ht.Valid()
    modifies ht
    ensures ht.Valid() && ht.Contents() == old(ht.Contents()) - doomed
    ensures Distinct(visited) && forall k :: k in visited <==> k in old(ht.Contents())
  {
    ghost var m0 := ht.Contents();
    var iter := new Iterator(ht);
    var first := iter.Next();
    visited := Rounds(iter, first, doomed, Flat(old(ht.chains), 0));
    EachOnce(old(ht.mem), old(ht.table), old(ht.chains), old(ht.index), visited);
    ThinnedAll(m0, ht.Contents(), doomed, visited);
  }
}
