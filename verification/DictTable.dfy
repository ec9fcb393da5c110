/** The operations of dict.c on the table, proved against a finite map. */
module DictTable {
  import opened Bytes
  import opened Dict
  import DictRehash

  // ------------------------------------------------------------ searching one bucket

  /** The search stopped at position j of the chain: there is the key, or the chain has ended without it. */
  ghost predicate StopsAt(mem: Memory, ch: seq<Ptr>, key: Key, j: nat) {
    && j <= |ch|
    && (forall k :: 0 <= k < j ==> ch[k] in mem && mem[ch[k]].key != key)
    && (j < |ch| ==> ch[j] in mem && mem[ch[j]].key == key)
  }

  /** The loop shared by dictFind, dictDelete and _dictKeyIndex; prev trails one entry behind. */
  method Scan(mem: Memory, head: Option<Ptr>, key: Key, ghost ch: seq<Ptr>)
    returns (prev: Option<Ptr>, de: Option<Ptr>, ghost j: nat)
    requires Linked(mem, head, ch)
    ensures StopsAt(mem, ch, key, j)
    ensures de == At(ch, j) && prev == if j == 0 then None else At(ch, j - 1)
  {
    prev, de, j := None, head, 0;
    while de.Some?
      invariant j <= |ch| && de == At(ch, j) && prev == if j == 0 then None else At(ch, j - 1)
      invariant forall k :: 0 <= k < j ==> ch[k] in mem && mem[ch[k]].key != key
      decreases |ch| - j
    {
      assert LinkAt(mem, ch, j);
      if mem[de.value].key == key {
        return;
      }
      prev, de, j := de, mem[de.value].next, j + 1;
    }
  }

  /** Searching its own bucket finds a key exactly when it is in the table. */
  lemma StopsRight(mem: Memory, table: seq<Option<Ptr>>, chains: seq<seq<Ptr>>, index: Index, key: Key, j: nat)
    requires Good(mem, table, chains, index) && |table| > 0 && StopsAt(mem, chains[Slot(key, |table|)], key, j)
    ensures At(chains[Slot(key, |table|)], j) == if key in index then Some(index[key]) else None
  {
    IndexedFacts(mem, index);
    var ch := chains[Slot(key, |table|)];
    if key in index {
      assert Filed(chains, index, key);
      var k :| 0 <= k < |ch| && ch[k] == index[key];
      assert k >= j;
    }
  }

  /** No entry is new and none has another key. */
  ghost predicate SameKeys(mem: Memory, mem': Memory) {
    forall p :: p in mem' ==> p in mem && mem'[p].key == mem[p].key
  }

  /** The chains after entry j of bucket h, which is p, was taken out. */
  ghost predicate Removed(chains: seq<seq<Ptr>>, p: Ptr, h: nat, j: nat, chains': seq<seq<Ptr>>) {
    h < |chains| && j < |chains[h]| && chains[h][j] == p && chains' == chains[h := Without(chains[h], j)]
  }

  lemma UnlinkSizes(mem: Memory, table: seq<Option<Ptr>>, chains: seq<seq<Ptr>>, index: Index, h: nat, j: nat)
    requires Good(mem, table, chains, index) && h < |table| && j < |chains[h]|
    ensures var ch := chains[h];
            && ch[j] in mem && (j > 0 ==> ch[j - 1] in mem)
            && |Unlink(mem, ch, j).Keys| == |mem.Keys| - 1 && |index - {mem[ch[j]].key}| == |index| - 1
            && SameKeys(mem, Unlink(mem, ch, j))
  {
    IndexedFacts(mem, index);
    var ch := chains[h];
    assert Bucket(mem, table[h], ch, h, |table|);
    InMemory(mem, table[h], ch, h, |table|);
    var key := mem[ch[j]].key;
    assert Unlink(mem, ch, j).Keys == mem.Keys - {ch[j]};
    assert (index - {key}).Keys == index.Keys - {key};
  }

  /** The pointer to the entry, in its predecessor or in the table, skips it; the entry is freed. */
  method Cut(mem: Memory, table: seq<Option<Ptr>>, h: nat, prev: Option<Ptr>, de: Ptr,
             ghost chains: seq<seq<Ptr>>, ghost index: Index, ghost j: nat)
    returns (mem': Memory, table': seq<Option<Ptr>>, ghost chains': seq<seq<Ptr>>, ghost index': Index)
    requires Good(mem, table, chains, index) && h < |table| && j < |chains[h]| && de == chains[h][j] && de in mem
    requires prev == if j == 0 then None else At(chains[h], j - 1)
    ensures Good(mem', table', chains', index') && SameKeys(mem, mem') && |table'| == |table|
    ensures chains' == chains[h := Without(chains[h], j)]
    ensures Model(mem', index') == Model(mem, index) - {mem[de].key}
    ensures |mem'.Keys| == |mem.Keys| - 1 && |index'| == |index| - 1
  {
    UnlinkSizes(mem, table, chains, index, h, j);
    DeleteKeepsGood(mem, table, chains, index, h, j);
    mem', table' := mem, table;
    if prev.Some? {
      mem' := mem[prev.value := mem[prev.value].(next := mem[de].next)];
    } else {
      table' := table[h := mem[de].next];
    }
    mem' := mem' - {de};
    assert mem' == Unlink(mem, chains[h], j);
    chains', index' := chains[h := Without(chains[h], j)], index - {mem[de].key};
  }

  class HashTable {
    var mem: Memory
    var brk: Ptr
    var table: seq<Option<Ptr>>
    var size: nat
    var sizemask: nat
    var used: nat
    ghost var chains: seq<seq<Ptr>>
    ghost var index: Index

    /** The chains are right. */
    ghost predicate Sound()
      reads this`mem, this`table, this`size, this`chains, this`index
    {
      size == |table| && Good(mem, table, chains, index)
    }

    ghost predicate Valid()
      reads this
    {
      && Sound() && (size == 0 || (PowerOfTwo(size) && size >= 4 && sizemask == size - 1))
      && used == |mem.Keys| == |index| <= size
      && (forall p :: p in mem ==> p < brk)
    }

    /** What the table stands for. */
    ghost function Contents(): (m: map<Key, Val>)
      requires Valid()
      reads this
    {
      Model(mem, index)
    }

    constructor ()
      ensures Valid() && Contents() == map[] && size == 0
    {
      mem, brk, table, size, sizemask, used := map[], 0, [], 0, 0, 0;
      chains, index := [], map[];
    }

    method Find(key: Key) returns (de: Option<Ptr>)
      requires Valid()
      ensures de.Some? <==> key in Contents()
      ensures de.Some? ==> de.value in mem && mem[de.value].key == key && mem[de.value].val == Contents()[key]
      ensures de == if key in index then Some(index[key]) else None
    {
      if size == 0 {
        return None;
      }
      MaskIsMod(key.hash, size);
      var h := And(key.hash, sizemask);
      assert Bucket(mem, table[h], chains[h], h, size);
      var prev, found, j := Scan(mem, table[h], key, chains[h]);
      StopsRight(mem, table, chains, index, key, j);
      de := found;
    }

    /** Fails exactly when more entries are in use than the size asked for; otherwise the map stays the same. */
    method Expand(want: nat) returns (ok: bool)
      requires Valid()
      modifies this`mem, this`table, this`size, this`sizemask, this`chains
      ensures Valid() && Contents() == old(Contents()) && mem.Keys == old(mem.Keys)
      ensures ok <==> used <= want
      ensures ok ==> size >= want && size >= 4 && (size > 4 ==> size / 2 < want)
      ensures !ok ==> size == old(size)
    {
      var realsize := NextPower(want);
      if used > want {
        return false;
      }
      var mem', table', nchains := DictRehash.Rehash(mem, table, used, realsize, chains, index);
      mem, table, size, sizemask := mem', table', realsize, realsize - 1;
      chains := nchains;
      ok := true;
    }

    method ExpandIfNeeded() returns (ok: bool)
      requires Valid()
      modifies this`mem, this`table, this`size, this`sizemask, this`chains
      ensures Valid() && Contents() == old(Contents())
      ensures ok && used < size
      ensures size == if old(size) == 0 then 4 else if used == old(size) then 2 * used else old(size)
    {
      if size == 0 {
        ok := Expand(INITIAL_SIZE);
        DoublePower(2, size);
      } else if used == size {
        ok := Expand(size * 2);
        DoublePower(used, size);
      } else {
        ok := true;
      }
    }

    /** The bucket a new entry for the key goes to; nothing when the key is there already. */
    method KeyIndex(key: Key) returns (r: Option<nat>)
      requires Valid()
      modifies this`mem, this`table, this`size, this`sizemask, this`chains
      ensures Valid() && Contents() == old(Contents()) && used < size
      ensures r == if key in index then None else Some(Slot(key, size))
    {
      var ok := ExpandIfNeeded();
      if !ok {
        return None;
      }
      MaskIsMod(key.hash, size);
      var h := And(key.hash, sizemask);
      assert Bucket(mem, table[h], chains[h], h, size);
      var prev, found, j := Scan(mem, table[h], key, chains[h]);
      StopsRight(mem, table, chains, index, key, j);
      r := if found.Some? then None else Some(h);
    }

    method Add(key: Key, val: Val) returns (ok: bool)
      requires Valid()
      modifies this
      ensures Valid() && (ok <==> key !in old(Contents()))
      ensures Contents() == if ok then old(Contents())[key := val] else old(Contents())
    {
      var r := KeyIndex(key);
      if r.None? {
        return false;
      }
      Link(r.value, key, val);
      ok := true;
    }

    /** The second half of dictAdd: a new entry at the front of bucket h. */
    method Link(h: nat, key: Key, val: Val)
      requires Valid() && used < size && key !in index && h == Slot(key, size)
      modifies this
      ensures Valid() && Contents() == old(Contents())[key := val]
    {
      AddKeepsGood(mem, table, chains, index, brk, key, val);
      AddIndex(mem, index, brk, Entry(key, val, table[h]));
      mem := mem[brk := Entry(key, val, table[h])];
      table := table[h := Some(brk)];
      chains := chains[h := [brk] + chains[h]];
      index := index[key := brk];
      used := used + 1;
      brk := brk + 1;
    }

    /** True when the key is new. */
    method Replace(key: Key, val: Val) returns (added: bool)
      requires Valid()
      modifies this
      ensures Valid() && (added <==> key !in old(Contents()))
      ensures Contents() == old(Contents())[key := val]
    {
      added := Add(key, val);
      if !added {
        var entry := Find(key);
        SetKeepsGood(mem, table, chains, index, entry.value, val);
        mem := mem[entry.value := mem[entry.value].(val := val)];
      }
    }

    method Delete(key: Key) returns (ok: bool, ghost j: nat)
      requires Valid()
      modifies this`mem, this`table, this`used, this`chains, this`index
      ensures Valid() && (ok <==> key in old(Contents()))
      ensures Contents() == old(Contents()) - {key}
      ensures SameKeys(old(mem), mem)
      ensures ok ==> Removed(old(chains), old(index)[key], Slot(key, size), j, chains)
    {
      ok, j := false, 0;
      if size == 0 {
        return;
      }
      MaskIsMod(key.hash, size);
      var h := And(key.hash, sizemask);
      assert Bucket(mem, table[h], chains[h], h, size);
      var prev, de;
      prev, de, j := Scan(mem, table[h], key, chains[h]);
      StopsRight(mem, table, chains, index, key, j);
      if de.Some? {
        Unlinked(h, j, prev, de.value);
        ok := true;
      }
    }

    /** Unlinks and frees the entry after prev. */
    method Unlinked(h: nat, ghost j: nat, prev: Option<Ptr>, de: Ptr)
      requires Valid() && h < |table| && j < |chains[h]| && de == chains[h][j]
      requires de in mem && prev == if j == 0 then None else At(chains[h], j - 1)
      modifies this`mem, this`table, this`used, this`chains, this`index
      ensures Valid() && Contents() == old(Contents()) - {old(mem)[de].key}
      ensures chains == old(chains)[h := Without(old(chains)[h], j)] && SameKeys(old(mem), mem)
    {
      var mem', table', chains', index' := Cut(mem, table, h, prev, de, chains, index, j);
      mem, table, used := mem', table', used - 1;
      chains, index := chains', index';
    }

    /** The used counter is the number of keys; it never exceeds the size, which is zero or a power of two. */
    lemma Measures()
      requires Valid()
      ensures |Contents()| == used <= size && (size == 0 || PowerOfTwo(size))
    {
      assert Contents().Keys == index.Keys;
    }
  }

  /** The smallest power of two that is at least twice a power of two is its double. */
  lemma {:induction false} DoublePower(m: nat, n: nat)
    requires PowerOfTwo(m) && PowerOfTwo(n) && m >= 2 && n >= 2 * m && n / 2 < 2 * m
    ensures n == 2 * m
  {
    if m == 2 {
      assert PowerOfTwo(n / 2) && !PowerOfTwo(3);
    } else {
      DoublePower(m / 2, n / 2);
    }
  }
}
