/**
 The chained hash table of dict.c. Entries live in an explicit memory, so that rewiring next pointers, freeing an
 entry and following a stale pointer mean what they mean in C: a freed entry is no longer in the memory.
 */
module Dict {
  import opened Bytes

  type Ptr = nat

  /** Values are pointers the table does not look into. */
  type Val = int

  /** A key with its hash. The table works for every hash function, so a key simply comes with its value. */
  datatype Key = Key(text: bytes, hash: nat)

  datatype Entry = Entry(key: Key, val: Val, next: Option<Ptr>)

  type Memory = map<Ptr, Entry>

  // ------------------------------------------------------------ hashing and masking

  /** Bitwise and. */
  function And(a: nat, b: nat): nat
    decreases b
  {
    if b == 0 then 0 else (a % 2) * (b % 2) + 2 * And(a / 2, b / 2)
  }

  predicate PowerOfTwo(n: nat) {
    n == 1 || (n > 1 && n % 2 == 0 && PowerOfTwo(n / 2))
  }

  /** For a power of two, masking with size - 1 is the remainder. */
  lemma {:induction false} MaskIsMod(h: nat, size: nat)
    requires PowerOfTwo(size)
    ensures And(h, size - 1) == h % size
  {
    if size > 1 {
      var half := size / 2;
      MaskIsMod(h / 2, half);
      assert (size - 1) % 2 == 1 && (size - 1) / 2 == half - 1;
      assert h % size == h % 2 + 2 * ((h / 2) % half) by {
        DivideByTwice(h, half);
      }
    }
  }

  lemma DivideByTwice(h: nat, half: nat)
    requires half > 0
    ensures h % (2 * half) == h % 2 + 2 * ((h / 2) % half)
  {
    var q, r := (h / 2) / half, (h / 2) % half;
    assert h == 2 * (q * half + r) + h % 2;
    assert h == q * (2 * half) + (2 * r + h % 2);
    ModOf(h, 2 * half, q, 2 * r + h % 2);
  }

  lemma ModOf(h: nat, m: nat, q: nat, r: nat)
    requires m > 0 && h == q * m + r && r < m
    ensures h % m == r
  {
    Scaled(h / m - q, m);
    assert (h / m - q) * m == r - h % m;
  }

  lemma Scaled(d: int, m: nat)
    ensures d >= 1 ==> d * m >= m
    ensures d <= -1 ==> d * m + m <= 0
  {
  }

  const INITIAL_SIZE: nat := 4

  /** _dictNextPower: doubling from the initial size. */
  method NextPower(size: nat) returns (i: nat)
    ensures PowerOfTwo(i) && i >= size && i >= 4
    ensures i > 4 ==> i / 2 < size
  {
    i := INITIAL_SIZE;
    while i < size
      invariant PowerOfTwo(i) && i >= 4
      invariant i > 4 ==> i / 2 < size
      decreases size - i
    {
      i := i * 2;
    }
  }

  // ------------------------------------------------------------ chains

  function Slot(key: Key, size: nat): (h: nat)
    requires size > 0
    ensures h < size
  {
    key.hash % size
  }

  function At(ch: seq<Ptr>, k: nat): Option<Ptr> {
    if k < |ch| then Some(ch[k]) else None
  }

  ghost predicate LinkAt(mem: Memory, ch: seq<Ptr>, j: nat)
    requires j < |ch|
  {
    ch[j] in mem && mem[ch[j]].next == At(ch, j + 1)
  }

  /** From head, the next pointers run through exactly the entries ch and then end. */
  ghost predicate Linked(mem: Memory, head: Option<Ptr>, ch: seq<Ptr>) {
    head == At(ch, 0) && forall j :: 0 <= j < |ch| ==> LinkAt(mem, ch, j)
  }

  ghost predicate NoRepeats(ch: seq<Ptr>) {
    forall i, j :: 0 <= i < j < |ch| ==> ch[i] != ch[j]
  }

  ghost predicate Belongs(mem: Memory, p: Ptr, i: nat, size: nat) {
    size > 0 && p in mem && Slot(mem[p].key, size) == i
  }

  /** Bucket i is the linked list ch of entries whose keys belong there. */
  ghost predicate Bucket(mem: Memory, head: Option<Ptr>, ch: seq<Ptr>, i: nat, size: nat) {
    && Linked(mem, head, ch) && NoRepeats(ch)
    && forall p :: p in ch ==> Belongs(mem, p, i, size)
  }

  /** Where the entry of each key is. */
  type Index = map<Key, Ptr>

  ghost predicate Indexed(mem: Memory, index: Index) {
    (forall p :: Known(mem, index, p)) && (forall k :: Located(mem, index, k))
  }

  ghost predicate Known(mem: Memory, index: Index, p: Ptr) {
    p in mem ==> mem[p].key in index && index[mem[p].key] == p
  }

  ghost predicate Located(mem: Memory, index: Index, k: Key) {
    k in index ==> index[k] in mem && mem[index[k]].key == k
  }

  lemma IndexedFacts(mem: Memory, index: Index)
    requires Indexed(mem, index)
    ensures forall p :: p in mem ==> mem[p].key in index && index[mem[p].key] == p
    ensures forall k :: k in index ==> index[k] in mem && mem[index[k]].key == k
  {
    forall p | p in mem ensures mem[p].key in index && index[mem[p].key] == p {
      assert Known(mem, index, p);
    }
    forall k | k in index ensures index[k] in mem && mem[index[k]].key == k {
      assert Located(mem, index, k);
    }
  }

  ghost predicate Filed(chains: seq<seq<Ptr>>, index: Index, k: Key) {
    k in index && |chains| > 0 && index[k] in chains[Slot(k, |chains|)]
  }

  /** Every bucket is right and every entry is in its bucket. */
  ghost predicate Good(mem: Memory, table: seq<Option<Ptr>>, chains: seq<seq<Ptr>>, index: Index) {
    && |chains| == |table|
    && Indexed(mem, index)
    && (forall i {:trigger Bucket(mem, table[i], chains[i], i, |table|)} ::
          0 <= i < |table| ==> Bucket(mem, table[i], chains[i], i, |table|))
    && (forall k {:trigger Filed(chains, index, k)} :: k in index ==> Filed(chains, index, k))
  }

  /** The finite map the table stands for. */
  ghost function Model(mem: Memory, index: Index): map<Key, Val>
    requires Indexed(mem, index)
  {
    map k | k in index :: assert Located(mem, index, k); mem[index[k]].val
  }

  /** Writing elsewhere does not disturb a bucket. */
  lemma BucketKept(mem: Memory, mem': Memory, head: Option<Ptr>, ch: seq<Ptr>, i: nat, size: nat)
    requires Bucket(mem, head, ch, i, size)
    requires forall p :: p in ch ==> p in mem' && mem'[p].key == mem[p].key && mem'[p].next == mem[p].next
    ensures Bucket(mem', head, ch, i, size)
  {
    forall j | 0 <= j < |ch| ensures LinkAt(mem', ch, j) {
      assert LinkAt(mem, ch, j) && ch[j] in ch;
    }
    forall p | p in ch ensures Belongs(mem', p, i, size) {
      assert Belongs(mem, p, i, size);
    }
  }

  /** Entries of different buckets are different. */
  lemma BucketsApart(mem: Memory, table: seq<Option<Ptr>>, chains: seq<seq<Ptr>>, index: Index, i: nat, j: nat, p: Ptr)
    requires Good(mem, table, chains, index) && i < |table| && j < |table| && i != j && p in chains[i]
    ensures p !in chains[j]
  {
    assert Bucket(mem, table[i], chains[i], i, |table|) && Bucket(mem, table[j], chains[j], j, |table|);
    assert Belongs(mem, p, i, |table|);
    forall q | q in chains[j] ensures q != p {
      assert Belongs(mem, q, j, |table|);
    }
  }

  // ------------------------------------------------------------ adding

  /** Putting an entry in front of a bucket it was not in; it may be new or come from elsewhere. */
  lemma PushBucket(mem: Memory, head: Option<Ptr>, ch: seq<Ptr>, size: nat, p: Ptr, key: Key, val: Val)
    requires size > 0 && Bucket(mem, head, ch, Slot(key, size), size) && p !in ch
    ensures Bucket(mem[p := Entry(key, val, head)], Some(p), [p] + ch, Slot(key, size), size)
  {
    var mem', ch' := mem[p := Entry(key, val, head)], [p] + ch;
    forall j | 0 <= j < |ch'| ensures LinkAt(mem', ch', j) {
      if j > 0 {
        assert ch'[j] == ch[j - 1] && LinkAt(mem, ch, j - 1);
      }
    }
    forall q | q in ch' ensures Belongs(mem', q, Slot(key, size), size) {
      if q != p {
        assert q in ch;
        assert Belongs(mem, q, Slot(key, size), size);
      }
    }
  }

  lemma AddIndex(mem: Memory, index: Index, p: Ptr, e: Entry)
    requires Indexed(mem, index) && p !in mem && e.key !in index
    ensures Indexed(mem[p := e], index[e.key := p])
    ensures Model(mem[p := e], index[e.key := p]) == Model(mem, index)[e.key := e.val]
  {
    IndexedFacts(mem, index);
  }

  /** A new entry at the front of its bucket. */
  lemma AddKeepsGood(mem: Memory, table: seq<Option<Ptr>>, chains: seq<seq<Ptr>>, index: Index, p: Ptr, key: Key, val: Val)
    requires Good(mem, table, chains, index) && |table| > 0 && p !in mem && key !in index
    ensures var h := Slot(key, |table|);
            Good(mem[p := Entry(key, val, table[h])], table[h := Some(p)], chains[h := [p] + chains[h]], index[key := p])
  {
    var size, h := |table|, Slot(key, |table|);
    AddIndex(mem, index, p, Entry(key, val, table[h]));
    var mem', table', chains' := mem[p := Entry(key, val, table[h])], table[h := Some(p)], chains[h := [p] + chains[h]];
    forall i | 0 <= i < size ensures Bucket(mem', table'[i], chains'[i], i, size) {
      assert Bucket(mem, table[i], chains[i], i, size);
      if i == h {
        forall q | q in chains[h] ensures q != p {
          assert Belongs(mem, q, h, size);
        }
        PushBucket(mem, table[h], chains[h], size, p, key, val);
      } else {
        forall q | q in chains[i] ensures q in mem && q != p {
          assert Belongs(mem, q, i, size);
        }
        BucketKept(mem, mem', table[i], chains[i], i, size);
      }
    }
    var index' := index[key := p];
    forall k | k in index' ensures Filed(chains', index', k) {
      if k != key {
        assert Filed(chains, index, k);
      }
    }
  }

  // ------------------------------------------------------------ replacing a value

  lemma SetKeepsGood(mem: Memory, table: seq<Option<Ptr>>, chains: seq<seq<Ptr>>, index: Index, p: Ptr, val: Val)
    requires Good(mem, table, chains, index) && p in mem
    ensures var mem' := mem[p := mem[p].(val := val)];
            Good(mem', table, chains, index) && Model(mem', index) == Model(mem, index)[mem[p].key := val]
  {
    IndexedFacts(mem, index);
    var mem' := mem[p := mem[p].(val := val)];
    forall i | 0 <= i < |table| ensures Bucket(mem', table[i], chains[i], i, |table|) {
      assert Bucket(mem, table[i], chains[i], i, |table|);
      forall q | q in chains[i] ensures q in mem {
        assert Belongs(mem, q, i, |table|);
      }
      BucketKept(mem, mem', table[i], chains[i], i, |table|);
    }
  }

  // ------------------------------------------------------------ deleting

  /** The memory after entry j of the chain was unlinked and freed. */
  function Unlink(mem: Memory, ch: seq<Ptr>, j: nat): Memory
    requires j < |ch| && ch[j] in mem && (j > 0 ==> ch[j - 1] in mem)
  {
    (if j > 0 then mem[ch[j - 1] := mem[ch[j - 1]].(next := mem[ch[j]].next)] else mem) - {ch[j]}
  }

  function Without(ch: seq<Ptr>, j: nat): (r: seq<Ptr>)
    requires j < |ch|
    ensures |r| == |ch| - 1
    ensures forall k :: 0 <= k < |r| ==> r[k] == if k < j then ch[k] else ch[k + 1]
  {
    ch[..j] + ch[j + 1..]
  }

  lemma InMemory(mem: Memory, head: Option<Ptr>, ch: seq<Ptr>, i: nat, size: nat)
    requires Bucket(mem, head, ch, i, size)
    ensures forall j :: 0 <= j < |ch| ==> ch[j] in mem
  {
    forall j | 0 <= j < |ch| ensures ch[j] in mem {
      assert LinkAt(mem, ch, j);
    }
  }

  lemma UnlinkBucket(mem: Memory, head: Option<Ptr>, ch: seq<Ptr>, i: nat, size: nat, j: nat)
    requires Bucket(mem, head, ch, i, size) && j < |ch|
    ensures ch[j] in mem && (j > 0 ==> ch[j - 1] in mem)
    ensures Bucket(Unlink(mem, ch, j), if j == 0 then mem[ch[0]].next else head, Without(ch, j), i, size)
  {
    InMemory(mem, head, ch, i, size);
    var mem', ch' := Unlink(mem, ch, j), Without(ch, j);
    assert LinkAt(mem, ch, j);
    forall k | 0 <= k < |ch'| ensures LinkAt(mem', ch', k) {
      var o := if k < j then k else k + 1;
      assert LinkAt(mem, ch, o) && ch'[k] == ch[o] && ch[o] != ch[j];
    }
    forall p | p in ch' ensures Belongs(mem', p, i, size) {
      var k :| 0 <= k < |ch'| && ch'[k] == p;
      assert p == ch[if k < j then k else k + 1] && p in ch;
      assert Belongs(mem, p, i, size);
      assert p != ch[j];
    }
  }

  lemma DeleteIndex(mem: Memory, mem': Memory, index: Index, p: Ptr)
    requires Indexed(mem, index) && p in mem && mem'.Keys == mem.Keys - {p}
    requires forall q :: q in mem' ==> mem'[q].key == mem[q].key && mem'[q].val == mem[q].val
    ensures Indexed(mem', index - {mem[p].key})
    ensures Model(mem', index - {mem[p].key}) == Model(mem, index) - {mem[p].key}
  {
    IndexedFacts(mem, index);
  }

  /** The entries that stay are still in their buckets. */
  lemma StillFiled(chains: seq<seq<Ptr>>, h: nat, j: nat, i: nat, p: Ptr)
    requires h < |chains| && j < |chains[h]| && i < |chains| && p in chains[i] && p != chains[h][j]
    ensures p in chains[h := Without(chains[h], j)][i]
  {
    if i == h {
      var ch := chains[h];
      var n :| 0 <= n < |ch| && ch[n] == p;
      assert Without(ch, j)[if n < j then n else n - 1] == p;
    }
  }

  lemma UnlinkEffect(mem: Memory, ch: seq<Ptr>, j: nat)
    requires j < |ch| && ch[j] in mem && (j > 0 ==> ch[j - 1] in mem && ch[j - 1] != ch[j])
    ensures Unlink(mem, ch, j).Keys == mem.Keys - {ch[j]}
    ensures forall q :: q in Unlink(mem, ch, j) ==>
              Unlink(mem, ch, j)[q].key == mem[q].key && Unlink(mem, ch, j)[q].val == mem[q].val
  {
  }

  /** A memory without entry j of bucket h, whose buckets are right, is good. */
  lemma DeleteParts(mem: Memory, mem': Memory, table': seq<Option<Ptr>>, chains: seq<seq<Ptr>>, index: Index, h: nat, j: nat)
    requires Indexed(mem, index) && |table'| == |chains| && h < |chains| && j < |chains[h]| && chains[h][j] in mem
    requires forall k :: k in index ==> Filed(chains, index, k)
    requires mem'.Keys == mem.Keys - {chains[h][j]}
    requires forall q :: q in mem' ==> mem'[q].key == mem[q].key && mem'[q].val == mem[q].val
    requires forall i :: 0 <= i < |table'| ==> Bucket(mem', table'[i], chains[h := Without(chains[h], j)][i], i, |table'|)
    ensures Good(mem', table', chains[h := Without(chains[h], j)], index - {mem[chains[h][j]].key})
    ensures Model(mem', index - {mem[chains[h][j]].key}) == Model(mem, index) - {mem[chains[h][j]].key}
  {
    IndexedFacts(mem, index);
    var p := chains[h][j];
    var index' := index - {mem[p].key};
    DeleteIndex(mem, mem', index, p);
    forall k | k in index' ensures Filed(chains[h := Without(chains[h], j)], index', k) {
      StillFiled(chains, h, j, Slot(k, |chains|), index[k]);
    }
  }

  lemma DeleteKeepsGood(mem: Memory, table: seq<Option<Ptr>>, chains: seq<seq<Ptr>>, index: Index, h: nat, j: nat)
    requires Good(mem, table, chains, index) && h < |table| && j < |chains[h]|
    ensures var ch := chains[h];
            && ch[j] in mem && (j > 0 ==> ch[j - 1] in mem)
            && Good(Unlink(mem, ch, j), if j == 0 then table[h := mem[ch[0]].next] else table,
                    chains[h := Without(ch, j)], index - {mem[ch[j]].key})
            && Model(Unlink(mem, ch, j), index - {mem[ch[j]].key}) == Model(mem, index) - {mem[ch[j]].key}
  {
    var size, ch := |table|, chains[h];
    assert Bucket(mem, table[h], ch, h, size);
    UnlinkBucket(mem, table[h], ch, h, size, j);
    var mem' := Unlink(mem, ch, j);
    var table' := if j == 0 then table[h := mem[ch[0]].next] else table;
    UnlinkEffect(mem, ch, j);
    forall i | 0 <= i < size ensures Bucket(mem', table'[i], chains[h := Without(ch, j)][i], i, size) {
      if i != h {
        OtherBucket(mem, table, chains, index, h, j, i);
      }
    }
    DeleteParts(mem, mem', table', chains, index, h, j);
  }

  lemma OtherBucket(mem: Memory, table: seq<Option<Ptr>>, chains: seq<seq<Ptr>>, index: Index, h: nat, j: nat, i: nat)
    requires Good(mem, table, chains, index) && h < |table| && j < |chains[h]| && i < |table| && i != h
    requires chains[h][j] in mem && (j > 0 ==> chains[h][j - 1] in mem)
    ensures Bucket(Unlink(mem, chains[h], j), table[i], chains[i], i, |table|)
  {
    var mem' := Unlink(mem, chains[h], j);
    assert Bucket(mem, table[i], chains[i], i, |table|);
    forall p | p in chains[i] ensures p in mem' && mem'[p].key == mem[p].key && mem'[p].next == mem[p].next {
      BucketsApart(mem, table, chains, index, i, h, p);
      assert Belongs(mem, p, i, |table|);
    }
    BucketKept(mem, mem', table[i], chains[i], i, |table|);
  }

  // ------------------------------------------------------------ rehashing

  /** While entries move to a new table, the moved ones are in the right new bucket and nothing else is. */
  ghost predicate NewSide(mem: Memory, table: seq<Option<Ptr>>, chains: seq<seq<Ptr>>, moved: set<Ptr>) {
    && |chains| == |table| > 0
    && (forall n :: 0 <= n < |table| ==> Bucket(mem, table[n], chains[n], n, |table|))
    && (forall n :: 0 <= n < |table| ==> forall p :: p in chains[n] ==> p in moved)
    && (forall p :: p in moved ==> p in mem && p in chains[Slot(mem[p].key, |table|)])
  }

  /** The entries that have not moved still hang together as before. */
  ghost predicate OldSide(mem: Memory, chains: seq<seq<Ptr>>, moved: set<Ptr>) {
    forall i, j :: 0 <= i < |chains| && 0 <= j < |chains[i]| && chains[i][j] !in moved ==> LinkAt(mem, chains[i], j)
  }

  ghost predicate SameEntries(mem: Memory, mem': Memory) {
    mem'.Keys == mem.Keys && forall p :: p in mem ==> mem'[p].key == mem[p].key && mem'[p].val == mem[p].val
  }

  lemma MoveNew(mem: Memory, table: seq<Option<Ptr>>, chains: seq<seq<Ptr>>, moved: set<Ptr>, p: Ptr)
    requires NewSide(mem, table, chains, moved) && p in mem && p !in moved
    ensures var h := Slot(mem[p].key, |table|);
            NewSide(mem[p := mem[p].(next := table[h])], table[h := Some(p)], chains[h := [p] + chains[h]], moved + {p})
  {
    var size, h := |table|, Slot(mem[p].key, |table|);
    var mem', table', chains' := mem[p := mem[p].(next := table[h])], table[h := Some(p)], chains[h := [p] + chains[h]];
    forall n | 0 <= n < size ensures Bucket(mem', table'[n], chains'[n], n, size) {
      assert Bucket(mem, table[n], chains[n], n, size);
      assert p !in chains[n];
      if n == h {
        PushBucket(mem, table[h], chains[h], size, p, mem[p].key, mem[p].val);
      } else {
        forall q | q in chains[n] ensures q in mem {
          assert q in moved;
        }
        BucketKept(mem, mem', table[n], chains[n], n, size);
      }
    }
    forall q | q in moved + {p} ensures q in mem' && q in chains'[Slot(mem'[q].key, size)] {
      if q != p {
        assert q in chains[Slot(mem[q].key, size)];
      }
    }
  }

  lemma MoveOld(mem: Memory, chains: seq<seq<Ptr>>, moved: set<Ptr>, p: Ptr, next: Option<Ptr>)
    requires OldSide(mem, chains, moved) && p in mem && p !in moved
    ensures OldSide(mem[p := mem[p].(next := next)], chains, moved + {p})
  {
    var mem' := mem[p := mem[p].(next := next)];
    forall i, j | 0 <= i < |chains| && 0 <= j < |chains[i]| && chains[i][j] !in moved + {p}
      ensures LinkAt(mem', chains[i], j)
    {
      assert LinkAt(mem, chains[i], j);
    }
  }

  /** Once everything has moved, the new table is good and stands for the same map. */
  lemma AllMoved(mem0: Memory, mem: Memory, index: Index, table: seq<Option<Ptr>>, chains: seq<seq<Ptr>>, moved: set<Ptr>)
    requires Indexed(mem0, index) && SameEntries(mem0, mem) && NewSide(mem, table, chains, moved) && moved == mem.Keys
    ensures Good(mem, table, chains, index) && Model(mem, index) == Model(mem0, index)
  {
    IndexedFacts(mem0, index);
  }
}
