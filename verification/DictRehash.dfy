/** The rehash of dictExpand: every entry moves, one pointer at a time, to the front of its new bucket. */
module DictRehash {
  import opened Bytes
  import opened Dict

  /** The state of a rehash: what the old chains, the new table and the moved entries have to do with each other. */
  ghost predicate Moving(mem0: Memory, chains: seq<seq<Ptr>>, mem: Memory, table: seq<Option<Ptr>>,
                         nchains: seq<seq<Ptr>>, moved: set<Ptr>) {
    SameEntries(mem0, mem) && NewSide(mem, table, nchains, moved) && OldSide(mem, chains, moved) && moved <= mem.Keys
  }

  lemma MoveOne(mem0: Memory, chains: seq<seq<Ptr>>, mem: Memory, table: seq<Option<Ptr>>,
                nchains: seq<seq<Ptr>>, moved: set<Ptr>, p: Ptr)
    requires Moving(mem0, chains, mem, table, nchains, moved) && p in mem && p !in moved
    ensures var h := Slot(mem[p].key, |table|);
            Moving(mem0, chains, mem[p := mem[p].(next := table[h])], table[h := Some(p)],
                   nchains[h := [p] + nchains[h]], moved + {p})
  {
    MoveNew(mem, table, nchains, moved, p);
    MoveOld(mem, chains, moved, p, table[Slot(mem[p].key, |table|)]);
  }

  lemma NextUnmoved(mem0: Memory, chains: seq<seq<Ptr>>, mem: Memory, table: seq<Option<Ptr>>,
                    nchains: seq<seq<Ptr>>, moved: set<Ptr>, i: nat, j: nat)
    requires Moving(mem0, chains, mem, table, nchains, moved)
    requires i < |chains| && j < |chains[i]| && chains[i][j] !in moved
    ensures chains[i][j] in mem && mem[chains[i][j]].next == At(chains[i], j + 1)
  {
    assert LinkAt(mem, chains[i], j);
  }

  /** One entry goes to the front of its new bucket. */
  method MoveEntry(p: Ptr, mem0: Memory, table0: seq<Option<Ptr>>, sizemask: nat,
                   ghost origin: Memory, ghost chains: seq<seq<Ptr>>, ghost nchains0: seq<seq<Ptr>>, ghost moved: set<Ptr>)
    returns (mem: Memory, table: seq<Option<Ptr>>, ghost nchains: seq<seq<Ptr>>)
    requires Moving(origin, chains, mem0, table0, nchains0, moved) && p in mem0 && p !in moved
    requires PowerOfTwo(|table0|) && sizemask == |table0| - 1
    ensures Moving(origin, chains, mem, table, nchains, moved + {p}) && |table| == |table0| && mem.Keys == mem0.Keys
  {
    MoveOne(origin, chains, mem0, table0, nchains0, moved, p);
    MaskIsMod(mem0[p].key.hash, |table0|);
    var h := And(mem0[p].key.hash, sizemask);
    nchains := nchains0[h := [p] + nchains0[h]];
    mem := mem0[p := mem0[p].(next := table0[h])];
    table := table0[h := Some(p)];
  }

  /** Of the chain, exactly the first j entries have moved, and nothing else since moved0. */
  ghost predicate MovedOf(ch: seq<Ptr>, j: nat, moved0: set<Ptr>, moved: set<Ptr>) {
    && moved0 <= moved && (forall p :: p in moved ==> p in moved0 || p in ch)
    && forall k :: 0 <= k < |ch| ==> (ch[k] in moved <==> k < j)
  }

  lemma MovedOneMore(ch: seq<Ptr>, j: nat, moved0: set<Ptr>, moved: set<Ptr>)
    requires NoRepeats(ch) && MovedOf(ch, j, moved0, moved) && j < |ch|
    ensures ch[j] !in moved && MovedOf(ch, j + 1, moved0, moved + {ch[j]})
  {
  }

  /** The inner loop of dictExpand: every entry of one old bucket goes to the front of its new bucket. */
  method MoveBucket(head: Option<Ptr>, mem0: Memory, table0: seq<Option<Ptr>>, used0: nat, sizemask: nat,
                    ghost origin: Memory, ghost chains: seq<seq<Ptr>>, ghost i: nat,
                    ghost nchains0: seq<seq<Ptr>>, ghost moved0: set<Ptr>)
    returns (mem: Memory, table: seq<Option<Ptr>>, used: nat, ghost nchains: seq<seq<Ptr>>, ghost moved: set<Ptr>)
    requires Moving(origin, chains, mem0, table0, nchains0, moved0)
    requires i < |chains| && NoRepeats(chains[i]) && MovedOf(chains[i], 0, moved0, moved0) && head == At(chains[i], 0)
    requires PowerOfTwo(|table0|) && sizemask == |table0| - 1 && used0 + |moved0| == |mem0.Keys|
    ensures Moving(origin, chains, mem, table, nchains, moved) && MovedOf(chains[i], |chains[i]|, moved0, moved)
    ensures |table| == |table0| && mem.Keys == mem0.Keys && used + |moved| == |mem.Keys|
  {
    mem, table, used, nchains, moved := mem0, table0, used0, nchains0, moved0;
    var he := head;
    ghost var j := 0;
    while he.Some?
      invariant j <= |chains[i]| && he == At(chains[i], j) && MovedOf(chains[i], j, moved0, moved)
      invariant Moving(origin, chains, mem, table, nchains, moved)
      invariant |table| == |table0| && mem.Keys == mem0.Keys && used + |moved| == |mem.Keys|
      decreases |chains[i]| - j
    {
      MovedOneMore(chains[i], j, moved0, moved);
      NextUnmoved(origin, chains, mem, table, nchains, moved, i, j);
      CountMoved(mem.Keys, moved, he.value);
      var nextHe := mem[he.value].next;
      mem, table, nchains := MoveEntry(he.value, mem, table, sizemask, origin, chains, nchains, moved);
      moved := moved + {he.value};
      used := used - 1;
      he := nextHe;
      j := j + 1;
    }
  }

  lemma CountMoved(all: set<Ptr>, moved: set<Ptr>, p: Ptr)
    requires moved <= all && p in all && p !in moved
    ensures |moved + {p}| == |moved| + 1 && |moved| < |all|
  {
    assert moved + {p} <= all;
    SubsetSize(moved + {p}, all);
  }

  lemma {:induction false} SubsetSize(a: set<Ptr>, b: set<Ptr>)
    requires a <= b
    ensures |a| <= |b|
    ensures |a| == |b| ==> a == b
    decreases |a|
  {
    if a != {} {
      var x :| x in a;
      SubsetSize(a - {x}, b - {x});
      assert a == (a - {x}) + {x} && b == (b - {x}) + {x};
    }
  }

  /** The first i old buckets have moved, the others have not. */
  ghost predicate MovedUpTo(chains: seq<seq<Ptr>>, moved: set<Ptr>, i: nat) {
    forall n, k :: 0 <= n < |chains| && 0 <= k < |chains[n]| ==> (chains[n][k] in moved <==> n < i)
  }

  lemma MayMove(mem: Memory, table: seq<Option<Ptr>>, chains: seq<seq<Ptr>>, index: Index, moved: set<Ptr>, i: nat)
    requires Good(mem, table, chains, index) && MovedUpTo(chains, moved, i) && i < |chains|
    ensures NoRepeats(chains[i]) && MovedOf(chains[i], 0, moved, moved) && table[i] == At(chains[i], 0)
  {
    assert Bucket(mem, table[i], chains[i], i, |table|);
  }

  lemma MovedFurther(mem: Memory, table: seq<Option<Ptr>>, chains: seq<seq<Ptr>>, index: Index,
                     moved0: set<Ptr>, moved: set<Ptr>, i: nat)
    requires Good(mem, table, chains, index) && MovedUpTo(chains, moved0, i) && i < |chains|
    requires MovedOf(chains[i], |chains[i]|, moved0, moved)
    ensures MovedUpTo(chains, moved, i + 1)
  {
    forall n, k | 0 <= n < |chains| && 0 <= k < |chains[n]| ensures chains[n][k] in moved <==> n < i + 1 {
      if n > i && chains[n][k] in moved {
        BucketsApart(mem, table, chains, index, n, i, chains[n][k]);
      }
    }
  }

  /** When all buckets have moved, or as many entries as there are, every entry has moved. */
  lemma EverythingMoved(mem: Memory, table: seq<Option<Ptr>>, chains: seq<seq<Ptr>>, index: Index, moved: set<Ptr>, i: nat)
    requires Good(mem, table, chains, index) && MovedUpTo(chains, moved, i) && moved <= mem.Keys
    requires i == |chains| || |moved| == |mem.Keys|
    ensures moved == mem.Keys
  {
    IndexedFacts(mem, index);
    if |moved| == |mem.Keys| {
      SubsetSize(moved, mem.Keys);
    } else {
      forall p | p in mem ensures p in moved {
        var k := mem[p].key;
        assert index[k] == p && Filed(chains, index, k);
        var h := Slot(k, |table|);
        var j :| 0 <= j < |chains[h]| && chains[h][j] == p;
      }
    }
  }

  /** A table without entries. */
  function EmptyTable(size: nat): (t: seq<Option<Ptr>>)
    ensures |t| == size && forall n :: 0 <= n < size ==> t[n] == None
  {
    seq(size, _ => None)
  }

  ghost function EmptyChains(size: nat): (t: seq<seq<Ptr>>)
    ensures |t| == size && forall n :: 0 <= n < size ==> t[n] == []
  {
    seq(size, _ => [])
  }

  lemma FinishMoving(mem0: Memory, table0: seq<Option<Ptr>>, chains: seq<seq<Ptr>>, index: Index, i: nat,
                     mem: Memory, table: seq<Option<Ptr>>, nchains: seq<seq<Ptr>>, moved: set<Ptr>)
    requires Good(mem0, table0, chains, index) && MovedUpTo(chains, moved, i)
    requires Moving(mem0, chains, mem, table, nchains, moved) && mem.Keys == mem0.Keys
    requires i == |table0| || |moved| == |mem.Keys|
    ensures |moved| == |mem.Keys|
    ensures Good(mem, table, nchains, index) && Model(mem, index) == Model(mem0, index)
  {
    EverythingMoved(mem0, table0, chains, index, moved, i);
    AllMoved(mem0, mem, index, table, nchains, moved);
  }

  /** One old bucket, in the context of the whole rehash. */
  method MoveNext(i: nat, mem0: Memory, table0: seq<Option<Ptr>>, mem: Memory, table: seq<Option<Ptr>>, used: nat,
                  ghost chains: seq<seq<Ptr>>, ghost index: Index, ghost nchains: seq<seq<Ptr>>, ghost moved: set<Ptr>)
    returns (mem': Memory, table': seq<Option<Ptr>>, used': nat, ghost nchains': seq<seq<Ptr>>, ghost moved': set<Ptr>)
    requires Good(mem0, table0, chains, index) && i < |table0| && MovedUpTo(chains, moved, i)
    requires Moving(mem0, chains, mem, table, nchains, moved) && PowerOfTwo(|table|) && used + |moved| == |mem.Keys|
    ensures Moving(mem0, chains, mem', table', nchains', moved') && MovedUpTo(chains, moved', i + 1)
    ensures |table'| == |table| && mem'.Keys == mem.Keys && used' + |moved'| == |mem'.Keys|
  {
    MayMove(mem0, table0, chains, index, moved, i);
    mem', table', used', nchains', moved' :=
      MoveBucket(table0[i], mem, table, used, |table| - 1, mem0, chains, i, nchains, moved);
    MovedFurther(mem0, table0, chains, index, moved, moved', i);
  }

  /** The loop of dictExpand over the old buckets; it may stop early, when no entry is left to move. */
  method Rehash(mem0: Memory, table0: seq<Option<Ptr>>, used0: nat, size: nat,
                ghost chains: seq<seq<Ptr>>, ghost index: Index)
    returns (mem: Memory, table: seq<Option<Ptr>>, ghost nchains: seq<seq<Ptr>>)
    requires Good(mem0, table0, chains, index) && used0 == |mem0.Keys| && PowerOfTwo(size)
    ensures Good(mem, table, nchains, index) && |table| == size && mem.Keys == mem0.Keys
    ensures Model(mem, index) == Model(mem0, index)
  {
    mem, table, nchains := mem0, EmptyTable(size), EmptyChains(size);
    var i: nat := 0;
    var used: nat := used0;
    ghost var moved: set<Ptr> := {};
    StartMoving(mem0, table0, chains, index, table, nchains);
    while i < |table0| && used > 0
      invariant i <= |table0| && |table| == size && mem.Keys == mem0.Keys && used + |moved| == |mem.Keys|
      invariant Moving(mem0, chains, mem, table, nchains, moved) && MovedUpTo(chains, moved, i)
      decreases |table0| - i
    {
      mem, table, used, nchains, moved := MoveNext(i, mem0, table0, mem, table, used, chains, index, nchains, moved);
      i := i + 1;
    }
    FinishMoving(mem0, table0, chains, index, i, mem, table, nchains, moved);
    assert used == 0;
  }

  lemma StartMoving(mem: Memory, table0: seq<Option<Ptr>>, chains: seq<seq<Ptr>>, index: Index,
                    table: seq<Option<Ptr>>, nchains: seq<seq<Ptr>>)
    requires Good(mem, table0, chains, index) && |table| == |nchains| > 0
    requires forall n :: 0 <= n < |table| ==> table[n] == None && nchains[n] == []
    ensures Moving(mem, chains, mem, table, nchains, {})
  {
    forall i, j | 0 <= i < |chains| && 0 <= j < |chains[i]| ensures LinkAt(mem, chains[i], j) {
      assert Bucket(mem, table0[i], chains[i], i, |table0|);
    }
  }
}
