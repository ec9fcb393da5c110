/** The dynamic strings of sds.c: a length, spare room, and a buffer that always ends in a NUL. */
module Sds {
  import opened Bytes

  /** The abstract value of a string: its bytes and the room behind them. */
  datatype Sds = Sds(text: bytes, free: nat)

  const EMPTY: Sds := Sds([], 0)

  /** Growing doubles the room that is needed; nothing happens when there is enough. */
  function MakeRoomFor(s: Sds, addlen: nat): Sds {
    if s.free >= addlen then s else Sds(s.text, 2 * (|s.text| + addlen) - |s.text|)
  }

  function CatLen(s: Sds, t: bytes): Sds {
    Sds(s.text + t, MakeRoomFor(s, |t|).free - |t|)
  }

  /** The first position a range keeps. */
  function First(len: nat, start: int): nat {
    if start >= 0 then start else if len + start < 0 then 0 else len + start
  }

  /** The last position a range keeps. */
  function Last(len: nat, end: int): int {
    var to := First(len, end);
    if to >= len then len - 1 else to
  }

  /** The part of a string from start to end, both inclusive and counted from the end when negative. */
  function Range(s: Sds, start: int, end: int): Sds {
    var len := |s.text|;
    var from, last := First(len, start), Last(len, end);
    var text := if from > last then [] else s.text[from..last + 1];
    Sds(text, s.free + (len - |text|))
  }

  /** Dropping a prefix keeps exactly the rest, and the memory. */
  lemma RangeDrops(s: Sds, start: nat)
    requires start <= |s.text|
    ensures Range(s, start, -1).text == s.text[start..]
    ensures |Range(s, start, -1).text| + Range(s, start, -1).free == |s.text| + s.free
  {
  }

  /** Position i of n lies between start and end, negative ones counting from the end; an end before the first is the first. */
  predicate Between(i: nat, n: nat, start: int, end: int) {
    && (if start < 0 then i >= n + start else i >= start)
    && (if n + end < 0 then i == 0 else if end < 0 then i <= n + end else i <= end)
  }

  /** A range keeps exactly the bytes between its ends, and the memory. */
  lemma RangeKeeps(s: Sds, start: int, end: int) returns (a: nat, e: nat)
    ensures a <= e <= |s.text| && Range(s, start, end).text == s.text[a..e]
    ensures forall i :: 0 <= i < |s.text| ==> (a <= i < e <==> Between(i, |s.text|, start, end))
    ensures |Range(s, start, end).text| + Range(s, start, end).free == |s.text| + s.free
  {
    var n := |s.text|;
    var from, last := First(n, start), Last(n, end);
    a, e := from, last + 1;
    if from > last {
      a, e := 0, 0;
    }
  }

  lemma SliceOfPrefix(s: bytes, len: nat, a: nat, b: nat)
    requires a <= b <= len <= |s|
    ensures s[..len][a..b] == s[a..b]
  {
    forall i | 0 <= i < b - a ensures s[..len][a..b][i] == s[a..b][i] {
      assert s[..len][a..b][i] == s[..len][a + i] == s[a + i];
    }
  }

  /** The arithmetic of sdsrange: where the kept part starts and how long it is. */
  method Bounds(len: nat, start0: int, end0: int) returns (start: nat, newlen: nat)
    requires len > 0
    ensures newlen == if First(len, start0) > Last(len, end0) then 0 else Last(len, end0) - First(len, start0) + 1
    ensures newlen > 0 ==> start == First(len, start0)
  {
    var st, end := start0, end0;
    if st < 0 {
      st := len + st;
      if st < 0 { st := 0; }
    }
    if end < 0 {
      end := len + end;
      if end < 0 { end := 0; }
    }
    var n: int := if st > end then 0 else (end - st) + 1;
    if n != 0 {
      if st >= len {
        n := 0;
      } else if end >= len {
        end := len - 1;
        n := if st > end then 0 else (end - st) + 1;
      }
    } else {
      st := 0;
    }
    newlen := n;
    start := st;
  }

  /** The string object itself. */
  class SdsString {
    var len: nat
    var free: nat
    var buf: array<byte>

    ghost predicate Valid()
      reads this, buf
    {
      buf.Length == len + free + 1 && buf[len] == NUL
    }

    ghost function Value(): Sds
      requires Valid()
      reads this, buf
    {
      Sds(buf[..len], free)
    }

    constructor (init: bytes)
      ensures Valid() && fresh(buf)
      ensures Value() == Sds(init, 0)
    {
      var n := |init|;
      var b := new byte[n + 1](i => if 0 <= i < |init| then init[i] else NUL);
      len, free, buf := n, 0, b;
      new;
      assert buf[..len] == init;
    }

    method Grow(addlen: nat)
      requires Valid()
      modifies this
      ensures Valid() && (buf == old(buf) || fresh(buf))
      ensures Value() == MakeRoomFor(old(Value()), addlen) && buf[..len] == old(buf[..len])
      ensures free >= addlen && len + free == if old(free) >= addlen then old(len) + old(free) else 2 * (old(len) + addlen)
    {
      if free >= addlen {
        return;
      }
      var newlen := (len + addlen) * 2;
      var b := new byte[newlen + 1](i requires 0 <= i <= newlen reads this, buf =>
        if i < buf.Length then buf[i] else NUL);
      buf := b;
      free := newlen - len;
      assert buf[..len] == old(buf[..len]);
    }

    method Append(t: bytes)
      requires Valid()
      modifies this, buf
      ensures Valid() && (buf == old(buf) || fresh(buf))
      ensures Value() == CatLen(old(Value()), t) && buf[..len] == old(buf[..len]) + t
    {
      ghost var before := buf[..len];
      var curlen := len;
      Grow(|t|);
      for i := 0 to |t|
        invariant len == curlen && buf.Length == len + free + 1 && |t| <= free
        invariant buf == old(buf) || fresh(buf)
        invariant free == MakeRoomFor(old(Value()), |t|).free
        invariant buf[..curlen] == before
        invariant forall j :: 0 <= j < i ==> buf[curlen + j] == t[j]
      {
        buf[curlen + i] := t[i];
      }
      len := curlen + |t|;
      free := free - |t|;
      buf[curlen + |t|] := NUL;
      assert buf[..len] == before + t;
    }

    /** memmove towards the front, in ascending order. */
    method MoveDown(start: nat, count: nat)
      requires Valid() && start + count <= len
      modifies buf
      ensures buf[..count] == old(buf[start..start + count])
    {
      ghost var before := buf[..];
      for i := 0 to count
        invariant forall j :: 0 <= j < i ==> buf[j] == before[start + j]
        invariant forall j :: i <= j < buf.Length ==> buf[j] == before[j]
      {
        buf[i] := buf[start + i];
      }
    }

    /** sdsrange: what is kept is moved to the front in place. */
    method Keep(start0: int, end0: int)
      requires Valid()
      modifies this, buf
      ensures Valid() && buf == old(buf)
      ensures Value() == Range(old(Value()), start0, end0)
    {
      if len == 0 {
        return;
      }
      var start, newlen := Bounds(len, start0, end0);
      ghost var kept := Range(Value(), start0, end0);
      assert |kept.text| == newlen;
      if newlen > 0 {
        SliceOfPrefix(buf[..], len, start, start + newlen);
        assert buf[..][..len] == buf[..len] && buf[..][start..start + newlen] == buf[start..start + newlen];
      }
      assert newlen > 0 ==> kept.text == buf[start..start + newlen];
      if start != 0 && newlen != 0 {
        MoveDown(start, newlen);
      }
      Truncate(newlen);
    }

    method Truncate(newlen: nat)
      requires newlen <= len && buf.Length == len + free + 1
      modifies this, buf
      ensures Valid() && buf == old(buf)
      ensures Value() == Sds(old(buf[..newlen]), old(free) + (old(len) - newlen))
    {
      buf[newlen] := NUL;
      free := free + (len - newlen);
      len := newlen;
    }
  }
}
