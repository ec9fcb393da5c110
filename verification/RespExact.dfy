/** The parser reads exactly the wire forms of the grammar: replies, faults and whole streams, in both directions. */
module RespExact {
  import opened Bytes
  import opened Decimal
  import opened Resp
  import opened RespGrammar

  // ------------------------------------------------------------ the parser's lines

  /** The line the parser finds is the line there is. */
  lemma LineExact(s: bytes, k: nat, head: byte)
    requires k <= |s|
    ensures IsLine(s[..k], head) <==> s != [] && s[0] == head && k >= 3 && Crlf(s[1..]) == Some(k - 3)
    ensures IsLine(s[..k], head) ==> Text(s[..k]) == s[1..][..k - 3] && s[k..] == s[1..][k - 1..]
  {
    if k >= 3 {
      var t, line := s[1..], s[..k];
      assert Text(line) == t[..k - 3];
      if IsLine(line, head) {
        forall j | 0 <= j < k - 3 ensures !CrlfAt(t, j) {
          assert t[j] == Text(line)[j] && t[j + 1] == line[j + 2];
        }
        CrlfIs(t, k - 3);
      } else if s[0] == head && Crlf(t) == Some(k - 3) {
        forall j | 0 <= j < k - 4 ensures !(t[j] == 13 && t[j + 1] == 10) {
          assert !CrlfAt(t, j);
        }
      }
    }
  }

  /** What the parser does with the body of an item once its line is found. */
  lemma HeaderParses(s: bytes, k: nat, head: byte, n: int, kind: Kind, rest: bytes)
    requires Header(s, k, head, n) && KindOf(head) == Some(kind)
    ensures var t := s + rest;
            && t != [] && t[0] == head && Crlf(t[1..]) == Some(k - 3) && k >= 3
            && Number(t[1..][..k - 3]) == n && t[1..][k - 1..] == s[k..] + rest
  {
    var t := s + rest;
    assert t[..k] == s[..k] && t[k..] == s[k..] + rest;
    LineExact(t, k, head);
    NumberExact(Text(s[..k]));
  }

  // ------------------------------------------------------------ every wire form is read

  lemma {:induction false} WireParses(v: Reply, s: bytes, depth: nat, rest: bytes)
    requires IsWire(v, s, depth)
    ensures Parse(s + rest, depth) == Done(v, rest)
    decreases v, 1
  {
    match v
    case Status(t) => TextParses(v, s, depth, rest);
    case Error(t) => TextParses(v, s, depth, rest);
    case Integer(n) => IntegerParses(n, s, depth, rest);
    case Str(t) =>
      var k: nat :| Header(s, k, 36, |t|) && |s| == k + |t| + 2 && s[k..k + |t|] == t;
      BulkParses(t, s, k, depth, rest);
    case Nil => NilParses(s, depth, rest);
    case Hollow(n) => HollowParses(n, s, depth, rest);
    case Array(items) =>
      var k: nat :| Header(s, k, 42, |items|) && AreWires(items, s[k..], depth + 1);
      WiresParse(items, s[k..], depth + 1, rest);
      ArrayParses(items, s, k, depth, rest);
  }

  lemma {:induction false} WiresParse(vs: seq<Reply>, s: bytes, depth: nat, rest: bytes)
    requires AreWires(vs, s, depth)
    ensures ParseItems(s + rest, |vs|, depth) == AllItems(vs, rest)
    decreases vs, 0
  {
    if vs == [] {
      assert s + rest == rest;
    } else {
      var k := FirstWire(vs, s, depth);
      WireParses(vs[0], s[..k], depth, s[k..] + rest);
      WiresParse(vs[1..], s[k..], depth, rest);
      Rejoined(s, k, rest);
      OneMoreParses(vs, s + rest, s[k..] + rest, depth, rest);
    }
  }

  lemma FirstWire(vs: seq<Reply>, s: bytes, depth: nat) returns (k: nat)
    requires vs != [] && AreWires(vs, s, depth)
    ensures k <= |s| && IsWire(vs[0], s[..k], depth) && AreWires(vs[1..], s[k..], depth)
  {
    k :| k <= |s| && IsWire(vs[0], s[..k], depth) && AreWires(vs[1..], s[k..], depth);
  }

  lemma Rejoined(s: bytes, k: nat, rest: bytes)
    requires k <= |s|
    ensures s[..k] + (s[k..] + rest) == s + rest
  {
  }

  lemma OneMoreParses(vs: seq<Reply>, s: bytes, tail: bytes, depth: nat, rest: bytes)
    requires vs != [] && Parse(s, depth) == Done(vs[0], tail) && ParseItems(tail, |vs| - 1, depth) == AllItems(vs[1..], rest)
    ensures ParseItems(s, |vs|, depth) == AllItems(vs, rest)
  {
    ItemsLevel(s, |vs|, depth, vs[0], tail, AllItems(vs[1..], rest));
    assert [vs[0]] + vs[1..] == vs;
  }

  lemma IntegerParses(n: int, s: bytes, depth: nat, rest: bytes)
    requires Header(s, |s|, 58, n)
    ensures Parse(s + rest, depth) == Done(Integer(n), rest)
  {
    HeaderParses(s, |s|, 58, n, IntegerKind, rest);
  }

  lemma HollowParses(n: int, s: bytes, depth: nat, rest: bytes)
    requires Header(s, |s|, 42, n) && n < -1 && depth < 8
    ensures Parse(s + rest, depth) == Done(Hollow(n), rest)
  {
    HeaderParses(s, |s|, 42, n, ArrayKind, rest);
  }

  lemma ArrayParses(items: seq<Reply>, s: bytes, k: nat, depth: nat, rest: bytes)
    requires Header(s, k, 42, |items|) && depth < 8
    requires ParseItems(s[k..] + rest, |items|, depth + 1) == AllItems(items, rest)
    ensures Parse(s + rest, depth) == Done(Array(items), rest)
  {
    HeaderParses(s, k, 42, |items|, ArrayKind, rest);
  }

  lemma TextParses(v: Reply, s: bytes, depth: nat, rest: bytes)
    requires (v.Status? || v.Error?) && IsWire(v, s, depth)
    ensures Parse(s + rest, depth) == Done(v, rest)
  {
    assert s[..|s|] == s;
    HeaderParses(s, |s|, if v.Status? then 43 else 45, ReadsAs(Text(s)), if v.Status? then StatusKind else ErrorKind, rest);
    assert (s + rest)[1..][..|s| - 3] == Text(s);
  }

  lemma BulkParses(t: bytes, s: bytes, k: nat, depth: nat, rest: bytes)
    requires Header(s, k, 36, |t|) && |s| == k + |t| + 2 && s[k..k + |t|] == t
    ensures Parse(s + rest, depth) == Done(Str(t), rest)
  {
    HeaderParses(s, k, 36, |t|, StringKind, rest);
    var tail := s[k..] + rest;
    assert tail[..|t|] == t && tail[|t| + 2..] == rest;
  }

  lemma NilParses(s: bytes, depth: nat, rest: bytes)
    requires IsWire(Nil, s, depth)
    ensures Parse(s + rest, depth) == Done(Nil, rest)
  {
    assert s[..|s|] == s;
    if IsLine(s, 36) && ReadsAs(Text(s)) < 0 {
      HeaderParses(s, |s|, 36, ReadsAs(Text(s)), StringKind, rest);
    } else {
      HeaderParses(s, |s|, 42, -1, ArrayKind, rest);
    }
  }

  // ------------------------------------------------------------ whatever is read has its wire form

  /** The line of an item that was read. */
  lemma LineRead(s: bytes, head: byte) returns (k: nat)
    requires s != [] && s[0] == head && Crlf(s[1..]).Some?
    ensures k == Crlf(s[1..]).value + 3 && k <= |s|
    ensures Header(s, k, head, Number(s[1..][..k - 3])) && Text(s[..k]) == s[1..][..k - 3]
    ensures s[k..] == s[1..][k - 1..] && (s[..k])[..k] == s[..k]
  {
    k := Crlf(s[1..]).value + 3;
    assert CrlfAt(s[1..], k - 3);
    LineExact(s, k, head);
    NumberExact(s[1..][..k - 3]);
  }

  lemma {:induction false} ReadHasWire(s: bytes, depth: nat)
    requires Parse(s, depth).Done?
    ensures Backed(Parse(s, depth), s, depth)
    decreases |s|, 1, 0
  {
    var k := LineRead(s, s[0]);
    var n := Number(s[1..][..k - 3]);
    if s[0] == 36 {
      BulkStep(s, depth, k, n);
      BulkHasWire(s, depth, k, n);
    } else if s[0] == 42 {
      ArrayStep(s, depth, k, n);
      ArrayHasWire(s, depth, k, n);
    } else {
      LineStep(s, depth, k);
      LineHasWire(s, depth, k);
    }
  }

  /** Errors, statuses and integers are their line. */
  function LineReply(head: byte, text: bytes): Reply {
    if head == 45 then Error(text) else if head == 43 then Status(text) else Integer(Number(text))
  }

  lemma LineStep(s: bytes, depth: nat, k: nat)
    requires s != [] && s[0] in {43, 45, 58} && k >= 3 && Crlf(s[1..]) == Some(k - 3) && k <= |s| && s[k..] == s[1..][k - 1..]
    ensures Parse(s, depth) == Done(LineReply(s[0], s[1..][..k - 3]), s[k..])
  {
  }

  lemma LineHasWire(s: bytes, depth: nat, k: nat)
    requires 3 <= k <= |s| && s[0] in {43, 45, 58} && Header(s, k, s[0], Number(s[1..][..k - 3])) && Text(s[..k]) == s[1..][..k - 3]
    ensures Backed(Done(LineReply(s[0], s[1..][..k - 3]), s[k..]), s, depth)
  {
    assert s[..k][..k] == s[..k];
  }

  /** How the parser goes on behind the header of a bulk string. */
  lemma BulkStep(s: bytes, depth: nat, k: nat, n: int)
    requires s != [] && s[0] == 36 && k >= 3 && Crlf(s[1..]) == Some(k - 3) && k <= |s| && s[k..] == s[1..][k - 1..]
    requires Number(s[1..][..k - 3]) == n
    ensures Parse(s, depth) == BulkOutcome(s[k..], n)
  {
  }

  function BulkOutcome(rest: bytes, n: int): Outcome {
    if n < 0 then Done(Nil, rest) else if n + 2 <= |rest| then Done(Str(rest[..n]), rest[n + 2..]) else More
  }

  /** The reply read from s has its wire form there, and the rest is what follows it. */
  ghost predicate Backed(o: Outcome, s: bytes, depth: nat) {
    o.Done? ==> |o.rest| <= |s| && o.rest == s[|s| - |o.rest|..] && IsWire(o.reply, s[..|s| - |o.rest|], depth)
  }

  lemma BulkHasWire(s: bytes, depth: nat, k: nat, n: int)
    requires 0 < k <= |s| && Header(s, k, 36, n)
    ensures Backed(BulkOutcome(s[k..], n), s, depth)
  {
    if n < 0 {
      assert s[..k][..k] == s[..k];
    } else if n + 2 <= |s[k..]| {
      SliceAgain(s, k, k + n + 2);
      BulkWire(s, depth, k, n);
    }
  }

  lemma BulkWire(s: bytes, depth: nat, k: nat, n: nat)
    requires k + n + 2 <= |s| && Header(s, k, 36, n)
    ensures IsWire(Str(s[k..][..n]), s[..k + n + 2], depth)
  {
    var w := s[..k + n + 2];
    assert w[..k] == s[..k] && w[k..k + n] == s[k..][..n];
    assert Header(w, k, 36, |s[k..][..n]|);
  }

  lemma ArrayWire(s: bytes, depth: nat, k: nat, e: nat, items: seq<Reply>)
    requires k <= e <= |s| && Header(s, k, 42, |items|) && depth < 8 && AreWires(items, s[k..][..e - k], depth + 1)
    ensures IsWire(Array(items), s[..e], depth)
  {
    assert s[..e][..k] == s[..k] && s[..e][k..] == s[k..][..e - k];
    assert Header(s[..e], k, 42, |items|);
  }

  /** How the parser goes on behind the header of an array that is not too deep. */
  lemma ArrayStep(s: bytes, depth: nat, k: nat, n: int)
    requires s != [] && s[0] == 42 && k >= 3 && Crlf(s[1..]) == Some(k - 3) && k <= |s| && s[k..] == s[1..][k - 1..]
    requires depth < 8 && Number(s[1..][..k - 3]) == n
    ensures Parse(s, depth) == ArrayOutcome(s[k..], n, depth)
  {
  }

  function ArrayOutcome(rest: bytes, n: int, depth: nat): Outcome {
    if n == -1 then Done(Nil, rest) else if n < 0 then Done(Hollow(n), rest) else OfItems(ParseItems(rest, n, depth + 1))
  }

  function OfItems(o: Items): Outcome {
    match o
    case AllItems(items, rest) => Done(Array(items), rest)
    case ItemsMore => More
    case ItemsBad(f) => Bad(f)
  }

  lemma ArrayHasWire(s: bytes, depth: nat, k: nat, n: int)
    requires 0 < k <= |s| && Header(s, k, 42, n) && depth < 8
    ensures Backed(ArrayOutcome(s[k..], n, depth), s, depth)
    decreases |s|, 0, 1
  {
    if n < 0 {
      HeadOnly(s, depth, k, n);
    } else {
      match ParseItems(s[k..], n, depth + 1)
      case AllItems(items, rest) => WholeArray(s, depth, k, n, items, rest);
      case _ =>
    }
  }

  lemma WholeArray(s: bytes, depth: nat, k: nat, n: nat, items: seq<Reply>, rest: bytes)
    requires 0 < k <= |s| && Header(s, k, 42, n) && depth < 8 && ParseItems(s[k..], n, depth + 1) == AllItems(items, rest)
    ensures Backed(Done(Array(items), rest), s, depth)
    decreases |s|, 0, 0
  {
    ItemsHaveWires(s[k..], n, depth + 1, items, rest);
    var e := |s| - |rest|;
    SliceAgain(s, k, e);
    ArrayWire(s, depth, k, e, items);
  }

  lemma HeadOnly(s: bytes, depth: nat, k: nat, n: int)
    requires k <= |s| && Header(s, k, 42, n) && depth < 8 && n < 0
    ensures Backed(Done(if n == -1 then Nil else Hollow(n), s[k..]), s, depth)
  {
    assert s[..k][..k] == s[..k];
  }

  lemma {:induction false} ItemsHaveWires(s: bytes, n: nat, depth: nat, items: seq<Reply>, rest: bytes)
    requires ParseItems(s, n, depth) == AllItems(items, rest)
    ensures |rest| <= |s| && rest == s[|s| - |rest|..] && AreWires(items, s[..|s| - |rest|], depth)
    decreases |s|, 2, n
  {
    if n > 0 {
      var v, tail := FirstItem(s, n, depth, items, rest);
      ReadHasWire(s, depth);
      ItemsHaveWires(tail, n - 1, depth, items[1..], rest);
      OneMoreWire(s, depth, v, tail, items, rest);
    }
  }

  lemma OneMoreWire(s: bytes, depth: nat, v: Reply, tail: bytes, items: seq<Reply>, rest: bytes)
    requires |rest| <= |tail| <= |s| && items != [] && items[0] == v
    requires tail == s[|s| - |tail|..] && IsWire(v, s[..|s| - |tail|], depth)
    requires rest == tail[|tail| - |rest|..] && AreWires(items[1..], tail[..|tail| - |rest|], depth)
    ensures rest == s[|s| - |rest|..] && AreWires(items, s[..|s| - |rest|], depth)
  {
    var k, e := |s| - |tail|, |s| - |rest|;
    SliceAgain(s, k, e);
    WiresCons(v, items[1..], s, k, e, depth);
    assert [v] + items[1..] == items;
  }

  lemma SliceAgain(s: bytes, k: nat, e: nat)
    requires k <= e <= |s|
    ensures s[k..][e - k..] == s[e..]
  {
  }

  lemma FirstItem(s: bytes, n: nat, depth: nat, items: seq<Reply>, rest: bytes) returns (v: Reply, tail: bytes)
    requires n > 0 && ParseItems(s, n, depth) == AllItems(items, rest)
    ensures Parse(s, depth) == Done(v, tail) && items != [] && items[0] == v
    ensures ParseItems(tail, n - 1, depth) == AllItems(items[1..], rest) && |rest| <= |tail| < |s|
  {
    v, tail := Parse(s, depth).reply, Parse(s, depth).rest;
  }

  lemma WiresCons(v: Reply, vs: seq<Reply>, s: bytes, k: nat, e: nat, depth: nat)
    requires k <= e <= |s| && IsWire(v, s[..k], depth) && AreWires(vs, s[k..][..e - k], depth)
    ensures AreWires([v] + vs, s[..e], depth)
  {
    var all := [v] + vs;
    assert all[1..] == vs && s[..e][..k] == s[..k] && s[..e][k..] == s[k..][..e - k];
  }

  /** The parser reads a reply from some bytes exactly when they are its wire form. */
  lemma ParseExact(v: Reply, s: bytes, depth: nat, rest: bytes)
    ensures Parse(s + rest, depth) == Done(v, rest) <==> IsWire(v, s, depth)
  {
    if IsWire(v, s, depth) {
      WireParses(v, s, depth, rest);
    }
    if Parse(s + rest, depth) == Done(v, rest) {
      assert (s + rest)[..|s|] == s;
      ReadHasWire(s + rest, depth);
    }
  }

  // ------------------------------------------------------------ faults are met where they are

  lemma {:induction false} FaultParses(f: Fault, s: bytes, depth: nat, rest: bytes)
    requires IsFault(f, s, depth)
    ensures Parse(s + rest, depth) == Bad(f)
    decreases |s|, 0, 0
  {
    if !AtOnce(f, s, depth) {
      var k := FaultyArray(f, s, depth);
      var n := ReadsAs(Text(s[..k]));
      BrokenParses(f, s[k..], n, depth + 1, rest);
      HeaderParses(s, k, 42, n, ArrayKind, rest);
    } else {
      AtOnceParses(f, s, depth, rest);
    }
  }

  lemma AtOnceParses(f: Fault, s: bytes, depth: nat, rest: bytes)
    requires AtOnce(f, s, depth)
    ensures Parse(s + rest, depth) == Bad(f)
  {
    assert (s + rest)[0] == s[0];
  }

  ghost predicate AtOnce(f: Fault, s: bytes, depth: nat) {
    (f.BadType? && s == [f.b] && f.b !in {36, 42, 43, 45, 58}) || (f.TooDeep? && depth >= 8 && s == [42])
  }

  lemma FaultyArray(f: Fault, s: bytes, depth: nat) returns (k: nat)
    requires IsFault(f, s, depth) && !AtOnce(f, s, depth)
    ensures depth < 8 && 3 <= k <= |s| && IsLine(s[..k], 42)
    ensures var n := ReadsAs(Text(s[..k])); n > 0 && Header(s, k, 42, n) && IsBroken(f, s[k..], n, depth + 1)
  {
    k :| k <= |s| && IsLine(s[..k], 42) && ReadsAs(Text(s[..k])) > 0 && IsBroken(f, s[k..], ReadsAs(Text(s[..k])), depth + 1);
  }

  lemma {:induction false} BrokenParses(f: Fault, s: bytes, n: nat, depth: nat, rest: bytes)
    requires IsBroken(f, s, n, depth)
    ensures ParseItems(s + rest, n, depth) == ItemsBad(f)
    decreases |s|, 1, n
  {
    if IsFault(f, s, depth) {
      FaultParses(f, s, depth, rest);
    } else {
      var k, v := SoundItem(f, s, n, depth);
      WireParses(v, s[..k], depth, s[k..] + rest);
      BrokenParses(f, s[k..], n - 1, depth, rest);
      Rejoined(s, k, rest);
      LaterBroken(f, s + rest, n, depth, v, s[k..] + rest);
    }
  }

  lemma SoundItem(f: Fault, s: bytes, n: nat, depth: nat) returns (k: nat, v: Reply)
    requires IsBroken(f, s, n, depth) && !IsFault(f, s, depth)
    ensures n > 0 && k <= |s| && IsWire(v, s[..k], depth) && IsBroken(f, s[k..], n - 1, depth)
  {
    k, v :| k <= |s| && IsWire(v, s[..k], depth) && IsBroken(f, s[k..], n - 1, depth);
  }

  lemma LaterBroken(f: Fault, s: bytes, n: nat, depth: nat, v: Reply, tail: bytes)
    requires n > 0 && Parse(s, depth) == Done(v, tail) && ParseItems(tail, n - 1, depth) == ItemsBad(f)
    ensures ParseItems(s, n, depth) == ItemsBad(f)
  {
    ItemsLevel(s, n, depth, v, tail, ItemsBad(f));
  }

  lemma {:induction false} BadHasFault(s: bytes, depth: nat, f: Fault) returns (e: nat)
    requires Parse(s, depth) == Bad(f)
    ensures e <= |s| && IsFault(f, s[..e], depth)
    decreases |s|, 0, 0
  {
    if KindOf(s[0]).None? || depth >= 8 {
      e := 1;
      assert s[..1] == [s[0]];
    } else {
      var k := LineRead(s, 42);
      var n := Number(s[1..][..k - 3]);
      ArrayStep(s, depth, k, n);
      var m := ItemsHaveFault(s[k..], n, depth + 1, f);
      e := k + m;
      FaultyWhole(f, s, k, e, depth);
    }
  }

  lemma FaultyWhole(f: Fault, s: bytes, k: nat, e: nat, depth: nat)
    requires k <= e <= |s| && depth < 8 && IsLine(s[..k], 42) && ReadsAs(Text(s[..k])) > 0
    requires IsBroken(f, s[k..][..e - k], ReadsAs(Text(s[..k])), depth + 1)
    ensures IsFault(f, s[..e], depth)
  {
    assert s[..e][..k] == s[..k] && s[..e][k..] == s[k..][..e - k];
  }

  lemma {:induction false} ItemsHaveFault(s: bytes, n: nat, depth: nat, f: Fault) returns (e: nat)
    requires ParseItems(s, n, depth) == ItemsBad(f)
    ensures n > 0 && e <= |s| && IsBroken(f, s[..e], n, depth)
    decreases |s|, 1, n
  {
    match Parse(s, depth)
    case Bad(_) => e := BadHasFault(s, depth, f);
    case Done(v, tail) =>
      var k := |s| - |tail|;
      ReadHasWire(s, depth);
      var m := ItemsHaveFault(tail, n - 1, depth, f);
      e := k + m;
      BrokenWhole(f, s, k, e, n, depth, v);
  }

  lemma BrokenWhole(f: Fault, s: bytes, k: nat, e: nat, n: nat, depth: nat, v: Reply)
    requires k <= e <= |s| && n > 0 && IsWire(v, s[..k], depth) && IsBroken(f, s[k..][..e - k], n - 1, depth)
    ensures IsBroken(f, s[..e], n, depth)
  {
    assert s[..e][..k] == s[..k] && s[..e][k..] == s[k..][..e - k];
  }

  /** The parser meets a fault exactly when one stands at the beginning of its input. */
  lemma FaultExact(s: bytes, depth: nat, f: Fault)
    ensures Parse(s, depth) == Bad(f) <==> exists e: nat :: e <= |s| && IsFault(f, s[..e], depth)
  {
    if Parse(s, depth) == Bad(f) {
      var e := BadHasFault(s, depth, f);
    }
    forall e: nat | e <= |s| && IsFault(f, s[..e], depth) ensures Parse(s, depth) == Bad(f) {
      FaultParses(f, s[..e], depth, s[e..]);
      assert s[..e] + s[e..] == s;
    }
  }

  // ------------------------------------------------------------ streams are read as they are

  /** The parser wants more exactly when neither a reply nor a fault is there. */
  lemma MoreExact(s: bytes)
    ensures Parse(s, 0).More? <==> Ends(s, None)
  {
    if Parse(s, 0).More? {
      forall e: nat | e <= |s| ensures Neither(s[..e]) {
        assert s[..e] + s[e..] == s;
        forall v ensures !IsWire(v, s[..e], 0) {
          ParseExact(v, s[..e], 0, s[e..]);
        }
        forall f ensures !IsFault(f, s[..e], 0) {
          FaultExact(s, 0, f);
        }
      }
    } else if Parse(s, 0).Done? {
      ReadHasWire(s, 0);
    } else {
      FaultExact(s, 0, Parse(s, 0).fault);
    }
  }

  lemma {:induction false} StreamIsRead(vs: seq<Reply>, fault: Option<Fault>, s: bytes, k: nat)
    requires k <= |s| && AreWires(vs, s[..k], 0) && Ends(s[k..], fault)
    ensures ParseAll(s) == Stream(vs, fault)
    decreases |vs|
  {
    if vs == [] {
      assert s[k..] == s;
      EndIsRead(s, fault);
    } else {
      var w := s[..k];
      var m := FirstWire(vs, w, 0);
      PrefixSlices(s, m, k);
      StreamIsRead(vs[1..], fault, s[m..], k - m);
      ParseExact(vs[0], s[..m], 0, s[m..]);
      assert s[..m] + s[m..] == s && [vs[0]] + vs[1..] == vs;
    }
  }

  lemma PrefixSlices(s: bytes, m: nat, k: nat)
    requires m <= k <= |s|
    ensures s[..k][..m] == s[..m] && s[..k][m..] == s[m..][..k - m] && s[m..][k - m..] == s[k..]
  {
  }

  lemma EndIsRead(s: bytes, fault: Option<Fault>)
    requires Ends(s, fault)
    ensures ParseAll(s) == Stream([], fault)
  {
    match fault
    case None => MoreExact(s);
    case Some(f) => FaultExact(s, 0, f);
  }

  lemma {:induction false} ReadIsStream(s: bytes) returns (k: nat)
    ensures k <= |s| && AreWires(ParseAll(s).replies, s[..k], 0) && Ends(s[k..], ParseAll(s).fault)
    decreases |s|
  {
    k := 0;
    assert s[0..] == s;
    match Parse(s, 0)
    case More => MoreExact(s);
    case Bad(f) => FaultExact(s, 0, f);
    case Done(v, rest) =>
      ReadHasWire(s, 0);
      var m := |s| - |rest|;
      var j := ReadIsStream(rest);
      k := m + j;
      assert rest[..j] == s[m..][..k - m] && rest[j..] == s[k..];
      WiresCons(v, ParseAll(rest).replies, s, m, k, 0);
  }

  /** The one-shot parser gives exactly what the stream is, for every stream. */
  lemma StreamExact(s: bytes, replies: seq<Reply>, fault: Option<Fault>)
    ensures ParseAll(s) == Stream(replies, fault) <==> IsStream(replies, fault, s)
  {
    var k := ReadIsStream(s);
    assert IsStream(ParseAll(s).replies, ParseAll(s).fault, s);
    if IsStream(replies, fault, s) {
      var m: nat :| m <= |s| && AreWires(replies, s[..m], 0) && Ends(s[m..], fault);
      StreamIsRead(replies, fault, s, m);
    }
  }

  // ------------------------------------------------------------ nil

  /** Both forms of nil, `$-1` and `*-1`, each closed by CR LF. */
  lemma NilForms(depth: nat, rest: bytes)
    ensures Parse([36, 45, 49, 13, 10] + rest, depth) == Done(Nil, rest)
    ensures depth < 8 ==> Parse([42, 45, 49, 13, 10] + rest, depth) == Done(Nil, rest)
  {
    NilForm(36, depth);
    NilForm(42, depth);
    ParseExact(Nil, [36, 45, 49, 13, 10], depth, rest);
    if depth < 8 {
      ParseExact(Nil, [42, 45, 49, 13, 10], depth, rest);
    }
  }

  lemma NilForm(head: byte, depth: nat)
    requires head == 36 || head == 42
    ensures head == 36 || depth < 8 ==> IsWire(Nil, [head, 45, 49, 13, 10], depth)
  {
    var s: bytes := [head, 45, 49, 13, 10];
    assert s[..5] == s && Text(s) == [45, 49];
    MinusOne();
  }

  lemma MinusOne()
    ensures ReadsAs([45, 49]) == -1
  {
    var d: bytes := [49];
    assert [45, 49][1..] == d && d[1..] == [] && d[..0] == [];
    assert UpToCr(d) == [49] + UpToCr([]) == d;
    assert Value(d) == 10 * Value([]) + 1 == 1;
  }
}
