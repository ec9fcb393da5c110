/**
 The wire forms of replies and of faults, said of the bytes themselves and without a parser, after the sections
 "Simple strings", "Simple errors", "Integers", "Bulk strings" and "Arrays" of the Redis serialization protocol
 specification and with the leniencies of hiredis.
 */
module RespGrammar {
  import opened Bytes
  import opened Decimal
  import opened Resp

  // ------------------------------------------------------------ lines

  ghost predicate NoBreak(t: bytes) {
    forall j :: 0 <= j < |t| - 1 ==> !(t[j] == 13 && t[j + 1] == 10)
  }

  /** What stands between the type byte and the line break. */
  function Text(s: bytes): bytes
    requires |s| >= 3
  {
    s[1..|s| - 2]
  }

  ghost predicate IsLine(s: bytes, head: byte) {
    |s| >= 3 && s[0] == head && s[|s| - 2] == 13 && s[|s| - 1] == 10 && NoBreak(Text(s))
  }

  /** The first k bytes are a line with that head and number. */
  ghost predicate Header(s: bytes, k: nat, head: byte, n: int) {
    k <= |s| && IsLine(s[..k], head) && ReadsAs(Text(s[..k])) == n
  }

  // ------------------------------------------------------------ replies

  /** The bytes of one reply. A bulk string is followed by any two bytes; both `$-1` and `*-1` are nil. */
  ghost predicate IsWire(v: Reply, s: bytes, depth: nat)
    decreases v, 1
  {
    match v
    case Status(t) => IsLine(s, 43) && Text(s) == t
    case Error(t) => IsLine(s, 45) && Text(s) == t
    case Integer(n) => Header(s, |s|, 58, n)
    case Str(t) => exists k: nat :: Header(s, k, 36, |t|) && |s| == k + |t| + 2 && s[k..k + |t|] == t
    case Nil => (IsLine(s, 36) && ReadsAs(Text(s)) < 0) || (depth < 8 && Header(s, |s|, 42, -1))
    case Hollow(n) => depth < 8 && n < -1 && Header(s, |s|, 42, n)
    case Array(items) => depth < 8 && exists k: nat :: Header(s, k, 42, |items|) && AreWires(items, s[k..], depth + 1)
  }

  /** The bytes of several replies, one after the other. */
  ghost predicate AreWires(vs: seq<Reply>, s: bytes, depth: nat)
    decreases vs, 0
  {
    if vs == [] then s == []
    else exists k: nat :: k <= |s| && IsWire(vs[0], s[..k], depth) && AreWires(vs[1..], s[k..], depth)
  }

  // ------------------------------------------------------------ faults

  /** The bytes up to and including the one that is wrong. */
  ghost predicate IsFault(f: Fault, s: bytes, depth: nat)
    decreases |s|, 0, 0
  {
    || (f.BadType? && s == [f.b] && f.b !in {36, 42, 43, 45, 58})
    || (f.TooDeep? && depth >= 8 && s == [42])
    || (depth < 8 && exists k: nat ::
          k <= |s| && IsLine(s[..k], 42) && ReadsAs(Text(s[..k])) > 0 && IsBroken(f, s[k..], ReadsAs(Text(s[..k])), depth + 1))
  }

  /** Fewer than n replies, and then a fault. */
  ghost predicate IsBroken(f: Fault, s: bytes, n: nat, depth: nat)
    decreases |s|, 1, n
  {
    n > 0 &&
    (IsFault(f, s, depth) || (exists k: nat, v :: k <= |s| && IsWire(v, s[..k], depth) && IsBroken(f, s[k..], n - 1, depth)))
  }

  // ------------------------------------------------------------ whole streams

  /** Nothing more can be read: there is a fault next, or neither a whole reply nor a fault. */
  ghost predicate Ends(s: bytes, fault: Option<Fault>) {
    match fault
    case Some(f) => exists e: nat :: e <= |s| && IsFault(f, s[..e], 0)
    case None => forall e: nat :: e <= |s| ==> Neither(s[..e])
  }

  ghost predicate Neither(s: bytes) {
    (forall v :: !IsWire(v, s, 0)) && (forall f :: !IsFault(f, s, 0))
  }

  /** A stream: replies, and then its end. */
  ghost predicate IsStream(replies: seq<Reply>, fault: Option<Fault>, s: bytes) {
    exists k: nat :: k <= |s| && AreWires(replies, s[..k], 0) && Ends(s[k..], fault)
  }
}
