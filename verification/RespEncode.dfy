/** The wire form of replies, and the proof that the parser undoes it: an independent check of the parser. */
module RespEncode {
  import opened Bytes
  import opened Decimal
  import opened Resp

  function Line(head: byte, text: bytes): bytes {
    [head] + text + CRLF
  }

  function Encode(v: Reply): bytes
    decreases v, 1
  {
    match v
    case Status(t) => Line(PLUS, t)
    case Error(t) => Line(MINUS, t)
    case Integer(n) => Line(COLON, IntDec(n))
    case Str(t) => Line(DOLLAR, IntDec(|t|)) + t + CRLF
    case Nil => Line(DOLLAR, IntDec(-1))
    case Array(items) => Line(STAR, IntDec(|items|)) + EncodeAll(items)
    case Hollow(n) => Line(STAR, IntDec(n))
  }

  function EncodeAll(vs: seq<Reply>): bytes
    decreases vs, 0
  {
    if vs == [] then [] else Encode(vs[0]) + EncodeAll(vs[1..])
  }

  ghost predicate OneLine(t: bytes) {
    forall j :: !CrlfAt(t, j)
  }

  /** Replies the protocol can carry: no line break inside a line, arrays at most eight levels deep. */
  ghost predicate Encodable(v: Reply, depth: nat) {
    match v
    case Status(t) => OneLine(t)
    case Error(t) => OneLine(t)
    case Array(items) => depth < MAX_DEPTH && forall i :: 0 <= i < |items| ==> Encodable(items[i], depth + 1)
    case Hollow(n) => depth < MAX_DEPTH && n < -1
    case _ => true
  }

  lemma LineCrlf(text: bytes, rest: bytes)
    requires OneLine(text)
    ensures Crlf(text + CRLF + rest) == Some(|text|)
    ensures (text + CRLF + rest)[..|text|] == text
    ensures (text + CRLF + rest)[|text| + 2..] == rest
  {
    var s := text + CRLF + rest;
    forall j | 0 <= j < |text| ensures !CrlfAt(s, j) {
      assert !CrlfAt(text, j);
    }
    CrlfIs(s, |text|);
  }

  lemma NumberLine(n: int, rest: bytes)
    ensures var s := IntDec(n) + CRLF + rest;
            && Crlf(s).Some?
            && Number(s[..Crlf(s).value]) == n
            && s[Crlf(s).value + 2..] == rest
  {
    IntDecPlain(n);
    assert OneLine(IntDec(n));
    LineCrlf(IntDec(n), rest);
    NumberOfIntDec(n);
  }

  lemma Behead(head: byte, text: bytes, rest: bytes)
    ensures (Line(head, text) + rest)[0] == head
    ensures (Line(head, text) + rest)[1..] == text + CRLF + rest
  {
  }

  /** A bulk string comes back whole, whatever bytes it holds. */
  lemma ParseBulk(t: bytes, depth: nat, rest: bytes)
    ensures Parse(Encode(Str(t)) + rest, depth) == Done(Str(t), rest)
  {
    var tail := t + CRLF + rest;
    assert Encode(Str(t)) + rest == Line(DOLLAR, IntDec(|t|)) + tail;
    ParseLine(DOLLAR, IntDec(|t|), depth, tail, StringKind);
    BulkBody(t, depth, rest);
  }

  lemma BulkBody(t: bytes, depth: nat, rest: bytes)
    ensures Body(StringKind, IntDec(|t|) + CRLF + (t + CRLF + rest), depth) == Done(Str(t), rest)
  {
    var tail := t + CRLF + rest;
    NumberLine(|t|, tail);
    assert tail[..|t|] == t && tail[|t| + 2..] == rest;
  }

  lemma ParseText(v: Reply, depth: nat, rest: bytes)
    requires (v.Status? || v.Error?) && OneLine(v.text)
    ensures Parse(Encode(v) + rest, depth) == Done(v, rest)
  {
    Behead(if v.Status? then PLUS else MINUS, v.text, rest);
    LineCrlf(v.text, rest);
  }

  lemma ParseInteger(n: int, depth: nat, rest: bytes)
    ensures Parse(Encode(Integer(n)) + rest, depth) == Done(Integer(n), rest)
  {
    ParseLine(COLON, IntDec(n), depth, rest, IntegerKind);
    NumberLine(n, rest);
  }

  lemma ParseNil(depth: nat, rest: bytes)
    ensures Parse(Encode(Nil) + rest, depth) == Done(Nil, rest)
  {
    ParseLine(DOLLAR, IntDec(-1), depth, rest, StringKind);
    NilBody(depth, rest);
  }

  lemma ParseHollow(count: int, depth: nat, rest: bytes)
    requires count < -1 && depth < MAX_DEPTH
    ensures Parse(Encode(Hollow(count)) + rest, depth) == Done(Hollow(count), rest)
  {
    ParseLine(STAR, IntDec(count), depth, rest, ArrayKind);
    HollowBody(count, depth, rest);
  }

  lemma NilBody(depth: nat, rest: bytes)
    ensures Body(StringKind, IntDec(-1) + CRLF + rest, depth) == Done(Nil, rest)
  {
    NumberLine(-1, rest);
  }

  lemma HollowBody(count: int, depth: nat, rest: bytes)
    requires count < -1 && depth < MAX_DEPTH
    ensures Body(ArrayKind, IntDec(count) + CRLF + rest, depth) == Done(Hollow(count), rest)
  {
    NumberLine(count, rest);
  }

  /** The type byte selects how the rest is read. */
  lemma ParseLine(head: byte, text: bytes, depth: nat, rest: bytes, kind: Kind)
    requires KindOf(head) == Some(kind)
    ensures Parse(Line(head, text) + rest, depth) == Body(kind, text + CRLF + rest, depth)
  {
    Behead(head, text, rest);
  }

  /** Parsing undoes encoding and stops exactly at the end of the encoding. */
  lemma {:induction false} ParseEncode(v: Reply, depth: nat, rest: bytes)
    requires Encodable(v, depth)
    ensures Parse(Encode(v) + rest, depth) == Done(v, rest)
    decreases v, 1
  {
    match v
    case Status(_) => ParseText(v, depth, rest);
    case Error(_) => ParseText(v, depth, rest);
    case Integer(n) => ParseInteger(n, depth, rest);
    case Nil => ParseNil(depth, rest);
    case Hollow(count) => ParseHollow(count, depth, rest);
    case Str(t) => ParseBulk(t, depth, rest);
    case Array(items) =>
      ParseEncodeAll(items, depth + 1, rest);
      ParseArray(items, depth, rest);
  }

  lemma ParseArray(items: seq<Reply>, depth: nat, rest: bytes)
    requires depth < MAX_DEPTH && ParseItems(EncodeAll(items) + rest, |items|, depth + 1) == AllItems(items, rest)
    ensures Parse(Encode(Array(items)) + rest, depth) == Done(Array(items), rest)
  {
    ArrayShape(items, rest);
    ParseLine(STAR, IntDec(|items|), depth, EncodeAll(items) + rest, ArrayKind);
    ArrayBody(items, depth, rest);
  }

  lemma ArrayShape(items: seq<Reply>, rest: bytes)
    ensures Encode(Array(items)) + rest == Line(STAR, IntDec(|items|)) + (EncodeAll(items) + rest)
  {
    Regroup(Line(STAR, IntDec(|items|)), EncodeAll(items), rest);
  }

  lemma ArrayBody(items: seq<Reply>, depth: nat, rest: bytes)
    requires depth < MAX_DEPTH && ParseItems(EncodeAll(items) + rest, |items|, depth + 1) == AllItems(items, rest)
    ensures Body(ArrayKind, IntDec(|items|) + CRLF + (EncodeAll(items) + rest), depth) == Done(Array(items), rest)
  {
    NumberLine(|items|, EncodeAll(items) + rest);
  }

  lemma {:induction false} ParseEncodeAll(vs: seq<Reply>, depth: nat, rest: bytes)
    requires forall i :: 0 <= i < |vs| ==> Encodable(vs[i], depth)
    ensures ParseItems(EncodeAll(vs) + rest, |vs|, depth) == AllItems(vs, rest)
    decreases vs, 0
  {
    if vs == [] {
      assert EncodeAll(vs) + rest == rest;
    } else {
      var tail := EncodeAll(vs[1..]) + rest;
      Regroup(Encode(vs[0]), EncodeAll(vs[1..]), rest);
      ParseEncode(vs[0], depth, tail);
      ParseEncodeAll(vs[1..], depth, rest);
      ItemsLevel(Encode(vs[0]) + tail, |vs|, depth, vs[0], tail, AllItems(vs[1..], rest));
      assert [vs[0]] + vs[1..] == vs;
    }
  }

  /** A pipeline of encoded replies parses to exactly those replies. */
  lemma {:induction false} StreamRoundTrip(vs: seq<Reply>)
    requires forall i :: 0 <= i < |vs| ==> Encodable(vs[i], 0)
    ensures ParseAll(EncodeAll(vs)) == Stream(vs, None)
  {
    if vs != [] {
      ParseEncode(vs[0], 0, EncodeAll(vs[1..]));
      StreamRoundTrip(vs[1..]);
      assert [vs[0]] + vs[1..] == vs;
    }
  }
}
