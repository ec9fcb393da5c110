/**
 The wire primitives of protocol buffers, after the sections "Base 128 Varints" and "Length-Delimited Records"
 of the Protocol Buffers Encoding guide. Groups are not modelled: a group tag fails the parse.
 */
module Wire {
  import opened Bytes

  const TWO_31: int := 0x8000_0000
  const TWO_32: int := 0x1_0000_0000
  const TWO_64: int := 0x1_0000_0000_0000_0000

  /** Seven bits at a time, least significant first, the high bit set on all but the last byte. */
  function Varint(n: nat): (s: bytes)
    ensures |s| > 0
  {
    if n < 128 then [n] else [128 + n % 128] + Varint(n / 128)
  }

  datatype Read<T> = Got(value: T, rest: bytes) | Fail

  /** A varint of at most `budget` bytes. */
  function ReadVarint(s: bytes, budget: nat): (r: Read<nat>)
    ensures r.Got? ==> |r.rest| < |s|
  {
    if s == [] || budget == 0 then Fail
    else if s[0] < 128 then Got(s[0], s[1..])
    else
      match ReadVarint(s[1..], budget - 1)
      case Fail => Fail
      case Got(v, rest) => Got(s[0] - 128 + 128 * v, rest)
  }

  function Pow128(k: nat): nat {
    if k == 0 then 1 else 128 * Pow128(k - 1)
  }

  lemma {:induction false} ReadVarintInverse(n: nat, budget: nat, rest: bytes)
    requires 0 < budget && n < Pow128(budget)
    ensures ReadVarint(Varint(n) + rest, budget) == Got(n, rest)
  {
    var s := Varint(n) + rest;
    if n < 128 {
      assert s[1..] == rest;
    } else {
      assert s[1..] == Varint(n / 128) + rest;
      ReadVarintInverse(n / 128, budget - 1, rest);
    }
  }

  /** Ten bytes hold every 64-bit value. */
  lemma VarintFits(n: nat)
    requires n < TWO_64
    ensures n < Pow128(10)
  {
    assert Pow128(2) == 0x4000;
    assert Pow128(4) == 0x1000_0000;
    assert Pow128(6) == 0x400_0000_0000;
    assert Pow128(8) == 0x100_0000_0000_0000;
    assert Pow128(10) == 0x40_0000_0000_0000_0000;
  }

  /** A 64-bit varint; bits beyond the 64th are dropped. */
  function ReadVarint64(s: bytes): (r: Read<nat>)
    ensures r.Got? ==> |r.rest| < |s|
  {
    match ReadVarint(s, 10)
    case Fail => Fail
    case Got(v, rest) => Got(v % TWO_64, rest)
  }

  lemma ReadVarint64Inverse(n: nat, rest: bytes)
    requires n < TWO_64
    ensures ReadVarint64(Varint(n) + rest) == Got(n, rest)
  {
    VarintFits(n);
    ReadVarintInverse(n, 10, rest);
  }

  /** Two's complement: a negative int32 travels as a 64-bit value. */
  function SignExtend(v: int): (n: nat)
    ensures n < TWO_64
  {
    v % TWO_64
  }

  function ToInt32(n: nat): (v: int)
    ensures -TWO_31 <= v < TWO_31
  {
    var low := n % TWO_32;
    if low < TWO_31 then low else low - TWO_32
  }

  lemma Int32RoundTrip(v: int)
    requires -TWO_31 <= v < TWO_31
    ensures ToInt32(SignExtend(v)) == v
  {
  }

  /** A field as it stands on the wire. */
  datatype Field =
    | VarintField(num: nat, value: nat)
    | Fixed64Field(num: nat, data: bytes)
    | BytesField(num: nat, data: bytes)
    | Fixed32Field(num: nat, data: bytes)

  predicate ValidField(f: Field) {
    && f.num * 8 + 5 < TWO_32
    && f.num * 8 + WireType(f) != 0
    && match f
       case VarintField(_, v) => v < TWO_64
       case Fixed64Field(_, d) => |d| == 8
       case BytesField(_, d) => |d| < TWO_31
       case Fixed32Field(_, d) => |d| == 4
  }

  function WireType(f: Field): nat {
    match f
    case VarintField(_, _) => 0
    case Fixed64Field(_, _) => 1
    case BytesField(_, _) => 2
    case Fixed32Field(_, _) => 5
  }

  function EncodePayload(f: Field): bytes {
    match f
    case VarintField(_, v) => Varint(v)
    case Fixed64Field(_, d) => d
    case BytesField(_, d) => Varint(|d|) + d
    case Fixed32Field(_, d) => d
  }

  function EncodeField(f: Field): bytes {
    Varint(f.num * 8 + WireType(f)) + EncodePayload(f)
  }

  function Encodings(fs: seq<Field>): (es: seq<bytes>)
    ensures |es| == |fs|
  {
    seq(|fs|, i requires 0 <= i < |fs| => EncodeField(fs[i]))
  }

  function EncodeFields(fs: seq<Field>): bytes {
    Concat(Encodings(fs))
  }

  lemma EncodeFieldsAppend(a: seq<Field>, b: seq<Field>)
    ensures EncodeFields(a + b) == EncodeFields(a) + EncodeFields(b)
  {
    assert Encodings(a + b) == Encodings(a) + Encodings(b);
    ConcatAppend(Encodings(a), Encodings(b));
  }

  lemma EncodeFieldsCons(fs: seq<Field>)
    requires fs != []
    ensures EncodeFields(fs) == EncodeField(fs[0]) + EncodeFields(fs[1..])
  {
    assert Encodings(fs)[1..] == Encodings(fs[1..]);
  }

  /** A tag: 32 bits, field number above wire type. Zero is not a tag. */
  function ReadTag(s: bytes): (r: Read<nat>)
    ensures r.Got? ==> |r.rest| < |s| && r.value != 0
  {
    match ReadVarint64(s)
    case Fail => Fail
    case Got(v, rest) => if v % TWO_32 == 0 then Fail else Got(v % TWO_32, rest)
  }

  function Take(num: nat, n: nat, s: bytes, wire: nat): (r: Read<Field>)
    ensures r.Got? ==> |r.rest| <= |s|
  {
    if |s| < n then Fail
    else if wire == 1 then Got(Fixed64Field(num, s[..n]), s[n..])
    else if wire == 2 then Got(BytesField(num, s[..n]), s[n..])
    else Got(Fixed32Field(num, s[..n]), s[n..])
  }

  /** What follows a tag. */
  function ReadPayload(tag: nat, s: bytes): (r: Read<Field>)
    ensures r.Got? ==> |r.rest| <= |s|
  {
    var num, wire := tag / 8, tag % 8;
    if wire == 0 then
      match ReadVarint64(s)
      case Fail => Fail
      case Got(v, rest) => Got(VarintField(num, v), rest)
    else if wire == 1 then Take(num, 8, s, 1)
    else if wire == 2 then
      match ReadVarint64(s)
      case Fail => Fail
      case Got(v, rest) => if v % TWO_32 >= TWO_31 then Fail else Take(num, v % TWO_32, rest, 2)
    else if wire == 5 then Take(num, 4, s, 5)
    else Fail
  }

  function DecodeField(s: bytes): (r: Read<Field>)
    ensures r.Got? ==> |r.rest| < |s|
  {
    match ReadTag(s)
    case Fail => Fail
    case Got(tag, rest) => ReadPayload(tag, rest)
  }

  lemma ReadTagFrom(s: bytes, tag: nat, rest: bytes)
    requires ReadVarint64(s) == Got(tag, rest) && 0 < tag < TWO_32
    ensures ReadTag(s) == Got(tag, rest)
  {
  }

  lemma ReadTagInverse(tag: nat, rest: bytes)
    requires 0 < tag < TWO_32
    ensures ReadTag(Varint(tag) + rest) == Got(tag, rest)
  {
    ReadVarint64Inverse(tag, rest);
    ReadTagFrom(Varint(tag) + rest, tag, rest);
  }

  lemma ReadBytesInverse(f: Field, rest: bytes)
    requires ValidField(f) && f.BytesField?
    ensures ReadPayload(f.num * 8 + WireType(f), EncodePayload(f) + rest) == Got(f, rest)
  {
    var d := f.data;
    Regroup(Varint(|d|), d, rest);
    ReadVarint64Inverse(|d|, d + rest);
    assert (d + rest)[..|d|] == d && (d + rest)[|d|..] == rest;
  }

  lemma ReadPayloadInverse(f: Field, rest: bytes)
    requires ValidField(f)
    ensures ReadPayload(f.num * 8 + WireType(f), EncodePayload(f) + rest) == Got(f, rest)
  {
    match f
    case VarintField(_, v) => ReadVarint64Inverse(v, rest);
    case BytesField(_, _) => ReadBytesInverse(f, rest);
    case Fixed64Field(_, d) => assert (d + rest)[..8] == d && (d + rest)[8..] == rest;
    case Fixed32Field(_, d) => assert (d + rest)[..4] == d && (d + rest)[4..] == rest;
  }

  /** A field comes back as it was written. */
  lemma DecodeFieldInverse(f: Field, rest: bytes)
    requires ValidField(f)
    ensures DecodeField(EncodeField(f) + rest) == Got(f, rest)
  {
    var tag := f.num * 8 + WireType(f);
    Regroup(Varint(tag), EncodePayload(f), rest);
    ReadTagInverse(tag, EncodePayload(f) + rest);
    ReadPayloadInverse(f, rest);
  }

  /** How many bytes a varint takes. */
  method VarintSize(n: nat) returns (k: nat)
    requires n < TWO_64
    ensures k == |Varint(n)|
  {
    k := 1;
    var left := n;
    while left >= 128
      invariant k + |Varint(left)| == |Varint(n)| + 1
      decreases left
    {
      left := left / 128;
      k := k + 1;
    }
  }
}
