/**
 The bytes of a serialized command, field by field with the numbers of command.proto and the wire types of the
 Protocol Buffers Encoding guide, sections "Message Structure" and "Base 128 Varints".
 */
module CodecLayout {
  import opened Bytes
  import opened Wire
  import opened Codec
  import opened CodecRoundTrip

  // ------------------------------------------------------------ varints

  /** Seven bits a byte, the least significant first. */
  function VarintValue(s: bytes): nat {
    if s == [] then 0 else s[0] % 128 + 128 * VarintValue(s[1..])
  }

  /** The high bit is set in all bytes but the last. */
  ghost predicate IsGroup(s: bytes) {
    s != [] && s[|s| - 1] < 128 && forall i :: 0 <= i < |s| - 1 ==> s[i] >= 128
  }

  lemma {:induction false} VarintIs(n: nat)
    ensures var s := Varint(n); IsGroup(s) && VarintValue(s) == n && (|s| > 1 ==> s[|s| - 1] != 0)
    ensures n > 0 ==> Varint(n)[|Varint(n)| - 1] != 0
  {
    if n >= 128 {
      VarintIs(n / 128);
      var s, t := Varint(n), Varint(n / 128);
      assert s[1..] == t && s[|s| - 1] == t[|t| - 1];
      assert forall i :: 1 <= i < |s| ==> s[i] == t[i - 1];
    } else {
      assert Varint(n)[1..] == [];
    }
  }

  lemma {:induction false} ReadGroup(s: bytes, k: nat, budget: nat)
    requires 0 < k <= |s| && k <= budget && IsGroup(s[..k])
    ensures ReadVarint(s, budget) == Got(VarintValue(s[..k]), s[k..])
  {
    var g := s[..k];
    assert g[0] == s[0] && g[1..] == s[1..][..k - 1];
    if k > 1 {
      GroupTail(s, k);
      ReadGroup(s[1..], k - 1, budget - 1);
      assert s[1..][k - 1..] == s[k..] && g[0] >= 128;
    } else {
      assert g[1..] == [] && VarintValue([]) == 0;
    }
  }

  lemma GroupTail(s: bytes, k: nat)
    requires 1 < k <= |s| && s[0] >= 128
    ensures IsGroup(s[..k]) <==> IsGroup(s[1..][..k - 1])
  {
    var g, t := s[..k], s[1..][..k - 1];
    assert forall i :: 0 <= i < |t| ==> t[i] == g[i + 1];
    assert IsGroup(t) ==> forall i :: 1 <= i < k - 1 ==> g[i] == t[i - 1];
  }

  lemma {:induction false} GroupOf(s: bytes, budget: nat) returns (k: nat)
    requires ReadVarint(s, budget).Got?
    ensures 0 < k <= |s| && k <= budget && IsGroup(s[..k])
  {
    k := 1;
    if s[0] >= 128 {
      var m := GroupOf(s[1..], budget - 1);
      k := m + 1;
      GroupTail(s, k);
    }
  }

  /** A varint is read exactly when at most ten bytes form one; bits beyond the 64th are dropped. */
  lemma ReadVarintExact(s: bytes, v: nat, rest: bytes)
    ensures ReadVarint64(s) == Got(v, rest) <==>
            exists k: nat :: k <= 10 && k <= |s| && IsGroup(s[..k]) && v == VarintValue(s[..k]) % 0x1_0000_0000_0000_0000
                             && rest == s[k..]
  {
    if ReadVarint(s, 10).Got? {
      var k := GroupOf(s, 10);
      ReadGroup(s, k, 10);
    }
    forall k: nat | k <= 10 && k <= |s| && IsGroup(s[..k])
      ensures ReadVarint(s, 10) == Got(VarintValue(s[..k]), s[k..])
    {
      ReadGroup(s, k, 10);
    }
  }

  // ------------------------------------------------------------ fields

  /** A numeric field; a negative value is written as its 64-bit two's complement. */
  function NumberPart(tag: byte, v: Option<int>): bytes
    requires v.Some? ==> v.value + 0x1_0000_0000_0000_0000 > 0
  {
    if v == None then [] else [tag] + Varint(if v.value < 0 then v.value + 0x1_0000_0000_0000_0000 else v.value)
  }

  /** A string or bytes field: its length and its bytes. */
  function TextPart(tag: byte, v: Option<bytes>): bytes {
    if v == None then [] else [tag] + Varint(|v.value|) + v.value
  }

  /** A registry entry: type, identifier, method and proxy guid. */
  function EntryLayout(e: Entry): bytes
    requires e.kind != None ==> e.kind.value == 1
  {
    NumberPart(8, e.kind) + TextPart(18, e.identifier) + TextPart(26, e.methodGuid) + TextPart(34, e.proxyGuid)
    + EncodeFields(e.unknown)
  }

  function EntriesLayout(es: seq<Entry>): bytes
    requires forall i :: 0 <= i < |es| ==> EntryOk(es[i])
  {
    if es == [] then [] else
      assert EntryOk(es[0]);
      [90] + Varint(|EntryLayout(es[0])|) + EntryLayout(es[0]) + EntriesLayout(es[1..])
  }

  function TextsLayout(m: Command): bytes {
    TextPart(18, m.sourceProxyGuid) + TextPart(26, m.payload) + TextPart(34, m.targetProxyGuid)
    + TextPart(42, m.identifier) + TextPart(50, m.guidFrom) + TextPart(58, m.guidTo)
  }

  function NumbersLayout(m: Command): bytes
    requires CommandOk(m)
  {
    NumberPart(64, m.recursion) + NumberPart(72, m.startTime) + NumberPart(80, m.timeoutMs)
  }

  function Layout(m: Command): bytes
    requires CommandOk(m)
  {
    NumberPart(8, m.cmd) + TextsLayout(m) + NumbersLayout(m) + EntriesLayout(m.regEntries) + EncodeFields(m.unknown)
  }

  lemma OneField(f: Field)
    ensures EncodeFields([f]) == EncodeField(f) && EncodeFields([]) == []
  {
    EncodeFieldsCons([f]);
    assert [f][1..] == [] && EncodeFields([]) == [];
  }

  lemma NumberLayout(num: nat, v: Option<int>, tag: byte)
    requires tag == 8 * num < 128 && (v.Some? ==> -0x8000_0000 <= v.value < 0x1_0000_0000)
    ensures EncodeFields(IntField(num, v)) == NumberPart(tag, v)
  {
    if v.Some? {
      OneField(VarintField(num, SignExtend(v.value)));
    }
  }

  lemma TextLayout(num: nat, v: Option<bytes>, tag: byte)
    requires tag == 8 * num + 2 < 128
    ensures EncodeFields(DataField(num, v)) == TextPart(tag, v)
  {
    if v.Some? {
      OneField(BytesField(num, v.value));
      DataLayout(num, v.value, tag);
    }
  }

  lemma DataLayout(num: nat, d: bytes, tag: byte)
    requires tag == 8 * num + 2 < 128
    ensures EncodeField(BytesField(num, d)) == [tag] + Varint(|d|) + d
  {
    TagIs(tag);
    Payload(num, d, tag, Varint(|d|));
  }

  lemma Payload(num: nat, d: bytes, tag: nat, size: bytes)
    requires tag == 8 * num + 2 && size == Varint(|d|)
    ensures EncodeField(BytesField(num, d)) == Varint(tag) + size + d
  {
    Regroup(Varint(tag), size, d);
  }

  lemma TagIs(tag: byte)
    requires tag < 128
    ensures Varint(tag) == [tag]
  {
  }

  lemma EntryLaidOut(e: Entry)
    requires EntryOk(e)
    ensures SerializeEntry(e) == EntryLayout(e)
  {
    var a, b, c, d := IntField(1, e.kind), DataField(2, e.identifier), DataField(3, e.methodGuid), DataField(4, e.proxyGuid);
    NumberLayout(1, e.kind, 8);
    TextLayout(2, e.identifier, 18);
    TextLayout(3, e.methodGuid, 26);
    TextLayout(4, e.proxyGuid, 34);
    EncodeFieldsAppend(a, b);
    EncodeFieldsAppend(a + b, c);
    EncodeFieldsAppend(a + b + c, d);
    EncodeFieldsAppend(a + b + c + d, e.unknown);
  }

  lemma {:induction false} EntriesLaidOut(es: seq<Entry>)
    requires forall i :: 0 <= i < |es| ==> EntryOk(es[i])
    ensures EncodeFields(EntryFields(es)) == EntriesLayout(es)
  {
    if es != [] {
      assert EntryOk(es[0]);
      FirstEntry(es);
      EntryLaidOut(es[0]);
      EntriesLaidOut(es[1..]);
    }
  }

  lemma EntryFieldsCons(es: seq<Entry>)
    requires es != []
    ensures EntryFields(es)[0] == BytesField(11, SerializeEntry(es[0])) && EntryFields(es)[1..] == EntryFields(es[1..])
  {
    var fs, more := EntryFields(es)[1..], EntryFields(es[1..]);
    forall i | 0 <= i < |more| ensures fs[i] == more[i] {
      assert es[1..][i] == es[i + 1];
    }
  }

  lemma FirstEntry(es: seq<Entry>)
    requires es != []
    ensures var s := SerializeEntry(es[0]);
            EncodeFields(EntryFields(es)) == [90] + Varint(|s|) + s + EncodeFields(EntryFields(es[1..]))
  {
    EntryFieldsCons(es);
    EncodeFieldsCons(EntryFields(es));
    DataLayout(11, SerializeEntry(es[0]), 90);
  }

  lemma TextsLaidOut(m: Command)
    ensures EncodeFields(Texts(m)) == TextsLayout(m)
  {
    var a, b, c := DataField(2, m.sourceProxyGuid), DataField(3, m.payload), DataField(4, m.targetProxyGuid);
    var d, e, f := DataField(5, m.identifier), DataField(6, m.guidFrom), DataField(7, m.guidTo);
    TextLayout(2, m.sourceProxyGuid, 18);
    TextLayout(3, m.payload, 26);
    TextLayout(4, m.targetProxyGuid, 34);
    TextLayout(5, m.identifier, 42);
    TextLayout(6, m.guidFrom, 50);
    TextLayout(7, m.guidTo, 58);
    EncodeFieldsAppend(a, b);
    EncodeFieldsAppend(a + b, c);
    EncodeFieldsAppend(a + b + c, d);
    EncodeFieldsAppend(a + b + c + d, e);
    EncodeFieldsAppend(a + b + c + d + e, f);
  }

  lemma NumbersLaidOut(m: Command)
    requires CommandOk(m)
    ensures EncodeFields(Numbers(m)) == NumbersLayout(m)
  {
    var a, b, c := IntField(8, m.recursion), IntField(9, m.startTime), IntField(10, m.timeoutMs);
    NumberLayout(8, m.recursion, 64);
    NumberLayout(9, m.startTime, 72);
    NumberLayout(10, m.timeoutMs, 80);
    EncodeFieldsAppend(a, b);
    EncodeFieldsAppend(a + b, c);
  }

  /** A serialized command is laid out as the schema says. */
  lemma LaidOut(m: Command)
    requires CommandOk(m)
    ensures Serialize(m) == Layout(m)
  {
    var a, b, c, d := IntField(1, m.cmd), Texts(m), Numbers(m), EntryFields(m.regEntries);
    NumberLayout(1, m.cmd, 8);
    TextsLaidOut(m);
    NumbersLaidOut(m);
    EntriesLaidOut(m.regEntries);
    EncodeFieldsAppend(a, b);
    EncodeFieldsAppend(a + b, c);
    EncodeFieldsAppend(a + b + c, d);
    EncodeFieldsAppend(a + b + c + d, m.unknown);
  }

  /** The wire types: varint, eight bytes, length-delimited, four bytes. */
  lemma WireTypes(f: Field)
    ensures EncodeField(f) ==
            match f
            case VarintField(num, v) => Varint(8 * num) + Varint(v)
            case Fixed64Field(num, d) => Varint(8 * num + 1) + d
            case BytesField(num, d) => Varint(8 * num + 2) + (Varint(|d|) + d)
            case Fixed32Field(num, d) => Varint(8 * num + 5) + d
  {
  }
}
