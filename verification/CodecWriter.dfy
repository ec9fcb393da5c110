/** Writing and sizing commands field by field, as the generated code of command.pb.cc does. */
module CodecWriter {
  import opened Bytes
  import opened Wire
  import opened Codec
  import opened CodecRoundTrip

  // ------------------------------------------------------------ serialization

  /** Writes a numeric field if it is set; `done` are the fields written so far. */
  method WriteNumber(target: bytes, num: nat, v: Option<int>, ghost done: seq<Field>) returns (target': bytes)
    requires target == EncodeFields(done)
    ensures target' == EncodeFields(done + IntField(num, v))
  {
    EncodeFieldsAppend(done, IntField(num, v));
    if v.Some? {
      target' := target + EncodeField(VarintField(num, SignExtend(v.value)));
      Single(VarintField(num, SignExtend(v.value)));
    } else {
      target' := target;
      assert EncodeFields([]) == [];
    }
  }

  method WriteText(target: bytes, num: nat, v: Option<bytes>, ghost done: seq<Field>) returns (target': bytes)
    requires target == EncodeFields(done)
    ensures target' == EncodeFields(done + DataField(num, v))
  {
    EncodeFieldsAppend(done, DataField(num, v));
    if v.Some? {
      target' := target + EncodeField(BytesField(num, v.value));
      Single(BytesField(num, v.value));
    } else {
      target' := target;
      assert EncodeFields([]) == [];
    }
  }

  lemma Single(f: Field)
    ensures EncodeFields([f]) == EncodeField(f)
  {
    EncodeFieldsCons([f]);
    assert [f][1..] == [] && EncodeFields([]) == [];
  }

  method WriteField(target: bytes, f: Field, ghost done: seq<Field>) returns (target': bytes)
    requires target == EncodeFields(done)
    ensures target' == EncodeFields(done + [f])
  {
    EncodeFieldsAppend(done, [f]);
    Single(f);
    target' := target + EncodeField(f);
  }

  method WriteFields(target: bytes, fs: seq<Field>, ghost done: seq<Field>) returns (target': bytes)
    requires target == EncodeFields(done)
    ensures target' == EncodeFields(done + fs)
  {
    target' := target;
    assert done + fs[..0] == done;
    for i := 0 to |fs|
      invariant target' == EncodeFields(done + fs[..i])
    {
      OneMore(done, fs, i);
      target' := WriteField(target', fs[i], done + fs[..i]);
    }
    assert fs[..|fs|] == fs;
  }

  /** Command_RegistryEntry::SerializeWithCachedSizesToArray. */
  method SerializeEntryToArray(e: Entry) returns (target: bytes)
    ensures target == SerializeEntry(e)
  {
    ghost var done := IntField(1, e.kind);
    assert EncodeFields([]) == [] && [] + done == done;
    target := WriteNumber([], 1, e.kind, []);
    target := WriteText(target, 2, e.identifier, done);
    done := done + DataField(2, e.identifier);
    target := WriteText(target, 3, e.methodGuid, done);
    done := done + DataField(3, e.methodGuid);
    target := WriteText(target, 4, e.proxyGuid, done);
    done := done + DataField(4, e.proxyGuid);
    target := WriteFields(target, e.unknown, done);
  }

  /** A registry entry of a command. */
  method WriteEntry(target: bytes, e: Entry, ghost done: seq<Field>) returns (target': bytes)
    requires target == EncodeFields(done)
    ensures target' == EncodeFields(done + [BytesField(11, SerializeEntry(e))])
  {
    var entry := SerializeEntryToArray(e);
    target' := WriteField(target, BytesField(11, entry), done);
  }

  lemma OneMore(done: seq<Field>, fs: seq<Field>, i: nat)
    requires i < |fs|
    ensures done + fs[..i + 1] == done + fs[..i] + [fs[i]]
    ensures |EncodeFields(fs[..i + 1])| == |EncodeFields(fs[..i])| + |EncodeField(fs[i])|
  {
    assert fs[..i + 1] == fs[..i] + [fs[i]];
    EncodeFieldsAppend(fs[..i], [fs[i]]);
    Single(fs[i]);
  }

  method WriteEntries(target: bytes, es: seq<Entry>, ghost done: seq<Field>) returns (target': bytes)
    requires target == EncodeFields(done)
    ensures target' == EncodeFields(done + EntryFields(es))
  {
    target' := target;
    ghost var fs := EntryFields(es);
    assert done + fs[..0] == done;
    for i := 0 to |es|
      invariant target' == EncodeFields(done + fs[..i])
    {
      OneMore(done, fs, i);
      target' := WriteEntry(target', es[i], done + fs[..i]);
    }
    assert fs[..|es|] == fs;
  }

  lemma Regroup6(done: seq<Field>, a: seq<Field>, b: seq<Field>, c: seq<Field>, d: seq<Field>, e: seq<Field>, f: seq<Field>)
    ensures done + a + b + c + d + e + f == done + (a + b + c + d + e + f)
    ensures done + a + b + c == done + (a + b + c)
  {
  }

  method WriteTexts(target: bytes, m: Command, ghost done: seq<Field>) returns (target': bytes)
    requires target == EncodeFields(done)
    ensures target' == EncodeFields(done + Texts(m))
  {
    ghost var now := done + DataField(2, m.sourceProxyGuid);
    target' := WriteText(target, 2, m.sourceProxyGuid, done);
    target' := WriteText(target', 3, m.payload, now);
    now := now + DataField(3, m.payload);
    target' := WriteText(target', 4, m.targetProxyGuid, now);
    now := now + DataField(4, m.targetProxyGuid);
    target' := WriteText(target', 5, m.identifier, now);
    now := now + DataField(5, m.identifier);
    target' := WriteText(target', 6, m.guidFrom, now);
    now := now + DataField(6, m.guidFrom);
    target' := WriteText(target', 7, m.guidTo, now);
    Regroup6(done, DataField(2, m.sourceProxyGuid), DataField(3, m.payload), DataField(4, m.targetProxyGuid),
             DataField(5, m.identifier), DataField(6, m.guidFrom), DataField(7, m.guidTo));
  }

  method WriteNumbers(target: bytes, m: Command, ghost done: seq<Field>) returns (target': bytes)
    requires target == EncodeFields(done)
    ensures target' == EncodeFields(done + Numbers(m))
  {
    ghost var now := done + IntField(8, m.recursion);
    target' := WriteNumber(target, 8, m.recursion, done);
    target' := WriteNumber(target', 9, m.startTime, now);
    now := now + IntField(9, m.startTime);
    target' := WriteNumber(target', 10, m.timeoutMs, now);
    Regroup6(done, IntField(8, m.recursion), IntField(9, m.startTime), IntField(10, m.timeoutMs), [], [], []);
  }

  /** Command::SerializeWithCachedSizesToArray: field after field, in the order of their numbers. */
  method SerializeToArray(m: Command) returns (target: bytes)
    ensures target == Serialize(m)
  {
    ghost var done := IntField(1, m.cmd);
    assert EncodeFields([]) == [] && [] + done == done;
    target := WriteNumber([], 1, m.cmd, []);
    target := WriteTexts(target, m, done);
    done := done + Texts(m);
    target := WriteNumbers(target, m, done);
    done := done + Numbers(m);
    target := WriteEntries(target, m.regEntries, done);
    done := done + EntryFields(m.regEntries);
    target := WriteFields(target, m.unknown, done);
  }

  // ------------------------------------------------------------ sizes

  /** A field's size: its tag and its payload, computed without writing it. */
  method FieldSize(f: Field) returns (n: nat)
    requires ValidField(f)
    ensures n == |EncodeField(f)|
  {
    n := VarintSize(f.num * 8 + WireType(f));
    match f {
      case VarintField(_, v) =>
        var k := VarintSize(v);
        n := n + k;
      case BytesField(_, d) =>
        var k := VarintSize(|d|);
        n := n + k + |d|;
      case Fixed64Field(_, _) => n := n + 8;
      case Fixed32Field(_, _) => n := n + 4;
    }
  }

  method SizeOf(fs: seq<Field>) returns (total: nat)
    requires AllValid(fs)
    ensures total == |EncodeFields(fs)|
  {
    total := 0;
    assert fs[..0] == [] && EncodeFields([]) == [];
    for i := 0 to |fs|
      invariant total == |EncodeFields(fs[..i])|
    {
      OneMore([], fs, i);
      var n := FieldSize(fs[i]);
      total := total + n;
    }
    assert fs[..|fs|] == fs;
  }

  /** The length and the bytes of an entry, without its tag. */
  method EntrySize(e: Entry) returns (n: nat)
    requires EntryOk(e)
    ensures n + 1 == |EncodeField(BytesField(11, SerializeEntry(e)))|
  {
    EntryFieldsValid(e);
    var size := SizeOf(EntryKnown(e) + e.unknown);
    var k := VarintSize(size);
    EntryFieldSize(SerializeEntry(e));
    n := k + size;
  }

  /** The registry entries of a command: a tag byte each, then the length and the entry. */
  method EntriesSize(es: seq<Entry>) returns (total: nat)
    requires forall i :: 0 <= i < |es| ==> EntryOk(es[i])
    ensures total == |EncodeFields(EntryFields(es))|
  {
    total := |es|;
    ghost var fs := EntryFields(es);
    assert fs[..0] == [] && EncodeFields([]) == [];
    for i := 0 to |es|
      invariant total == |EncodeFields(fs[..i])| + (|es| - i)
    {
      OneMore([], fs, i);
      var n := EntrySize(es[i]);
      total := total + n;
    }
    assert fs[..|es|] == fs;
  }

  lemma EntryFieldSize(d: bytes)
    ensures |EncodeField(BytesField(11, d))| == 1 + |Varint(|d|)| + |d|
  {
    assert Varint(90) == [90];
  }

  /** Command::ByteSize: exactly the bytes serialization writes. */
  method ByteSize(m: Command) returns (total: nat)
    requires CommandOk(m)
    ensures total == |Serialize(m)|
  {
    var head := IntField(1, m.cmd) + Texts(m) + Numbers(m);
    FieldsValid(m);
    assert forall i :: 0 <= i < |head| ==> head[i] == Fields(m)[i];
    total := SizeOf(head);
    var entries := EntriesSize(m.regEntries);
    assert AllValid(m.unknown) by {
      forall i | 0 <= i < |m.unknown| ensures ValidField(m.unknown[i]) {
        assert UnknownToCommand(m.unknown[i]);
      }
    }
    var unknown := SizeOf(m.unknown);
    EncodeFieldsAppend(head, EntryFields(m.regEntries));
    EncodeFieldsAppend(head + EntryFields(m.regEntries), m.unknown);
    total := total + entries + unknown;
  }
}
