/** Serialization, sizes and merging of commands, and the proof that parsing undoes serialization. */
module CodecRoundTrip {
  import opened Bytes
  import opened Wire
  import opened Codec

  // ------------------------------------------------------------ fields in serialization order

  function IntField(num: nat, v: Option<int>): seq<Field> {
    if v.None? then [] else [VarintField(num, SignExtend(v.value))]
  }

  function DataField(num: nat, v: Option<bytes>): seq<Field> {
    if v.None? then [] else [BytesField(num, v.value)]
  }

  predicate Int32(v: Option<int>) {
    v.Some? ==> -TWO_31 <= v.value < TWO_31
  }

  predicate Short(v: Option<bytes>) {
    v.Some? ==> |v.value| < TWO_31
  }

  /** A field the schema of an entry does not interpret, so that it stays unknown. */
  predicate UnknownToEntry(f: Field) {
    && ValidField(f)
    && !(f.BytesField? && 2 <= f.num <= 4)
    && (f.VarintField? && f.num == 1 ==>
          ToInt32(f.value) != 1 && f.value == SignExtend(ToInt32(f.value)))
  }

  predicate UnknownToCommand(f: Field) {
    && ValidField(f)
    && !(f.BytesField? && (2 <= f.num <= 7 || f.num == 11))
    && !(f.VarintField? && 8 <= f.num <= 10)
    && (f.VarintField? && f.num == 1 ==>
          !(1 <= ToInt32(f.value) <= 14) && f.value == SignExtend(ToInt32(f.value)))
  }

  /** Entries the generated class can hold, small enough to be length-delimited. */
  predicate EntryOk(e: Entry) {
    && (e.kind.Some? ==> e.kind.value == 1)
    && Short(e.identifier) && Short(e.methodGuid) && Short(e.proxyGuid)
    && (forall i :: 0 <= i < |e.unknown| ==> UnknownToEntry(e.unknown[i]))
    && |SerializeEntry(e)| < TWO_31
  }

  predicate CommandOk(m: Command) {
    && (m.cmd.Some? ==> 1 <= m.cmd.value <= 14)
    && Short(m.sourceProxyGuid) && Short(m.payload) && Short(m.targetProxyGuid)
    && Short(m.identifier) && Short(m.guidFrom) && Short(m.guidTo)
    && Int32(m.recursion) && Int32(m.timeoutMs)
    && (m.startTime.Some? ==> 0 <= m.startTime.value < TWO_32)
    && (forall i :: 0 <= i < |m.regEntries| ==> EntryOk(m.regEntries[i]))
    && (forall i :: 0 <= i < |m.unknown| ==> UnknownToCommand(m.unknown[i]))
  }

  function EntryKnown(e: Entry): seq<Field> {
    IntField(1, e.kind) + DataField(2, e.identifier) + DataField(3, e.methodGuid) + DataField(4, e.proxyGuid)
  }

  function SerializeEntry(e: Entry): bytes {
    EncodeFields(EntryKnown(e) + e.unknown)
  }

  function Texts(m: Command): seq<Field> {
    DataField(2, m.sourceProxyGuid) + DataField(3, m.payload) + DataField(4, m.targetProxyGuid)
    + DataField(5, m.identifier) + DataField(6, m.guidFrom) + DataField(7, m.guidTo)
  }

  function Numbers(m: Command): seq<Field> {
    IntField(8, m.recursion) + IntField(9, m.startTime) + IntField(10, m.timeoutMs)
  }

  function EntryFields(es: seq<Entry>): (fs: seq<Field>)
    ensures |fs| == |es|
  {
    seq(|es|, i requires 0 <= i < |es| => BytesField(11, SerializeEntry(es[i])))
  }

  function Fields(m: Command): seq<Field> {
    IntField(1, m.cmd) + Texts(m) + Numbers(m) + EntryFields(m.regEntries) + m.unknown
  }

  /** The bytes SerializeWithCachedSizesToArray is to write. */
  function Serialize(m: Command): bytes {
    EncodeFields(Fields(m))
  }

  // ------------------------------------------------------------ merging

  function Or<T>(a: Option<T>, b: Option<T>): Option<T> {
    if a.Some? then a else b
  }

  /** MergeFrom: fields that are set in b win, repeated and unknown fields are appended. */
  function Merge(a: Command, b: Command): Command {
    Command(Or(b.cmd, a.cmd), Or(b.sourceProxyGuid, a.sourceProxyGuid), Or(b.payload, a.payload),
            Or(b.targetProxyGuid, a.targetProxyGuid), Or(b.identifier, a.identifier),
            Or(b.guidFrom, a.guidFrom), Or(b.guidTo, a.guidTo), Or(b.recursion, a.recursion),
            Or(b.startTime, a.startTime), Or(b.timeoutMs, a.timeoutMs),
            a.regEntries + b.regEntries, a.unknown + b.unknown)
  }

  // ------------------------------------------------------------ parsing a list of fields

  function ApplyEntries(e: Entry, fs: seq<Field>): Entry
    decreases |fs|
  {
    if fs == [] then e else ApplyEntries(ApplyEntry(e, fs[0]), fs[1..])
  }

  lemma {:induction false} ParseEntryFields(fs: seq<Field>, e: Entry)
    requires AllValid(fs)
    ensures ParseEntry(EncodeFields(fs), e) == Some(ApplyEntries(e, fs))
  {
    if fs != [] {
      EncodeFieldsCons(fs);
      DecodeFieldInverse(fs[0], EncodeFields(fs[1..]));
      ParseEntryFields(fs[1..], ApplyEntry(e, fs[0]));
      NotEmpty(fs[0], EncodeFields(fs[1..]));
    }
  }

  lemma NotEmpty(f: Field, rest: bytes)
    ensures EncodeField(f) + rest != []
  {
    assert |EncodeField(f)| > 0;
  }

  function ApplyAll(m: Command, fs: seq<Field>): Option<Command>
    decreases |fs|
  {
    if fs == [] then Some(m)
    else match Apply(m, fs[0])
      case None => None
      case Some(m') => ApplyAll(m', fs[1..])
  }

  /** Parsing a serialization is applying its fields one after the other. */
  lemma {:induction false} ParseFields(fs: seq<Field>, m: Command, rest: bytes)
    requires AllValid(fs)
    ensures ParseOnto(EncodeFields(fs) + rest, m) ==
            match ApplyAll(m, fs) case None => None case Some(m') => ParseOnto(rest, m')
  {
    if fs == [] {
      assert EncodeFields(fs) + rest == rest;
    } else {
      var tail := EncodeFields(fs[1..]) + rest;
      EncodeFieldsCons(fs);
      Regroup(EncodeField(fs[0]), EncodeFields(fs[1..]), rest);
      DecodeFieldInverse(fs[0], tail);
      NotEmpty(fs[0], tail);
      match Apply(m, fs[0])
      case None =>
      case Some(m') => ParseFields(fs[1..], m', rest);
    }
  }

  lemma {:induction false} ApplyAllAppend(m: Command, a: seq<Field>, b: seq<Field>)
    ensures ApplyAll(m, a + b) == match ApplyAll(m, a) case None => None case Some(m') => ApplyAll(m', b)
    decreases |a|
  {
    if a == [] {
      assert a + b == b;
    } else {
      assert (a + b)[0] == a[0] && (a + b)[1..] == a[1..] + b;
      match Apply(m, a[0])
      case None =>
      case Some(m') => ApplyAllAppend(m', a[1..], b);
    }
  }

  // ------------------------------------------------------------ what the fields of a message do

  lemma {:induction false} ApplyEntriesAppend(e: Entry, a: seq<Field>, b: seq<Field>)
    ensures ApplyEntries(e, a + b) == ApplyEntries(ApplyEntries(e, a), b)
    decreases |a|
  {
    if a == [] {
      assert a + b == b;
    } else {
      assert (a + b)[0] == a[0] && (a + b)[1..] == a[1..] + b;
      ApplyEntriesAppend(ApplyEntry(e, a[0]), a[1..], b);
    }
  }

  lemma {:induction false} UnknownEntryFields(e: Entry, fs: seq<Field>)
    requires forall i :: 0 <= i < |fs| ==> UnknownToEntry(fs[i])
    ensures ApplyEntries(e, fs) == e.(unknown := e.unknown + fs)
    decreases |fs|
  {
    if fs == [] {
      assert e.unknown + fs == e.unknown;
    } else {
      assert UnknownToEntry(fs[0]);
      UnknownEntryFields(e.(unknown := e.unknown + [fs[0]]), fs[1..]);
      assert e.unknown + [fs[0]] + fs[1..] == e.unknown + fs;
    }
  }

  /** One more optional field of an entry. */
  lemma EntryStep(e0: Entry, prefix: seq<Field>, e: Entry, chunk: seq<Field>)
    requires ApplyEntries(e0, prefix) == e && |chunk| <= 1
    ensures ApplyEntries(e0, prefix + chunk) == if chunk == [] then e else ApplyEntry(e, chunk[0])
  {
    ApplyEntriesAppend(e0, prefix, chunk);
    if chunk != [] {
      assert chunk[1..] == [];
    }
  }

  /** The known fields of an entry, applied to an empty one, give it back. */
  lemma KnownEntryFields(e: Entry)
    requires e.kind.Some? ==> e.kind.value == 1
    ensures ApplyEntries(NO_ENTRY, EntryKnown(e)) == e.(unknown := [])
  {
    var b := IntField(1, e.kind) + DataField(2, e.identifier);
    var c := b + DataField(3, e.methodGuid);
    var e2 := Entry(e.kind, e.identifier, None, None, []);
    var e3 := e2.(methodGuid := e.methodGuid);
    FirstEntryFields(e);
    EntryStep(NO_ENTRY, b, e2, DataField(3, e.methodGuid));
    assert ApplyEntries(NO_ENTRY, c) == e3;
    EntryStep(NO_ENTRY, c, e3, DataField(4, e.proxyGuid));
  }

  lemma FirstEntryFields(e: Entry)
    requires e.kind.Some? ==> e.kind.value == 1
    ensures ApplyEntries(NO_ENTRY, IntField(1, e.kind) + DataField(2, e.identifier)) ==
              Entry(e.kind, e.identifier, None, None, [])
  {
    var a := IntField(1, e.kind);
    var e1 := Entry(e.kind, None, None, None, []);
    assert [] + a == a;
    EntryStep(NO_ENTRY, [], NO_ENTRY, a);
    assert ApplyEntries(NO_ENTRY, a) == e1;
    EntryStep(NO_ENTRY, a, e1, DataField(2, e.identifier));
  }

  lemma EntryFieldsValid(e: Entry)
    requires EntryOk(e)
    ensures AllValid(EntryKnown(e) + e.unknown)
  {
  }

  /** An entry comes back as it was written. */
  lemma EntryRoundTrip(e: Entry)
    requires EntryOk(e)
    ensures ParseEntry(SerializeEntry(e), NO_ENTRY) == Some(e)
  {
    EntryFieldsValid(e);
    ParseEntryFields(EntryKnown(e) + e.unknown, NO_ENTRY);
    ApplyEntriesAppend(NO_ENTRY, EntryKnown(e), e.unknown);
    KnownEntryFields(e);
    UnknownEntryFields(e.(unknown := []), e.unknown);
    assert [] + e.unknown == e.unknown;
  }

  /** One more chunk of fields. */
  lemma Then(m0: Command, prefix: seq<Field>, m: Command, chunk: seq<Field>)
    requires ApplyAll(m0, prefix) == Some(m)
    ensures ApplyAll(m0, prefix + chunk) == ApplyAll(m, chunk)
  {
    ApplyAllAppend(m0, prefix, chunk);
  }

  function SetText(m: Command, num: nat, v: Option<bytes>): Command
    requires 2 <= num <= 7
  {
    if num == 2 then m.(sourceProxyGuid := Or(v, m.sourceProxyGuid))
    else if num == 3 then m.(payload := Or(v, m.payload))
    else if num == 4 then m.(targetProxyGuid := Or(v, m.targetProxyGuid))
    else if num == 5 then m.(identifier := Or(v, m.identifier))
    else if num == 6 then m.(guidFrom := Or(v, m.guidFrom))
    else m.(guidTo := Or(v, m.guidTo))
  }

  lemma ApplyText(m: Command, num: nat, v: Option<bytes>)
    requires 2 <= num <= 7
    ensures ApplyAll(m, DataField(num, v)) == Some(SetText(m, num, v))
  {
    if v.Some? {
      assert DataField(num, v)[1..] == [];
    }
  }

  function SetTexts(m: Command, a: Command): Command {
    SetText(SetText(SetText(SetText(SetText(SetText(m, 2, a.sourceProxyGuid), 3, a.payload), 4, a.targetProxyGuid),
                            5, a.identifier), 6, a.guidFrom), 7, a.guidTo)
  }

  lemma ApplyTexts(m: Command, a: Command)
    ensures ApplyAll(m, Texts(a)) == Some(SetTexts(m, a))
  {
    var b := DataField(2, a.sourceProxyGuid);
    var c := b + DataField(3, a.payload);
    var d := c + DataField(4, a.targetProxyGuid);
    var m2 := SetText(m, 2, a.sourceProxyGuid);
    var m3 := SetText(m2, 3, a.payload);
    var m4 := SetText(m3, 4, a.targetProxyGuid);
    ApplyText(m, 2, a.sourceProxyGuid);
    Then(m, b, m2, DataField(3, a.payload));
    ApplyText(m2, 3, a.payload);
    Then(m, c, m3, DataField(4, a.targetProxyGuid));
    ApplyText(m3, 4, a.targetProxyGuid);
    ApplyLaterTexts(m, d, m4, a);
  }

  lemma ApplyLaterTexts(m: Command, d: seq<Field>, m4: Command, a: Command)
    requires ApplyAll(m, d) == Some(m4)
    ensures ApplyAll(m, d + DataField(5, a.identifier) + DataField(6, a.guidFrom) + DataField(7, a.guidTo)) ==
            Some(SetText(SetText(SetText(m4, 5, a.identifier), 6, a.guidFrom), 7, a.guidTo))
  {
    var e := d + DataField(5, a.identifier);
    var f := e + DataField(6, a.guidFrom);
    var m5 := SetText(m4, 5, a.identifier);
    var m6 := SetText(m5, 6, a.guidFrom);
    Then(m, d, m4, DataField(5, a.identifier));
    ApplyText(m4, 5, a.identifier);
    Then(m, e, m5, DataField(6, a.guidFrom));
    ApplyText(m5, 6, a.guidFrom);
    Then(m, f, m6, DataField(7, a.guidTo));
    ApplyText(m6, 7, a.guidTo);
  }

  function SetNumber(m: Command, num: nat, v: Option<int>): Command
    requires num == 1 || 8 <= num <= 10
  {
    if num == 1 then m.(cmd := Or(v, m.cmd))
    else if num == 8 then m.(recursion := Or(v, m.recursion))
    else if num == 9 then m.(startTime := Or(v, m.startTime))
    else m.(timeoutMs := Or(v, m.timeoutMs))
  }

  /** The values a numeric field of the schema can hold. */
  predicate NumberOk(num: nat, v: Option<int>) {
    v.Some? ==>
      if num == 1 then 1 <= v.value <= 14
      else if num == 9 then 0 <= v.value < TWO_32
      else -TWO_31 <= v.value < TWO_31
  }

  lemma ApplyNumber(m: Command, num: nat, v: Option<int>)
    requires (num == 1 || 8 <= num <= 10) && NumberOk(num, v)
    ensures ApplyAll(m, IntField(num, v)) == Some(SetNumber(m, num, v))
  {
    if v.Some? {
      assert IntField(num, v)[1..] == [];
      if num != 9 {
        Int32RoundTrip(v.value);
      }
    }
  }

  lemma ApplyNumbers(m: Command, a: Command)
    requires CommandOk(a)
    ensures ApplyAll(m, Numbers(a)) ==
            Some(SetNumber(SetNumber(SetNumber(m, 8, a.recursion), 9, a.startTime), 10, a.timeoutMs))
  {
    var b := IntField(8, a.recursion);
    var c := b + IntField(9, a.startTime);
    var m2 := SetNumber(m, 8, a.recursion);
    var m3 := SetNumber(m2, 9, a.startTime);
    ApplyNumber(m, 8, a.recursion);
    Then(m, b, m2, IntField(9, a.startTime));
    ApplyNumber(m2, 9, a.startTime);
    Then(m, c, m3, IntField(10, a.timeoutMs));
    ApplyNumber(m3, 10, a.timeoutMs);
  }

  /** The field carries exactly this entry. */
  ghost predicate Carries(f: Field, e: Entry) {
    f.BytesField? && f.num == 11 && ParseEntry(f.data, NO_ENTRY) == Some(e)
  }

  function WithEntries(m: Command, es: seq<Entry>): Command {
    m.(regEntries := m.regEntries + es)
  }

  lemma ApplyCarrier(m: Command, fs: seq<Field>, e: Entry)
    requires fs != [] && Carries(fs[0], e)
    ensures ApplyAll(m, fs) == ApplyAll(WithEntries(m, [e]), fs[1..])
  {
  }

  lemma {:induction false} ApplyCarriers(m: Command, fs: seq<Field>, es: seq<Entry>)
    requires |fs| == |es| && forall i :: 0 <= i < |es| ==> Carries(fs[i], es[i])
    ensures ApplyAll(m, fs) == Some(WithEntries(m, es))
    decreases |es|
  {
    if es == [] {
      assert m.regEntries + es == m.regEntries;
    } else {
      ApplyCarrier(m, fs, es[0]);
      ApplyCarriers(WithEntries(m, [es[0]]), fs[1..], es[1..]);
      MoreEntries(m, es);
    }
  }

  lemma MoreEntries(m: Command, es: seq<Entry>)
    requires es != []
    ensures WithEntries(WithEntries(m, [es[0]]), es[1..]) == WithEntries(m, es)
  {
    assert m.regEntries + [es[0]] + es[1..] == m.regEntries + es;
  }

  lemma ApplyEntryFields(m: Command, es: seq<Entry>)
    requires forall i :: 0 <= i < |es| ==> EntryOk(es[i])
    ensures ApplyAll(m, EntryFields(es)) == Some(WithEntries(m, es))
  {
    var fs := EntryFields(es);
    forall i | 0 <= i < |es| ensures Carries(fs[i], es[i]) {
      EntryRoundTrip(es[i]);
    }
    ApplyCarriers(m, fs, es);
  }

  lemma {:induction false} ApplyUnknown(m: Command, fs: seq<Field>)
    requires forall i :: 0 <= i < |fs| ==> UnknownToCommand(fs[i])
    ensures ApplyAll(m, fs) == Some(m.(unknown := m.unknown + fs))
    decreases |fs|
  {
    if fs == [] {
      assert m.unknown + fs == m.unknown;
    } else {
      assert UnknownToCommand(fs[0]);
      ApplyUnknown(m.(unknown := m.unknown + [fs[0]]), fs[1..]);
      assert m.unknown + [fs[0]] + fs[1..] == m.unknown + fs;
    }
  }

  /** The fields of a, applied to m in serialization order, merge a into m. */
  lemma FieldsMerge(m: Command, a: Command)
    requires CommandOk(a)
    ensures ApplyAll(m, Fields(a)) == Some(Merge(m, a))
  {
    var h := IntField(1, a.cmd);
    var m1 := SetNumber(m, 1, a.cmd);
    ApplyNumber(m, 1, a.cmd);
    Then(m, h, m1, Texts(a));
    ApplyTexts(m1, a);
    var m2 := SetTexts(m1, a);
    Then(m, h + Texts(a), m2, Numbers(a));
    ApplyNumbers(m2, a);
    var m3 := SetNumber(SetNumber(SetNumber(m2, 8, a.recursion), 9, a.startTime), 10, a.timeoutMs);
    RepeatedFieldsMerge(m, h + Texts(a) + Numbers(a), m3, a);
  }

  lemma RepeatedFieldsMerge(m: Command, prefix: seq<Field>, m3: Command, a: Command)
    requires CommandOk(a) && ApplyAll(m, prefix) == Some(m3)
    ensures ApplyAll(m, prefix + EntryFields(a.regEntries) + a.unknown) ==
            Some(m3.(regEntries := m3.regEntries + a.regEntries, unknown := m3.unknown + a.unknown))
  {
    var m4 := m3.(regEntries := m3.regEntries + a.regEntries);
    Then(m, prefix, m3, EntryFields(a.regEntries));
    ApplyEntryFields(m3, a.regEntries);
    Then(m, prefix + EntryFields(a.regEntries), m4, a.unknown);
    ApplyUnknown(m4, a.unknown);
  }

  predicate AllValid(fs: seq<Field>) {
    forall i :: 0 <= i < |fs| ==> ValidField(fs[i])
  }

  lemma FieldsValid(a: Command)
    requires CommandOk(a)
    ensures AllValid(Fields(a))
  {
    assert AllValid(IntField(1, a.cmd));
    TextsValid(a);
    assert AllValid(Numbers(a));
    RestValid(a);
    AllValidTogether(IntField(1, a.cmd), Texts(a), Numbers(a), EntryFields(a.regEntries), a.unknown);
  }

  lemma RestValid(a: Command)
    requires CommandOk(a)
    ensures AllValid(EntryFields(a.regEntries)) && AllValid(a.unknown)
  {
    forall i | 0 <= i < |a.regEntries| ensures ValidField(EntryFields(a.regEntries)[i]) {
      assert EntryOk(a.regEntries[i]);
    }
    forall i | 0 <= i < |a.unknown| ensures ValidField(a.unknown[i]) {
      assert UnknownToCommand(a.unknown[i]);
    }
  }

  lemma AllValidTogether(a: seq<Field>, b: seq<Field>, c: seq<Field>, d: seq<Field>, e: seq<Field>)
    requires AllValid(a) && AllValid(b) && AllValid(c) && AllValid(d) && AllValid(e)
    ensures AllValid(a + b + c + d + e)
  {
    assert AllValid(a + b);
    assert AllValid(a + b + c);
    assert AllValid(a + b + c + d);
  }

  lemma TextsValid(a: Command)
    requires CommandOk(a)
    ensures AllValid(Texts(a))
  {
    var b := DataField(2, a.sourceProxyGuid) + DataField(3, a.payload);
    var c := b + DataField(4, a.targetProxyGuid);
    var d := c + DataField(5, a.identifier);
    var e := d + DataField(6, a.guidFrom);
    assert AllValid(b);
    assert AllValid(c);
    assert AllValid(d);
    assert AllValid(e);
  }

  // ------------------------------------------------------------ the laws

  /** A serialization in front of anything merges its message into what is being parsed. */
  lemma ParseMerges(a: Command, m: Command, rest: bytes)
    requires CommandOk(a)
    ensures ParseOnto(Serialize(a) + rest, m) == ParseOnto(rest, Merge(m, a))
  {
    FieldsValid(a);
    ParseFields(Fields(a), m, rest);
    FieldsMerge(m, a);
  }

  lemma Whole(s: bytes, m: Command)
    ensures s + [] == s && ParseOnto([], m) == Some(m)
  {
  }

  lemma MergeFresh(a: Command)
    ensures Merge(NO_COMMAND, a) == a
  {
  }

  /** Round trip: parsing the serialization of an initialized command gives it back; an incomplete one is refused. */
  lemma RoundTrip(a: Command)
    requires CommandOk(a)
    ensures ParseOnto(Serialize(a), NO_COMMAND) == Some(a)
    ensures ParseFromArray(Serialize(a)) == if Initialized(a) then Some(a) else None
  {
    ParseMerges(a, NO_COMMAND, []);
    Whole(Serialize(a), a);
    MergeFresh(a);
  }

  /** The fields set in b win, those set only in a stay, and repeated and unknown fields follow each other. */
  ghost predicate Merged(a: Command, b: Command, m: Command) {
    && m.cmd == (if b.cmd.Some? then b.cmd else a.cmd)
    && m.sourceProxyGuid == (if b.sourceProxyGuid.Some? then b.sourceProxyGuid else a.sourceProxyGuid)
    && m.payload == (if b.payload.Some? then b.payload else a.payload)
    && m.targetProxyGuid == (if b.targetProxyGuid.Some? then b.targetProxyGuid else a.targetProxyGuid)
    && m.identifier == (if b.identifier.Some? then b.identifier else a.identifier)
    && m.guidFrom == (if b.guidFrom.Some? then b.guidFrom else a.guidFrom)
    && m.guidTo == (if b.guidTo.Some? then b.guidTo else a.guidTo)
    && m.recursion == (if b.recursion.Some? then b.recursion else a.recursion)
    && m.startTime == (if b.startTime.Some? then b.startTime else a.startTime)
    && m.timeoutMs == (if b.timeoutMs.Some? then b.timeoutMs else a.timeoutMs)
    && m.regEntries == a.regEntries + b.regEntries && m.unknown == a.unknown + b.unknown
  }

  /** Last one wins: two serializations in a row parse to the first merged with the second. */
  lemma ConcatenationMerges(a: Command, b: Command)
    requires CommandOk(a) && CommandOk(b)
    ensures ParseOnto(Serialize(a) + Serialize(b), NO_COMMAND) == Some(Merge(a, b)) && Merged(a, b, Merge(a, b))
  {
    ParseMerges(a, NO_COMMAND, Serialize(b));
    ParseMerges(b, a, []);
    Whole(Serialize(b), Merge(a, b));
    MergeFresh(a);
  }
}
