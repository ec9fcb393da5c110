/** The messages of command.proto: generated serialization, parsing, sizes and merging, from command.pb.cc. */
module Codec {
  import opened Bytes
  import opened Wire

  /** A registry entry; an absent field is None. */
  datatype Entry = Entry(
    kind: Option<int>,
    identifier: Option<bytes>,
    methodGuid: Option<bytes>,
    proxyGuid: Option<bytes>,
    unknown: seq<Field>)

  datatype Command = Command(
    cmd: Option<int>,
    sourceProxyGuid: Option<bytes>,
    payload: Option<bytes>,
    targetProxyGuid: Option<bytes>,
    identifier: Option<bytes>,
    guidFrom: Option<bytes>,
    guidTo: Option<bytes>,
    recursion: Option<int>,
    startTime: Option<int>,
    timeoutMs: Option<int>,
    regEntries: seq<Entry>,
    unknown: seq<Field>)

  const NO_ENTRY: Entry := Entry(None, None, None, None, [])
  const NO_COMMAND: Command := Command(None, None, None, None, None, None, None, None, None, None, [], [])

  predicate CmdIsValid(v: int) { 1 <= v <= 14 }

  predicate EntryTypeIsValid(v: int) { v == 1 }

  predicate EntryInitialized(e: Entry) {
    e.kind.Some? && e.identifier.Some? && e.methodGuid.Some? && e.proxyGuid.Some?
  }

  predicate Initialized(m: Command) {
    && m.cmd.Some? && m.sourceProxyGuid.Some? && m.payload.Some?
    && forall i :: 0 <= i < |m.regEntries| ==> EntryInitialized(m.regEntries[i])
  }

  // ------------------------------------------------------------ parsing

  /** An enum value outside the enum is kept as an unknown varint. */
  function AddUnknown(unknown: seq<Field>, f: Field): seq<Field> {
    unknown + [if f.VarintField? && f.num == 1 then VarintField(1, SignExtend(ToInt32(f.value))) else f]
  }

  /** One field of a registry entry. */
  function ApplyEntry(e: Entry, f: Field): Entry {
    if f.VarintField? && f.num == 1 && EntryTypeIsValid(ToInt32(f.value)) then e.(kind := Some(ToInt32(f.value)))
    else if f.BytesField? && f.num == 2 then e.(identifier := Some(f.data))
    else if f.BytesField? && f.num == 3 then e.(methodGuid := Some(f.data))
    else if f.BytesField? && f.num == 4 then e.(proxyGuid := Some(f.data))
    else e.(unknown := AddUnknown(e.unknown, f))
  }

  /** A whole registry entry: every byte belongs to some field. */
  function ParseEntry(s: bytes, e: Entry): Option<Entry>
    decreases |s|
  {
    if s == [] then Some(e)
    else match DecodeField(s)
      case Fail => None
      case Got(f, rest) => ParseEntry(rest, ApplyEntry(e, f))
  }

  /** One field of a command; an embedded entry may fail to parse. */
  function Apply(m: Command, f: Field): Option<Command> {
    match f
    case VarintField(num, v) =>
      if num == 1 && CmdIsValid(ToInt32(v)) then Some(m.(cmd := Some(ToInt32(v))))
      else if num == 8 then Some(m.(recursion := Some(ToInt32(v))))
      else if num == 9 then Some(m.(startTime := Some(v % TWO_32)))
      else if num == 10 then Some(m.(timeoutMs := Some(ToInt32(v))))
      else Some(m.(unknown := AddUnknown(m.unknown, f)))
    case BytesField(num, d) =>
      if num == 2 then Some(m.(sourceProxyGuid := Some(d)))
      else if num == 3 then Some(m.(payload := Some(d)))
      else if num == 4 then Some(m.(targetProxyGuid := Some(d)))
      else if num == 5 then Some(m.(identifier := Some(d)))
      else if num == 6 then Some(m.(guidFrom := Some(d)))
      else if num == 7 then Some(m.(guidTo := Some(d)))
      else if num == 11 then
        match ParseEntry(d, NO_ENTRY)
        case None => None
        case Some(e) => Some(m.(regEntries := m.regEntries + [e]))
      else Some(m.(unknown := AddUnknown(m.unknown, f)))
    case _ => Some(m.(unknown := AddUnknown(m.unknown, f)))
  }

  /** The plain parser: a tag, a payload, and again, until the input is used up. */
  function ParseOnto(s: bytes, m: Command): Option<Command>
    decreases |s|
  {
    if s == [] then Some(m)
    else match DecodeField(s)
      case Fail => None
      case Got(f, rest) =>
        match Apply(m, f)
        case None => None
        case Some(m') => ParseOnto(rest, m')
  }

  /** ParseFromArray: into an empty message, which must then be initialized. */
  function ParseFromArray(s: bytes): Option<Command> {
    match ParseOnto(s, NO_COMMAND)
    case None => None
    case Some(m) => if Initialized(m) then Some(m) else None
  }

  /** The wire type the schema gives a field of Command. */
  function SchemaWire(num: nat): nat {
    if num == 1 || 8 <= num <= 10 then 0 else 2
  }

  /** The field whose tag ExpectTag looks for after a field: the next one, or the repeated one again. */
  function ExpectedNext(num: nat): nat {
    if num == 11 then 11 else num + 1
  }

  predicate InSchema(tag: nat) {
    1 <= tag / 8 <= 11 && tag % 8 == SchemaWire(tag / 8)
  }

  /** The tag byte of a field in the schema. */
  function TagOf(num: nat): (tag: byte)
    requires 1 <= num <= 11
    ensures InSchema(tag) && tag / 8 == num && 0 < tag < 128
  {
    num * 8 + SchemaWire(num)
  }

  lemma TagByte(num: nat, s: bytes)
    requires 1 <= num <= 11
    ensures ReadTag([TagOf(num)] + s) == Got(TagOf(num), s)
  {
    assert ([TagOf(num)] + s)[1..] == s;
    ReadTagFrom([TagOf(num)] + s, TagOf(num), s);
  }

  /** The input of the plain parser when the parser with shortcuts has jumped to a case, or has not. */
  ghost function Behind(jump: nat, rest: bytes): bytes
    requires jump <= 11
  {
    if jump == 0 then rest else [TagOf(jump)] + rest
  }

  function AfterTag(tag: nat, rest: bytes, m: Command): Option<Command> {
    match ReadPayload(tag, rest)
    case Fail => None
    case Got(f, tail) =>
      match Apply(m, f)
      case None => None
      case Some(m') => ParseOnto(tail, m')
  }

  lemma ParseStep(s: bytes, m: Command)
    requires s != []
    ensures ParseOnto(s, m) == match ReadTag(s) case Fail => None case Got(tag, rest) => AfterTag(tag, rest, m)
  {
  }

  /**
   MergePartialFromCodedStream. After a field of the schema the parser looks for the one tag byte that usually
   follows and, if it is there, jumps straight to that field's case without reading a tag: `jump` is the case it
   jumps to, zero for none. The shortcut changes nothing.
   */
  method MergePartialFromCodedStream(s: bytes, m0: Command) returns (r: Option<Command>)
    ensures r == ParseOnto(s, m0)
  {
    var m, rest, jump := m0, s, 0;
    while jump != 0 || rest != []
      invariant jump <= 11
      invariant ParseOnto(s, m0) == ParseOnto(Behind(jump, rest), m)
      decreases |rest| + (if jump == 0 then 0 else 1)
    {
      ParseStep(Behind(jump, rest), m);
      var tag: nat;
      if jump == 0 {
        var t := ReadTag(rest);
        if t.Fail? {
          return None;
        }
        tag, rest := t.value, t.rest;
      } else {
        TagByte(jump, rest);
        tag := TagOf(jump);
      }
      assert ParseOnto(s, m0) == AfterTag(tag, rest, m);
      var p := ReadPayload(tag, rest);
      if p.Fail? {
        return None;
      }
      var next := Apply(m, p.value);
      if next.None? {
        return None;
      }
      m, rest := next.value, p.rest;
      jump, rest := ExpectTag(tag, rest);
    }
    return Some(m);
  }

  /** Looks for the tag byte that usually comes next, and takes it if it is there. */
  method ExpectTag(tag: nat, s: bytes) returns (jump: nat, rest: bytes)
    ensures jump <= 11 && Behind(jump, rest) == s
    ensures |rest| + (if jump == 0 then 0 else 1) == |s|
  {
    if InSchema(tag) {
      var expected := ExpectedNext(tag / 8);
      if expected <= 11 && s != [] && s[0] == TagOf(expected) {
        return expected, s[1..];
      }
    }
    return 0, s;
  }

  // ------------------------------------------------------------ the same shortcut inside an entry

  /** The tag byte of a field of a registry entry. */
  function EntryTag(num: nat): (tag: byte)
    requires 1 <= num <= 4
    ensures tag / 8 == num && 0 < tag < 128
  {
    num * 8 + (if num == 1 then 0 else 2)
  }

  ghost function BehindEntry(jump: nat, rest: bytes): bytes
    requires jump <= 4
  {
    if jump == 0 then rest else [EntryTag(jump)] + rest
  }

  function EntryAfterTag(tag: nat, rest: bytes, e: Entry): Option<Entry> {
    match ReadPayload(tag, rest)
    case Fail => None
    case Got(f, tail) => ParseEntry(tail, ApplyEntry(e, f))
  }

  lemma EntryParseStep(s: bytes, e: Entry)
    requires s != []
    ensures ParseEntry(s, e) == match ReadTag(s) case Fail => None case Got(tag, rest) => EntryAfterTag(tag, rest, e)
  {
  }

  lemma EntryTagByte(num: nat, s: bytes)
    requires 1 <= num <= 4
    ensures ReadTag([EntryTag(num)] + s) == Got(EntryTag(num), s)
  {
    assert ([EntryTag(num)] + s)[1..] == s;
    ReadTagFrom([EntryTag(num)] + s, EntryTag(num), s);
  }

  /** Command_RegistryEntry::MergePartialFromCodedStream, with its own shortcuts from field to field. */
  method MergeEntryFromCodedStream(s: bytes, e0: Entry) returns (r: Option<Entry>)
    ensures r == ParseEntry(s, e0)
  {
    var e, rest, jump := e0, s, 0;
    while jump != 0 || rest != []
      invariant jump <= 4
      invariant ParseEntry(s, e0) == ParseEntry(BehindEntry(jump, rest), e)
      decreases |rest| + (if jump == 0 then 0 else 1)
    {
      EntryParseStep(BehindEntry(jump, rest), e);
      var tag: nat;
      if jump == 0 {
        var t := ReadTag(rest);
        if t.Fail? {
          return None;
        }
        tag, rest := t.value, t.rest;
      } else {
        EntryTagByte(jump, rest);
        tag := EntryTag(jump);
      }
      assert ParseEntry(s, e0) == EntryAfterTag(tag, rest, e);
      var p := ReadPayload(tag, rest);
      if p.Fail? {
        return None;
      }
      e, rest := ApplyEntry(e, p.value), p.rest;
      jump, rest := ExpectEntryTag(tag, rest);
    }
    return Some(e);
  }

  method ExpectEntryTag(tag: nat, s: bytes) returns (jump: nat, rest: bytes)
    ensures jump <= 4 && BehindEntry(jump, rest) == s
    ensures |rest| + (if jump == 0 then 0 else 1) == |s|
  {
    var num := tag / 8;
    if 1 <= num < 4 && tag == EntryTag(num) && s != [] && s[0] == EntryTag(num + 1) {
      return num + 1, s[1..];
    }
    return 0, s;
  }
}
