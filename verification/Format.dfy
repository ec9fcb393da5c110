/** The two command formatters of hiredis.c: one takes an argument vector, the other a printf-like format. */
module Format {
  import opened Bytes
  import opened Decimal
  import opened Resp
  import opened RespEncode
  import opened CommandGrammar

  const LOWER_S: byte := 115
  const LOWER_B: byte := 98

  /** A C string: what precedes the first NUL. */
  function CString(s: bytes): bytes {
    if s == [] || s[0] == NUL then [] else [s[0]] + CString(s[1..])
  }

  function Strings(args: seq<bytes>): (vs: seq<Reply>)
    ensures |vs| == |args| && forall i :: 0 <= i < |args| ==> vs[i] == Str(args[i])
  {
    seq(|args|, i requires 0 <= i < |args| => Str(args[i]))
  }

  /** A command is a multi bulk of bulk strings. */
  function CommandFor(args: seq<bytes>): bytes {
    Encode(Array(Strings(args)))
  }

  // ------------------------------------------------------------ lengths

  function Bulk(arg: bytes): bytes {
    Encode(Str(arg))
  }

  function Bulks(args: seq<bytes>): bytes {
    if args == [] then [] else Bulks(args[..|args| - 1]) + Bulk(args[|args| - 1])
  }

  lemma {:induction false} BulksAreEncoded(args: seq<bytes>)
    ensures Bulks(args) == EncodeAll(Strings(args))
  {
    if args != [] {
      var n := |args| - 1;
      BulksAreEncoded(args[..n]);
      EncodeAllAppend(Strings(args[..n]), [Str(args[n])]);
      assert Strings(args) == Strings(args[..n]) + [Str(args[n])];
      assert EncodeAll([Str(args[n])]) == Bulk(args[n]) + EncodeAll([]);
    }
  }

  lemma {:induction false} EncodeAllAppend(a: seq<Reply>, b: seq<Reply>)
    ensures EncodeAll(a + b) == EncodeAll(a) + EncodeAll(b)
  {
    if a == [] {
      assert a + b == b;
    } else {
      var rest, all := a[1..], a + b;
      EncodeAllAppend(rest, b);
      assert all[0] == a[0] && all[1..] == rest + b;
      Regroup(Encode(a[0]), EncodeAll(rest), EncodeAll(b));
    }
  }

  lemma CommandParts(args: seq<bytes>)
    ensures CommandFor(args) == Line(STAR, IntDec(|args|)) + Bulks(args)
  {
    BulksAreEncoded(args);
  }

  lemma BulksGrow(args: seq<bytes>, j: nat)
    requires j < |args|
    ensures Bulks(args[..j + 1]) == Bulks(args[..j]) + Bulk(args[j])
    ensures |Bulks(args[..j + 1])| <= |Bulks(args)|
  {
    assert args[..j + 1][..j] == args[..j];
    BulksLonger(args, j + 1);
  }

  lemma {:induction false} BulksLonger(args: seq<bytes>, j: nat)
    requires j <= |args|
    ensures |Bulks(args[..j])| <= |Bulks(args)|
    decreases |args|
  {
    if j == |args| {
      assert args[..j] == args;
    } else {
      var init := args[..|args| - 1];
      BulksLonger(init, j);
      assert init[..j] == args[..j];
    }
  }

  // ------------------------------------------------------------ these are the bytes of a command

  lemma ChunkExact(s: bytes, arg: bytes)
    ensures IsChunk(s, arg) <==> s == Bulk(arg)
  {
    NumeralExact(IntDec(|arg|), |arg|);
    assert Bulk(arg) == [36] + IntDec(|arg|) + [13, 10] + arg + [13, 10];
    if IsChunk(s, arg) {
      var num :| IsNumeral(num, |arg|) && s == [36] + num + [13, 10] + arg + [13, 10];
      NumeralExact(num, |arg|);
    }
  }

  lemma {:induction false} ChunksExact(s: bytes, args: seq<bytes>)
    ensures AreChunks(s, args) <==> s == EncodeAll(Strings(args))
    decreases |args|
  {
    if args != [] {
      var all, rest := Strings(args), EncodeAll(Strings(args[1..]));
      assert all[1..] == Strings(args[1..]);
      if AreChunks(s, args) {
        var k: nat :| k <= |s| && IsChunk(s[..k], args[0]) && AreChunks(s[k..], args[1..]);
        ChunkExact(s[..k], args[0]);
        ChunksExact(s[k..], args[1..]);
        assert s == s[..k] + s[k..];
      }
      if s == Bulk(args[0]) + rest {
        var k := |Bulk(args[0])|;
        assert s[..k] == Bulk(args[0]) && s[k..] == rest;
        ChunkExact(s[..k], args[0]);
        ChunksExact(s[k..], args[1..]);
      }
    }
  }

  /** The bytes specified are those of the grammar, and the only ones. */
  lemma CommandExact(s: bytes, args: seq<bytes>)
    ensures IsCommand(s, args) <==> s == CommandFor(args)
  {
    var chunks := EncodeAll(Strings(args));
    NumeralExact(IntDec(|args|), |args|);
    ChunksExact(chunks, args);
    assert CommandFor(args) == [42] + IntDec(|args|) + [13, 10] + chunks;
    if IsCommand(s, args) {
      var num, rest :| IsNumeral(num, |args|) && AreChunks(rest, args) && s == [42] + num + [13, 10] + rest;
      NumeralExact(num, |args|);
      ChunksExact(rest, args);
    }
  }

  /** bulklen. */
  method BulkLen(len: nat) returns (n: nat)
    ensures forall arg: bytes :: |arg| == len ==> |Bulk(arg)| == n
  {
    var digits := IntLen(len);
    n := 1 + digits + 2 + len + 2;
  }

  // ------------------------------------------------------------ writing

  /** sprintf or memcpy at a cursor; the cursor moves over what was written. */
  method Write(cmd: array<byte>, pos: nat, text: bytes) returns (after: nat)
    requires pos + |text| <= cmd.Length
    modifies cmd
    ensures after == pos + |text|
    ensures cmd[..after] == old(cmd[..pos]) + text
  {
    ghost var before := cmd[..pos];
    for i := 0 to |text|
      invariant cmd[..pos + i] == before + text[..i]
    {
      cmd[pos + i] := text[i];
      assert cmd[..pos + i + 1] == cmd[..pos + i] + [text[i]];
    }
    return pos + |text|;
  }

  method WriteBulk(cmd: array<byte>, pos: nat, arg: bytes) returns (after: nat)
    requires pos + |Bulk(arg)| <= cmd.Length
    modifies cmd
    ensures after == pos + |Bulk(arg)|
    ensures cmd[..after] == old(cmd[..pos]) + Bulk(arg)
  {
    ghost var before, head := cmd[..pos], Line(DOLLAR, IntDec(|arg|));
    assert before + Bulk(arg) == before + head + arg + CRLF;
    after := Write(cmd, pos, [DOLLAR] + IntDec(|arg|) + CRLF);
    after := Write(cmd, after, arg);
    after := Write(cmd, after, CRLF);
  }

  /** What has been written before argument j. */
  ghost function Written(args: seq<bytes>, j: nat): bytes
    requires j <= |args|
  {
    Line(STAR, IntDec(|args|)) + Bulks(args[..j])
  }

  lemma WrittenGrows(args: seq<bytes>, j: nat)
    requires j < |args|
    ensures Written(args, j + 1) == Written(args, j) + Bulk(args[j])
    ensures |Written(args, j)| + |Bulk(args[j])| <= |CommandFor(args)|
  {
    BulksGrow(args, j);
    CommandParts(args);
    Regroup(Line(STAR, IntDec(|args|)), Bulks(args[..j]), Bulk(args[j]));
  }

  lemma WrittenEnds(args: seq<bytes>)
    ensures Written(args, 0) == Line(STAR, IntDec(|args|))
    ensures Written(args, |args|) == CommandFor(args)
  {
    CommandParts(args);
    assert args[..|args|] == args && args[..0] == [];
  }

  /** The second half of both formatters: fill a buffer of the computed size, which is met exactly. */
  method Build(args: seq<bytes>, totlen: nat) returns (cmd: array<byte>)
    requires totlen == |CommandFor(args)|
    ensures fresh(cmd) && cmd.Length == totlen + 1
    ensures cmd[..totlen] == CommandFor(args) && IsCommand(cmd[..totlen], args) && cmd[totlen] == 0
  {
    WrittenEnds(args);
    CommandExact(CommandFor(args), args);
    CommandParts(args);
    cmd := new byte[totlen + 1];
    ghost var written := Line(STAR, IntDec(|args|));
    var pos := Write(cmd, 0, [STAR] + IntDec(|args|) + CRLF);
    assert cmd[..pos] == written;
    for j := 0 to |args|
      invariant fresh(cmd) && cmd.Length == totlen + 1 && pos <= totlen
      invariant pos == |written| && cmd[..pos] == written && written == Written(args, j)
    {
      WrittenGrows(args, j);
      pos := WriteBulk(cmd, pos, args[j]);
      written := written + Bulk(args[j]);
    }
    assert pos == totlen;
    cmd[pos] := NUL;
  }

  /** The arguments of redisFormatCommandArgv: given lengths, or C strings. */
  function Arguments(argv: seq<bytes>, argvlen: Option<seq<nat>>): (args: seq<bytes>)
    requires argvlen.Some? ==> |argvlen.value| == |argv| && forall j :: 0 <= j < |argv| ==> argvlen.value[j] <= |argv[j]|
    ensures |args| == |argv|
  {
    seq(|argv|, j requires 0 <= j < |argv| =>
      if argvlen.Some? then argv[j][..argvlen.value[j]] else CString(argv[j]))
  }

  lemma {:induction false} CStringIs(s: bytes)
    ensures CString(s) <= s && 0 !in CString(s) && (CString(s) == s || s[|CString(s)|] == 0)
  {
    if s != [] && s[0] != NUL {
      CStringIs(s[1..]);
      assert s == [s[0]] + s[1..];
    }
  }

  lemma ArgumentsSupplied(argv: seq<bytes>, argvlen: Option<seq<nat>>)
    requires argvlen.Some? ==> |argvlen.value| == |argv| && forall j :: 0 <= j < |argv| ==> argvlen.value[j] <= |argv[j]|
    ensures Supplied(argv, argvlen, Arguments(argv, argvlen))
  {
    forall j | 0 <= j < |argv| && argvlen.None?
      ensures CString(argv[j]) <= argv[j] && 0 !in CString(argv[j])
      ensures CString(argv[j]) == argv[j] || argv[j][|CString(argv[j])|] == 0
    {
      CStringIs(argv[j]);
    }
  }

  /** redisFormatCommandArgv. */
  method FormatCommandArgv(argv: seq<bytes>, argvlen: Option<seq<nat>>) returns (cmd: array<byte>, totlen: nat)
    requires argvlen.Some? ==> |argvlen.value| == |argv| && forall j :: 0 <= j < |argv| ==> argvlen.value[j] <= |argv[j]|
    ensures fresh(cmd) && cmd.Length == totlen + 1
    ensures cmd[..totlen] == CommandFor(Arguments(argv, argvlen))
    ensures cmd[totlen] == 0 && exists args :: Supplied(argv, argvlen, args) && IsCommand(cmd[..totlen], args)
  {
    var args := Arguments(argv, argvlen);
    ArgumentsSupplied(argv, argvlen);
    var digits := IntLen(|args|);
    totlen := 1 + digits + 2;
    for j := 0 to |args|
      invariant totlen == |Line(STAR, IntDec(|args|))| + |Bulks(args[..j])|
    {
      BulksGrow(args, j);
      var n := BulkLen(|args[j]|);
      totlen := totlen + n;
    }
    assert args[..|args|] == args;
    CommandParts(args);
    cmd := Build(args, totlen);
  }

  // ------------------------------------------------------------ format strings

  /** A format string and its arguments, taken apart: literal bytes, blanks, and interpolated values. */
  datatype Piece = Blank | Text(text: bytes)

  predicate Literal(format: bytes, c: nat)
    requires c < |format|
  {
    format[c] != PERCENT || c + 1 == |format|
  }

  /** From c on, the only conversions are %s, %b and %%; a lone % at the end is a literal. */
  predicate Plain(format: bytes, c: nat)
    requires c <= |format|
    decreases |format| - c
  {
    if c == |format| then true
    else if Literal(format, c) then Plain(format, c + 1)
    else format[c + 1] in {LOWER_S, LOWER_B, PERCENT} && Plain(format, c + 2)
  }

  /** How many arguments the conversions from c on take. */
  function Arity(format: bytes, c: nat): nat
    requires c <= |format|
    decreases |format| - c
  {
    if c == |format| then 0
    else if Literal(format, c) then Arity(format, c + 1)
    else (if format[c + 1] == PERCENT then 0 else 1) + Arity(format, c + 2)
  }

  predicate Formattable(format: bytes, c: nat, va: seq<bytes>, ap: nat) {
    c <= |format| && Plain(format, c) && ap + Arity(format, c) <= |va|
  }

  function Pieces(format: bytes, c: nat, va: seq<bytes>, ap: nat): seq<Piece>
    requires Formattable(format, c, va, ap)
    decreases |format| - c
  {
    if c == |format| then []
    else if Literal(format, c) then
      [if format[c] == SPACE then Blank else Text([format[c]])] + Pieces(format, c + 1, va, ap)
    else if format[c + 1] == PERCENT then [Text([PERCENT])] + Pieces(format, c + 2, va, ap)
    else
      [Text(if format[c + 1] == LOWER_S then CString(va[ap]) else va[ap])] + Pieces(format, c + 2, va, ap + 1)
  }

  /** The number of pieces before the first blank. */
  function RunLength(ps: seq<Piece>): (n: nat)
    ensures n <= |ps| && (forall i :: 0 <= i < n ==> ps[i].Text?) && (n < |ps| ==> ps[n].Blank?)
  {
    if ps == [] || ps[0].Blank? then 0 else 1 + RunLength(ps[1..])
  }

  function Joined(ps: seq<Piece>): bytes
    requires forall i :: 0 <= i < |ps| ==> ps[i].Text?
  {
    if ps == [] then [] else ps[0].text + Joined(ps[1..])
  }

  /** The words of a command: its maximal runs of text, each joined into one argument. */
  function Words(ps: seq<Piece>): seq<bytes>
    decreases |ps|
  {
    if ps == [] then []
    else if ps[0].Blank? then Words(ps[1..])
    else
      var n := RunLength(ps);
      [Joined(ps[..n])] + Words(ps[n..])
  }

  /** The words still to come when the current one, if touched, already has the text cur. */
  ghost function Pending(touched: bool, cur: bytes, ps: seq<Piece>): seq<bytes> {
    if touched then [cur + Joined(ps[..RunLength(ps)])] + Words(ps[RunLength(ps)..]) else Words(ps)
  }

  lemma PendingText(touched: bool, cur: bytes, ps: seq<Piece>)
    requires ps != [] && ps[0].Text? && (!touched ==> cur == [])
    ensures Pending(touched, cur, ps) == Pending(true, cur + ps[0].text, ps[1..])
  {
    var n, rest := RunLength(ps), ps[1..];
    assert ps[..n][1..] == rest[..n - 1] && ps[n..] == rest[n - 1..];
    assert cur + (ps[0].text + Joined(rest[..n - 1])) == cur + ps[0].text + Joined(rest[..n - 1]);
    if !touched {
      assert [] + Joined(ps[..n]) == Joined(ps[..n]);
    }
  }

  lemma PendingBlank(touched: bool, cur: bytes, ps: seq<Piece>)
    requires ps == [] || ps[0].Blank?
    ensures Pending(touched, cur, ps) == (if touched then [cur] else []) + (if ps == [] then [] else Words(ps[1..]))
  {
    assert RunLength(ps) == 0 && ps[..0] == [] && ps[0..] == ps;
    assert cur + Joined([]) == cur;
  }

  /** redisvFormatCommand on formats without printf conversions. */
  method FormatCommand(format: bytes, va: seq<bytes>) returns (cmd: array<byte>, totlen: nat)
    requires NUL !in format && Formattable(format, 0, va, 0)
    ensures fresh(cmd) && cmd.Length == totlen + 1
    ensures cmd[..totlen] == CommandFor(Words(Pieces(format, 0, va, 0)))
    ensures IsCommand(cmd[..totlen], Words(Pieces(format, 0, va, 0))) && cmd[totlen] == 0
  {
    var argv, bulks := CollectArguments(format, va);
    var digits := IntLen(|argv|);
    totlen := bulks + 1 + digits + 2;
    CommandParts(argv);
    cmd := Build(argv, totlen);
  }

  /** What the scan knows about the rest of the format when it stands at c and ap. */
  ghost predicate Scanning(format: bytes, c: nat, va: seq<bytes>, ap: nat, touched: bool, cur: bytes,
                           argv: seq<bytes>, all: seq<bytes>) {
    && Formattable(format, c, va, ap)
    && (!touched ==> cur == [])
    && argv + Pending(touched, cur, Pieces(format, c, va, ap)) == all
  }

  lemma ScanText(format: bytes, c: nat, va: seq<bytes>, ap: nat, touched: bool, cur: bytes,
                 argv: seq<bytes>, all: seq<bytes>, c': nat, ap': nat, text: bytes)
    requires Scanning(format, c, va, ap, touched, cur, argv, all) && Formattable(format, c', va, ap')
    requires Pieces(format, c, va, ap) == [Text(text)] + Pieces(format, c', va, ap')
    ensures Scanning(format, c', va, ap', true, cur + text, argv, all)
  {
    var ps := Pieces(format, c, va, ap);
    PendingText(touched, cur, ps);
    assert ps[1..] == Pieces(format, c', va, ap');
  }

  lemma ScanLiteral(format: bytes, c: nat, va: seq<bytes>, ap: nat, touched: bool, cur: bytes,
                    argv: seq<bytes>, all: seq<bytes>)
    requires Scanning(format, c, va, ap, touched, cur, argv, all) && c < |format|
    requires Literal(format, c) && format[c] != SPACE
    ensures Scanning(format, c + 1, va, ap, true, cur + [format[c]], argv, all)
  {
    ScanText(format, c, va, ap, touched, cur, argv, all, c + 1, ap, [format[c]]);
  }

  lemma ScanConversion(format: bytes, c: nat, va: seq<bytes>, ap: nat, touched: bool, cur: bytes,
                       argv: seq<bytes>, all: seq<bytes>)
    requires Scanning(format, c, va, ap, touched, cur, argv, all) && c < |format| && !Literal(format, c)
    ensures if format[c + 1] == PERCENT then Scanning(format, c + 2, va, ap, true, cur + [PERCENT], argv, all)
            else
              && ap < |va|
              && var arg := if format[c + 1] == LOWER_S then CString(va[ap]) else va[ap];
                 Scanning(format, c + 2, va, ap + 1, true, cur + arg, argv, all)
  {
    if format[c + 1] == PERCENT {
      ScanText(format, c, va, ap, touched, cur, argv, all, c + 2, ap, [PERCENT]);
    } else {
      var arg := if format[c + 1] == LOWER_S then CString(va[ap]) else va[ap];
      ScanText(format, c, va, ap, touched, cur, argv, all, c + 2, ap + 1, arg);
    }
  }

  lemma ScanBlank(format: bytes, c: nat, va: seq<bytes>, ap: nat, touched: bool, cur: bytes,
                  argv: seq<bytes>, all: seq<bytes>)
    requires Scanning(format, c, va, ap, touched, cur, argv, all) && c < |format| && format[c] == SPACE
    ensures Scanning(format, c + 1, va, ap, false, [], if touched then argv + [cur] else argv, all)
  {
    var ps := Pieces(format, c, va, ap);
    var rest := Pieces(format, c + 1, va, ap);
    PendingBlank(touched, cur, ps);
    assert ps[1..] == rest;
    assert argv + ([cur] + Words(rest)) == argv + [cur] + Words(rest);
  }

  lemma ScanEnds(format: bytes, va: seq<bytes>, ap: nat, touched: bool, cur: bytes,
                 argv: seq<bytes>, all: seq<bytes>)
    requires Scanning(format, |format|, va, ap, touched, cur, argv, all)
    ensures all == if touched then argv + [cur] else argv
  {
    PendingBlank(touched, cur, []);
  }

  /** The scanning loop: splits at blanks of the format itself, and counts the bytes of every argument. */
  method CollectArguments(format: bytes, va: seq<bytes>) returns (argv: seq<bytes>, totlen: nat)
    requires NUL !in format && Formattable(format, 0, va, 0)
    ensures argv == Words(Pieces(format, 0, va, 0)) && totlen == |Bulks(argv)|
  {
    var c, ap, cur, touched := 0, 0, [], false;
    argv, totlen := [], 0;
    ghost var all := Words(Pieces(format, 0, va, 0));
    assert [] + all == all;
    while c < |format|
      invariant Scanning(format, c, va, ap, touched, cur, argv, all)
      invariant totlen == |Bulks(argv)|
      decreases |format| - c
    {
      if format[c] != PERCENT || c + 1 == |format| {
        if format[c] == SPACE {
          ScanBlank(format, c, va, ap, touched, cur, argv, all);
          if touched {
            argv, totlen := PushArgument(argv, totlen, cur);
            cur, touched := [], false;
          }
        } else {
          ScanLiteral(format, c, va, ap, touched, cur, argv, all);
          cur, touched := cur + [format[c]], true;
        }
        c := c + 1;
      } else {
        cur, ap := Convert(format, c, va, ap, touched, cur, argv, all);
        touched := true;
        c := c + 2;
      }
    }
    ScanEnds(format, va, ap, touched, cur, argv, all);
    if touched {
      argv, totlen := PushArgument(argv, totlen, cur);
    }
  }

  /** One conversion: %% is a percent sign, %s a C string, %b a binary-safe string. */
  method Convert(format: bytes, c: nat, va: seq<bytes>, ap: nat, ghost touched: bool, cur: bytes,
                 ghost argv: seq<bytes>, ghost all: seq<bytes>)
    returns (cur': bytes, ap': nat)
    requires Scanning(format, c, va, ap, touched, cur, argv, all) && c < |format| && !Literal(format, c)
    ensures Scanning(format, c + 2, va, ap', true, cur', argv, all)
  {
    ScanConversion(format, c, va, ap, touched, cur, argv, all);
    if format[c + 1] == PERCENT {
      return cur + [PERCENT], ap;
    } else if format[c + 1] == LOWER_S {
      return cur + CString(va[ap]), ap + 1;
    } else {
      return cur + va[ap], ap + 1;
    }
  }

  method PushArgument(argv: seq<bytes>, totlen: nat, cur: bytes) returns (argv': seq<bytes>, totlen': nat)
    requires totlen == |Bulks(argv)|
    ensures argv' == argv + [cur] && totlen' == |Bulks(argv')|
  {
    argv' := argv + [cur];
    assert argv'[..|argv|] == argv;
    var n := BulkLen(|cur|);
    totlen' := totlen + n;
  }

  // ------------------------------------------------------------ consequences

  /** A blank inside an interpolated value does not split: the format alone decides the number of arguments. */
  lemma ValuesDoNotSplit(format: bytes, a: seq<bytes>, b: seq<bytes>)
    requires Formattable(format, 0, a, 0) && Formattable(format, 0, b, 0)
    ensures |Words(Pieces(format, 0, a, 0))| == |Words(Pieces(format, 0, b, 0))|
  {
    SameBlanks(format, 0, a, b, 0);
    SameWordCount(Pieces(format, 0, a, 0), Pieces(format, 0, b, 0));
  }

  ghost predicate AlikeBlanks(p: seq<Piece>, q: seq<Piece>) {
    |p| == |q| && forall i :: 0 <= i < |p| ==> p[i].Blank? == q[i].Blank?
  }

  lemma {:induction false} SameBlanks(format: bytes, c: nat, a: seq<bytes>, b: seq<bytes>, ap: nat)
    requires Formattable(format, c, a, ap) && Formattable(format, c, b, ap)
    ensures AlikeBlanks(Pieces(format, c, a, ap), Pieces(format, c, b, ap))
    decreases |format| - c
  {
    if c == |format| {
    } else if Literal(format, c) {
      SameBlanks(format, c + 1, a, b, ap);
    } else if format[c + 1] == PERCENT {
      SameBlanks(format, c + 2, a, b, ap);
    } else {
      SameBlanks(format, c + 2, a, b, ap + 1);
    }
  }

  lemma {:induction false} SameRun(p: seq<Piece>, q: seq<Piece>)
    requires AlikeBlanks(p, q)
    ensures RunLength(p) == RunLength(q)
    decreases |p|
  {
    if p != [] && !p[0].Blank? {
      SameRun(p[1..], q[1..]);
    }
  }

  lemma {:induction false} SameWordCount(p: seq<Piece>, q: seq<Piece>)
    requires AlikeBlanks(p, q)
    ensures |Words(p)| == |Words(q)|
    decreases |p|
  {
    if p == [] {
    } else if p[0].Blank? {
      SameWordCount(p[1..], q[1..]);
    } else {
      var n := RunLength(p);
      SameRun(p, q);
      SameWordCount(p[n..], q[n..]);
    }
  }

  /** What a formatter writes, the parser reads back: one array of exactly the arguments, every byte consumed. */
  lemma CommandReadsBack(args: seq<bytes>)
    ensures Parse(CommandFor(args), 0) == Done(Array(Strings(args)), [])
    ensures ParseAll(CommandFor(args)) == Stream([Array(Strings(args))], None)
  {
    var v := Array(Strings(args));
    ParseEncode(v, 0, []);
    assert Encode(v) + [] == Encode(v);
    StreamRoundTrip([v]);
    assert EncodeAll([v]) == Encode(v) + EncodeAll([]);
  }

  /** Whatever follows a command does not change how it is read. */
  lemma CommandParses(args: seq<bytes>, x: bytes)
    ensures Parse(CommandFor(args) + x, 0) == Done(Array(Strings(args)), x)
  {
    ParseEncode(Array(Strings(args)), 0, x);
  }
}
