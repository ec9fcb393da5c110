/** sdscatrepr writes a byte string in quotes; sdssplitargs cuts a line into arguments and undoes the quoting. */
module SdsQuote {
  import opened Bytes
  import opened Decimal

  const BELL: byte := 7
  const BACKSPACE: byte := 8
  const LETTER_A: byte := 97
  const LETTER_B: byte := 98
  const LETTER_N: byte := 110
  const LETTER_R: byte := 114
  const LETTER_T: byte := 116
  const LETTER_X: byte := 120

  predicate IsPrint(b: byte) {
    32 <= b <= 126
  }

  predicate IsSpace(b: byte) {
    b == SPACE || 9 <= b <= 13
  }

  // ------------------------------------------------------------ writing

  function HexDigit(d: nat): byte
    requires d < 16
  {
    if d < 10 then ZERO + d else LETTER_A + (d - 10)
  }

  function QuoteByte(b: byte): bytes {
    if b == BACKSLASH || b == QUOTE then [BACKSLASH, b]
    else if b == LF then [BACKSLASH, LETTER_N]
    else if b == CR then [BACKSLASH, LETTER_R]
    else if b == TAB then [BACKSLASH, LETTER_T]
    else if b == BELL then [BACKSLASH, LETTER_A]
    else if b == BACKSPACE then [BACKSLASH, LETTER_B]
    else if IsPrint(b) then [b]
    else [BACKSLASH, LETTER_X, HexDigit(b / 16), HexDigit(b % 16)]
  }

  function Inner(s: bytes): bytes {
    if s == [] then [] else QuoteByte(s[0]) + Inner(s[1..])
  }

  function Quote(s: bytes): bytes {
    [QUOTE] + Inner(s) + [QUOTE]
  }

  /** A hexadecimal digit, in lower case. */
  predicate IsHex(h: byte, d: nat) {
    (d < 10 && h == 48 + d) || (10 <= d < 16 && h == 87 + d)
  }

  /** How a byte is to be written: its own escape, itself when printable, or a backslash, an x and two digits. */
  ghost predicate IsEscape(b: byte, t: bytes) {
    if b == 92 || b == 34 then t == [92, b]
    else if b == 10 then t == [92, 110]
    else if b == 13 then t == [92, 114]
    else if b == 9 then t == [92, 116]
    else if b == 7 then t == [92, 97]
    else if b == 8 then t == [92, 98]
    else if 32 <= b <= 126 then t == [b]
    else |t| == 4 && t[..2] == [92, 120] && IsHex(t[2], b / 16) && IsHex(t[3], b % 16)
  }

  ghost predicate AreEscapes(s: bytes, t: bytes) {
    if s == [] then t == [] else exists k: nat :: k <= |t| && IsEscape(s[0], t[..k]) && AreEscapes(s[1..], t[k..])
  }

  lemma {:induction false} InnerEscapes(s: bytes)
    ensures AreEscapes(s, Inner(s))
  {
    if s != [] {
      var t, k := Inner(s), |QuoteByte(s[0])|;
      InnerEscapes(s[1..]);
      assert t[..k] == QuoteByte(s[0]) && t[k..] == Inner(s[1..]);
      assert IsEscape(s[0], QuoteByte(s[0]));
    }
  }

  method CatRepr(s: bytes, p: bytes) returns (r: bytes)
    ensures r == s + Quote(p)
    ensures exists t :: AreEscapes(p, t) && r == s + [34] + t + [34]
  {
    r := s + [QUOTE];
    for i := 0 to |p|
      invariant r + Inner(p[i..]) == s + [QUOTE] + Inner(p)
    {
      assert p[i..][1..] == p[i + 1..];
      Regroup(r, QuoteByte(p[i]), Inner(p[i + 1..]));
      r := r + QuoteByte(p[i]);
    }
    assert p[|p|..] == [] && r == s + [QUOTE] + Inner(p);
    r := r + [QUOTE];
    assert s + [QUOTE] + Inner(p) + [QUOTE] == s + Quote(p);
    QuoteEscapes(s, p);
  }

  lemma QuoteEscapes(s: bytes, p: bytes)
    ensures exists t :: AreEscapes(p, t) && s + Quote(p) == s + [34] + t + [34]
  {
    InnerEscapes(p);
    assert s + Quote(p) == s + [34] + Inner(p) + [34];
  }

  // ------------------------------------------------------------ reading

  /** The first character of a C string: its terminator when nothing is left. */
  function Head(s: bytes): byte {
    if s == [] then NUL else s[0]
  }

  function Unescape(c: byte): byte {
    if c == LETTER_N then LF
    else if c == LETTER_R then CR
    else if c == LETTER_T then TAB
    else if c == LETTER_B then BACKSPACE
    else if c == LETTER_A then BELL
    else c
  }

  datatype Step = Failed | Done(rest: bytes) | Char(c: byte, rest: bytes) | Open(rest: bytes)

  /** What the next character of an argument means, inside quotes or outside. */
  function Meaning(s: bytes, inq: bool): (r: Step)
    ensures r.Char? || r.Open? ==> |r.rest| < |s|
    ensures r.Done? ==> |r.rest| <= |s| && (s != [] && s[0] != NUL ==> |r.rest| < |s|)
    ensures !r.Failed? ==> r.rest == s[|s| - |r.rest|..]
  {
    var c := Head(s);
    if inq then
      if c == BACKSLASH && Head(s[1..]) != NUL then Char(Unescape(s[1]), s[2..])
      else if c == QUOTE then
        if Head(s[1..]) != NUL && !IsSpace(s[1]) then Failed else Done(s[1..])
      else if c == NUL then Failed
      else Char(c, s[1..])
    else
      if c == NUL then Done(s)
      else if c == SPACE || c == LF || c == CR || c == TAB then Done(s[1..])
      else if c == QUOTE then Open(s[1..])
      else Char(c, s[1..])
  }

  /** An argument and what follows it. */
  datatype Cut = NoCut | Cut(arg: bytes, rest: bytes)

  function Token(s: bytes, inq: bool, current: bytes): (r: Cut)
    ensures r.Cut? ==> |r.rest| <= |s| && (s != [] && s[0] != NUL ==> |r.rest| < |s|)
    decreases |s|
  {
    match Meaning(s, inq)
    case Failed => NoCut
    case Done(rest) => Cut(current, rest)
    case Char(c, rest) => Token(rest, inq, current + [c])
    case Open(rest) => Token(rest, true, current)
  }

  function SkipBlanks(s: bytes): (r: bytes)
    ensures |r| <= |s| && !IsSpace(Head(r))
  {
    if Head(s) != NUL && IsSpace(s[0]) then SkipBlanks(s[1..]) else s
  }

  /** The arguments of a line; None when a quote is not closed or not followed by a space. */
  function Args(s: bytes): Option<seq<bytes>>
    decreases |s|
  {
    var t := SkipBlanks(s);
    if Head(t) == NUL then Some([]) else
      match Token(t, false, [])
      case NoCut => None
      case Cut(arg, rest) => Prepend([arg], Args(rest))
  }

  function Prepend(front: seq<bytes>, rest: Option<seq<bytes>>): Option<seq<bytes>> {
    match rest
    case None => None
    case Some(more) => Some(front + more)
  }

  lemma PrependTwice(a: seq<bytes>, b: seq<bytes>, rest: Option<seq<bytes>>)
    ensures Prepend(a, Prepend(b, rest)) == Prepend(a + b, rest)
  {
    match rest
    case None =>
    case Some(more) => assert a + (b + more) == a + b + more;
  }

  /** The character at p: the buffer is followed by its terminator. */
  function CharAt(line: bytes, p: nat): (c: byte)
    requires p <= |line|
    ensures c == Head(line[p..])
  {
    if p < |line| then line[p] else NUL
  }

  /** What one round of the inner loop found at p0. */
  ghost predicate Looked(line: bytes, p0: nat, inq0: bool, ok: bool, done: bool, inq: bool, add: bytes, p: nat) {
    && p0 <= p <= |line|
    && match Meaning(line[p0..], inq0)
       case Failed => !ok
       case Done(rest) => ok && done && add == [] && rest == line[p..]
       case Char(c, rest) => ok && !done && inq == inq0 && add == [c] && rest == line[p..]
       case Open(rest) => ok && !done && inq && add == [] && rest == line[p..]
  }

  /** Where the inner loop is: the argument so far, and how it goes on. */
  ghost predicate Within(line: bytes, p0: nat, p: nat, inq: bool, current: bytes, done: bool)
    requires p0 <= |line| && p <= |line|
  {
    Token(line[p0..], false, []) == if done then Cut(current, line[p..]) else Token(line[p..], inq, current)
  }

  lemma TokenRound(line: bytes, p0: nat, p: nat, inq: bool, current: bytes, ok: bool, done: bool, inq': bool, add: bytes, p': nat)
    requires p0 <= |line| && Looked(line, p, inq, ok, done, inq', add, p') && Within(line, p0, p, inq, current, false)
    ensures if ok then Within(line, p0, p', inq', current + add, done) else Token(line[p0..], false, []) == NoCut
  {
    assert add == [] ==> current + add == current;
  }

  /** One round of the inner loop: what to add, where to go on. It never looks past the terminator. */
  method Look(line: bytes, p0: nat, inq0: bool) returns (ok: bool, done: bool, inq: bool, add: bytes, p: nat)
    requires p0 <= |line|
    ensures p0 <= p <= |line| && (ok && !done ==> p > p0) && (ok && CharAt(line, p0) != NUL ==> p > p0)
    ensures Looked(line, p0, inq0, ok, done, inq, add, p)
  {
    ok, done, inq, add, p := true, false, inq0, [], p0;
    ghost var s := line[p0..];
    assert p0 < |line| ==> s[1..] == line[p0 + 1..];
    assert p0 + 1 < |line| ==> s[2..] == line[p0 + 2..];
    if inq {
      if CharAt(line, p) == BACKSLASH && CharAt(line, p + 1) != NUL {
        p := p + 1;
        add := [Unescape(line[p])];
      } else if CharAt(line, p) == QUOTE {
        if CharAt(line, p + 1) != NUL && !IsSpace(line[p + 1]) {
          ok := false;
          return;
        }
        done := true;
      } else if CharAt(line, p) == NUL {
        ok := false;
        return;
      } else {
        add := [line[p]];
      }
    } else {
      var c := CharAt(line, p);
      if c == SPACE || c == LF || c == CR || c == TAB || c == NUL {
        done := true;
      } else if c == QUOTE {
        inq := true;
      } else {
        add := [c];
      }
    }
    if CharAt(line, p) != NUL {
      p := p + 1;
    }
  }

  /** The inner loop of sdssplitargs. */
  method GetToken(line: bytes, p0: nat) returns (ok: bool, current: bytes, p: nat)
    requires p0 <= |line|
    ensures p0 <= p <= |line| && (ok && CharAt(line, p0) != NUL ==> p > p0)
    ensures Token(line[p0..], false, []) == if ok then Cut(current, line[p..]) else NoCut
  {
    ok, current, p := true, [], p0;
    var inq, done := false, false;
    while !done
      invariant p0 <= p <= |line| && (p == p0 && CharAt(line, p0) != NUL ==> !done)
      invariant Within(line, p0, p, inq, current, done)
      decreases !done, |line| - p
    {
      var add, inq', p';
      ok, done, inq', add, p' := Look(line, p, inq);
      TokenRound(line, p0, p, inq, current, ok, done, inq', add, p');
      inq, p := inq', p';
      if !ok {
        return;
      }
      current := current + add;
    }
  }

  method SplitArgs(line: bytes) returns (r: Option<seq<bytes>>)
    ensures r == Args(line)
  {
    var p := 0;
    var vector: seq<bytes> := [];
    assert line[0..] == line;
    PrependNothing(Args(line));
    while true
      invariant p <= |line| && Args(line) == Prepend(vector, Args(line[p..]))
      decreases |line| - p
    {
      ghost var was := p;
      while CharAt(line, p) != NUL && IsSpace(CharAt(line, p))
        invariant was <= p <= |line| && SkipBlanks(line[was..]) == SkipBlanks(line[p..])
        decreases |line| - p
      {
        assert line[p..][1..] == line[p + 1..];
        p := p + 1;
      }
      if CharAt(line, p) == NUL {
        assert vector + [] == vector;
        return Some(vector);
      }
      var ok, current, q := GetToken(line, p);
      if !ok {
        return None;
      }
      PrependTwice(vector, [current], Args(line[q..]));
      vector := vector + [current];
      p := q;
    }
  }

  lemma PrependNothing(r: Option<seq<bytes>>)
    ensures Prepend([], r) == r
  {
    match r
    case None =>
    case Some(more) => assert [] + more == more;
  }

  // ------------------------------------------------------------ round trip

  /** The bytes sdssplitargs can read back: the others are written with an escape it does not decode. */
  predicate Quotable(b: byte) {
    IsPrint(b) || b == LF || b == CR || b == TAB || b == BELL || b == BACKSPACE
  }

  /** What comes back for one byte. */
  function ByteBack(b: byte): bytes {
    if Quotable(b) then [b] else [LETTER_X, HexDigit(b / 16), HexDigit(b % 16)]
  }

  function Back(s: bytes): bytes {
    if s == [] then [] else ByteBack(s[0]) + Back(s[1..])
  }

  function BackAll(args: seq<bytes>): seq<bytes> {
    if args == [] then [] else [Back(args[0])] + BackAll(args[1..])
  }

  lemma ByteRead(b: byte, tail: bytes, current: bytes)
    ensures Token(QuoteByte(b) + tail, true, current) == Token(tail, true, current + ByteBack(b))
  {
    if !Quotable(b) {
      HexRead(b, tail, current);
    } else if QuoteByte(b) == [b] {
      assert ([b] + tail)[1..] == tail;
      PlainRead([b] + tail, current);
    } else {
      var s := QuoteByte(b) + tail;
      assert s[2..] == tail && Unescape(s[1]) == b;
      EscapeRead(s, current);
    }
  }

  lemma HexRead(b: byte, tail: bytes, current: bytes)
    requires !Quotable(b)
    ensures Token(QuoteByte(b) + tail, true, current) == Token(tail, true, current + ByteBack(b))
  {
    var h, l := HexDigit(b / 16), HexDigit(b % 16);
    HexSkips(QuoteByte(b) + tail, h, l, current);
    assert (QuoteByte(b) + tail)[4..] == tail;
  }

  lemma HexSkips(s: bytes, h: byte, l: byte, current: bytes)
    requires |s| >= 4 && s[0] == BACKSLASH && s[1] == LETTER_X && s[2] == h && s[3] == l && Plain(h) && Plain(l)
    ensures Token(s, true, current) == Token(s[4..], true, current + [LETTER_X, h, l])
  {
    var t, c := s[2..], current + [LETTER_X];
    assert t[2..] == s[4..] && c + [h, l] == current + [LETTER_X, h, l];
    EscapeRead(s, current);
    PlainTwice(t, c);
  }

  lemma EscapeRead(s: bytes, current: bytes)
    requires |s| >= 2 && s[0] == BACKSLASH && s[1] != NUL
    ensures Token(s, true, current) == Token(s[2..], true, current + [Unescape(s[1])])
  {
    assert Meaning(s, true) == Char(Unescape(s[1]), s[2..]);
  }

  predicate Plain(c: byte) {
    c != BACKSLASH && c != QUOTE && c != NUL
  }

  lemma PlainRead(s: bytes, current: bytes)
    requires |s| >= 1 && Plain(s[0])
    ensures Token(s, true, current) == Token(s[1..], true, current + [s[0]])
  {
    assert Meaning(s, true) == Char(s[0], s[1..]);
  }

  lemma PlainTwice(s: bytes, current: bytes)
    requires |s| >= 2 && Plain(s[0]) && Plain(s[1])
    ensures Token(s, true, current) == Token(s[2..], true, current + [s[0], s[1]])
  {
    PlainRead(s, current);
    PlainRead(s[1..], current + [s[0]]);
    assert s[1..][1..] == s[2..] && current + [s[0]] + [s[1]] == current + [s[0], s[1]];
  }

  lemma {:induction false} InnerRead(s: bytes, tail: bytes, current: bytes)
    ensures Token(Inner(s) + tail, true, current) == Token(tail, true, current + Back(s))
    decreases |s|
  {
    if s == [] {
      assert Inner(s) + tail == tail && current + Back(s) == current;
    } else {
      Regroup(QuoteByte(s[0]), Inner(s[1..]), tail);
      ByteRead(s[0], Inner(s[1..]) + tail, current);
      InnerRead(s[1..], tail, current + ByteBack(s[0]));
      Regroup(current, ByteBack(s[0]), Back(s[1..]));
    }
  }

  /** A quoted argument is read up to its closing quote, if a blank or the end follows; otherwise the line is refused. */
  lemma QuoteRead(s: bytes, tail: bytes)
    ensures Token(Quote(s) + tail, false, []) ==
              if Head(tail) == NUL || IsSpace(Head(tail)) then Cut(Back(s), tail) else NoCut
  {
    var line, close := Quote(s) + tail, [QUOTE] + tail;
    assert line[1..] == Inner(s) + close && line[0] == QUOTE;
    assert Meaning(line, false) == Open(Inner(s) + close);
    InnerRead(s, close, []);
    assert close[1..] == tail && [] + Back(s) == Back(s);
    assert Meaning(close, true) == if Head(tail) == NUL || IsSpace(Head(tail)) then Done(tail) else Failed;
  }

  /** A quote that is never closed. */
  lemma Unterminated(s: bytes)
    ensures Args([QUOTE] + Inner(s)) == None
  {
    var line := [QUOTE] + Inner(s);
    assert line[1..] == Inner(s) + [];
    InnerRead(s, [], []);
  }

  /** The quoted arguments with single spaces between them. */
  function Line(args: seq<bytes>): bytes {
    if args == [] then [] else if |args| == 1 then Quote(args[0]) else Quote(args[0]) + ([SPACE] + Line(args[1..]))
  }

  lemma {:induction false} LineRead(args: seq<bytes>)
    ensures Args(Line(args)) == Some(BackAll(args))
    decreases |args|
  {
    if args != [] {
      var tail := if |args| == 1 then [] else [SPACE] + Line(args[1..]);
      assert Line(args) == Quote(args[0]) + tail;
      QuoteRead(args[0], tail);
      LineRead(args[1..]);
      if |args| > 1 {
        assert tail[1..] == Line(args[1..]);
        BlankFirst(Line(args[1..]));
      }
    }
  }

  lemma BlankFirst(s: bytes)
    ensures Args([SPACE] + s) == Args(s)
  {
    assert ([SPACE] + s)[1..] == s;
  }

  ghost predicate AllQuotable(args: seq<bytes>) {
    forall s :: s in args ==> Readable(s)
  }

  ghost predicate Readable(s: bytes) {
    forall b :: b in s ==> Quotable(b)
  }

  lemma {:induction false} BackSame(s: bytes)
    ensures |Back(s)| >= |s| && (Back(s) == s <==> Readable(s)) && (!Readable(s) ==> |Back(s)| > |s|)
  {
    if s != [] {
      BackSame(s[1..]);
      assert s == [s[0]] + s[1..];
      if Quotable(s[0]) {
        assert Back(s)[1..] == Back(s[1..]);
      }
    }
  }

  lemma {:induction false} BackAllSame(args: seq<bytes>)
    ensures BackAll(args) == args <==> AllQuotable(args)
  {
    if args != [] {
      var all := BackAll(args);
      BackSame(args[0]);
      BackAllSame(args[1..]);
      assert all[1..] == BackAll(args[1..]);
      assert args == [args[0]] + args[1..] && all == [Back(args[0])] + all[1..];
      assert AllQuotable(args) <==> Readable(args[0]) && AllQuotable(args[1..]);
    }
  }

  /** Quoting and splitting gives the list back exactly when all its bytes are quotable. */
  lemma QuoteUnquote(args: seq<bytes>)
    ensures Args(Line(args)) == Some(args) <==> AllQuotable(args)
  {
    LineRead(args);
    BackAllSame(args);
  }

  /** A zero byte does not come back. */
  lemma ZeroDoesNotComeBack()
    ensures Args(Line([[NUL]])) == Some([[LETTER_X, ZERO, ZERO]])
  {
    var s: bytes := [NUL];
    LineRead([s]);
    assert s[1..] == [] && [s][1..] == [];
    assert ByteBack(NUL) == [LETTER_X, ZERO, ZERO];
    assert Back(s) == ByteBack(NUL) + Back([]) == [LETTER_X, ZERO, ZERO];
    assert BackAll([s]) == [Back(s)] + BackAll([]) == [[LETTER_X, ZERO, ZERO]];
  }

  // ------------------------------------------------------------ sdsfromlonglong

  function LastOf(v: nat): byte {
    ZERO + v % 10
  }

  /** The digits of v that are still to be written; none when v is zero. */
  ghost function Lead(v: nat): bytes {
    if v == 0 then [] else Dec(v)
  }

  /** What is still to be written, and what has been, make up the numeral; there is room for what is to come. */
  ghost predicate Halfway(v: nat, out: bytes, whole: nat, room: nat) {
    Lead(v) + out == Dec(whole) && v < Pow10(room)
  }

  lemma DigitWritten(v: nat, out: bytes, whole: nat, room: nat)
    requires Halfway(v, out, whole, room) && v > 0
    ensures room > 0 && Halfway(v / 10, [LastOf(v)] + out, whole, room - 1)
  {
    OneDigitLess(v, room);
    assert Lead(v) == Lead(v / 10) + [LastOf(v)];
    Regroup(Lead(v / 10), [LastOf(v)], out);
  }

  lemma LastDigit(n: nat)
    requires n < 0x8000_0000_0000_0000
    ensures Halfway(n / 10, [LastOf(n)], n, 18)
  {
    NineteenDigits(n);
  }

  lemma AllWritten(out: bytes, whole: nat, room: nat)
    requires Halfway(0, out, whole, room)
    ensures out == Dec(whole)
  {
    assert [] + out == out;
  }

  /** In front of what is already written. */
  method Put(buf: array<byte>, p: nat, b: byte)
    requires p < buf.Length
    modifies buf
    ensures buf[p..] == [b] + old(buf[p + 1..])
  {
    buf[p] := b;
  }

  /** Writes the digits backwards from the end of a buffer of 32 bytes, which they never overrun. */
  method WriteDigits(buf: array<byte>, whole: nat) returns (p: nat)
    requires buf.Length == 32 && whole < 0x8000_0000_0000_0000
    modifies buf
    ensures 12 <= p <= 30 && buf[p + 1..] == Dec(whole)
  {
    ghost var out: bytes := [LastOf(whole)];
    LastDigit(whole);
    Put(buf, 31, LastOf(whole));
    var v: nat := whole / 10;
    p := 30;
    while v != 0
      invariant 12 <= p <= 30 && buf[p + 1..] == out && Halfway(v, out, whole, p - 12)
      decreases v
    {
      DigitWritten(v, out, whole, p - 12);
      Put(buf, p, LastOf(v));
      out := [LastOf(v)] + out;
      v := v / 10;
      p := p - 1;
    }
    AllWritten(out, whole, p - 12);
  }

  method FromLongLong(value: int) returns (text: bytes)
    requires -0x8000_0000_0000_0000 < value < 0x8000_0000_0000_0000
    ensures text == IntDec(value) && Number(text) == value
  {
    var buf := new byte[32](_ => 0);
    var p := WriteDigits(buf, if value < 0 then -value else value);
    if value < 0 {
      Put(buf, p, MINUS);
      p := p - 1;
    }
    p := p + 1;
    text := buf[p..];
    NumberOfIntDec(value);
  }

  lemma OneDigitLess(v: nat, k: nat)
    requires 0 < v < Pow10(k)
    ensures k > 0 && v / 10 < Pow10(k - 1)
  {
  }

  lemma NineteenDigits(v: nat)
    requires v < 0x8000_0000_0000_0000
    ensures v < Pow10(19) && v / 10 < Pow10(18)
  {
    assert Pow10(4) == 10000;
    assert Pow10(8) == 100000000;
    assert Pow10(12) == 1000000000000;
    assert Pow10(16) == 10000000000000000;
    assert Pow10(19) == 10000000000000000000;
  }
}
