/**
 The Redis serialization protocol as a one-shot recursive parser, with the leniencies of hiredis:
 the two bytes after a bulk string are not inspected, a malformed number reads as -1, and an array
 may be nested at most eight levels deep. It is the reference the incremental reader is proved against.
 */
module Resp {
  import opened Bytes
  import opened Decimal

  datatype Kind = ErrorKind | StatusKind | IntegerKind | StringKind | ArrayKind

  /** Hollow is what a multi-bulk header below -1 builds: an array object with that count and no elements. */
  datatype Reply =
    | Status(text: bytes)
    | Error(text: bytes)
    | Integer(n: int)
    | Str(text: bytes)
    | Nil
    | Array(items: seq<Reply>)
    | Hollow(count: int)

  datatype Fault = BadType(b: byte) | TooDeep

  datatype Outcome = Done(reply: Reply, rest: bytes) | More | Bad(fault: Fault)

  datatype Items = AllItems(items: seq<Reply>, rest: bytes) | ItemsMore | ItemsBad(fault: Fault)

  /** Everything a whole stream yields: its replies in order, then the fault that ended it, if any. */
  datatype Stream = Stream(replies: seq<Reply>, fault: Option<Fault>)

  /** The deepest slot of the reader's nine-slot task stack; no array header is accepted there. */
  const MAX_DEPTH: nat := 8

  function KindOf(b: byte): Option<Kind> {
    if b == MINUS then Some(ErrorKind)
    else if b == PLUS then Some(StatusKind)
    else if b == COLON then Some(IntegerKind)
    else if b == DOLLAR then Some(StringKind)
    else if b == STAR then Some(ArrayKind)
    else None
  }

  predicate CrlfAt(s: bytes, i: int) {
    0 <= i && i + 1 < |s| && s[i] == CR && s[i + 1] == LF
  }

  /** The position of the first CR LF pair. */
  function Crlf(s: bytes): (r: Option<nat>)
    ensures r.Some? ==> CrlfAt(s, r.value) && forall j :: 0 <= j < r.value ==> !CrlfAt(s, j)
    ensures r.None? ==> forall j :: !CrlfAt(s, j)
  {
    if |s| < 2 then None
    else if s[0] == CR && s[1] == LF then Some(0)
    else
      var r := Crlf(s[1..]);
      assert forall j :: 1 <= j ==> (CrlfAt(s, j) <==> CrlfAt(s[1..], j - 1));
      if r.None? then None else Some(r.value + 1)
  }

  lemma CrlfIs(s: bytes, i: nat)
    requires CrlfAt(s, i) && forall j :: 0 <= j < i ==> !CrlfAt(s, j)
    ensures Crlf(s) == Some(i)
  {
    assert CrlfAt(s, i);
  }

  /** A line found in a buffer is the line found in every longer buffer. */
  lemma CrlfExtend(s: bytes, x: bytes)
    requires Crlf(s).Some?
    ensures Crlf(s + x) == Crlf(s)
    ensures (s + x)[..Crlf(s).value] == s[..Crlf(s).value]
    ensures (s + x)[Crlf(s).value + 2..] == s[Crlf(s).value + 2..] + x
  {
    var i := Crlf(s).value;
    assert forall j :: 0 <= j < i ==> (CrlfAt(s + x, j) <==> CrlfAt(s, j));
    CrlfIs(s + x, i);
  }

  /** One item, type byte included, at the given nesting depth. */
  function Parse(s: bytes, depth: nat): (o: Outcome)
    ensures o.Done? ==> |o.rest| < |s|
    decreases |s|, 0, 0
  {
    if s == [] then More
    else match KindOf(s[0])
      case None => Bad(BadType(s[0]))
      case Some(kind) => Body(kind, s[1..], depth)
  }

  /** What follows the type byte of one item. */
  function Body(kind: Kind, s: bytes, depth: nat): (o: Outcome)
    ensures o.Done? ==> |o.rest| < |s|
    decreases |s|, 1, 0
  {
    if kind.ArrayKind? && depth >= MAX_DEPTH then Bad(TooDeep)
    else match Crlf(s)
      case None => More
      case Some(i) =>
        var text, rest := s[..i], s[i + 2..];
        var n := Number(text);
        match kind
        case ErrorKind => Done(Error(text), rest)
        case StatusKind => Done(Status(text), rest)
        case IntegerKind => Done(Integer(n), rest)
        case StringKind =>
          if n < 0 then Done(Nil, rest)
          else if n + 2 <= |rest| then Done(Str(rest[..n]), rest[n + 2..])
          else More
        case ArrayKind =>
          if n == -1 then Done(Nil, rest)
          else if n < 0 then Done(Hollow(n), rest)
          else match ParseItems(rest, n, depth + 1)
            case AllItems(items, tail) => Done(Array(items), tail)
            case ItemsMore => More
            case ItemsBad(f) => Bad(f)
  }

  /** The next n items of an array. */
  function ParseItems(s: bytes, n: nat, depth: nat): (o: Items)
    ensures o.AllItems? ==> |o.rest| <= |s| && |o.items| == n
    decreases |s|, 2, n
  {
    if n == 0 then AllItems([], s)
    else match Parse(s, depth)
      case More => ItemsMore
      case Bad(f) => ItemsBad(f)
      case Done(r, rest) =>
        match ParseItems(rest, n - 1, depth)
        case ItemsMore => ItemsMore
        case ItemsBad(f) => ItemsBad(f)
        case AllItems(items, tail) => AllItems([r] + items, tail)
  }

  /** Every reply of a byte stream, until it runs dry or a fault ends it. */
  function ParseAll(s: bytes): Stream
    decreases |s|
  {
    match Parse(s, 0)
    case More => Stream([], None)
    case Bad(f) => Stream([], Some(f))
    case Done(r, rest) => Prepend([r], ParseAll(rest))
  }

  function Prepend(replies: seq<Reply>, s: Stream): Stream {
    Stream(replies + s.replies, s.fault)
  }

  // ---------------------------------------------------------------- resuming

  /** An array under construction: its announced length and the elements it already has. */
  datatype Frame = Frame(total: nat, done: seq<Reply>)

  ghost predicate FrameOk(f: Frame) {
    |f.done| < f.total
  }

  ghost predicate FramesOk(frames: seq<Frame>) {
    forall k :: 0 <= k < |frames| ==> FrameOk(frames[k])
  }

  /** The recursive parser interrupted inside the arrays `frames`, before or after a type byte, and run on s. */
  ghost function Resume(frames: seq<Frame>, kind: Option<Kind>, s: bytes): (o: Outcome)
    requires FramesOk(frames)
    ensures o.Done? ==> |o.rest| < |s|
  {
    match (if kind.None? then Parse(s, |frames|) else Body(kind.value, s, |frames|))
    case Done(r, rest) => Plug(frames, r, rest)
    case More => More
    case Bad(f) => Bad(f)
  }

  /** A finished item handed to the innermost open array, the rest of the parse run on `rest`. */
  ghost function Plug(frames: seq<Frame>, r: Reply, rest: bytes): (o: Outcome)
    requires FramesOk(frames)
    ensures o.Done? ==> |o.rest| <= |rest|
    decreases |frames|
  {
    if frames == [] then Done(r, rest)
    else
      var m := |frames| - 1;
      var done := frames[m].done + [r];
      assert FrameOk(frames[m]);
      match ParseItems(rest, frames[m].total - |done|, |frames|)
      case AllItems(items, tail) => Plug(frames[..m], Array(done + items), tail)
      case ItemsMore => More
      case ItemsBad(f) => Bad(f)
  }

  /** The stream an interrupted parse has yet to yield. */
  ghost function AllFrom(frames: seq<Frame>, kind: Option<Kind>, s: bytes): Stream
    requires FramesOk(frames)
  {
    Continue(Resume(frames, kind, s))
  }

  ghost function Continue(o: Outcome): Stream {
    match o
    case More => Stream([], None)
    case Bad(f) => Stream([], Some(f))
    case Done(r, rest) => Prepend([r], ParseAll(rest))
  }

  lemma StartAll(s: bytes)
    ensures ParseAll(s) == AllFrom([], None, s)
  {
  }

  lemma ResumeType(frames: seq<Frame>, s: bytes)
    requires FramesOk(frames) && s != []
    ensures KindOf(s[0]).None? ==> Resume(frames, None, s) == Bad(BadType(s[0]))
    ensures KindOf(s[0]).Some? ==> Resume(frames, None, s) == Resume(frames, KindOf(s[0]), s[1..])
  {
  }

  /** The last element of an array closes it. */
  lemma PlugCloses(frames: seq<Frame>, r: Reply, rest: bytes)
    requires FramesOk(frames) && |frames| > 0
    requires |frames[|frames| - 1].done| + 1 == frames[|frames| - 1].total
    ensures Plug(frames, r, rest) == Plug(frames[..|frames| - 1], Array(frames[|frames| - 1].done + [r]), rest)
  {
    var m := |frames| - 1;
    var done := frames[m].done + [r];
    assert done + [] == done;
  }

  ghost function Filled(frames: seq<Frame>, r: Reply): (g: seq<Frame>)
    requires |frames| > 0
    ensures |g| == |frames|
  {
    var m := |frames| - 1;
    frames[m := Frame(frames[m].total, frames[m].done + [r])]
  }

  /** Any other element leaves the parser before the next one. */
  lemma PlugContinues(frames: seq<Frame>, r: Reply, rest: bytes)
    requires FramesOk(frames) && |frames| > 0
    requires |frames[|frames| - 1].done| + 1 < frames[|frames| - 1].total
    ensures FramesOk(Filled(frames, r))
    ensures Plug(frames, r, rest) == Resume(Filled(frames, r), None, rest)
  {
    var m := |frames| - 1;
    var after := Filled(frames, r);
    assert FrameOk(frames[m]);
    assert FrameOk(after[m]) && forall k :: 0 <= k < m ==> after[k] == frames[k] && FrameOk(frames[k]);
    PlugNext(frames, r, rest);
  }

  /** One level of Plug: the elements still missing are read, and the array is handed on. */
  lemma PlugLevel(frames: seq<Frame>, r: Reply, rest: bytes, done: seq<Reply>, o: Items)
    requires FramesOk(frames) && |frames| > 0 && done == frames[|frames| - 1].done + [r]
    requires |done| <= frames[|frames| - 1].total && o == ParseItems(rest, frames[|frames| - 1].total - |done|, |frames|)
    ensures HandedOn(Plug(frames, r, rest), frames[..|frames| - 1], done, o)
  {
  }

  /** The next elements, when the first of them is there. */
  lemma ItemsLevel(rest: bytes, n: nat, depth: nat, r: Reply, rest2: bytes, o: Items)
    requires n > 0 && Parse(rest, depth) == Done(r, rest2) && o == ParseItems(rest2, n - 1, depth)
    ensures ParseItems(rest, n, depth) == if o.AllItems? then AllItems([r] + o.items, o.rest) else o
  {
  }

  lemma PlugNext(frames: seq<Frame>, r: Reply, rest: bytes)
    requires FramesOk(frames) && |frames| > 0 && FramesOk(Filled(frames, r))
    requires |frames[|frames| - 1].done| + 1 < frames[|frames| - 1].total
    ensures Plug(frames, r, rest) == Resume(Filled(frames, r), None, rest)
  {
    var p := Parse(rest, |frames|);
    if p.Done? {
      PlugAgain(frames, r, rest, p.reply, p.rest);
    }
  }

  /** The outcome of handing on an array, given what became of its missing elements. */
  ghost predicate HandedOn(p: Outcome, frames: seq<Frame>, done: seq<Reply>, o: Items)
    requires FramesOk(frames)
  {
    match o
    case AllItems(items, tail) => p == Plug(frames, Array(done + items), tail)
    case ItemsMore => p == More
    case ItemsBad(f) => p == Bad(f)
  }

  /** Whether the first missing element is counted among the elements or among the missing makes no difference. */
  lemma HandedOnSame(p: Outcome, q: Outcome, frames: seq<Frame>, done: seq<Reply>, r: Reply, o: Items)
    requires FramesOk(frames) && HandedOn(p, frames, done + [r], o)
    requires HandedOn(q, frames, done, if o.AllItems? then AllItems([r] + o.items, o.rest) else o)
    ensures p == q
  {
    if o.AllItems? {
      assert done + ([r] + o.items) == (done + [r]) + o.items;
    }
  }

  /** The next element is there: it is handed to the array that holds one element more. */
  lemma PlugAgain(frames: seq<Frame>, r: Reply, rest: bytes, r2: Reply, rest2: bytes)
    requires FramesOk(frames) && |frames| > 0 && FramesOk(Filled(frames, r))
    requires |frames[|frames| - 1].done| + 1 < frames[|frames| - 1].total
    requires Parse(rest, |frames|) == Done(r2, rest2)
    ensures Plug(frames, r, rest) == Plug(Filled(frames, r), r2, rest2)
  {
    var m, after := |frames| - 1, Filled(frames, r);
    var done := frames[m].done + [r];
    var n := frames[m].total - |done|;
    assert after[..m] == frames[..m];
    var o := ParseItems(rest2, n - 1, |frames|);
    ItemsLevel(rest, n, |frames|, r2, rest2, o);
    PlugLevel(after, r2, rest2, done + [r2], o);
    PlugLevel(frames, r, rest, done, if o.AllItems? then AllItems([r2] + o.items, o.rest) else o);
    HandedOnSame(Plug(after, r2, rest2), Plug(frames, r, rest), frames[..m], done, r2, o);
  }

  ghost predicate OpensArray(frames: seq<Frame>, s: bytes) {
    |frames| < MAX_DEPTH && Crlf(s).Some? && Number(s[..Crlf(s).value]) > 0
  }

  /** A header announcing n > 0 elements opens an array. */
  lemma ResumeOpens(frames: seq<Frame>, s: bytes)
    requires FramesOk(frames) && OpensArray(frames, s)
    ensures var i := Crlf(s).value;
            var inner := frames + [Frame(Number(s[..i]), [])];
            FramesOk(inner) && Resume(frames, Some(ArrayKind), s) == Resume(inner, None, s[i + 2..])
  {
    var i := Crlf(s).value;
    var n := Number(s[..i]);
    var inner := frames + [Frame(n, [])];
    assert FrameOk(inner[|frames|]) && forall k :: 0 <= k < |frames| ==> inner[k] == frames[k] && FrameOk(frames[k]);
    assert inner[..|frames|] == frames;
    var items := ParseItems(s[i + 2..], n, |inner|);
    assert Body(ArrayKind, s, |frames|) ==
           match items
           case AllItems(all, tail) => Done(Array(all), tail)
           case ItemsMore => More
           case ItemsBad(f) => Bad(f);
    match Parse(s[i + 2..], |inner|)
    case More => assert items == ItemsMore;
    case Bad(f) => assert items == ItemsBad(f);
    case Done(r, rest) =>
      assert inner[|frames|].done + [r] == [r];
      match ParseItems(rest, n - 1, |inner|)
      case ItemsMore => assert items == ItemsMore;
      case ItemsBad(f) => assert items == ItemsBad(f);
      case AllItems(others, tail) => assert items == AllItems([r] + others, tail);
  }

  // ---------------------------------------------------------------- more input

  /** An outcome that more input cannot change, with that input behind it. */
  function Followed(o: Outcome, x: bytes): Outcome {
    match o
    case Done(r, rest) => Done(r, rest + x)
    case _ => o
  }

  function ItemsFollowed(o: Items, x: bytes): Items {
    match o
    case AllItems(items, rest) => AllItems(items, rest + x)
    case _ => o
  }

  /** An item that is complete or wrong stays what it is, whatever follows it. */
  lemma {:induction false} ParseExtend(s: bytes, depth: nat, x: bytes)
    requires !Parse(s, depth).More?
    ensures Parse(s + x, depth) == Followed(Parse(s, depth), x)
    decreases |s|, 0, 0
  {
    if KindOf(s[0]).Some? {
      assert (s + x)[1..] == s[1..] + x;
      BodyExtend(KindOf(s[0]).value, s[1..], depth, x);
    }
  }

  lemma {:induction false} BodyExtend(kind: Kind, s: bytes, depth: nat, x: bytes)
    requires !Body(kind, s, depth).More?
    ensures Body(kind, s + x, depth) == Followed(Body(kind, s, depth), x)
    decreases |s|, 1, 0
  {
    if !(kind.ArrayKind? && depth >= MAX_DEPTH) {
      CrlfExtend(s, x);
      var i := Crlf(s).value;
      var n := Number(s[..i]);
      var rest := s[i + 2..];
      assert (s + x)[..i] == s[..i] && (s + x)[i + 2..] == rest + x;
      if kind.StringKind? && n >= 0 {
        BulkExtend(rest, n, x);
      } else if kind.ArrayKind? && n >= 0 {
        ItemsExtend(rest, n, depth + 1, x);
      }
    }
  }

  lemma BulkExtend(rest: bytes, n: nat, x: bytes)
    requires n + 2 <= |rest|
    ensures (rest + x)[..n] == rest[..n] && (rest + x)[n + 2..] == rest[n + 2..] + x
  {
  }

  lemma {:induction false} ItemsExtend(s: bytes, n: nat, depth: nat, x: bytes)
    requires !ParseItems(s, n, depth).ItemsMore?
    ensures ParseItems(s + x, n, depth) == ItemsFollowed(ParseItems(s, n, depth), x)
    decreases |s|, 2, n
  {
    if n > 0 {
      ParseExtend(s, depth, x);
      match Parse(s, depth)
      case Bad(_) =>
      case Done(_, rest) => ItemsExtend(rest, n - 1, depth, x);
    }
  }

  /** The replies of a stream stay its first replies when it goes on, and a fault stays the end of it. */
  lemma {:induction false} ParseAllExtend(s: bytes, x: bytes)
    ensures ParseAll(s).replies <= ParseAll(s + x).replies
    ensures ParseAll(s).fault.Some? ==> ParseAll(s + x) == ParseAll(s)
    decreases |s|
  {
    if !Parse(s, 0).More? {
      ParseExtend(s, 0, x);
      match Parse(s, 0)
      case Bad(_) =>
      case Done(_, rest) => ParseAllExtend(rest, x);
    }
  }
}
