/** The incremental reply reader of hiredis.c: it can stop at any byte and go on with the next feed. */
module Reader {
  import opened Bytes
  import opened Decimal
  import opened Resp
  import opened ReplyArena
  import opened ReaderSim
  import opened Sds

  /** Finds CR LF. The byte after the last one is the NUL that ends every sds buffer. */
  method SeekNewline(s: bytes) returns (r: Option<nat>)
    ensures r == Crlf(s)
  {
    var pos, len := 0, |s| - 1;
    while pos < len
      invariant 0 <= pos <= |s|
      invariant forall j :: 0 <= j < pos ==> !CrlfAt(s, j)
    {
      while pos < len && s[pos] != CR
        invariant pos <= len
        invariant forall j :: 0 <= j < pos ==> !CrlfAt(s, j)
      {
        pos := pos + 1;
      }
      if s[pos] != CR {
        return None;
      }
      var next := if pos + 1 < |s| then s[pos + 1] else NUL;
      if next == LF {
        CrlfIs(s, pos);
        return Some(pos);
      }
      pos := pos + 1;
    }
    return None;
  }

  /** Reads a number that is known to be followed by a CR, at i or before. */
  method ReadLongLong(s: bytes, ghost i: nat) returns (n: int)
    requires i < |s| && s[i] == CR
    ensures n == Number(s[..i])
  {
    var v, mult, k := 0, 1, 0;
    if s[0] == MINUS {
      mult := -1;
      k := 1;
    } else if s[0] == PLUS {
      k := 1;
    }
    ghost var text := s[k..i];
    assert i > 0 ==> s[..i][0] == s[0] && s[..i][1..] == s[1..i];
    while s[k] != CR
      invariant k <= i && v >= 0
      invariant Digits(s[k..i], v) == Digits(text, 0)
      decreases i - k
    {
      assert s[k..i][1..] == s[k + 1..i];
      var dec := s[k] - ZERO;
      k := k + 1;
      if 0 <= dec < 10 {
        v := v * 10;
        v := v + dec;
      } else {
        return -1;
      }
    }
    return mult * v;
  }

  /** The bulk string at the front of the unread bytes, if it is all there. */
  method ReadBulk(p: bytes, ghost depth: nat) returns (found: bool, reply: Reply, bytelen: nat)
    ensures Body(StringKind, p, depth) == if found && bytelen <= |p| then Done(reply, p[bytelen..]) else More
    ensures found ==> bytelen <= |p| && !reply.Array?
  {
    found, reply, bytelen := false, Nil, 0;
    var r := SeekNewline(p);
    if r.None? {
      return;
    }
    var s := r.value;
    bytelen := s + 2;
    var n := ReadLongLong(p, s);
    if n >= 0 {
      bytelen := bytelen + n + 2;
      if bytelen > |p| {
        return;
      }
      reply := Str(p[s + 2..s + 2 + n]);
      assert p[s + 2..][..n] == p[s + 2..s + 2 + n] && p[s + 2..][n + 2..] == p[bytelen..];
    }
    found := true;
  }

  class Reader {
    var err: Option<Fault>
    var buf: Option<Sds>
    var pos: nat
    var len: nat
    const maxbuf: nat
    const rstack: array<Task>
    var ridx: int
    var reply: Option<nat>
    /** The heap of reply objects. */
    var arena: Arena

    /** All bytes ever fed, and those the reader has consumed. */
    ghost var fed: bytes
    ghost var taken: bytes
    /** The arrays the reader is inside of. */
    ghost var frames: seq<Frame>
    /** The objects handed to the caller so far, and the replies they stand for. */
    ghost var handed: seq<nat>
    ghost var emitted: seq<Reply>
    /** Objects below `base` belong to replies already handed out. */
    ghost var base: nat

    ghost function Unread(): bytes
      requires Buffered()
      reads this`buf, this`pos, this`len, this`fed, this`taken
    {
      buf.value.text[pos..]
    }

    /** The buffer agrees with its cursor, and no byte has been lost or made up. */
    ghost predicate Buffered()
      reads this`buf, this`pos, this`len, this`fed, this`taken
    {
      && buf.Some?
      && len == |buf.value.text|
      && pos <= len
      && fed == taken + buf.value.text[pos..]
    }

    /** Replies handed out earlier still stand for what they stood for then. */
    ghost predicate HandedIntact()
      reads this`base, this`arena, this`handed, this`emitted
    {
      && base <= |arena|
      && |handed| == |emitted|
      && forall i :: 0 <= i < |handed| ==>
           Complete(arena, handed[i], base) && Reify(arena, handed[i]) == emitted[i]
    }

    ghost predicate Shape()
      reads this`base, this`arena, this`handed, this`emitted
    {
      rstack.Length == STACK_SIZE && HandedIntact()
    }

    /** In the middle of a reply. */
    ghost predicate Reading()
      reads this, rstack
    {
      && Shape() && Buffered() && err == None
      && 0 <= ridx < STACK_SIZE && ridx == |frames|
      && Chain(rstack[..], arena, base, frames, None)
      && (ridx > 0 ==> reply == rstack[0].obj)
      && (ridx == 0 ==> reply == None)
      && SimReading(fed, emitted, frames, rstack[ridx].kind, Unread())
    }

    /** A whole reply has been read and not yet handed out. */
    ghost predicate Ready()
      reads this
    {
      && Shape() && Buffered() && err == None
      && ridx == -1 && frames == []
      && reply.Some? && base <= reply.value
      && Complete(arena, reply.value, |arena|)
      && SimFinished(fed, emitted, [], Reify(arena, reply.value), Unread())
    }

    /** Between replies. */
    ghost predicate Idle()
      reads this
    {
      && Shape() && Buffered() && err == None
      && ridx == -1 && frames == [] && reply == None
      && SimIdle(fed, emitted, Unread())
    }

    /** After a protocol error: the buffer is gone and the stack is reset, for good. */
    ghost predicate Faulted()
      reads this
    {
      && Shape()
      && err.Some? && buf == None && pos == 0 && len == 0
      && ridx == -1 && reply == None
      && SimFault(fed, emitted, err.value)
    }

    /** Waiting for bytes in the middle of a reply: an array header too deep would have been refused at once. */
    ghost predicate Paused()
      reads this, rstack
    {
      Reading() && (rstack[ridx].kind == Some(ArrayKind) ==> ridx < MAX_DEPTH)
    }

    ghost predicate Valid()
      reads this, rstack
    {
      Idle() || Paused() || Faulted()
    }

    /** The reader needs more bytes before it can do anything. */
    ghost predicate Starved()
      requires Idle() || Reading()
      reads this, rstack
    {
      if ridx == -1 then Parse(Unread(), 0).More?
      else Resume(frames, rstack[ridx].kind, Unread()).More?
    }

    constructor (maxbuf: nat)
      ensures Idle() && fresh(rstack)
      ensures fed == [] && taken == [] && emitted == [] && handed == []
    {
      err, buf, pos, len, this.maxbuf := None, Some(EMPTY), 0, 0, maxbuf;
      rstack := new Task[STACK_SIZE](_ => Task(None, 0, 0, None, None));
      ridx, reply, arena := -1, None, [];
      fed, taken, frames, handed, emitted, base := [], [], [], [], [], 0;
      new;
      assert SimIdle([], [], []) by {
        forall x: bytes ensures ParseAll([] + x) == Prepend([], ParseAll([] + x)) {
          assert [] + ParseAll([] + x).replies == ParseAll([] + x).replies;
        }
      }
    }

    /** Appends to the buffer, replacing it first when it is idle and has grown large. */
    method Store(b: bytes)
      requires buf.Some? && len == |buf.value.text| && pos <= len
      modifies this`buf, this`pos, this`len
      ensures buf.Some? && len == |buf.value.text| && pos <= len
      ensures buf.value.text[pos..] == old(buf.value.text[pos..]) + b
    {
      if |b| >= 1 {
        if len == 0 && maxbuf != 0 && buf.value.free > maxbuf {
          buf := Some(EMPTY);
          pos := 0;
        }
        buf := Some(CatLen(buf.value, b));
        len := |buf.value.text|;
      }
    }

    /** redisReaderFeed. */
    method Feed(b: bytes) returns (ok: bool)
      requires Valid()
      modifies this
      ensures Valid()
      ensures ok == old(err.None?) && err == old(err)
      ensures fed == old(fed) + b
      ensures emitted == old(emitted) && handed == old(handed) && arena == old(arena)
      ensures ok ==> Buffered() && taken == old(taken) && Unread() == old(Unread()) + b
    {
      if err.Some? {
        SimFaultFed(fed, emitted, err.value, b);
        fed := fed + b;
        return false;
      }
      if ridx == -1 {
        SimIdleFed(fed, emitted, Unread(), b);
      } else {
        SimFed(fed, emitted, frames, rstack[ridx].kind, Unread(), b);
      }
      Buffer(b);
      return true;
    }

    /** The bytes go behind those still unread. */
    method Buffer(b: bytes)
      requires Buffered()
      modifies this`buf, this`pos, this`len, this`fed
      ensures Buffered() && fed == old(fed) + b && Unread() == old(Unread()) + b
    {
      ghost var unread := Unread();
      Store(b);
      fed := fed + b;
      assert fed == taken + (unread + b);
    }

    /** __redisReaderSetError. */
    method SetError(f: Fault)
      requires Shape() && SimFault(fed, emitted, f)
      modifies this`reply, this`buf, this`pos, this`len, this`ridx, this`err
      ensures Faulted() && err == Some(f)
    {
      reply := None;
      buf, pos, len := None, 0, 0;
      ridx := -1;
      err := Some(f);
    }

    /** create*Object: a new object, stored in the parent array at this task's index. */
    method Create(node: Node) returns (c: nat)
      requires Shape() && 0 <= ridx < STACK_SIZE && ridx == |frames|
      requires Chain(rstack[..], arena, base, frames, None)
      modifies this`arena
      ensures c == |old(arena)| && |arena| == c + 1 && arena[c] == node && base <= c
      ensures Shape() && Chain(rstack[..], arena, base, frames, Some(c))
    {
      ghost var tasks, before := rstack[..], arena;
      var cur := rstack[ridx];
      CanAttach(tasks, arena, base, frames);
      c := |arena|;
      if cur.parent.Some? {
        var o := rstack[cur.parent.value].obj.value;
        assert arena[o].ArrayNode?;
        arena := arena[o := ArrayNode(arena[o].elements[cur.idx := Some(c)])];
      }
      arena := arena + [node];
      AttachKeepsChain(tasks, before, base, frames, node, arena);
      forall i | 0 <= i < |handed|
        ensures Complete(arena, handed[i], base) && Reify(arena, handed[i]) == emitted[i]
      {
        Untouched(before, arena, handed[i], base);
      }
    }

    /** moveToNextTask, after the item at the top of the stack was created as object c0. */
    method MoveToNextTask(ghost c0: nat) returns (ghost root: nat)
      requires Shape() && Buffered() && err == None
      requires 0 <= ridx < STACK_SIZE && ridx == |frames|
      requires Chain(rstack[..], arena, base, frames, Some(c0)) && Complete(arena, c0, |arena|)
      requires SimFinished(fed, emitted, frames, Reify(arena, c0), Unread())
      modifies this`ridx, this`frames, rstack
      ensures -1 <= ridx <= old(ridx)
      ensures ridx == -1 ==>
                && (if old(ridx) == 0 then root == c0 else Some(root) == old(rstack[0].obj))
                && frames == [] && base <= root && Complete(arena, root, |arena|)
                && SimFinished(fed, emitted, [], Reify(arena, root), Unread())
      ensures ridx >= 0 ==>
                && ridx == |frames| && ridx > 0 && rstack[0].obj == old(rstack[0].obj)
                && Chain(rstack[..], arena, base, frames, None)
                && SimReading(fed, emitted, frames, rstack[ridx].kind, Unread())
    {
      ghost var c := c0;
      root := c0;
      while ridx >= 0
        invariant -1 <= ridx <= old(ridx) && ridx == |frames| && rstack[..] == old(rstack[..])
        invariant Chain(rstack[..], arena, base, frames, Some(c)) && Complete(arena, c, |arena|)
        invariant SimFinished(fed, emitted, frames, Reify(arena, c), Unread())
        invariant if ridx == old(ridx) then c == c0 else ridx >= 0 && Some(c) == old(rstack[..])[ridx].obj
        decreases ridx
      {
        ghost var v := Reify(arena, c);
        if ridx == 0 {
          root := c;
          ridx := ridx - 1;
          return;
        }
        var cur, prv := rstack[ridx], rstack[ridx - 1];
        assert Level(rstack[..], arena, base, frames, |frames| - 1, Some(c));
        assert prv.kind == Some(ArrayKind);
        if cur.idx == prv.elements - 1 {
          ChainCloses(rstack[..], arena, base, frames, c, v);
          SimCloses(fed, emitted, frames, v, Unread());
          c := rstack[ridx - 1].obj.value;
          frames := frames[..|frames| - 1];
          ridx := ridx - 1;
        } else {
          Advance(c);
          return;
        }
      }
    }

    /** The top task goes on to the next element of its array, which is not finished. */
    method Advance(ghost c: nat)
      requires 0 < ridx < STACK_SIZE == rstack.Length && ridx == |frames| && Buffered()
      requires Chain(rstack[..], arena, base, frames, Some(c)) && Complete(arena, c, |arena|)
      requires SimFinished(fed, emitted, frames, Reify(arena, c), Unread())
      requires rstack[ridx].idx != rstack[ridx - 1].elements - 1
      modifies this`frames, rstack
      ensures ridx == |frames| && rstack[0].obj == old(rstack[0].obj)
      ensures Chain(rstack[..], arena, base, frames, None)
      ensures SimReading(fed, emitted, frames, rstack[ridx].kind, Unread())
    {
      ghost var tasks, v := rstack[..], Reify(arena, c);
      assert Level(tasks, arena, base, frames, |frames| - 1, Some(c));
      var cur := rstack[ridx];
      rstack[ridx] := cur.(kind := None, elements := -1, idx := cur.idx + 1);
      ChainAdvances(tasks, arena, base, frames, c, v, rstack[..]);
      SimAdvances(fed, emitted, frames, v, Unread());
      frames := Filled(frames, v);
    }

    /** Moves the cursor over `count` bytes. */
    method Consume(count: nat)
      requires Buffered() && pos + count <= len
      modifies this`pos, this`taken
      ensures Buffered() && Unread() == old(Unread())[count..]
    {
      ghost var unread := Unread();
      assert unread == unread[..count] + unread[count..];
      taken := taken + unread[..count];
      pos := pos + count;
    }

    /** The state in which a whole item has been read and created as object c, at the top of the stack. */
    ghost predicate Finished(c: nat)
      reads this, rstack
    {
      && Shape() && Buffered() && err == None
      && 0 <= ridx < STACK_SIZE && ridx == |frames|
      && Chain(rstack[..], arena, base, frames, Some(c)) && Complete(arena, c, |arena|)
      && SimFinished(fed, emitted, frames, Reify(arena, c), Unread())
      && (ridx > 0 ==> reply == rstack[0].obj)
    }

    /** Sets the reply if this is the root object, and moves on. */
    method FinishItem(c: nat)
      requires Finished(c)
      modifies this`ridx, this`frames, this`reply, rstack
      ensures Reading() || Ready()
      ensures Unread() == old(Unread())
    {
      if ridx == 0 {
        reply := Some(c);
      }
      ghost var root := MoveToNextTask(c);
    }

    /** The outcome of one attempt at an item. */
    ghost predicate Stepped(ok: bool, before: bytes)
      reads this, rstack
    {
      if ok then (Reading() || Ready()) && |Unread()| < |before|
      else Faulted() || (Reading() && Starved())
    }

    /** An item of the current kind was read in `count` bytes and stands for the reply of `node`. */
    method CompleteItem(node: Node, count: nat, ghost kind: Kind)
      requires Reading() && rstack[ridx].kind == Some(kind) && count > 0 && pos + count <= len
      requires node.Leaf? || node == ArrayNode([])
      requires Body(kind, Unread(), |frames|) ==
               Done(if node.Leaf? then node.reply else Array([]), Unread()[count..])
      requires kind.ArrayKind? ==> Number(Unread()[..Crlf(Unread()).value]) <= 0
      modifies this`pos, this`taken, this`ridx, this`frames, this`reply, this`arena, rstack
      ensures Reading() || Ready()
      ensures |Unread()| < |old(Unread())|
    {
      SimItem(fed, emitted, frames, kind, Unread());
      Consume(count);
      var c := Create(node);
      LeafComplete(arena, c);
      FinishItem(c);
    }

    method ProcessLineItem() returns (ok: bool)
      requires Reading() && rstack[ridx].kind in {Some(ErrorKind), Some(StatusKind), Some(IntegerKind)}
      modifies this`pos, this`taken, this`ridx, this`frames, this`reply, this`arena, rstack
      ensures Stepped(ok, old(Unread()))
    {
      var cur := rstack[ridx];
      var p := buf.value.text[pos..];
      var r := SeekNewline(p);
      if r.None? {
        return false;
      }
      var i := r.value;
      var node;
      if cur.kind.value == IntegerKind {
        var n := ReadLongLong(p, i);
        node := Leaf(Integer(n));
      } else if cur.kind.value == ErrorKind {
        node := Leaf(Error(p[..i]));
      } else {
        node := Leaf(Status(p[..i]));
      }
      CompleteItem(node, i + 2, cur.kind.value);
      return true;
    }

    method ProcessBulkItem() returns (ok: bool)
      requires Reading() && rstack[ridx].kind == Some(StringKind)
      modifies this`pos, this`taken, this`ridx, this`frames, this`reply, this`arena, rstack
      ensures Stepped(ok, old(Unread()))
    {
      var found, reply, bytelen := ReadBulk(buf.value.text[pos..], |frames|);
      if !found {
        return false;
      }
      CompleteItem(Leaf(reply), bytelen, StringKind);
      return true;
    }

    method ProcessMultiBulkItem() returns (ok: bool)
      requires Reading() && rstack[ridx].kind == Some(ArrayKind)
      modifies this`pos, this`taken, this`ridx, this`frames, this`reply, this`arena, rstack
      modifies this`buf, this`len, this`err
      ensures Stepped(ok, old(Unread()))
    {
      if ridx == 8 {
        SimTooDeep(fed, emitted, frames, Unread());
        SetError(TooDeep);
        return false;
      }
      var p := buf.value.text[pos..];
      var r := SeekNewline(p);
      if r.None? {
        return false;
      }
      var i := r.value;
      var elements := ReadLongLong(p, i);
      if elements == -1 {
        CompleteItem(Leaf(Nil), i + 2, ArrayKind);
      } else if elements > 0 {
        OpenArray(elements, i);
      } else {
        CompleteItem(if elements == 0 then ArrayNode([]) else Leaf(Hollow(elements)), i + 2, ArrayKind);
      }
      return true;
    }

    /** Pushes a task for the first element of the array object obj, which the top task has just created. */
    method PushTask(obj: nat, elements: nat)
      requires 0 <= ridx < 8 && ridx == |frames| && rstack.Length == STACK_SIZE
      requires |arena| == obj + 1 && elements > 0 && arena[obj] == ArrayNode(Blank(elements))
      requires Chain(rstack[..], arena, base, frames, Some(obj)) && rstack[ridx].kind == Some(ArrayKind)
      modifies this`ridx, this`frames, rstack
      ensures ridx == old(ridx) + 1 && frames == old(frames) + [Frame(elements, [])]
      ensures Chain(rstack[..], arena, base, frames, None) && rstack[ridx].kind == None
      ensures rstack[0].obj == if old(ridx) == 0 then Some(obj) else old(rstack[0].obj)
    {
      ghost var tasks := rstack[..];
      rstack[ridx] := rstack[ridx].(elements := elements, obj := Some(obj));
      ridx := ridx + 1;
      rstack[ridx] := Task(None, -1, 0, None, Some(ridx - 1));
      ChainOpens(tasks, arena, base, frames, elements, rstack[..]);
      frames := frames + [Frame(elements, [])];
    }

    /** The array header is consumed and the object is created. */
    method CreateArray(elements: int, i: nat) returns (obj: nat)
      requires Reading() && ridx < 8 && rstack[ridx].kind == Some(ArrayKind)
      requires Crlf(Unread()) == Some(i) && elements == Number(Unread()[..i]) > 0
      modifies this`pos, this`taken, this`arena
      ensures Shape() && Buffered() && |Unread()| < |old(Unread())|
      ensures |arena| == obj + 1 && arena[obj] == ArrayNode(Blank(elements))
      ensures Chain(rstack[..], arena, base, frames, Some(obj))
      ensures SimReading(fed, emitted, frames + [Frame(elements, [])], None, Unread())
    {
      SimOpens(fed, emitted, frames, Unread());
      Consume(i + 2);
      obj := Create(ArrayNode(Blank(elements)));
    }

    /** A non-empty array: the object is created with null elements and a task for its first one is pushed. */
    method OpenArray(elements: int, i: nat)
      requires Reading() && ridx < 8 && rstack[ridx].kind == Some(ArrayKind)
      requires Crlf(Unread()) == Some(i) && elements == Number(Unread()[..i]) > 0
      modifies this`pos, this`taken, this`ridx, this`frames, this`reply, this`arena, rstack
      ensures Reading() && |Unread()| < |old(Unread())|
    {
      var obj := CreateArray(elements, i);
      EnterArray(obj, elements);
    }

    /** The task for the first element; the root object is the reply. */
    method EnterArray(obj: nat, elements: nat)
      requires Shape() && Buffered() && err == None && 0 <= ridx < 8 && ridx == |frames| && (ridx > 0 ==> reply == rstack[0].obj)
      requires |arena| == obj + 1 && elements > 0 && arena[obj] == ArrayNode(Blank(elements))
      requires Chain(rstack[..], arena, base, frames, Some(obj)) && rstack[ridx].kind == Some(ArrayKind)
      requires SimReading(fed, emitted, frames + [Frame(elements, [])], None, Unread())
      modifies this`ridx, this`frames, this`reply, rstack
      ensures Reading() && Unread() == old(Unread())
    {
      var root := ridx == 0;
      PushTask(obj, elements);
      if root {
        reply := Some(obj);
      }
    }

    /** processItem. */
    method ProcessItem() returns (ok: bool)
      requires Reading()
      modifies this`pos, this`taken, this`ridx, this`frames, this`reply, this`arena, rstack
      modifies this`buf, this`len, this`err
      ensures Stepped(ok, old(Unread()))
    {
      if rstack[ridx].kind.None? {
        ok := ReadType();
        if !ok {
          return;
        }
      }
      match rstack[ridx].kind.value {
        case StringKind => ok := ProcessBulkItem();
        case ArrayKind => ok := ProcessMultiBulkItem();
        case _ => ok := ProcessLineItem();
      }
    }

    /** The type byte of an item. */
    method ReadType() returns (ok: bool)
      requires Reading() && rstack[ridx].kind == None
      modifies this`pos, this`taken, this`ridx, this`reply, rstack
      modifies this`buf, this`len, this`err
      ensures if ok then Reading() && rstack[ridx].kind.Some? && |Unread()| < |old(Unread())|
              else Faulted() || (Reading() && Starved())
    {
      if len - pos < 1 {
        return false;
      }
      var b := buf.value.text[pos];
      SimType(fed, emitted, frames, Unread());
      var kind := KindOf(b);
      if kind.None? {
        SetError(BadType(b));
        return false;
      }
      Consume(1);
      SetKind(kind.value);
      return true;
    }

    method SetKind(kind: Kind)
      requires 0 <= ridx < rstack.Length == STACK_SIZE && ridx == |frames|
      requires Chain(rstack[..], arena, base, frames, None)
      modifies rstack
      ensures Chain(rstack[..], arena, base, frames, None)
      ensures rstack[ridx].kind == Some(kind) && (ridx > 0 ==> rstack[0].obj == old(rstack[0].obj))
    {
      ghost var tasks := rstack[..];
      rstack[ridx] := rstack[ridx].(kind := Some(kind));
      assert rstack[..] == tasks[ridx := rstack[ridx]];
      forall k | 0 <= k < |frames|
        ensures Level(rstack[..], arena, base, frames, k, None)
      {
        assert Level(tasks, arena, base, frames, k, None);
      }
    }

    /** With an empty buffer there is nothing to read, whatever the state. */
    lemma NothingLeft()
      requires (Idle() || Paused()) && len == 0
      ensures Starved() && ParseAll(fed) == Stream(emitted, None)
    {
      assert Unread() == [];
      if ridx == -1 {
        SimBegins(fed, emitted, []);
        SimStuck(fed, emitted, [], None, []);
      } else {
        SimStuck(fed, emitted, frames, rstack[ridx].kind, []);
      }
    }

    /** The first task of a new reply. */
    method StartRoot()
      requires Idle()
      modifies this`ridx, rstack
      ensures Reading() && Unread() == old(Unread())
    {
      rstack[0] := Task(None, -1, -1, None, None);
      ridx := 0;
      SimBegins(fed, emitted, Unread());
    }

    /** Drops the consumed part of the buffer once it is at least 1024 bytes. */
    method Compact()
      requires Buffered()
      modifies this`buf, this`pos, this`len
      ensures Buffered() && Unread() == old(Unread())
    {
      if pos >= 1024 {
        RangeDrops(buf.value, pos);
        buf := Some(Range(buf.value, pos, -1));
        pos := 0;
        len := |buf.value.text|;
      }
    }

    /** Gives the finished reply away: from here on its objects are the caller's. */
    method HandOut()
      requires Ready()
      modifies this`reply, this`handed, this`emitted, this`base
      ensures Idle() && Unread() == old(Unread())
      ensures handed == old(handed) + [old(reply).value]
      ensures emitted == old(emitted) + [Reify(arena, old(reply).value)]
    {
      ghost var v := Reify(arena, reply.value);
      SimEmits(fed, emitted, v, Unread());
      forall i | 0 <= i < |handed|
        ensures Complete(arena, handed[i], |arena|)
      {
        Widen(arena, handed[i], base, |arena|);
      }
      handed := handed + [reply.value];
      emitted := emitted + [v];
      base := |arena|;
      reply := None;
    }

    /** Processes items until a whole reply is there, more bytes are needed, or a fault is met. */
    method ProcessItems()
      requires Reading()
      modifies this`pos, this`taken, this`ridx, this`frames, this`reply, this`arena, rstack
      modifies this`buf, this`len, this`err
      ensures Faulted() || (Paused() && Starved()) || (Ready() && |Unread()| < |old(Unread())|)
    {
      while ridx >= 0
        invariant Reading() || (Ready() && |Unread()| < |old(Unread())|)
        invariant |Unread()| <= |old(Unread())|
        decreases |Unread()|
      {
        var ok := ProcessItem();
        if !ok {
          break;
        }
      }
    }

    /** The end of a call that met no fault: compaction, then the reply if there is one. */
    method Emit() returns (r: Option<nat>)
      requires Ready() || (Paused() && Starved())
      modifies this`buf, this`pos, this`len, this`reply, this`handed, this`emitted, this`base
      ensures Buffered() && Unread() == old(Unread())
      ensures if old(ridx) == -1
              then Idle() && r == old(reply) && handed == old(handed) + [r.value] &&
                   emitted == old(emitted) + [Reify(arena, r.value)]
              else r == None && Paused() && Starved() && handed == old(handed) && emitted == old(emitted) &&
                   ParseAll(fed) == Stream(emitted, None)
    {
      Compact();
      if ridx == -1 {
        r := reply;
        HandOut();
      } else {
        SimStuck(fed, emitted, frames, rstack[ridx].kind, Unread());
        r := None;
      }
    }

    /** What a reader in an erroneous state has emitted is all there is. */
    lemma FaultIsFinal()
      requires Faulted()
      ensures ParseAll(fed) == Stream(emitted, err)
    {
      assert fed + [] == fed;
    }

    /** At any time, what was handed out is a prefix of the replies in the bytes fed. */
    lemma EmittedIsPrefix()
      requires Valid()
      ensures emitted <= ParseAll(fed).replies
    {
      assert fed + [] == fed;
    }

    /** redisReaderGetReply. */
    method GetReply() returns (ok: bool, r: Option<nat>)
      requires Valid()
      modifies this, rstack
      ensures Valid() && fed == old(fed)
      ensures ok == err.None?
      ensures old(err.Some?) ==> err == old(err)
      ensures if r.Some? then ok && handed == old(handed) + [r.value] && emitted == old(emitted) + [Reify(arena, r.value)]
              else handed == old(handed) && emitted == old(emitted)
      ensures r.Some? ==> old(err.None?) && |Unread()| < |old(Unread())|
      ensures ok && r.None? ==> Starved() && ParseAll(fed) == Stream(emitted, None)
      ensures !ok ==> ParseAll(fed) == Stream(emitted, err)
    {
      if err.Some? {
        FaultIsFinal();
        return false, None;
      }
      if len == 0 {
        NothingLeft();
        return true, None;
      }
      if ridx == -1 {
        StartRoot();
      }
      ProcessItems();
      if err.Some? {
        FaultIsFinal();
        return false, None;
      }
      r := Emit();
      return true, r;
    }
  }
}
