/** Whole runs of the reader: any interleaving of feeds and attempts to get a reply. */
module ReaderRuns {
  import opened Bytes
  import opened Resp
  import opened RespGrammar
  import opened RespExact
  import opened ReplyArena
  import opened Reader
  import opened ReaderWhole
  import opened Format

  datatype Op = Feed(chunk: bytes) | Get

  /** All the bytes a schedule feeds, in order. */
  function FedBy(ops: seq<Op>): bytes {
    if ops == [] then []
    else FedBy(ops[..|ops| - 1]) + (match ops[|ops| - 1] case Feed(b) => b case Get => [])
  }

  /** The default limit on an idle buffer, REDIS_READER_MAX_BUF. */
  const MAX_BUF: nat := 1024 * 16

  /** Gets replies until there is none left. */
  method Drain(rd: Reader) returns (replies: seq<Reply>)
    requires rd.Valid()
    modifies rd, rd.rstack
    ensures rd.Valid() && rd.fed == old(rd.fed)
    ensures rd.emitted == old(rd.emitted) + replies
    ensures ParseAll(rd.fed) == Stream(rd.emitted, rd.err)
  {
    replies := [];
    while true
      invariant rd.Valid() && rd.fed == old(rd.fed)
      invariant rd.emitted == old(rd.emitted) + replies
      decreases if rd.err.Some? then 0 else |rd.Unread()|
    {
      var ok, r := rd.GetReply();
      if r.None? {
        return;
      }
      replies := replies + [Reify(rd.arena, r.value)];
    }
  }

  /** One feed or one attempt to get a reply. */
  method Perform(rd: Reader, op: Op) returns (more: seq<Reply>)
    requires rd.Valid()
    modifies rd, rd.rstack
    ensures rd.Valid() && rd.emitted == old(rd.emitted) + more
    ensures rd.fed == old(rd.fed) + match op case Feed(b) => b case Get => []
  {
    more := [];
    match op {
      case Feed(b) =>
        var _ := rd.Feed(b);
      case Get =>
        var _, r := rd.GetReply();
        if r.Some? {
          more := [Reify(rd.arena, r.value)];
        }
    }
  }

  /**
   Chunking independence. However the stream is cut into feeds, and however many replies the caller asks
   for in between, the replies obtained and the final error are those of the one-shot parser on the whole
   stream, and so the ones the grammar gives the stream. What is left unread is an end of it, and nothing when the
   stream ends with a reply.
   */
  method Run(ops: seq<Op>) returns (replies: seq<Reply>, fault: Option<Fault>, unread: bytes)
    ensures Stream(replies, fault) == ParseAll(FedBy(ops)) && IsStream(replies, fault, FedBy(ops))
    ensures |unread| <= |FedBy(ops)| && unread == FedBy(ops)[|FedBy(ops)| - |unread|..]
    ensures fault == None && Whole(FedBy(ops)) ==> unread == []
  {
    var rd := new Reader(MAX_BUF);
    replies := [];
    for i := 0 to |ops|
      invariant rd.Valid() && fresh(rd) && fresh(rd.rstack)
      invariant rd.fed == FedBy(ops[..i]) && rd.emitted == replies
    {
      assert ops[..i + 1][..i] == ops[..i];
      var more := Perform(rd, ops[i]);
      replies := replies + more;
    }
    assert ops[..|ops|] == ops;
    var rest := Drain(rd);
    replies := replies + rest;
    fault := rd.err;
    unread := Rest(rd);
    StreamExact(FedBy(ops), replies, fault);
  }

  /** A nil array, `*-1` and CR LF, in any pieces, is one nil reply. */
  method ReadNilArray(ops: seq<Op>) returns (replies: seq<Reply>, fault: Option<Fault>, unread: bytes)
    requires FedBy(ops) == [42, 45, 49, 13, 10]
    ensures replies == [Nil] && fault == None && unread == []
  {
    NilWhole();
    replies, fault, unread := Run(ops);
  }

  lemma NilWhole()
    ensures var s: bytes := [42, 45, 49, 13, 10]; ParseAll(s) == Stream([Nil], None) && Whole(s)
  {
    var s: bytes := [42, 45, 49, 13, 10];
    forall x: bytes ensures ParseAll(s + x) == Prepend([Nil], ParseAll(x)) {
      NilForms(0, x);
    }
    NilForms(0, []);
    assert s + [] == s;
  }

  /** The bytes fed that have not been consumed; none after a fault, when the buffer is gone. */
  method Rest(rd: Reader) returns (unread: bytes)
    requires rd.Valid()
    ensures |unread| <= |rd.fed| && unread == rd.fed[|rd.fed| - |unread|..]
    ensures rd.err == None && Whole(rd.fed) && rd.emitted == ParseAll(rd.fed).replies ==> unread == []
  {
    if rd.err.Some? {
      return [];
    }
    unread := rd.buf.value.text[rd.pos..];
    if Whole(rd.fed) && rd.emitted == ParseAll(rd.fed).replies {
      NothingUnread(rd);
    }
  }

  /** A formatted command, cut up in any way, is read back as one array of exactly its arguments, to the last byte. */
  method ReadCommand(args: seq<bytes>, ops: seq<Op>) returns (replies: seq<Reply>, fault: Option<Fault>, unread: bytes)
    requires FedBy(ops) == CommandFor(args)
    ensures replies == [Array(Strings(args))] && fault == None && unread == []
  {
    CommandReadsBack(args);
    CommandWhole(args);
    replies, fault, unread := Run(ops);
  }

  lemma CommandWhole(args: seq<bytes>)
    ensures Whole(CommandFor(args))
  {
    CommandReadsBack(args);
    forall x: bytes ensures ParseAll(CommandFor(args) + x) == Prepend([Array(Strings(args))], ParseAll(x)) {
      CommandParses(args, x);
    }
  }

  /** Slot k is an array object, its successor points back at it, and exactly its first elements are filled. */
  ghost predicate SlotOk(rd: Reader, k: nat)
    reads rd, rd.rstack
  {
    && k + 1 < rd.rstack.Length
    && rd.rstack[k].kind == Some(ArrayKind)
    && rd.rstack[k + 1].parent == Some(k)
    && 0 <= rd.rstack[k + 1].idx < rd.rstack[k].elements
    && rd.rstack[k].obj.Some? && rd.rstack[k].obj.value < |rd.arena|
    && rd.arena[rd.rstack[k].obj.value].ArrayNode?
    && var es := rd.arena[rd.rstack[k].obj.value].elements;
    && |es| == rd.rstack[k].elements
    && (forall j :: 0 <= j < |es| ==>
          (es[j].Some? <==> j < rd.rstack[k + 1].idx || (j == rd.rstack[k + 1].idx && k + 1 < rd.ridx)))
    && (k + 1 < rd.ridx ==> es[rd.rstack[k + 1].idx] == rd.rstack[k + 1].obj)
  }

  lemma SlotShape(rd: Reader, k: nat)
    requires rd.Valid() && k < rd.ridx
    ensures SlotOk(rd, k)
  {
    var next := Above(rd.rstack[..], rd.frames, k, None);
    assert Level(rd.rstack[..], rd.arena, rd.base, rd.frames, k, None);
    if k + 1 < rd.ridx {
      assert Level(rd.rstack[..], rd.arena, rd.base, rd.frames, k + 1, None);
    }
    var f, o := rd.frames[k], rd.rstack[k].obj.value;
    forall j | 0 <= j < |f.done| ensures rd.arena[o].elements[j].Some? {
      assert Holds(rd.arena, o, j, if next.Some? then next.value else |rd.arena|, f.done[j]);
    }
  }

  /** The task stack and the byte accounts in every state a caller can observe. */
  lemma StackShape(rd: Reader)
    requires rd.Valid()
    ensures -1 <= rd.ridx <= 8
    ensures rd.err == None ==> rd.buf.Some? && rd.len == |rd.buf.value.text| && rd.pos <= rd.len
    ensures rd.err == None ==> rd.fed == rd.taken + rd.buf.value.text[rd.pos..]
    ensures forall k :: 0 <= k < rd.ridx ==> SlotOk(rd, k)
  {
    forall k | 0 <= k < rd.ridx ensures SlotOk(rd, k) {
      SlotShape(rd, k);
    }
  }
}
