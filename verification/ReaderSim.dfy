/**
 How an interrupted reader relates to the one-shot parser. Each relation says, for every continuation x
 of the bytes fed so far, what the parser makes of the whole stream, given what was emitted already and
 what is left in the buffer; each lemma carries one step of the reader across.
 */
module ReaderSim {
  import opened Bytes
  import opened Decimal
  import opened Resp

  /** The reader is inside `frames`, before an item or after its type byte. */
  ghost predicate SimReading(fed: bytes, emitted: seq<Reply>, frames: seq<Frame>, kind: Option<Kind>, unread: bytes) {
    && FramesOk(frames)
    && forall x: bytes :: ParseAll(fed + x) == Prepend(emitted, AllFrom(frames, kind, unread + x))
  }

  /** The reader has just finished item v inside `frames`. */
  ghost predicate SimFinished(fed: bytes, emitted: seq<Reply>, frames: seq<Frame>, v: Reply, unread: bytes) {
    && FramesOk(frames)
    && forall x: bytes :: ParseAll(fed + x) == Prepend(emitted, Continue(Plug(frames, v, unread + x)))
  }

  /** The reader is between replies. */
  ghost predicate SimIdle(fed: bytes, emitted: seq<Reply>, unread: bytes) {
    forall x: bytes :: ParseAll(fed + x) == Prepend(emitted, ParseAll(unread + x))
  }

  /** The reader has met a fault: nothing that may still arrive matters. */
  ghost predicate SimFault(fed: bytes, emitted: seq<Reply>, fault: Fault) {
    forall x: bytes :: ParseAll(fed + x) == Stream(emitted, Some(fault))
  }

  lemma SimBegins(fed: bytes, emitted: seq<Reply>, unread: bytes)
    ensures SimIdle(fed, emitted, unread) <==> SimReading(fed, emitted, [], None, unread)
  {
    forall x: bytes ensures ParseAll(unread + x) == AllFrom([], None, unread + x) {
      StartAll(unread + x);
    }
  }

  lemma SimType(fed: bytes, emitted: seq<Reply>, frames: seq<Frame>, unread: bytes)
    requires SimReading(fed, emitted, frames, None, unread) && unread != []
    ensures KindOf(unread[0]).Some? ==> SimReading(fed, emitted, frames, KindOf(unread[0]), unread[1..])
    ensures KindOf(unread[0]).None? ==> SimFault(fed, emitted, BadType(unread[0]))
  {
    forall x: bytes
      ensures KindOf(unread[0]).Some? ==>
                ParseAll(fed + x) == Prepend(emitted, AllFrom(frames, KindOf(unread[0]), unread[1..] + x))
      ensures KindOf(unread[0]).None? ==> ParseAll(fed + x) == Stream(emitted, Some(BadType(unread[0])))
    {
      ResumeType(frames, unread + x);
      assert (unread + x)[1..] == unread[1..] + x;
      assert emitted + [] == emitted;
    }
  }

  lemma SimTooDeep(fed: bytes, emitted: seq<Reply>, frames: seq<Frame>, unread: bytes)
    requires SimReading(fed, emitted, frames, Some(ArrayKind), unread) && |frames| >= MAX_DEPTH
    ensures SimFault(fed, emitted, TooDeep)
  {
    forall x: bytes ensures ParseAll(fed + x) == Stream(emitted, Some(TooDeep)) {
      assert Resume(frames, Some(ArrayKind), unread + x) == Bad(TooDeep);
      assert emitted + [] == emitted;
    }
  }

  lemma SimItem(fed: bytes, emitted: seq<Reply>, frames: seq<Frame>, kind: Kind, unread: bytes)
    requires SimReading(fed, emitted, frames, Some(kind), unread)
    requires Body(kind, unread, |frames|).Done?
    requires kind.ArrayKind? ==> Number(unread[..Crlf(unread).value]) <= 0
    ensures var o := Body(kind, unread, |frames|); SimFinished(fed, emitted, frames, o.reply, o.rest)
  {
    var o := Body(kind, unread, |frames|);
    forall x: bytes
      ensures ParseAll(fed + x) == Prepend(emitted, Continue(Plug(frames, o.reply, o.rest + x)))
    {
      BodyExtend(kind, unread, |frames|, x);
    }
  }

  lemma SimOpens(fed: bytes, emitted: seq<Reply>, frames: seq<Frame>, unread: bytes)
    requires SimReading(fed, emitted, frames, Some(ArrayKind), unread) && OpensArray(frames, unread)
    ensures var i := Crlf(unread).value;
            SimReading(fed, emitted, frames + [Frame(Number(unread[..i]), [])], None, unread[i + 2..])
  {
    var i := Crlf(unread).value;
    var inner := frames + [Frame(Number(unread[..i]), [])];
    ResumeOpens(frames, unread);
    forall x: bytes
      ensures ParseAll(fed + x) == Prepend(emitted, AllFrom(inner, None, unread[i + 2..] + x))
    {
      CrlfExtend(unread, x);
      ResumeOpens(frames, unread + x);
    }
  }

  lemma SimCloses(fed: bytes, emitted: seq<Reply>, frames: seq<Frame>, v: Reply, unread: bytes)
    requires SimFinished(fed, emitted, frames, v, unread) && |frames| > 0
    requires |frames[|frames| - 1].done| + 1 == frames[|frames| - 1].total
    ensures var m := |frames| - 1; SimFinished(fed, emitted, frames[..m], Array(frames[m].done + [v]), unread)
  {
    var m := |frames| - 1;
    assert FramesOk(frames[..m]);
    forall x: bytes
      ensures ParseAll(fed + x) ==
              Prepend(emitted, Continue(Plug(frames[..m], Array(frames[m].done + [v]), unread + x)))
    {
      PlugCloses(frames, v, unread + x);
    }
  }

  lemma SimAdvances(fed: bytes, emitted: seq<Reply>, frames: seq<Frame>, v: Reply, unread: bytes)
    requires SimFinished(fed, emitted, frames, v, unread) && |frames| > 0
    requires |frames[|frames| - 1].done| + 1 < frames[|frames| - 1].total
    ensures SimReading(fed, emitted, Filled(frames, v), None, unread)
  {
    PlugContinues(frames, v, unread);
    forall x: bytes
      ensures ParseAll(fed + x) == Prepend(emitted, AllFrom(Filled(frames, v), None, unread + x))
    {
      PlugContinues(frames, v, unread + x);
    }
  }

  lemma SimEmits(fed: bytes, emitted: seq<Reply>, v: Reply, unread: bytes)
    requires SimFinished(fed, emitted, [], v, unread)
    ensures SimIdle(fed, emitted + [v], unread)
  {
    forall x: bytes ensures ParseAll(fed + x) == Prepend(emitted + [v], ParseAll(unread + x)) {
      var rest := ParseAll(unread + x);
      assert emitted + ([v] + rest.replies) == (emitted + [v]) + rest.replies;
    }
  }

  lemma SimFed(fed: bytes, emitted: seq<Reply>, frames: seq<Frame>, kind: Option<Kind>, unread: bytes, b: bytes)
    requires SimReading(fed, emitted, frames, kind, unread)
    ensures SimReading(fed + b, emitted, frames, kind, unread + b)
  {
    forall x: bytes
      ensures ParseAll(fed + b + x) == Prepend(emitted, AllFrom(frames, kind, unread + b + x))
    {
      Regroup(fed, b, x);
      Regroup(unread, b, x);
      assert ParseAll(fed + (b + x)) == Prepend(emitted, AllFrom(frames, kind, unread + (b + x)));
    }
  }

  lemma SimIdleFed(fed: bytes, emitted: seq<Reply>, unread: bytes, b: bytes)
    requires SimIdle(fed, emitted, unread)
    ensures SimIdle(fed + b, emitted, unread + b)
  {
    SimBegins(fed, emitted, unread);
    SimFed(fed, emitted, [], None, unread, b);
    SimBegins(fed + b, emitted, unread + b);
  }

  lemma SimFaultFed(fed: bytes, emitted: seq<Reply>, fault: Fault, b: bytes)
    requires SimFault(fed, emitted, fault)
    ensures SimFault(fed + b, emitted, fault)
  {
    forall x: bytes ensures ParseAll(fed + b + x) == Stream(emitted, Some(fault)) {
      assert fed + b + x == fed + (b + x);
    }
  }

  /** A reader that can go no further has emitted what the parser finds in everything fed so far. */
  lemma SimStuck(fed: bytes, emitted: seq<Reply>, frames: seq<Frame>, kind: Option<Kind>, unread: bytes)
    requires SimReading(fed, emitted, frames, kind, unread) && Resume(frames, kind, unread).More?
    ensures ParseAll(fed) == Stream(emitted, None)
  {
    assert fed + [] == fed && unread + [] == unread && emitted + [] == emitted;
  }
}
