/**
 The asynchronous callback engine of async.c, step by step: flags, the linked queue, the incremental reader, loops
 that run callbacks which change the same context. Every method is proved to do what the model says. Commands are
 ordinary ones: neither subscriptions nor MONITOR.
 */
module Async {
  import opened Bytes
  import opened Resp
  import opened ReplyArena
  import opened Reader
  import opened CallbackList
  import opened AsyncModel
  import opened AsyncEnds

  class Context {
    const reader: Reader
    const replies: CallbackList
    const script: seq<seq<Action>>
    var runs: nat

    var disconnecting: bool
    var freeing: bool
    var inCallback: bool
    var err: bool
    var obuf: bytes

    /** The context is gone; or an assert has failed and the process with it. */
    var freed: bool
    var halted: bool

    /** The run so far: callbacks and bytes of the commands accepted, bytes written, callbacks dispatched and with what. */
    var issued: seq<Callback>
    var wire: seq<bytes>
    var sent: bytes
    var dispatched: seq<Callback>
    var outcomes: seq<Option<Reply>>

    /** What the context stands for. */
    ghost var st: State

    /** The flags, buffers and the queue are those of the model; after a failed assert the queue no longer matters. */
    ghost predicate Tied()
      reads this, replies, replies.cells
    {
      && replies.Valid() && !(freed && halted)
      && st == State(script, runs, if halted then st.pending else replies.contents, disconnecting, freeing, obuf,
                     if freed then Freed else if halted then Halted else Live,
                     issued, wire, sent, dispatched, outcomes, st.answered, st.got, st.fed, st.trace)
    }

    /** The reader is in a consistent state, has been fed what was received and has handed out the replies obtained. */
    ghost predicate Connected()
      reads `st, reader, reader.rstack
    {
      reader.Valid() && reader.emitted == st.got && reader.fed == st.fed
    }

    /** In service and outside of callbacks. */
    ghost predicate Ready()
      reads this, replies, replies.cells
    {
      Tied() && st.phase == Live && !inCallback && !err
    }

    /** The bytes the reader has yet to consume. */
    ghost function Left(): nat
      reads reader
    {
      if reader.err.None? && reader.Buffered() then |reader.Unread()| else 0
    }

    /** The context is gone; every callback pending in that state has been dispatched, in order and with NULL. */
    ghost predicate Gone(before: State)
      reads this
    {
      && freed && !halted
      && dispatched == before.dispatched + before.pending && outcomes == before.outcomes + Nulls(|before.pending|)
      && issued == before.issued && wire == before.wire && sent == before.sent && obuf == before.obuf
    }

    constructor (script: seq<seq<Action>>)
      ensures Ready() && Connected() && fresh(reader) && fresh(reader.rstack) && fresh(replies) && replies.cells == {}
      ensures st == Start(script)
    {
      var rd := new Reader(1024 * 16);
      reader := rd;
      var list := new CallbackList();
      replies := list;
      this.script := script;
      runs, disconnecting, freeing, inCallback, err := 0, false, false, false, false;
      obuf, freed, halted := [], false, false;
      issued, wire, sent, dispatched, outcomes := [], [], [], [], [];
      st := Start(script);
    }

    /** __redisAsyncCommand for an ordinary command: accepted exactly when the connection is not closing. */
    method AsyncCommand(cb: Callback, cmd: bytes) returns (ok: bool)
      requires Tied() && !halted
      modifies this`obuf, this`issued, this`wire, this`st, replies, replies.cells
      ensures Tied() && fresh(replies.cells - old(replies.cells))
      ensures ok == !Closing(old(st)) && st == Act(old(st), Command(cb, cmd))
    {
      if disconnecting || freeing {
        return false;
      }
      replies.Push(cb);
      obuf := obuf + cmd;
      issued, wire := issued + [cb], wire + [cmd];
      st := Act(st, Command(cb, cmd));
      return true;
    }

    /** One action of a callback: tearing down is deferred, commands are queued or refused. */
    method Perform(a: Action)
      requires Tied() && !halted && inCallback
      modifies this`obuf, this`issued, this`wire, this`disconnecting, this`freeing, this`st, replies, replies.cells
      ensures Tied() && fresh(replies.cells - old(replies.cells)) && st == Act(old(st), a)
    {
      match a {
        case Command(cb, cmd) => var _ := AsyncCommand(cb, cmd);
        case Disconnect =>
          disconnecting := true;
          st := Act(st, Disconnect);
        case Free =>
          freeing := true;
          st := Act(st, Free);
      }
    }

    /** The body of an application callback. */
    method Play(actions: seq<Action>)
      requires Tied() && !halted && inCallback
      modifies this`obuf, this`issued, this`wire, this`disconnecting, this`freeing, this`st, replies, replies.cells
      ensures Tied() && fresh(replies.cells - old(replies.cells)) && st == Acts(old(st), actions)
    {
      for i := 0 to |actions|
        invariant Tied() && !halted && inCallback && fresh(replies.cells - old(replies.cells))
        invariant st == Acts(old(st), actions[..i])
      {
        assert actions[..i + 1][..i] == actions[..i];
        Perform(actions[i]);
      }
      assert actions[..|actions|] == actions;
    }

    /** The application's callback begins: what it will do. */
    method Enter() returns (actions: seq<Action>)
      requires Tied() && !inCallback
      modifies this`inCallback, this`runs, this`st
      ensures Tied() && inCallback && st == Entered(old(st)) && actions == Does(script, old(runs))
    {
      inCallback := true;
      actions := Does(script, runs);
      runs := runs + 1;
      st := Entered(st);
    }

    /** __redisRunCallback. */
    method RunCallback(cb: Callback)
      requires Tied() && !halted && !inCallback
      modifies this`obuf, this`issued, this`wire, this`disconnecting, this`freeing, this`inCallback, this`runs, this`st
      modifies replies, replies.cells
      ensures Tied() && !inCallback && fresh(replies.cells - old(replies.cells)) && st == Invoke(old(st), cb)
    {
      if cb.fn.Some? {
        var actions := Enter();
        Play(actions);
        inCallback := false;
      }
    }

    /** __redisShiftCallback on the reply queue: the callback, if any, is dispatched with this outcome. */
    method TakeNext(outcome: Option<Reply>) returns (r: Option<Callback>)
      requires Tied() && !halted
      modifies this`dispatched, this`outcomes, this`st, replies
      ensures Tied() && replies.cells == old(replies.cells)
      ensures if old(st).pending == [] then r == None && st == old(st)
              else r == Some(old(st).pending[0]) && st == Take(old(st), outcome)
    {
      r := replies.Shift();
      if r.Some? {
        Note(r.value, outcome);
      }
    }

    /** The callback just taken off the queue is dispatched. */
    method Note(cb: Callback, outcome: Option<Reply>)
      requires replies.Valid() && st.phase != Halted && st.pending == [cb] + replies.contents
      requires st == State(script, runs, st.pending, disconnecting, freeing, obuf, if freed then Freed else Live,
                           issued, wire, sent, dispatched, outcomes, st.answered, st.got, st.fed, st.trace)
      requires !halted
      modifies this`dispatched, this`outcomes, this`st
      ensures Tied() && st == Take(old(st), outcome)
    {
      dispatched, outcomes := dispatched + [cb], outcomes + [outcome];
      st := Take(st, outcome);
    }

    /** __redisAsyncFree: every path here is closing, so no callback can issue a command and the queue only shrinks. */
    method DoFree()
      requires Tied() && st.phase == Live && Closing(st) && !inCallback
      modifies this`obuf, this`issued, this`wire, this`disconnecting, this`freeing, this`inCallback, this`runs, this`st
      modifies this`dispatched, this`outcomes, this`freed, replies, replies.cells
      ensures Tied() && fresh(replies.cells - old(replies.cells)) && st == Drain(old(st)) && freed
    {
      var more := true;
      while more
        invariant Tied() && st.phase == Live && Closing(st) && !inCallback && fresh(replies.cells - old(replies.cells))
        invariant Drain(st) == Drain(old(st)) && (!more ==> st.pending == [])
        decreases more, |st.pending|
      {
        more := DrainNext();
      }
      Finish();
    }

    method Finish()
      requires Tied() && st.phase == Live && st.pending == [] && Closing(st)
      modifies this`freed, this`st
      ensures Tied() && freed && st == Drain(old(st))
    {
      freed := true;
      st := st.(phase := Freed);
    }

    /** One turn of the drain: the next pending callback, if any, runs with a NULL reply. */
    method DrainNext() returns (more: bool)
      requires Tied() && st.phase == Live && Closing(st) && !inCallback
      modifies this`obuf, this`issued, this`wire, this`disconnecting, this`freeing, this`inCallback, this`runs, this`st
      modifies this`dispatched, this`outcomes, replies, replies.cells
      ensures Tied() && st.phase == Live && Closing(st) && !inCallback && fresh(replies.cells - old(replies.cells))
      ensures more == (old(st).pending != []) && Drain(st) == Drain(old(st))
      ensures if more then |st.pending| < |old(st).pending| else st == old(st)
    {
      ghost var s0 := st;
      var r := TakeNext(None);
      if r.None? {
        return false;
      }
      InvokeClosing(Take(s0, None), r.value);
      InvokeHistory(Take(s0, None), r.value);
      RunCallback(r.value);
      return true;
    }

    /** __redisAsyncDisconnect: a clean disconnect asserts that no callback is pending. */
    method DoDisconnect()
      requires Tied() && st.phase == Live && !inCallback && (err || disconnecting)
      modifies this`obuf, this`issued, this`wire, this`disconnecting, this`freeing, this`inCallback, this`runs, this`st
      modifies this`dispatched, this`outcomes, this`freed, this`halted, replies, replies.cells
      ensures Tied() && fresh(replies.cells - old(replies.cells))
      ensures st == (if err then Fail(old(st)) else Leave(old(st))) && (freed || halted)
    {
      if !err {
        var none := NonePending();
        if !none {
          return;
        }
      } else {
        BeginFailing();
      }
      DoFree();
    }

    method BeginFailing()
      requires Tied()
      modifies this`disconnecting, this`st
      ensures Tied() && st == old(st).(disconnecting := true, trace := old(st).trace + [ByFailure])
    {
      disconnecting := true;
      st := st.(disconnecting := true, trace := st.trace + [ByFailure]);
    }

    /** The assert of a clean disconnect. */
    method NonePending() returns (ok: bool)
      requires Tied() && st.phase == Live
      modifies this`halted, this`st, replies
      ensures Tied() && replies.cells == old(replies.cells) && ok == (old(st).pending == []) && halted == !ok
      ensures st == if ok then old(st) else old(st).(phase := Halted)
    {
      var pending := replies.Shift();
      ok := pending.None?;
      if !ok {
        halted := true;
        st := st.(phase := Halted);
      }
    }

    /** An error of the connection. */
    method Abort()
      requires Tied() && st.phase == Live && !inCallback
      modifies this`obuf, this`issued, this`wire, this`disconnecting, this`freeing, this`inCallback, this`runs, this`st
      modifies this`dispatched, this`outcomes, this`freed, this`halted, this`err, replies, replies.cells
      ensures Tied() && fresh(replies.cells - old(replies.cells)) && st == Fail(old(st)) && Gone(old(st))
      ensures st.got == old(st).got && st.fed == old(st).fed
    {
      TurnInput(st, false, None);
      FailTears(st);
      err := true;
      DoDisconnect();
    }

    /** A call from outside of callbacks: redisAsyncCommand, redisAsyncDisconnect or redisAsyncFree. */
    method CallFromOutside(a: Action)
      requires Ready()
      modifies this`obuf, this`issued, this`wire, this`disconnecting, this`freeing, this`inCallback, this`runs, this`st
      modifies this`dispatched, this`outcomes, this`freed, this`halted, replies, replies.cells
      ensures Tied() && fresh(replies.cells - old(replies.cells)) && st == CallBy(old(st), a)
      ensures st.phase == Live ==> Ready()
    {
      st := st.(trace := st.trace + [ByCaller(a)]);
      match a {
        case Command(cb, cmd) => var _ := AsyncCommand(cb, cmd);
        case Disconnect => AsyncDisconnect();
        case Free => AsyncFree();
      }
    }

    /** redisAsyncFree outside of callbacks. */
    method AsyncFree()
      requires Ready()
      modifies this`obuf, this`issued, this`wire, this`disconnecting, this`freeing, this`inCallback, this`runs, this`st
      modifies this`dispatched, this`outcomes, this`freed, replies, replies.cells
      ensures Tied() && fresh(replies.cells - old(replies.cells)) && st == Drain(Act(old(st), Free)) && Gone(old(st))
    {
      DrainTears(Act(st, Free));
      freeing := true;
      st := Act(st, Free);
      DoFree();
    }

    /** redisAsyncDisconnect outside of callbacks: it never fails the assert. */
    method AsyncDisconnect()
      requires Ready()
      modifies this`obuf, this`issued, this`wire, this`disconnecting, this`freeing, this`inCallback, this`runs, this`st
      modifies this`dispatched, this`outcomes, this`freed, this`halted, replies, replies.cells
      ensures Tied() && fresh(replies.cells - old(replies.cells)) && !halted && (!freed ==> Ready())
      ensures st == if old(st).pending == [] then Leave(Act(old(st), Disconnect)) else Act(old(st), Disconnect)
      ensures freed <==> old(st).pending == []
    {
      disconnecting := true;
      st := Act(st, Disconnect);
      if replies.head == null {
        DoDisconnect();
      }
    }

    /** Runs the callback a reply was read for, and frees the context if the callback asked for that. */
    method Deliver(cb: Callback)
      requires Ready()
      modifies this`obuf, this`issued, this`wire, this`disconnecting, this`freeing, this`inCallback, this`runs, this`st
      modifies this`dispatched, this`outcomes, this`freed, replies, replies.cells
      ensures Tied() && fresh(replies.cells - old(replies.cells)) && (st.phase == Live ==> Ready())
      ensures var s1 := Invoke(old(st), cb); st == if s1.freeing then Drain(s1) else s1
    {
      InvokeHistory(st, cb);
      RunCallback(cb);
      if freeing {
        DoFree();
      }
    }

    /** A reply nobody asked for: an error closes the connection, anything else fails an assert. */
    method Spontaneous(reply: Reply)
      requires Ready()
      modifies this`obuf, this`issued, this`wire, this`disconnecting, this`freeing, this`inCallback, this`runs, this`st
      modifies this`dispatched, this`outcomes, this`freed, this`halted, this`err, replies, replies.cells
      ensures Tied() && fresh(replies.cells - old(replies.cells)) && st.phase != Live
      ensures st == if reply.Error? then Fail(old(st)) else old(st).(phase := Halted)
    {
      if reply.Error? {
        Abort();
      } else {
        halted := true;
        st := st.(phase := Halted);
      }
    }

    method Obtain(reply: Reply)
      requires Ready()
      modifies this`st
      ensures Ready() && st == old(st).(got := old(st).got + [reply])
    {
      st := st.(got := st.got + [reply]);
    }

    /** A reply has been read and belongs to the callback at the head of the queue. */
    method HandleReply(reply: Reply)
      requires Ready()
      modifies this`obuf, this`issued, this`wire, this`disconnecting, this`freeing, this`inCallback, this`runs, this`st
      modifies this`dispatched, this`outcomes, this`freed, this`halted, this`err, replies, replies.cells
      ensures Tied() && fresh(replies.cells - old(replies.cells)) && (st.phase == Live ==> Ready())
      ensures st == OnReply(old(st), reply)
    {
      Obtain(reply);
      var r := TakeNext(Some(reply));
      if r.None? {
        Spontaneous(reply);
      } else {
        Deliver(r.value);
      }
    }

    /** No reply is available: when closing with nothing left to write, this is the cue to disconnect. */
    method HandleNoReply()
      requires Ready()
      modifies this`obuf, this`issued, this`wire, this`disconnecting, this`freeing, this`inCallback, this`runs, this`st
      modifies this`dispatched, this`outcomes, this`freed, this`halted, replies, replies.cells
      ensures Tied() && fresh(replies.cells - old(replies.cells)) && (st.phase == Live ==> Ready())
      ensures st == OnNoReply(old(st))
    {
      if disconnecting && obuf == [] {
        DoDisconnect();
      }
    }

    /** What redisGetReply gives on a context that does not block, said of the stream received. */
    method GetReply() returns (ok: bool, r: Option<Reply>)
      requires Connected()
      modifies reader, reader.rstack
      ensures reader.Valid() && reader.fed == st.fed
      ensures reader.emitted == st.got + if r.Some? then [r.value] else []
      ensures r.None? ==> ParseAll(st.fed) == Stream(st.got, reader.err) && ok == reader.err.None?
      ensures r.Some? ==> ok && Left() < old(Left())
      ensures r.Some? ==> |st.got| < |ParseAll(st.fed).replies| && r.value == ParseAll(st.fed).replies[|st.got|]
    {
      var done, c := reader.GetReply();
      ok := done;
      r := None;
      if c.Some? {
        r := Some(Reify(reader.arena, c.value));
        reader.EmittedIsPrefix();
        assert reader.emitted[|st.got|] == r.value;
      }
    }

    /** One turn of the dispatch loop of redisProcessCallbacks. */
    method Turn(ok: bool, r: Option<Reply>)
      requires Ready() && (!ok ==> r == None)
      modifies this`obuf, this`issued, this`wire, this`disconnecting, this`freeing, this`inCallback, this`runs, this`st
      modifies this`dispatched, this`outcomes, this`freed, this`halted, this`err, replies, replies.cells
      ensures Tied() && fresh(replies.cells - old(replies.cells)) && (st.phase == Live ==> Ready())
      ensures st == if !ok then Fail(old(st)) else if r.None? then OnNoReply(old(st)) else OnReply(old(st), r.value)
      ensures st.fed == old(st).fed && st.got == old(st).got + if r.Some? then [r.value] else []
    {
      TurnInput(st, ok, r);
      if !ok {
        Abort();
      } else if r.None? {
        HandleNoReply();
      } else {
        HandleReply(r.value);
      }
    }

    /** One round of the loop; it goes on after a reply, unless the context is gone. */
    method Round() returns (again: bool)
      requires Ready() && Connected()
      modifies this`obuf, this`issued, this`wire, this`disconnecting, this`freeing, this`inCallback, this`runs, this`st
      modifies this`dispatched, this`outcomes, this`freed, this`halted, this`err
      modifies replies, replies.cells, reader, reader.rstack
      ensures Tied() && fresh(replies.cells - old(replies.cells)) && Connected() && (st.phase == Live ==> Ready())
      ensures if again then st.phase == Live && Left() < old(Left()) && Process(st) == Process(old(st))
              else st == Process(old(st))
    {
      var ok, r := GetReply();
      Turn(ok, r);
      again := !(r.None? || freed || halted);
    }

    /** redisProcessCallbacks. */
    method ProcessCallbacks()
      requires Ready() && Connected()
      modifies this`obuf, this`issued, this`wire, this`disconnecting, this`freeing, this`inCallback, this`runs, this`st
      modifies this`dispatched, this`outcomes, this`freed, this`halted, this`err
      modifies replies, replies.cells, reader, reader.rstack
      ensures Tied() && fresh(replies.cells - old(replies.cells)) && Connected() && (st.phase == Live ==> Ready())
      ensures st == Process(old(st))
    {
      var again := true;
      while again
        invariant Tied() && fresh(replies.cells - old(replies.cells)) && Connected() && (st.phase == Live ==> Ready())
        invariant if again then st.phase == Live && Process(st) == Process(old(st)) else st == Process(old(st))
        decreases again, Left()
      {
        again := Round();
      }
    }

    /** The bytes read go to the reader; it refuses them when it has met a fault, and then there is nothing to process. */
    method Feed(b: bytes) returns (ok: bool)
      requires Ready() && Connected()
      modifies this`st, reader
      ensures Ready() && Connected() && st == old(st).(fed := old(st).fed + b)
      ensures !ok ==> Process(st) == Fail(st)
    {
      ok := FeedReader(b);
      st := st.(fed := st.fed + b);
    }

    method FeedReader(b: bytes) returns (ok: bool)
      requires Connected()
      modifies reader
      ensures reader.Valid() && reader.emitted == st.got && reader.fed == st.fed + b
      ensures !ok ==> ParseAll(st.fed + b) == Stream(st.got, reader.err) && reader.err.Some?
    {
      if reader.err.Some? {
        reader.FaultIsFinal();
        ParseAllExtend(st.fed, b);
      }
      ok := reader.Feed(b);
    }

    /** redisAsyncHandleRead: the bytes one read returned, or None at end of file or on an error. */
    method HandleRead(input: Option<bytes>)
      requires Ready() && Connected()
      modifies this`obuf, this`issued, this`wire, this`disconnecting, this`freeing, this`inCallback, this`runs, this`st
      modifies this`dispatched, this`outcomes, this`freed, this`halted, this`err
      modifies replies, replies.cells, reader, reader.rstack
      ensures Tied() && fresh(replies.cells - old(replies.cells)) && Connected() && (st.phase == Live ==> Ready())
      ensures st == Read(old(st), input)
      ensures input.None? ==> Gone(old(st))
    {
      if input.None? {
        Abort();
      } else {
        var ok := Feed(input.value);
        Proceed(ok);
      }
    }

    /** The bytes are processed, or the context is torn down when the reader has refused them. */
    method Proceed(ok: bool)
      requires Ready() && Connected() && (!ok ==> Process(st) == Fail(st))
      modifies this`obuf, this`issued, this`wire, this`disconnecting, this`freeing, this`inCallback, this`runs, this`st
      modifies this`dispatched, this`outcomes, this`freed, this`halted, this`err
      modifies replies, replies.cells, reader, reader.rstack
      ensures Tied() && fresh(replies.cells - old(replies.cells)) && Connected() && (st.phase == Live ==> Ready())
      ensures st == Process(old(st))
    {
      if ok {
        ProcessCallbacks();
      } else {
        Abort();
      }
    }

    /** redisAsyncHandleWrite: a write took up to n bytes of the buffer, possibly none, or failed. */
    method HandleWrite(written: Option<nat>)
      requires Ready()
      modifies this`obuf, this`issued, this`wire, this`disconnecting, this`freeing, this`inCallback, this`runs, this`st
      modifies this`dispatched, this`outcomes, this`sent, this`freed, this`halted, this`err, replies, replies.cells
      ensures Tied() && fresh(replies.cells - old(replies.cells)) && (st.phase == Live ==> Ready())
      ensures st == Step(old(st), Writable(written))
      ensures written.None? ==> Gone(old(st))
      ensures written.Some? ==>
                var k := if written.value < |old(obuf)| then written.value else |old(obuf)|;
                !freed && !halted && sent == old(sent) + old(obuf)[..k] && obuf == old(obuf)[k..]
    {
      if written.None? {
        Abort();
      } else {
        Wrote(written.value);
      }
    }

    /** The bytes written leave the output buffer. */
    method Wrote(written: nat)
      requires Tied()
      modifies this`obuf, this`sent, this`st
      ensures Tied() && st == Write(old(st), written)
    {
      var n := if written < |obuf| then written else |obuf|;
      sent := sent + obuf[..n];
      obuf := obuf[n..];
      st := Write(st, written);
    }
  }

  /** No turn receives anything, and only a reply adds to those obtained. */
  lemma TurnInput(st: State, ok: bool, r: Option<Reply>)
    ensures var t := if !ok then Fail(st) else if r.None? then OnNoReply(st) else OnReply(st, r.value);
            t.fed == st.fed && t.got == st.got + if ok && r.Some? then [r.value] else []
  {
    if !ok {
      DrainInput(st.(disconnecting := true, trace := st.trace + [ByFailure]));
    } else if r.Some? {
      OnReplyInput(st, r.value);
    } else if st.disconnecting && st.pending == [] {
      DrainInput(st);
    }
  }
}
