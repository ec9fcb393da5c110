/** Whole runs of an asynchronous context: any calls, any reads, any partial writes, any callbacks. */
module AsyncRuns {
  import opened Bytes
  import opened Resp
  import opened RespEncode
  import opened CallbackList
  import opened AsyncModel
  import opened AsyncLaws
  import opened AsyncEnds
  import opened AsyncHalts
  import opened Async

  /** What can be seen of a run when it stops; the context may be in service, gone, or stopped by a failed assert. */
  datatype Summary = Summary(issued: seq<Callback>, dispatched: seq<Callback>, outcomes: seq<Option<Reply>>,
                             wire: seq<bytes>, sent: bytes, obuf: bytes, freed: bool, halted: bool)

  function Visible(st: State): Summary {
    Summary(st.issued, st.dispatched, st.outcomes, st.wire, st.sent, st.obuf, st.phase.Freed?, st.phase.Halted?)
  }

  method Summarize(ctx: Context) returns (s: Summary)
    requires ctx.Tied()
    ensures s == Visible(ctx.st)
  {
    s := Summary(ctx.issued, ctx.dispatched, ctx.outcomes, ctx.wire, ctx.sent, ctx.obuf, ctx.freed, ctx.halted);
  }

  /** One event, delivered to a context in service. */
  method Handle(ctx: Context, e: Event)
    requires ctx.Ready() && ctx.Connected()
    modifies ctx, ctx.replies, ctx.replies.cells, ctx.reader, ctx.reader.rstack
    ensures ctx.Tied() && ctx.Connected() && fresh(ctx.replies.cells - old(ctx.replies.cells))
    ensures ctx.st == Step(old(ctx.st), e) && (ctx.st.phase == Live ==> ctx.Ready())
  {
    ghost var s0 := ctx.st;
    StepInput(s0, e);
    match e {
      case Call(a) => ctx.CallFromOutside(a);
      case Readable(input) => ctx.HandleRead(input);
      case Writable(written) => ctx.HandleWrite(written);
    }
  }

  /** Only reading obtains replies. */
  lemma StepInput(st: State, e: Event)
    ensures !e.Readable? ==> Step(st, e).got == st.got && Step(st, e).fed == st.fed
  {
    match e
    case Call(a) =>
      var s1 := Act(st.(trace := st.trace + [ByCaller(a)]), a);
      if Closing(s1) {
        DrainInput(s1);
      }
    case Writable(None) => DrainInput(st.(disconnecting := true, trace := st.trace + [ByFailure]));
    case _ =>
  }

  /**
   What a run promises of what can be seen of it, given the replies in the bytes it received. Callbacks are
   dispatched in the order the commands were accepted; the i-th gets the i-th reply, or NULL once replies have
   stopped; in service every reply so far has been dispatched; torn down, every accepted command's callback has been
   dispatched. The bytes written, followed by the output buffer, are the accepted commands in the same order.
   */
  ghost predicate Right(s: Summary, replies: seq<Reply>, answered: nat) {
    && s.dispatched <= s.issued && |s.outcomes| == |s.dispatched| && |s.wire| == |s.issued|
    && s.sent + s.obuf == Concat(s.wire)
    && Matched(s.outcomes, answered, replies)
    && (s.freed ==> s.dispatched == s.issued)
    && (!s.freed && !s.halted ==> answered == |s.outcomes| == |replies|)
  }

  /**
   The commands accepted: those that come before the first disconnect or free among the calls made from outside, in
   order, with what each callback did put in when it ran; and the callbacks that ran are those dispatched, once each.
   A failure of the connection closes as a disconnect does, and then the context is gone.
   */
  ghost predicate Accepted(s: Summary, script: seq<seq<Action>>, calls: seq<Action>, trace: seq<Cause>) {
    && Callers(trace) == calls && UpTo(Invocations(trace), Functions(s.dispatched)) && (!s.freed ==> ByFailure !in trace)
    && s.issued == IssuedBy(AllDoings(script, trace)) && s.wire == WiredBy(AllDoings(script, trace))
  }

  /**
   How a run ends. Nothing is handled after end of file, a failed read or write, or a free from outside, and the
   context is gone then. In service, nobody has freed, the bytes hold no fault, a disconnect from outside has found
   callbacks pending, and a read has found something left to write if anybody has disconnected. And a context that is
   gone has a reason for it: one of those events, a disconnect or a free by somebody, a fault, or an error in reply to
   nothing.
   */
  ghost predicate Ended(s: Summary, script: seq<seq<Action>>, seen: seq<Event>, trace: seq<Cause>, all: Stream) {
    && (forall i :: 0 <= i < |seen| && Closes(seen[i]) ==> i == |seen| - 1 && s.freed)
    && (seen != [] ==>
          var last, doings := seen[|seen| - 1], AllDoings(script, trace);
          && (!s.freed && !s.halted ==>
                && Free !in doings
                && (last == Call(Disconnect) ==> |s.dispatched| < |s.issued|)
                && (last.Readable? ==> all.fault == None && (Disconnect in doings ==> s.obuf != [])))
          && (s.freed ==>
                || Closes(last) || Wanted(script, trace)
                || (last.Readable? && (all.fault.Some? || Unrequested(all.replies, |s.issued|)))))
  }

  lemma SettledEnded(t: State, script: seq<seq<Action>>, seen: seq<Event>)
    requires Settled(t) && EndsRight(t, seen) && t.script == script
    ensures Ended(Visible(t), script, seen, t.trace, ParseAll(t.fed))
  {
  }

  lemma SettledRight(t: State)
    requires Settled(t) && t.got <= ParseAll(t.fed).replies
    ensures Right(Visible(t), ParseAll(t.fed).replies, t.answered)
  {
    assert Matched(t.outcomes, t.answered, ParseAll(t.fed).replies);
  }

  lemma SettledAccepted(t: State)
    requires Sound(t) && Unfailed(t)
    ensures Accepted(Visible(t), t.script, Callers(t.trace), t.trace)
  {
  }

  /** Both, of every run from the start. */
  lemma RunIsRight(script: seq<seq<Action>>, events: seq<Event>)
    ensures var t, k := AsyncModel.Run(Start(script), events), Seen(Start(script), events);
            && t.fed == Inputs(events[..k]) && (k == |events| || t.phase != Live)
            && Right(Visible(t), ParseAll(t.fed).replies, t.answered)
            && Accepted(Visible(t), script, Calls(events[..k]), t.trace)
            && Ended(Visible(t), script, events[..k], t.trace, ParseAll(t.fed))
  {
    var st0 := Start(script);
    var t, k := AsyncModel.Run(st0, events), Seen(st0, events);
    StartSettled(script);
    RunKeeps(st0, events);
    RunGiven(st0, events);
    RunObtains(st0, events);
    RunUnfailed(st0, events);
    RunEndsRight(st0, events);
    SettledRight(t);
    SettledEnded(t, script, events[..k]);
    SettledAccepted(t);
    assert [] + Inputs(events[..k]) == Inputs(events[..k]) && [] + Calls(events[..k]) == Calls(events[..k]);
  }

  /** An assert fails only if the application disconnects somewhere or more replies arrive than there were commands. */
  ghost predicate Blamed(script: seq<seq<Action>>, events: seq<Event>, replies: seq<Reply>, issued: seq<Callback>) {
    !NeverDisconnects(script) || Call(Disconnect) in events || |replies| > |issued|
  }

  lemma HaltsBlamed(script: seq<seq<Action>>, events: seq<Event>)
    ensures var t := AsyncModel.Run(Start(script), events);
            t.phase == Halted ==> Blamed(script, events, ParseAll(t.fed).replies, t.issued)
  {
    StartSettled(script);
    if NeverDisconnects(script) && Call(Disconnect) !in events {
      RunCalm(Start(script), events);
    }
  }

  /**
   Exactly-once, in order, over every run. The engine does what the model does on these events; it handles them all
   unless it is torn down or an assert fails on the way; and what it has received are their bytes.
   */
  method Run(script: seq<seq<Action>>, events: seq<Event>)
    returns (s: Summary, k: nat, received: bytes, answered: nat, ghost trace: seq<Cause>)
    ensures s == Visible(AsyncModel.Run(Start(script), events))
    ensures k <= |events| && (k == |events| || s.freed || s.halted) && received == Inputs(events[..k])
    ensures Right(s, ParseAll(received).replies, answered)
    ensures Accepted(s, script, Calls(events[..k]), trace)
    ensures Ended(s, script, events[..k], trace, ParseAll(received))
    ensures s.halted ==> Blamed(script, events, ParseAll(received).replies, s.issued)
  {
    RunIsRight(script, events);
    HaltsBlamed(script, events);
    s, k, received, trace := Execute(script, events);
    answered := CountAnswered(s.outcomes, AsyncModel.Run(Start(script), events).answered, ParseAll(received).replies);
  }

  /** After k of the events the model is in state st, and goes on from there. */
  ghost predicate Reaches(st0: State, events: seq<Event>, st: State, k: nat) {
    && k <= |events| && AsyncModel.Run(st0, events) == AsyncModel.Run(st, events[k..])
    && Seen(st0, events) == k + Seen(st, events[k..])
  }

  lemma ReachesStart(st0: State, events: seq<Event>)
    ensures Reaches(st0, events, st0, 0)
  {
    assert events[0..] == events;
  }

  lemma ReachesFurther(st0: State, events: seq<Event>, st: State, k: nat)
    requires Reaches(st0, events, st, k) && k < |events| && st.phase == Live
    ensures Reaches(st0, events, Step(st, events[k]), k + 1)
  {
    RunStep(st, events, k);
  }

  /** One turn of the event loop. */
  method HandleNext(ctx: Context, events: seq<Event>, k: nat, received: bytes, ghost st0: State) returns (received': bytes)
    requires ctx.Ready() && ctx.Connected() && Reaches(st0, events, ctx.st, k) && k < |events|
    requires received == Inputs(events[..k])
    modifies ctx, ctx.replies, ctx.replies.cells, ctx.reader, ctx.reader.rstack
    ensures ctx.Tied() && ctx.Connected() && fresh(ctx.replies.cells - old(ctx.replies.cells))
    ensures ctx.st.phase == Live ==> ctx.Ready()
    ensures Reaches(st0, events, ctx.st, k + 1) && received' == Inputs(events[..k + 1])
  {
    InputsSnoc(events, k);
    ReachesFurther(st0, events, ctx.st, k);
    Handle(ctx, events[k]);
    received' := received + (match events[k] case Readable(Some(b)) => b case _ => []);
  }

  /** The event loop around a new context. */
  method Execute(script: seq<seq<Action>>, events: seq<Event>)
    returns (s: Summary, k: nat, received: bytes, ghost trace: seq<Cause>)
    ensures s == Visible(AsyncModel.Run(Start(script), events)) && trace == AsyncModel.Run(Start(script), events).trace
    ensures k == Seen(Start(script), events) && received == Inputs(events[..k])
  {
    ghost var st0 := Start(script);
    var ctx := new Context(script);
    received, k := [], 0;
    ReachesStart(st0, events);
    while k < |events| && !ctx.freed && !ctx.halted
      invariant k <= |events| && received == Inputs(events[..k])
      invariant fresh(ctx) && fresh(ctx.replies) && fresh(ctx.replies.cells) && fresh(ctx.reader) && fresh(ctx.reader.rstack)
      invariant ctx.Tied() && ctx.Connected() && (ctx.st.phase == Live ==> ctx.Ready())
      invariant Reaches(st0, events, ctx.st, k)
      decreases |events| - k
    {
      received := HandleNext(ctx, events, k, received, st0);
      k := k + 1;
    }
    RunEnds(ctx.st, events, k);
    s := Summarize(ctx);
    trace := ctx.st.trace;
  }

  lemma {:induction false} InputsSnoc(events: seq<Event>, k: nat)
    requires k < |events|
    ensures Inputs(events[..k + 1]) == Inputs(events[..k]) + Input(events[k])
    decreases k
  {
    HeadFirst(events, k + 1);
    if k > 0 {
      HeadFirst(events, k);
      InputsSnoc(events[1..], k - 1);
      Regroup(Input(events[0]), Inputs(events[1..][..k - 1]), Input(events[k]));
    } else {
      assert events[1..][..0] == [] && events[..0] == [];
    }
  }

  method CountAnswered(outcomes: seq<Option<Reply>>, ghost answered: nat, ghost replies: seq<Reply>) returns (n: nat)
    requires Matched(outcomes, answered, replies)
    ensures n == answered
  {
    n := 0;
    while n < |outcomes| && outcomes[n].Some?
      invariant n <= answered
    {
      n := n + 1;
    }
  }

  /** The assert of the clean disconnect does fail: two commands written, one reply, and a callback that disconnects. */
  method DisconnectWhilePending(cb: Callback, cmd: bytes) returns (s: Summary)
    requires cb.fn.Some?
    ensures s.halted
  {
    TwoCommandsOneReply(cb, cmd);
    var events := Opening(cb, cmd) + [Readable(Some(Encode(OK)))];
    var r, k, received, answered, trace := Run([[Disconnect]], events);
    s := r;
  }

  /** Through the engine: a read fails an assert exactly when the condition on queue, script and replies holds. */
  method ReadOrFail(ctx: Context, b: bytes)
    requires ctx.Ready() && ctx.Connected() && Settled(ctx.st)
    modifies ctx, ctx.replies, ctx.replies.cells, ctx.reader, ctx.reader.rstack
    ensures var all := ParseAll(old(ctx.st.fed) + b);
            && old(ctx.st.got) <= all.replies
            && (ctx.halted <==> ReadFails(ctx.script, old(ctx.runs), old(ctx.disconnecting), old(ctx.replies.contents),
                                          old(ctx.obuf), all.replies[|old(ctx.st.got)|..], all.fault))
  {
    ReadFailsIff(ctx.st, b);
    ctx.HandleRead(Some(b));
  }

  /** The same for a context that is disconnecting, in closed form. */
  method ReadWhileDisconnecting(ctx: Context, b: bytes)
    requires ctx.Ready() && ctx.Connected() && Settled(ctx.st) && ctx.disconnecting
    modifies ctx, ctx.replies, ctx.replies.cells, ctx.reader, ctx.reader.rstack
    ensures var all := ParseAll(old(ctx.st.fed) + b);
            && old(ctx.st.got) <= all.replies
            && var news, pending := all.replies[|old(ctx.st.got)|..], old(ctx.replies.contents);
               (ctx.halted <==>
                  && !FreesIn(ctx.script, old(ctx.runs), pending[..Min(|news|, |pending|)])
                  && Amiss(pending, old(ctx.obuf), news, all.fault))
  {
    DisconnectingFailsIff(ctx.st, b);
    ctx.HandleRead(Some(b));
  }
}
