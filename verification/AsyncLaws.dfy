/** What the engine promises, proved of every run of its model. */
module AsyncLaws {
  import opened Bytes
  import opened Resp
  import opened CallbackList
  import opened AsyncModel

  // ------------------------------------------------------------ which commands are accepted

  predicate HasClosing(actions: seq<Action>) {
    Disconnect in actions || Free in actions
  }

  /** The callbacks of the commands that come before the first disconnect or free. */
  function IssuedBy(actions: seq<Action>): seq<Callback> {
    if actions == [] then []
    else
      var before, last := actions[..|actions| - 1], actions[|actions| - 1];
      IssuedBy(before) + if last.Command? && !HasClosing(before) then [last.cb] else []
  }

  /** Their bytes. */
  function WiredBy(actions: seq<Action>): seq<bytes> {
    if actions == [] then []
    else
      var before, last := actions[..|actions| - 1], actions[|actions| - 1];
      WiredBy(before) + if last.Command? && !HasClosing(before) then [last.cmd] else []
  }

  /** What a cause does; a failure counts as a disconnect. */
  function Doings(script: seq<seq<Action>>, c: Cause): seq<Action> {
    match c
    case ByCaller(a) => [a]
    case ByCallback(n) => Does(script, n)
    case ByFailure => [Disconnect]
  }

  function AllDoings(script: seq<seq<Action>>, trace: seq<Cause>): seq<Action> {
    if trace == [] then [] else AllDoings(script, trace[..|trace| - 1]) + Doings(script, trace[|trace| - 1])
  }

  /** The calls from outside, in order. */
  function Callers(trace: seq<Cause>): seq<Action> {
    if trace == [] then []
    else Callers(trace[..|trace| - 1]) + match trace[|trace| - 1] case ByCaller(a) => [a] case _ => []
  }

  /** The callback invocations, in order. */
  function Invocations(trace: seq<Cause>): seq<nat> {
    if trace == [] then []
    else Invocations(trace[..|trace| - 1]) + match trace[|trace| - 1] case ByCallback(n) => [n] case _ => []
  }

  lemma TraceSnoc(script: seq<seq<Action>>, trace: seq<Cause>, c: Cause)
    ensures AllDoings(script, trace + [c]) == AllDoings(script, trace) + Doings(script, c)
    ensures Callers(trace + [c]) == Callers(trace) + match c case ByCaller(a) => [a] case _ => []
    ensures Invocations(trace + [c]) == Invocations(trace) + match c case ByCallback(n) => [n] case _ => []
  {
    assert (trace + [c])[..|trace|] == trace;
  }

  /** The commands accepted are those of the actions, and the flags say which closing actions are among them. */
  ghost predicate HonestOver(st: State, actions: seq<Action>) {
    && st.issued == IssuedBy(actions) && st.wire == WiredBy(actions)
    && (st.disconnecting <==> Disconnect in actions) && (st.freeing <==> Free in actions)
  }

  lemma ActHonest(st: State, actions: seq<Action>, a: Action)
    requires HonestOver(st, actions)
    ensures HonestOver(Act(st, a), actions + [a])
  {
    assert (actions + [a])[..|actions|] == actions;
  }

  lemma {:induction false} ActsHonest(st: State, actions: seq<Action>, more: seq<Action>)
    requires HonestOver(st, actions)
    ensures HonestOver(Acts(st, more), actions + more)
    decreases |more|
  {
    if more == [] {
      assert actions + more == actions;
    } else {
      var n := |more| - 1;
      ActsHonest(st, actions, more[..n]);
      ActHonest(Acts(st, more[..n]), actions + more[..n], more[n]);
      assert actions + more[..n] + [more[n]] == actions + more;
    }
  }

  // ------------------------------------------------------------ the invariant

  /** Issued callbacks are the dispatched ones followed by the pending ones; issued bytes are sent or buffered. */
  ghost predicate Balanced(st: State) {
    && st.issued == st.dispatched + st.pending && |st.wire| == |st.issued|
    && st.sent + st.obuf == Concat(st.wire)
    && |st.outcomes| == |st.dispatched|
  }

  /** The i-th dispatched callback got the i-th reply, or NULL once replies have stopped. */
  ghost predicate Matched(outcomes: seq<Option<Reply>>, answered: nat, replies: seq<Reply>) {
    && answered <= |outcomes| && answered <= |replies|
    && forall i :: 0 <= i < |outcomes| ==> outcomes[i] == if i < answered then Some(replies[i]) else None
  }

  /** The callbacks that have a function to run. */
  function Functions(cbs: seq<Callback>): nat {
    if cbs == [] then 0 else Functions(cbs[..|cbs| - 1]) + if cbs[|cbs| - 1].fn.Some? then 1 else 0
  }

  ghost predicate UpTo(ns: seq<nat>, n: nat) {
    |ns| == n && forall i :: 0 <= i < n ==> ns[i] == i
  }

  /** Each dispatched callback with a function was invoked once. */
  ghost predicate Counted(st: State) {
    st.runs == Functions(st.dispatched) && UpTo(Invocations(st.trace), st.runs)
  }

  ghost predicate Honest(st: State) {
    HonestOver(st, AllDoings(st.script, st.trace))
  }

  ghost predicate Sound(st: State) {
    Balanced(st) && Matched(st.outcomes, st.answered, st.got) && Counted(st) && Honest(st)
  }

  /** In the middle of an event: every reply obtained went to a callback. */
  ghost predicate Serving(st: State) {
    Sound(st) && (st.phase == Live ==> !st.freeing && st.answered == |st.outcomes| == |st.got|)
    && (st.phase == Freed ==> st.pending == [])
  }

  /** Between events: in addition there is no reply left to obtain. */
  ghost predicate Settled(st: State) {
    Serving(st) && (st.phase == Live ==> ParseAll(st.fed) == Stream(st.got, None))
  }

  // ------------------------------------------------------------ it is kept

  lemma ActBalanced(st: State, a: Action)
    requires Balanced(st)
    ensures Balanced(Act(st, a))
  {
    if a.Command? && !Closing(st) {
      ConcatSnoc(st.wire, a.cmd);
      Regroup(st.sent, st.obuf, a.cmd);
      assert st.dispatched + st.pending + [a.cb] == st.dispatched + (st.pending + [a.cb]);
    }
  }

  lemma {:induction false} ActsBalanced(st: State, actions: seq<Action>)
    requires Balanced(st)
    ensures Balanced(Acts(st, actions))
  {
    if actions != [] {
      var n := |actions| - 1;
      ActsBalanced(st, actions[..n]);
      ActBalanced(Acts(st, actions[..n]), actions[n]);
    }
  }

  lemma TakeBalanced(st: State, outcome: Option<Reply>)
    requires Balanced(st) && st.pending != []
    ensures Balanced(Take(st, outcome))
  {
    assert st.pending == [st.pending[0]] + st.pending[1..];
  }

  lemma InvokeHonest(st: State, cb: Callback)
    requires Honest(st)
    ensures Honest(Invoke(st, cb))
  {
    if cb.fn.Some? {
      TraceSnoc(st.script, st.trace, ByCallback(st.runs));
      ActsHonest(Entered(st), AllDoings(st.script, st.trace), Does(st.script, st.runs));
      ActsHistory(Entered(st), Does(st.script, st.runs));
    }
  }

  lemma InvokeBalanced(st: State, cb: Callback)
    requires Balanced(st)
    ensures Balanced(Invoke(st, cb))
  {
    if cb.fn.Some? {
      ActsBalanced(Entered(st), Does(st.script, st.runs));
    }
  }

  /** An invocation makes up for the callback dispatched before it. */
  lemma InvokeCounted(st: State, cb: Callback, before: seq<Callback>)
    requires st.dispatched == before + [cb] && st.runs == Functions(before) && UpTo(Invocations(st.trace), st.runs)
    ensures Counted(Invoke(st, cb))
  {
    assert (before + [cb])[..|before|] == before;
    if cb.fn.Some? {
      TraceSnoc(st.script, st.trace, ByCallback(st.runs));
      ActsHistory(Entered(st), Does(st.script, st.runs));
    }
  }

  /** Dispatching a callback with its reply, or with NULL. */
  lemma DispatchKeeps(st: State, outcome: Option<Reply>)
    requires Sound(st) && st.pending != []
    requires outcome.Some? ==> st.answered == |st.outcomes| < |st.got| && st.got[st.answered] == outcome.value
    ensures Sound(Invoke(Take(st, outcome), st.pending[0]))
  {
    var cb, s1 := st.pending[0], Take(st, outcome);
    TakeBalanced(st, outcome);
    InvokeBalanced(s1, cb);
    TakeHonest(st, outcome);
    InvokeHonest(s1, cb);
    InvokeCounted(s1, cb, st.dispatched);
    TakeMatched(st, outcome);
    InvokeHistory(s1, cb);
  }

  lemma TakeHonest(st: State, outcome: Option<Reply>)
    requires Honest(st) && st.pending != []
    ensures Honest(Take(st, outcome))
  {
  }

  lemma TakeMatched(st: State, outcome: Option<Reply>)
    requires Matched(st.outcomes, st.answered, st.got) && st.pending != []
    requires outcome.Some? ==> st.answered == |st.outcomes| < |st.got| && st.got[st.answered] == outcome.value
    ensures var t := Take(st, outcome); Matched(t.outcomes, t.answered, t.got)
  {
  }

  lemma {:induction false} DrainKeeps(st: State)
    requires Sound(st) && Closing(st)
    ensures Serving(Drain(st)) && Drain(st).phase == Freed && Drain(st).issued == st.issued
    decreases |st.pending|
  {
    if st.pending != [] {
      DispatchKeeps(st, None);
      InvokeClosing(Take(st, None), st.pending[0]);
      DrainKeeps(DrainOne(st));
    }
  }

  lemma FailKeeps(st: State)
    requires Sound(st)
    ensures Serving(Fail(st)) && Fail(st).phase == Freed && Fail(st).issued == st.issued
  {
    var s1 := st.(disconnecting := true, trace := st.trace + [ByFailure]);
    TraceSnoc(st.script, st.trace, ByFailure);
    ActHonest(st, AllDoings(st.script, st.trace), Disconnect);
    DrainKeeps(s1);
  }

  lemma OnReplyKeeps(st: State, reply: Reply)
    requires Serving(st) && st.phase == Live
    ensures Serving(OnReply(st, reply))
  {
    var s0 := st.(got := st.got + [reply]);
    if s0.pending == [] {
      FailKeeps(s0);
    } else {
      DispatchKeeps(s0, Some(reply));
      InvokeHistory(Take(s0, Some(reply)), s0.pending[0]);
      var s1 := Invoke(Take(s0, Some(reply)), s0.pending[0]);
      if s1.freeing {
        DrainKeeps(s1);
      }
    }
  }

  lemma {:induction false} ProcessKeeps(st: State)
    requires Serving(st) && (st.phase == Live ==> st.got <= ParseAll(st.fed).replies)
    ensures Settled(Process(st)) && Process(st).fed == st.fed
    decreases |ParseAll(st.fed).replies| - |st.got|
  {
    var all := ParseAll(st.fed);
    if st.phase == Live {
      if |st.got| < |all.replies| {
        var r := all.replies[|st.got|];
        OnReplyInput(st, r);
        OnReplyKeeps(st, r);
        assert st.got + [r] <= all.replies;
        ProcessKeeps(OnReply(st, r));
      } else {
        assert st.got == all.replies;
        FailKeeps(st);
        DrainInput(st.(disconnecting := true, trace := st.trace + [ByFailure]));
        if st.disconnecting && st.pending == [] {
          DrainKeeps(st);
          DrainInput(st);
        }
      }
    }
  }

  lemma WriteKeeps(st: State, n: nat)
    requires Settled(st)
    ensures Settled(Write(st, n))
  {
  }

  lemma CallKeeps(st: State, a: Action)
    requires Settled(st) && st.phase == Live
    ensures Settled(CallBy(st, a))
  {
    var s0 := st.(trace := st.trace + [ByCaller(a)]);
    var s1 := Act(s0, a);
    TraceSnoc(st.script, st.trace, ByCaller(a));
    ActHonest(st, AllDoings(st.script, st.trace), a);
    ActBalanced(s0, a);
    if Closing(s1) {
      DrainKeeps(s1);
    }
  }

  lemma ReadKeeps(st: State, input: Option<bytes>)
    requires Settled(st) && st.phase == Live
    ensures Settled(Read(st, input))
  {
    match input
    case None => FailKeeps(st);
    case Some(b) =>
      ParseAllExtend(st.fed, b);
      ProcessKeeps(st.(fed := st.fed + b));
  }

  lemma StepKeeps(st: State, e: Event)
    requires Settled(st) && st.phase == Live
    ensures Settled(Step(st, e))
  {
    match e
    case Call(a) => CallKeeps(st, a);
    case Readable(input) => ReadKeeps(st, input);
    case Writable(None) => FailKeeps(st);
    case Writable(Some(n)) => WriteKeeps(st, n);
  }

  // ------------------------------------------------------------ what a run has seen

  function Input(e: Event): bytes {
    match e
    case Readable(Some(b)) => b
    case _ => []
  }

  /** The bytes the events bring, in order. */
  function Inputs(events: seq<Event>): bytes {
    if events == [] then [] else Input(events[0]) + Inputs(events[1..])
  }

  function Asking(e: Event): seq<Action> {
    if e.Call? then [e.action] else []
  }

  /** The calls among the events, in order. */
  function Calls(events: seq<Event>): seq<Action> {
    if events == [] then [] else Asking(events[0]) + Calls(events[1..])
  }

  /** Nothing is received and nobody calls from outside. */
  ghost predicate Inward(st: State, t: State) {
    t.fed == st.fed && t.script == st.script && Callers(t.trace) == Callers(st.trace)
  }

  lemma InvokeInward(st: State, cb: Callback)
    ensures Inward(st, Invoke(st, cb))
  {
    if cb.fn.Some? {
      TraceSnoc(st.script, st.trace, ByCallback(st.runs));
      ActsHistory(Entered(st), Does(st.script, st.runs));
    }
  }

  lemma {:induction false} DrainInward(st: State)
    requires Closing(st)
    ensures Inward(st, Drain(st))
    decreases |st.pending|
  {
    if st.pending != [] {
      InvokeClosing(Take(st, None), st.pending[0]);
      InvokeInward(Take(st, None), st.pending[0]);
      DrainInward(DrainOne(st));
    }
  }

  lemma FailInward(st: State)
    ensures Inward(st, Fail(st))
  {
    TraceSnoc(st.script, st.trace, ByFailure);
    DrainInward(st.(disconnecting := true, trace := st.trace + [ByFailure]));
  }

  lemma OnReplyInward(st: State, reply: Reply)
    ensures Inward(st, OnReply(st, reply))
  {
    var s0 := st.(got := st.got + [reply]);
    if s0.pending == [] {
      FailInward(s0);
    } else {
      InvokeInward(Take(s0, Some(reply)), s0.pending[0]);
      var s1 := Invoke(Take(s0, Some(reply)), s0.pending[0]);
      if s1.freeing {
        DrainInward(s1);
      }
    }
  }

  lemma {:induction false} ProcessInward(st: State)
    ensures Inward(st, Process(st))
    decreases |ParseAll(st.fed).replies| - |st.got|
  {
    var all := ParseAll(st.fed);
    if st.phase == Live {
      if |st.got| < |all.replies| {
        var r := all.replies[|st.got|];
        OnReplyInput(st, r);
        OnReplyInward(st, r);
        ProcessInward(OnReply(st, r));
      } else {
        FailInward(st);
        if st.disconnecting {
          DrainInward(st);
        }
      }
    }
  }

  /** What the context has been given: bytes received, and calls from outside. */
  ghost predicate Given(st: State, t: State, input: bytes, asked: seq<Action>) {
    t.fed == st.fed + input && t.script == st.script && Callers(t.trace) == Callers(st.trace) + asked
  }

  lemma InwardGiven(st: State, t: State)
    requires Inward(st, t)
    ensures Given(st, t, [], [])
  {
  }

  lemma GivenThen(st: State, t: State, u: State, input: bytes, asked: seq<Action>, input': bytes, asked': seq<Action>)
    requires Given(st, t, input, asked) && Given(t, u, input', asked')
    ensures Given(st, u, input + input', asked + asked')
  {
    Regroup(st.fed, input, input');
    assert Callers(st.trace) + asked + asked' == Callers(st.trace) + (asked + asked');
  }

  lemma CallGiven(st: State, a: Action)
    ensures Given(st, CallBy(st, a), [], [a])
  {
    var s1 := Act(st.(trace := st.trace + [ByCaller(a)]), a);
    ActGiven(st, a);
    if Closing(s1) {
      DrainInward(s1);
    }
  }

  lemma ActGiven(st: State, a: Action)
    ensures Given(st, Act(st.(trace := st.trace + [ByCaller(a)]), a), [], [a])
  {
    TraceSnoc(st.script, st.trace, ByCaller(a));
    assert st.fed + [] == st.fed;
  }

  lemma ReadGiven(st: State, input: Option<bytes>)
    ensures Given(st, Read(st, input), Input(Readable(input)), [])
  {
    match input
    case None =>
      FailInward(st);
      InwardGiven(st, Fail(st));
    case Some(b) => ProcessInward(st.(fed := st.fed + b));
  }

  lemma StepGiven(st: State, e: Event)
    ensures Given(st, Step(st, e), Input(e), Asking(e))
  {
    match e
    case Call(a) => CallGiven(st, a);
    case Readable(input) => ReadGiven(st, input);
    case Writable(None) =>
      FailInward(st);
      InwardGiven(st, Fail(st));
    case Writable(Some(n)) => InwardGiven(st, Write(st, n));
  }

  /** The invariant holds after every run. */
  lemma {:induction false} RunKeeps(st: State, events: seq<Event>)
    requires Settled(st)
    ensures Settled(Run(st, events)) && (Seen(st, events) == |events| || Run(st, events).phase != Live)
    decreases |events|
  {
    if events != [] && st.phase == Live {
      StepKeeps(st, events[0]);
      RunKeeps(Step(st, events[0]), events[1..]);
    }
  }

  /** A run has received the bytes and the calls of the events it handled, all of them and in order. */
  lemma {:induction false} RunGiven(st: State, events: seq<Event>)
    ensures var k := Seen(st, events); Given(st, Run(st, events), Inputs(events[..k]), Calls(events[..k]))
    decreases |events|
  {
    var k := Seen(st, events);
    if events == [] || st.phase != Live {
      assert events[..0] == [];
      InwardGiven(st, st);
    } else {
      var e, rest := events[0], events[1..];
      var next := Step(st, e);
      StepGiven(st, e);
      RunGiven(next, rest);
      HeadFirst(events, k);
      GivenThen(st, next, Run(next, rest), Input(e), Asking(e), Inputs(rest[..k - 1]), Calls(rest[..k - 1]));
    }
  }

  /** The replies obtained are the first ones of the bytes received. */
  lemma {:induction false} ProcessObtains(st: State)
    requires st.got <= ParseAll(st.fed).replies
    ensures Process(st).got <= ParseAll(Process(st).fed).replies
    decreases |ParseAll(st.fed).replies| - |st.got|
  {
    var all := ParseAll(st.fed);
    if st.phase == Live {
      if |st.got| < |all.replies| {
        var r := all.replies[|st.got|];
        OnReplyInput(st, r);
        ProcessObtains(OnReply(st, r));
      } else {
        DrainInput(st.(disconnecting := true, trace := st.trace + [ByFailure]));
        if st.disconnecting {
          DrainInput(st);
        }
      }
    }
  }

  lemma StepObtains(st: State, e: Event)
    requires st.got <= ParseAll(st.fed).replies
    ensures Step(st, e).got <= ParseAll(Step(st, e).fed).replies
  {
    match e
    case Call(a) =>
      var s1 := Act(st.(trace := st.trace + [ByCaller(a)]), a);
      if Closing(s1) {
        DrainInput(s1);
      }
    case Readable(Some(b)) =>
      ParseAllExtend(st.fed, b);
      ProcessObtains(st.(fed := st.fed + b));
    case Writable(Some(_)) =>
    case _ => DrainInput(st.(disconnecting := true, trace := st.trace + [ByFailure]));
  }

  lemma {:induction false} RunObtains(st: State, events: seq<Event>)
    requires st.got <= ParseAll(st.fed).replies
    ensures Run(st, events).got <= ParseAll(Run(st, events).fed).replies
    decreases |events|
  {
    if events != [] && st.phase == Live {
      StepObtains(st, events[0]);
      RunObtains(Step(st, events[0]), events[1..]);
    }
  }

  /** Only a context that is gone has failed. */
  ghost predicate Unfailed(st: State) {
    st.phase != Freed ==> ByFailure !in st.trace
  }

  lemma InvokeUnfailed(st: State, cb: Callback)
    requires ByFailure !in st.trace
    ensures ByFailure !in Invoke(st, cb).trace
  {
    if cb.fn.Some? {
      ActsHistory(Entered(st), Does(st.script, st.runs));
    }
  }

  lemma OnReplyUnfailed(st: State, reply: Reply)
    requires st.phase == Live && Unfailed(st)
    ensures Unfailed(OnReply(st, reply))
  {
    var s0 := st.(got := st.got + [reply]);
    if s0.pending == [] {
      DrainInput(s0.(disconnecting := true, trace := s0.trace + [ByFailure]));
    } else {
      var s1 := Invoke(Take(s0, Some(reply)), s0.pending[0]);
      InvokeUnfailed(Take(s0, Some(reply)), s0.pending[0]);
      if s1.freeing {
        DrainInput(s1);
      }
    }
  }

  lemma {:induction false} ProcessUnfailed(st: State)
    requires Unfailed(st)
    ensures Unfailed(Process(st))
    decreases |ParseAll(st.fed).replies| - |st.got|
  {
    var all := ParseAll(st.fed);
    if st.phase == Live {
      if |st.got| < |all.replies| {
        var r := all.replies[|st.got|];
        OnReplyInput(st, r);
        OnReplyUnfailed(st, r);
        ProcessUnfailed(OnReply(st, r));
      } else {
        DrainInput(st.(disconnecting := true, trace := st.trace + [ByFailure]));
        if st.disconnecting {
          DrainInput(st);
        }
      }
    }
  }

  lemma StepUnfailed(st: State, e: Event)
    requires st.phase == Live && Unfailed(st)
    ensures Unfailed(Step(st, e))
  {
    match e
    case Call(a) =>
      var s1 := Act(st.(trace := st.trace + [ByCaller(a)]), a);
      if Closing(s1) {
        DrainInput(s1);
      }
    case Readable(Some(b)) => ProcessUnfailed(st.(fed := st.fed + b));
    case Writable(Some(_)) =>
    case _ => DrainInput(st.(disconnecting := true, trace := st.trace + [ByFailure]));
  }

  lemma {:induction false} RunUnfailed(st: State, events: seq<Event>)
    requires Unfailed(st)
    ensures Unfailed(Run(st, events))
    decreases |events|
  {
    if events != [] && st.phase == Live {
      StepUnfailed(st, events[0]);
      RunUnfailed(Step(st, events[0]), events[1..]);
    }
  }

  /** One more event of a run. */
  lemma RunStep(st: State, events: seq<Event>, k: nat)
    requires k < |events| && st.phase == Live
    ensures Run(st, events[k..]) == Run(Step(st, events[k]), events[k + 1..])
    ensures Seen(st, events[k..]) == 1 + Seen(Step(st, events[k]), events[k + 1..])
  {
    assert events[k..][0] == events[k] && events[k..][1..] == events[k + 1..];
  }

  /** The run is over. */
  lemma RunEnds(st: State, events: seq<Event>, k: nat)
    requires k <= |events| && (k == |events| || st.phase != Live)
    ensures Run(st, events[k..]) == st && Seen(st, events[k..]) == 0
  {
  }

  lemma HeadFirst(events: seq<Event>, k: nat)
    requires 0 < k <= |events|
    ensures Inputs(events[..k]) == Input(events[0]) + Inputs(events[1..][..k - 1])
    ensures Calls(events[..k]) == Asking(events[0]) + Calls(events[1..][..k - 1])
  {
    assert events[..k][0] == events[0] && events[..k][1..] == events[1..][..k - 1];
  }

  lemma StartSettled(script: seq<seq<Action>>)
    ensures Settled(Start(script))
  {
    assert Parse([], 0) == More;
    assert Concat([]) == [];
  }
}
