/**
 What the asynchronous engine is meant to do, said without its reader, its linked queue and its loops: replies are
 those of the one-shot parser on all bytes received, the queue is a sequence, and teardown empties it. Callbacks may
 issue commands, disconnect or free; what the n-th invocation does is an arbitrary script.
 */
module AsyncModel {
  import opened Bytes
  import opened Resp
  import opened CallbackList

  /** The calls an application makes, from inside or outside of a callback. */
  datatype Action = Command(cb: Callback, cmd: bytes) | Disconnect | Free

  /** What the application's callback does when it is invoked for the n-th time. */
  function Does(script: seq<seq<Action>>, n: nat): seq<Action> {
    if n < |script| then script[n] else []
  }

  /** Who acted: the application from outside, its n-th callback invocation, or a failure of the connection. */
  datatype Cause = ByCaller(action: Action) | ByCallback(n: nat) | ByFailure

  /** In service, torn down, or stopped by a failed assert. */
  datatype Phase = Live | Freed | Halted

  datatype State = State(
    script: seq<seq<Action>>,
    runs: nat,
    pending: seq<Callback>,
    disconnecting: bool,
    freeing: bool,
    obuf: bytes,
    phase: Phase,
    /** Callbacks and bytes of the commands accepted, bytes written to the socket. */
    issued: seq<Callback>,
    wire: seq<bytes>,
    sent: bytes,
    /** Callbacks taken off the queue, each with its reply or with NULL; how many got a reply. */
    dispatched: seq<Callback>,
    outcomes: seq<Option<Reply>>,
    answered: nat,
    /** Replies obtained, bytes received, and who acted so far. */
    got: seq<Reply>,
    fed: bytes,
    trace: seq<Cause>)

  function Start(script: seq<seq<Action>>): State {
    State(script, 0, [], false, false, [], Live, [], [], [], [], [], 0, [], [], [])
  }

  predicate Closing(st: State) {
    st.disconnecting || st.freeing
  }

  // ------------------------------------------------------------ steps

  /** A command is queued unless the context is closing; tearing down from inside a callback only sets a flag. */
  function Act(st: State, a: Action): State {
    match a
    case Command(cb, cmd) =>
      if Closing(st) then st
      else st.(pending := st.pending + [cb], obuf := st.obuf + cmd, issued := st.issued + [cb], wire := st.wire + [cmd])
    case Disconnect => st.(disconnecting := true)
    case Free => st.(freeing := true)
  }

  function Acts(st: State, actions: seq<Action>): State {
    if actions == [] then st else Act(Acts(st, actions[..|actions| - 1]), actions[|actions| - 1])
  }

  /** A callback is entered. */
  function Entered(st: State): State {
    st.(runs := st.runs + 1, trace := st.trace + [ByCallback(st.runs)])
  }

  function Invoke(st: State, cb: Callback): State {
    if cb.fn.None? then st else Acts(Entered(st), Does(st.script, st.runs))
  }

  /** The first pending callback is dispatched with this outcome. */
  function Take(st: State, outcome: Option<Reply>): State
    requires st.pending != []
  {
    st.(pending := st.pending[1..], dispatched := st.dispatched + [st.pending[0]], outcomes := st.outcomes + [outcome],
        answered := if outcome.Some? then st.answered + 1 else st.answered)
  }

  function DrainOne(st: State): State
    requires st.pending != []
  {
    Invoke(Take(st, None), st.pending[0])
  }

  /** Teardown: every pending callback runs with NULL. */
  function Drain(st: State): State
    requires Closing(st)
    decreases |st.pending|
  {
    if st.pending == [] then st.(phase := Freed)
    else
      InvokeClosing(Take(st, None), st.pending[0]);
      Drain(DrainOne(st))
  }

  /** The connection has failed. */
  function Fail(st: State): State {
    Drain(st.(disconnecting := true, trace := st.trace + [ByFailure]))
  }

  /** A clean disconnect asserts that nothing is pending. */
  function Leave(st: State): State
    requires st.disconnecting
  {
    if st.pending == [] then Drain(st) else st.(phase := Halted)
  }

  /** A reply goes to the first pending callback; an error nobody asked for closes, any other fails an assert. */
  function OnReply(st: State, reply: Reply): State {
    var s0 := st.(got := st.got + [reply]);
    if s0.pending == [] then
      if reply.Error? then Fail(s0) else s0.(phase := Halted)
    else
      var s1 := Invoke(Take(s0, Some(reply)), s0.pending[0]);
      if s1.freeing then Drain(s1) else s1
  }

  /** No reply is left: when disconnecting with nothing to write, this is the cue to leave. */
  function OnNoReply(st: State): State {
    if st.disconnecting && st.obuf == [] then Leave(st) else st
  }

  /** All replies in the bytes received, one after the other, while the context is in service. */
  function Process(st: State): State
    decreases |ParseAll(st.fed).replies| - |st.got|
  {
    var all := ParseAll(st.fed);
    if st.phase != Live then st
    else if |st.got| < |all.replies| then
      OnReplyInput(st, all.replies[|st.got|]);
      Process(OnReply(st, all.replies[|st.got|]))
    else if all.fault.Some? then Fail(st)
    else OnNoReply(st)
  }

  /** What can happen to a context from outside. */
  datatype Event =
    | Call(action: Action)
    | Readable(input: Option<bytes>)
    | Writable(written: Option<nat>)

  function Read(st: State, input: Option<bytes>): State {
    match input
    case None => Fail(st)
    case Some(b) => Process(st.(fed := st.fed + b))
  }

  function Write(st: State, n: nat): State {
    var k := if n < |st.obuf| then n else |st.obuf|;
    st.(sent := st.sent + st.obuf[..k], obuf := st.obuf[k..])
  }

  /** A call from outside: freeing happens at once, disconnecting too when nothing is pending. */
  function CallBy(st: State, a: Action): State {
    var s1 := Act(st.(trace := st.trace + [ByCaller(a)]), a);
    match a
    case Command(_, _) => s1
    case Disconnect => if s1.pending == [] then Leave(s1) else s1
    case Free => Drain(s1)
  }

  function Step(st: State, e: Event): State {
    match e
    case Call(a) => CallBy(st, a)
    case Readable(input) => Read(st, input)
    case Writable(None) => Fail(st)
    case Writable(Some(n)) => Write(st, n)
  }

  /** A run ends with the events, or when the context is gone or an assert has failed. */
  function Run(st: State, events: seq<Event>): State
    decreases |events|
  {
    if events == [] || st.phase != Live then st else Run(Step(st, events[0]), events[1..])
  }

  /** How many of the events the context lives to see. */
  function Seen(st: State, events: seq<Event>): (k: nat)
    ensures k <= |events|
    decreases |events|
  {
    if events == [] || st.phase != Live then 0 else 1 + Seen(Step(st, events[0]), events[1..])
  }

  // ------------------------------------------------------------ what actions leave alone

  ghost predicate SameHistory(st: State, t: State) {
    && t.script == st.script && t.phase == st.phase && t.sent == st.sent && t.dispatched == st.dispatched
    && t.outcomes == st.outcomes && t.answered == st.answered && t.got == st.got && t.fed == st.fed
  }

  lemma {:induction false} ActsHistory(st: State, actions: seq<Action>)
    ensures var t := Acts(st, actions); SameHistory(st, t) && t.runs == st.runs && t.trace == st.trace
  {
    if actions != [] {
      ActsHistory(st, actions[..|actions| - 1]);
    }
  }

  lemma InvokeHistory(st: State, cb: Callback)
    ensures SameHistory(st, Invoke(st, cb))
  {
    ActsHistory(Entered(st), Does(st.script, st.runs));
  }

  /** A closing context accepts nothing. */
  ghost predicate Refused(st: State, t: State) {
    t.pending == st.pending && t.issued == st.issued && t.wire == st.wire && t.obuf == st.obuf && Closing(t)
  }

  lemma {:induction false} ActsClosing(st: State, actions: seq<Action>)
    requires Closing(st)
    ensures Refused(st, Acts(st, actions))
  {
    if actions != [] {
      ActsClosing(st, actions[..|actions| - 1]);
    }
  }

  lemma InvokeClosing(st: State, cb: Callback)
    requires Closing(st)
    ensures Refused(st, Invoke(st, cb))
  {
    if cb.fn.Some? {
      ActsClosing(Entered(st), Does(st.script, st.runs));
    }
  }

  lemma {:induction false} ActsFlags(st: State, actions: seq<Action>)
    ensures var t := Acts(st, actions);
            && t.disconnecting == (st.disconnecting || Disconnect in actions)
            && t.freeing == (st.freeing || Free in actions)
  {
    if actions != [] {
      var n := |actions| - 1;
      ActsFlags(st, actions[..n]);
      assert actions == actions[..n] + [actions[n]];
    }
  }

  /** The received bytes and the replies obtained are not touched by teardown. */
  lemma {:induction false} DrainInput(st: State)
    requires Closing(st)
    ensures var t := Drain(st); t.got == st.got && t.fed == st.fed && t.script == st.script && t.phase == Freed && t.pending == []
    decreases |st.pending|
  {
    if st.pending != [] {
      InvokeClosing(Take(st, None), st.pending[0]);
      InvokeHistory(Take(st, None), st.pending[0]);
      DrainInput(DrainOne(st));
    }
  }

  lemma OnReplyInput(st: State, reply: Reply)
    ensures var t := OnReply(st, reply); t.got == st.got + [reply] && t.fed == st.fed && t.script == st.script
  {
    var s0 := st.(got := st.got + [reply]);
    if s0.pending == [] {
      DrainInput(s0.(disconnecting := true, trace := s0.trace + [ByFailure]));
    } else {
      InvokeHistory(Take(s0, Some(reply)), s0.pending[0]);
      var s1 := Invoke(Take(s0, Some(reply)), s0.pending[0]);
      if s1.freeing {
        DrainInput(s1);
      }
    }
  }
}
