/** When a context is torn down, how, and why. */
module AsyncEnds {
  import opened Bytes
  import opened Resp
  import opened CallbackList
  import opened AsyncModel
  import opened AsyncLaws

  function Nulls(n: nat): seq<Option<Reply>> {
    if n == 0 then [] else [None] + Nulls(n - 1)
  }

  lemma {:induction false} NullsExact(n: nat)
    ensures |Nulls(n)| == n && forall i :: 0 <= i < n ==> Nulls(n)[i] == None
  {
    if n > 0 {
      NullsExact(n - 1);
    }
  }

  // ------------------------------------------------------------ how

  /** Every callback that was pending has been dispatched, in order and with NULL; nothing was accepted or written. */
  ghost predicate TornDown(s: State, t: State) {
    && t.phase == Freed && t.pending == []
    && t.dispatched == s.dispatched + s.pending && t.outcomes == s.outcomes + Nulls(|s.pending|)
    && t.issued == s.issued && t.wire == s.wire && t.sent == s.sent && t.obuf == s.obuf
  }

  lemma {:induction false} DrainTears(st: State)
    requires Closing(st)
    ensures TornDown(st, Drain(st))
    decreases |st.pending|
  {
    if st.pending == [] {
      assert st.dispatched + [] == st.dispatched && st.outcomes + [] == st.outcomes;
    } else {
      InvokeClosing(Take(st, None), st.pending[0]);
      InvokeHistory(Take(st, None), st.pending[0]);
      DrainTears(DrainOne(st));
      TornOneMore(st, DrainOne(st), Drain(st));
    }
  }

  lemma TornOneMore(s: State, s1: State, t: State)
    requires s.pending != [] && TornDown(s1, t) && s1.pending == s.pending[1..]
    requires s1.dispatched == s.dispatched + [s.pending[0]] && s1.outcomes == s.outcomes + [None]
    requires s1.issued == s.issued && s1.wire == s.wire && s1.sent == s.sent && s1.obuf == s.obuf
    ensures TornDown(s, t)
  {
    assert s.pending == [s.pending[0]] + s.pending[1..];
    assert s.outcomes + [None] + Nulls(|s.pending| - 1) == s.outcomes + ([None] + Nulls(|s.pending| - 1));
    assert s.dispatched + [s.pending[0]] + s.pending[1..] == s.dispatched + s.pending;
  }

  lemma FailTears(st: State)
    ensures TornDown(st, Fail(st))
  {
    DrainTears(st.(disconnecting := true, trace := st.trace + [ByFailure]));
  }

  /** End of file, a failed read, a failed write, and a free: nothing survives these. */
  predicate Closes(e: Event) {
    e == Readable(None) || e == Writable(None) || e == Call(Free)
  }

  lemma StepCloses(st: State, e: Event)
    requires Closes(e)
    ensures TornDown(st, Step(st, e))
  {
    if e.Call? {
      DrainTears(st.(trace := st.trace + [ByCaller(Free)], freeing := true));
    } else {
      FailTears(st);
    }
  }

  // ------------------------------------------------------------ when

  /**
   What it takes to be still in service after an event: it was none of those above, nobody has freed, a disconnect
   found callbacks pending, and a read brought no fault and found something left to do when disconnecting.
   */
  ghost predicate Stays(t: State, e: Event) {
    t.phase == Live ==>
      && !Closes(e) && !t.freeing
      && (e == Call(Disconnect) ==> t.pending != [])
      && (e.Readable? ==> ParseAll(t.fed).fault == None && !(t.disconnecting && t.obuf == []))
  }

  lemma {:induction false} ProcessStays(st: State)
    requires st.phase == Live ==> !st.freeing
    ensures var t := Process(st);
            t.phase == Live ==> !t.freeing && (st.phase == Live ==>
              ParseAll(t.fed).fault == None && !(t.disconnecting && t.obuf == []))
    decreases |ParseAll(st.fed).replies| - |st.got|
  {
    var all := ParseAll(st.fed);
    if st.phase == Live {
      if |st.got| < |all.replies| {
        var r := all.replies[|st.got|];
        OnReplyInput(st, r);
        OnReplyStays(st, r);
        ProcessStays(OnReply(st, r));
      } else {
        FailTears(st);
        if st.disconnecting {
          DrainTears(st);
        }
      }
    }
  }

  lemma OnReplyStays(st: State, reply: Reply)
    ensures var t := OnReply(st, reply); t.phase == Live ==> !t.freeing
  {
    var s0 := st.(got := st.got + [reply]);
    if s0.pending == [] {
      FailTears(s0);
    } else {
      var s1 := Invoke(Take(s0, Some(reply)), s0.pending[0]);
      if s1.freeing {
        DrainTears(s1);
      }
    }
  }

  lemma StepStays(st: State, e: Event)
    requires st.phase == Live && !st.freeing
    ensures Stays(Step(st, e), e)
  {
    if Closes(e) {
      StepCloses(st, e);
    } else {
      match e
      case Call(a) =>
        var s1 := Act(st.(trace := st.trace + [ByCaller(a)]), a);
        if a.Disconnect? {
          DrainTears(s1);
        }
      case Readable(Some(b)) => ProcessStays(st.(fed := st.fed + b));
      case Writable(Some(n)) =>
    }
  }

  // ------------------------------------------------------------ why

  /** Somebody disconnected or freed, from outside or in a callback; a failure of the connection does not count. */
  ghost predicate Wanted(script: seq<seq<Action>>, trace: seq<Cause>) {
    exists i :: 0 <= i < |trace| && trace[i] != ByFailure && HasClosing(Doings(script, trace[i]))
  }

  /** The first reply without a callback is an error. */
  predicate Unrequested(replies: seq<Reply>, issued: nat) {
    |replies| > issued && replies[issued].Error?
  }

  ghost predicate Explained(t: State, e: Event) {
    t.phase == Freed ==>
      || Closes(e)
      || Wanted(t.script, t.trace)
      || (e.Readable? && (ParseAll(t.fed).fault.Some? || Unrequested(ParseAll(t.fed).replies, |t.issued|)))
  }

  lemma {:induction false} ClosingFrom(script: seq<seq<Action>>, trace: seq<Cause>)
    requires ByFailure !in trace && HasClosing(AllDoings(script, trace))
    ensures Wanted(script, trace)
  {
    var n := |trace| - 1;
    var before, last := AllDoings(script, trace[..n]), Doings(script, trace[n]);
    if HasClosing(before) {
      ClosingFrom(script, trace[..n]);
      WantedStill(script, trace[..n], trace);
    } else {
      assert HasClosing(last);
    }
  }

  lemma WantedStill(script: seq<seq<Action>>, before: seq<Cause>, after: seq<Cause>)
    requires Wanted(script, before) && before <= after
    ensures Wanted(script, after)
  {
    var i :| 0 <= i < |before| && before[i] != ByFailure && HasClosing(Doings(script, before[i]));
    assert after[i] == before[i];
  }

  lemma InvokeTrace(st: State, cb: Callback)
    ensures var t := Invoke(st, cb); st.trace <= t.trace && t.script == st.script
  {
    if cb.fn.Some? {
      ActsHistory(Entered(st), Does(st.script, st.runs));
    }
  }

  lemma {:induction false} DrainTrace(st: State)
    requires Closing(st)
    ensures st.trace <= Drain(st).trace && Drain(st).script == st.script
    decreases |st.pending|
  {
    if st.pending != [] {
      InvokeClosing(Take(st, None), st.pending[0]);
      InvokeTrace(Take(st, None), st.pending[0]);
      DrainTrace(DrainOne(st));
    }
  }

  /** Closing without a failure so far means that somebody wanted it, and draining does not change that. */
  lemma DrainWanted(st: State)
    requires Closing(st) && Honest(st) && ByFailure !in st.trace
    ensures Wanted(Drain(st).script, Drain(st).trace)
  {
    ClosingFrom(st.script, st.trace);
    DrainTrace(st);
    WantedStill(st.script, st.trace, Drain(st).trace);
  }

  /** Why a context in service is gone after a reply. */
  lemma OnReplyExplained(st: State, reply: Reply)
    requires Serving(st) && st.phase == Live && ByFailure !in st.trace
    ensures var t := OnReply(st, reply);
            t.phase == Freed ==> Wanted(t.script, t.trace) || (reply.Error? && t.got == st.got + [reply] && |t.issued| == |st.got|)
  {
    var s0 := st.(got := st.got + [reply]);
    OnReplyInput(st, reply);
    if s0.pending == [] {
      FailTears(s0);
    } else {
      var s1 := Invoke(Take(s0, Some(reply)), s0.pending[0]);
      DispatchKeeps(s0, Some(reply));
      InvokeHistory(Take(s0, Some(reply)), s0.pending[0]);
      InvokeUnfailed(Take(s0, Some(reply)), s0.pending[0]);
      if s1.freeing {
        DrainWanted(s1);
      }
    }
  }

  lemma {:induction false} ProcessExplained(st: State)
    requires Serving(st) && st.phase == Live && Unfailed(st) && st.got <= ParseAll(st.fed).replies
    ensures var t, all := Process(st), ParseAll(st.fed);
            t.phase == Freed ==> Wanted(t.script, t.trace) || all.fault.Some? || Unrequested(all.replies, |t.issued|)
    decreases |ParseAll(st.fed).replies| - |st.got|
  {
    var all := ParseAll(st.fed);
    if |st.got| < |all.replies| {
      var r := all.replies[|st.got|];
      OnReplyInput(st, r);
      OnReplyExplained(st, r);
      OnReplyKeeps(st, r);
      OnReplyUnfailed(st, r);
      assert st.got + [r] <= all.replies;
      if OnReply(st, r).phase == Live {
        ProcessExplained(OnReply(st, r));
      }
    } else if all.fault == None && st.disconnecting && st.obuf == [] && st.pending == [] {
      DrainWanted(st);
    }
  }

  lemma StepExplained(st: State, e: Event)
    requires Settled(st) && st.phase == Live && Unfailed(st)
    ensures Explained(Step(st, e), e)
  {
    match e
    case Call(Disconnect) =>
      var s1 := Act(st.(trace := st.trace + [ByCaller(Disconnect)]), Disconnect);
      TraceSnoc(st.script, st.trace, ByCaller(Disconnect));
      ActHonest(st, AllDoings(st.script, st.trace), Disconnect);
      if s1.pending == [] {
        DrainWanted(s1);
      }
    case Readable(Some(b)) =>
      ParseAllExtend(st.fed, b);
      ProcessExplained(st.(fed := st.fed + b));
      ProcessInward(st.(fed := st.fed + b));
    case _ =>
  }

  // ------------------------------------------------------------ in every run

  /** The last event handled decides: nothing is handled after one that closes. */
  ghost predicate EndsRight(t: State, seen: seq<Event>) {
    && (forall i :: 0 <= i < |seen| && Closes(seen[i]) ==> i == |seen| - 1 && t.phase == Freed)
    && (seen != [] ==> Stays(t, seen[|seen| - 1]) && Explained(t, seen[|seen| - 1]))
  }

  lemma {:induction false} RunEndsRight(st: State, events: seq<Event>)
    requires Settled(st) && Unfailed(st)
    ensures EndsRight(Run(st, events), events[..Seen(st, events)])
    decreases |events|
  {
    if events != [] && st.phase == Live {
      var e, rest, s1 := events[0], events[1..], Step(st, events[0]);
      StepEnds(st, e);
      RunEndsRight(s1, rest);
      OneMoreEnds(s1, Run(s1, rest), e, rest[..Seen(s1, rest)]);
      SeenCons(events, Seen(s1, rest));
    }
  }

  lemma SeenCons(events: seq<Event>, k: nat)
    requires events != [] && k <= |events[1..]|
    ensures events[..k + 1] == [events[0]] + events[1..][..k]
  {
  }

  lemma StepEnds(st: State, e: Event)
    requires Settled(st) && st.phase == Live && Unfailed(st)
    ensures var t := Step(st, e);
            Settled(t) && Unfailed(t) && Stays(t, e) && Explained(t, e) && (Closes(e) ==> t.phase == Freed)
  {
    StepKeeps(st, e);
    StepUnfailed(st, e);
    StepStays(st, e);
    StepExplained(st, e);
    if Closes(e) {
      StepCloses(st, e);
    }
  }

  lemma OneMoreEnds(s1: State, t: State, e: Event, seen: seq<Event>)
    requires EndsRight(t, seen) && Stays(s1, e) && Explained(s1, e) && (Closes(e) ==> s1.phase == Freed)
    requires (seen == [] ==> t == s1) && (s1.phase != Live ==> seen == [])
    ensures EndsRight(t, [e] + seen)
  {
    var all := [e] + seen;
    forall i | 0 <= i < |all| && Closes(all[i]) ensures i == |all| - 1 && t.phase == Freed {
      if i > 0 {
        assert Closes(seen[i - 1]);
      }
    }
    if seen != [] {
      assert all[|all| - 1] == seen[|seen| - 1];
    }
  }
}
