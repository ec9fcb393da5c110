/** When an assert of the engine fails. */
module AsyncHalts {
  import opened Bytes
  import opened Resp
  import opened RespEncode
  import opened CallbackList
  import opened AsyncModel
  import opened AsyncLaws

  /** No callback disconnects. */
  ghost predicate NeverDisconnects(script: seq<seq<Action>>) {
    forall n :: 0 <= n < |script| ==> Disconnect !in script[n]
  }

  // ------------------------------------------------------------ exactly when

  /** What a dispatched callback does. */
  function Deeds(script: seq<seq<Action>>, runs: nat, cb: Callback): seq<Action> {
    if cb.fn.Some? then Does(script, runs) else []
  }

  function Ran(cb: Callback): nat {
    if cb.fn.Some? then 1 else 0
  }

  /**
   When a read fails an assert, said of the callbacks queued, the replies it brings and how its stream ends. Each reply
   takes a callback off the queue, which may queue more while nobody has disconnected. With the replies used up, the
   clean disconnect fails if a disconnect is under way, nothing is left to write and callbacks are waiting; with the
   queue used up, a reply that is no error fails; and a callback that frees saves the process.
   */
  predicate ReadFails(script: seq<seq<Action>>, runs: nat, closing: bool, queue: seq<Callback>, obuf: bytes,
                      news: seq<Reply>, fault: Option<Fault>)
    decreases |news|
  {
    if news == [] then fault == None && closing && obuf == [] && queue != []
    else if queue == [] then !news[0].Error?
    else
      var deeds := Deeds(script, runs, queue[0]);
      && Free !in deeds
      && ReadFails(script, runs + Ran(queue[0]), closing || Disconnect in deeds,
                   queue[1..] + (if closing then [] else IssuedBy(deeds)),
                   obuf + (if closing then [] else Concat(WiredBy(deeds))), news[1..], fault)
  }

  lemma {:induction false} ActsAdd(st: State, actions: seq<Action>)
    requires !Closing(st)
    ensures var t := Acts(st, actions);
            t.pending == st.pending + IssuedBy(actions) && t.obuf == st.obuf + Concat(WiredBy(actions))
  {
    if actions != [] {
      var n := |actions| - 1;
      var before := actions[..n];
      ActsAdd(st, before);
      ActsFlags(st, before);
      AcceptedLast(actions);
      if actions[n].Command? && !HasClosing(before) {
        Regroup(st.obuf, Concat(WiredBy(before)), actions[n].cmd);
        assert st.pending + IssuedBy(before) + [actions[n].cb] == st.pending + (IssuedBy(before) + [actions[n].cb]);
      }
    }
  }

  /** What the last of some actions adds to the commands accepted. */
  lemma AcceptedLast(actions: seq<Action>)
    requires actions != []
    ensures var before, last := actions[..|actions| - 1], actions[|actions| - 1];
            if last.Command? && !HasClosing(before) then
              IssuedBy(actions) == IssuedBy(before) + [last.cb] && Concat(WiredBy(actions)) == Concat(WiredBy(before)) + last.cmd
            else
              IssuedBy(actions) == IssuedBy(before) && Concat(WiredBy(actions)) == Concat(WiredBy(before))
  {
    var before, last := actions[..|actions| - 1], actions[|actions| - 1];
    if last.Command? && !HasClosing(before) {
      ConcatSnoc(WiredBy(before), last.cmd);
    } else {
      assert IssuedBy(before) + [] == IssuedBy(before) && WiredBy(before) + [] == WiredBy(before);
    }
  }

  /** What an invocation does to the queue, the output buffer and the flags. */
  lemma InvokeAdds(st: State, cb: Callback)
    requires !st.freeing
    ensures var t, deeds := Invoke(st, cb), Deeds(st.script, st.runs, cb);
            && t.runs == st.runs + Ran(cb)
            && t.disconnecting == (st.disconnecting || Disconnect in deeds) && t.freeing == (Free in deeds)
            && t.pending == st.pending + (if st.disconnecting then [] else IssuedBy(deeds))
            && t.obuf == st.obuf + (if st.disconnecting then [] else Concat(WiredBy(deeds)))
  {
    if cb.fn.Some? {
      ActsHistory(Entered(st), Does(st.script, st.runs));
      ActsFlags(Entered(st), Does(st.script, st.runs));
      if st.disconnecting {
        ActsClosing(Entered(st), Does(st.script, st.runs));
      } else {
        ActsAdd(Entered(st), Does(st.script, st.runs));
      }
    }
  }

  /** The replies that have not been obtained yet. */
  function News(st: State): seq<Reply>
    requires st.got <= ParseAll(st.fed).replies
  {
    ParseAll(st.fed).replies[|st.got|..]
  }

  ghost predicate Dispatching(st: State) {
    st.phase == Live && !st.freeing && st.got <= ParseAll(st.fed).replies
  }

  /** What a reply does to a context with a callback waiting for it. */
  lemma ReplyAdds(st: State, reply: Reply)
    requires Dispatching(st) && st.pending != [] && News(st) != [] && News(st)[0] == reply
    ensures var t, deeds := OnReply(st, reply), Deeds(st.script, st.runs, st.pending[0]);
            if Free in deeds then t.phase == Freed
            else
              && Dispatching(t) && t.script == st.script && t.fed == st.fed && News(t) == News(st)[1..]
              && t.runs == st.runs + Ran(st.pending[0]) && t.disconnecting == (st.disconnecting || Disconnect in deeds)
              && t.pending == st.pending[1..] + (if st.disconnecting then [] else IssuedBy(deeds))
              && t.obuf == st.obuf + (if st.disconnecting then [] else Concat(WiredBy(deeds)))
  {
    var s1 := Take(st.(got := st.got + [reply]), Some(reply));
    InvokeAdds(s1, st.pending[0]);
    InvokeHistory(s1, st.pending[0]);
    assert st.got + [reply] <= ParseAll(st.fed).replies;
    if Free in Deeds(st.script, st.runs, st.pending[0]) {
      DrainInput(Invoke(s1, st.pending[0]));
    }
  }

  /** The condition for a context. */
  predicate Failing(st: State, news: seq<Reply>, fault: Option<Fault>) {
    ReadFails(st.script, st.runs, st.disconnecting, st.pending, st.obuf, news, fault)
  }

  /** The condition after one reply. */
  lemma FailingNext(st: State, reply: Reply, news: seq<Reply>, fault: Option<Fault>)
    requires Dispatching(st) && st.pending != [] && News(st) != [] && News(st)[0] == reply && news == News(st)
    requires Free !in Deeds(st.script, st.runs, st.pending[0])
    ensures Failing(st, news, fault) <==> Failing(OnReply(st, reply), news[1..], fault)
  {
    ReplyAdds(st, reply);
  }

  lemma {:induction false} ProcessFails(st: State)
    requires Dispatching(st)
    ensures Process(st).phase == Halted <==> Failing(st, News(st), ParseAll(st.fed).fault)
    decreases |News(st)|
  {
    var news, fault := News(st), ParseAll(st.fed).fault;
    if news == [] {
      ProcessLast(st);
    } else if st.pending == [] {
      OnReplyInput(st, news[0]);
      FailFrees(st.(got := st.got + [news[0]]));
    } else {
      OnReplyInput(st, news[0]);
      ReplyAdds(st, news[0]);
      if Free !in Deeds(st.script, st.runs, st.pending[0]) {
        FailingNext(st, news[0], news, fault);
        ProcessFails(OnReply(st, news[0]));
      }
    }
  }

  lemma ProcessLast(st: State)
    requires Dispatching(st) && News(st) == []
    ensures Process(st).phase == Halted <==> Failing(st, [], ParseAll(st.fed).fault)
  {
    FailFrees(st);
    if st.disconnecting && st.pending == [] {
      DrainInput(st);
    }
  }

  lemma FailFrees(st: State)
    ensures Fail(st).phase == Freed
  {
    DrainInput(st.(disconnecting := true, trace := st.trace + [ByFailure]));
  }

  /** The exact condition, before the event, for every context in service and all bytes a read may bring. */
  lemma ReadFailsIff(st: State, b: bytes)
    requires Settled(st) && st.phase == Live
    ensures var all := ParseAll(st.fed + b);
            && st.got <= all.replies
            && (Read(st, Some(b)).phase == Halted <==>
                Failing(st, all.replies[|st.got|..], all.fault))
  {
    ParseAllExtend(st.fed, b);
    ProcessFails(st.(fed := st.fed + b));
  }

  // ------------------------------------------------------------ in closed form

  /** One of the callbacks frees the context when they are run in this order. */
  predicate FreesIn(script: seq<seq<Action>>, runs: nat, cbs: seq<Callback>)
    decreases |cbs|
  {
    cbs != [] && (Free in Deeds(script, runs, cbs[0]) || FreesIn(script, runs + Ran(cbs[0]), cbs[1..]))
  }

  /** Too few replies for the clean disconnect, or too many, the first of them no error. */
  predicate Amiss(queue: seq<Callback>, obuf: bytes, news: seq<Reply>, fault: Option<Fault>) {
    (|news| < |queue| && obuf == [] && fault == None) || (|news| > |queue| && !news[|queue|].Error?)
  }

  function Min(a: nat, b: nat): (m: nat)
    ensures m <= a && m <= b
  {
    if a < b then a else b
  }

  lemma {:induction false} ClosingFails(script: seq<seq<Action>>, runs: nat, queue: seq<Callback>, obuf: bytes,
                                        news: seq<Reply>, fault: Option<Fault>)
    ensures ReadFails(script, runs, true, queue, obuf, news, fault) <==>
            !FreesIn(script, runs, queue[..Min(|news|, |queue|)]) && Amiss(queue, obuf, news, fault)
    decreases |news|
  {
    var met := queue[..Min(|news|, |queue|)];
    if news != [] && queue != [] {
      ClosingFails(script, runs + Ran(queue[0]), queue[1..], obuf, news[1..], fault);
      assert met[0] == queue[0] && met[1..] == queue[1..][..Min(|news| - 1, |queue| - 1)];
      assert queue[1..] + [] == queue[1..] && obuf + [] == obuf;
    }
  }

  /** A read on a disconnecting context: only the number of replies, the first one too many, and who frees matter. */
  lemma DisconnectingFailsIff(st: State, b: bytes)
    requires Settled(st) && st.phase == Live && st.disconnecting
    ensures var all := ParseAll(st.fed + b);
            && st.got <= all.replies
            && var news := all.replies[|st.got|..];
               (Read(st, Some(b)).phase == Halted <==>
                  && !FreesIn(st.script, st.runs, st.pending[..Min(|news|, |st.pending|)])
                  && Amiss(st.pending, st.obuf, news, all.fault))
  {
    ReadFailsIff(st, b);
    var all := ParseAll(st.fed + b);
    ClosingFails(st.script, st.runs, st.pending, st.obuf, all.replies[|st.got|..], all.fault);
  }

  /** What callbacks do, one after the other. */
  function AllDeeds(script: seq<seq<Action>>, runs: nat, cbs: seq<Callback>): seq<Action>
    decreases |cbs|
  {
    if cbs == [] then [] else Deeds(script, runs, cbs[0]) + AllDeeds(script, runs + Ran(cbs[0]), cbs[1..])
  }

  function AllRan(cbs: seq<Callback>): nat {
    if cbs == [] then 0 else Ran(cbs[0]) + AllRan(cbs[1..])
  }

  lemma ClosingAppend(a: seq<Action>, b: seq<Action>)
    ensures HasClosing(a + b) <==> HasClosing(a) || HasClosing(b)
  {
  }

  /** The commands accepted of two lists of actions, when the first does not close. */
  ghost predicate AcceptsBoth(a: seq<Action>, b: seq<Action>) {
    && IssuedBy(a + b) == IssuedBy(a) + IssuedBy(b)
    && Concat(WiredBy(a + b)) == Concat(WiredBy(a)) + Concat(WiredBy(b))
  }

  lemma AcceptedSnoc(actions: seq<Action>, last: Action)
    ensures if last.Command? && !HasClosing(actions) then
              IssuedBy(actions + [last]) == IssuedBy(actions) + [last.cb]
              && Concat(WiredBy(actions + [last])) == Concat(WiredBy(actions)) + last.cmd
            else
              IssuedBy(actions + [last]) == IssuedBy(actions) && Concat(WiredBy(actions + [last])) == Concat(WiredBy(actions))
  {
    assert (actions + [last])[..|actions|] == actions;
    AcceptedLast(actions + [last]);
  }

  lemma AcceptsOneMore(a: seq<Action>, b: seq<Action>, last: Action)
    requires !HasClosing(a) && AcceptsBoth(a, b)
    ensures AcceptsBoth(a, b + [last])
  {
    ClosingAppend(a, b);
    if last.Command? && !HasClosing(b) {
      OneMoreAccepted(a, b, last);
    } else {
      NoMoreAccepted(a, b, last);
    }
    Joined(a, b, last);
    Restated(a + b + [last], a, b + [last]);
  }

  lemma Joined(a: seq<Action>, b: seq<Action>, last: Action)
    ensures var all := a + b + [last];
            |all| == |a| + |b + [last]| && all[..|a|] == a && all[|a|..] == b + [last]
  {
  }

  lemma Restated(all: seq<Action>, a: seq<Action>, c: seq<Action>)
    requires |all| == |a| + |c| && all[..|a|] == a && all[|a|..] == c
    requires IssuedBy(all) == IssuedBy(a) + IssuedBy(c) && Concat(WiredBy(all)) == Concat(WiredBy(a)) + Concat(WiredBy(c))
    ensures AcceptsBoth(a, c)
  {
    assert all == a + c;
  }

  lemma NoMoreAccepted(a: seq<Action>, b: seq<Action>, last: Action)
    requires AcceptsBoth(a, b) && HasClosing(a + b) == HasClosing(b) && !(last.Command? && !HasClosing(b))
    ensures IssuedBy(a + b + [last]) == IssuedBy(a) + IssuedBy(b + [last])
    ensures Concat(WiredBy(a + b + [last])) == Concat(WiredBy(a)) + Concat(WiredBy(b + [last]))
  {
    AcceptedSnoc(a + b, last);
    AcceptedSnoc(b, last);
  }

  lemma OneMoreAccepted(a: seq<Action>, b: seq<Action>, last: Action)
    requires !HasClosing(a + b) && !HasClosing(b) && AcceptsBoth(a, b) && last.Command?
    ensures IssuedBy(a + b + [last]) == IssuedBy(a) + IssuedBy(b + [last])
    ensures Concat(WiredBy(a + b + [last])) == Concat(WiredBy(a)) + Concat(WiredBy(b + [last]))
  {
    AcceptedSnoc(a + b, last);
    AcceptedSnoc(b, last);
    Regroup(Concat(WiredBy(a)), Concat(WiredBy(b)), last.cmd);
    assert IssuedBy(a) + IssuedBy(b) + [last.cb] == IssuedBy(a) + (IssuedBy(b) + [last.cb]);
  }

  lemma {:induction false} IssuedAppend(a: seq<Action>, b: seq<Action>)
    requires !HasClosing(a)
    ensures AcceptsBoth(a, b)
    decreases |b|
  {
    if b == [] {
      assert a + b == a;
    } else {
      var n := |b| - 1;
      IssuedAppend(a, b[..n]);
      AcceptsOneMore(a, b[..n], b[n]);
      assert b[..n] + [b[n]] == b;
    }
  }

  /** The queue once the first of its callbacks have run and queued their commands behind it. */
  function Grown(script: seq<seq<Action>>, runs: nat, queue: seq<Callback>, n: nat): seq<Callback>
    requires n <= |queue|
  {
    queue + IssuedBy(AllDeeds(script, runs, queue[..n]))
  }

  /** The output buffer then. */
  function Written(script: seq<seq<Action>>, runs: nat, queue: seq<Callback>, obuf: bytes, n: nat): bytes
    requires n <= |queue|
  {
    obuf + Concat(WiredBy(AllDeeds(script, runs, queue[..n])))
  }

  lemma WrittenFirst(script: seq<seq<Action>>, runs: nat, queue: seq<Callback>, obuf: bytes, n: nat)
    requires 0 < n <= |queue| && !HasClosing(Deeds(script, runs, queue[0]))
    ensures var a, runs' := Deeds(script, runs, queue[0]), runs + Ran(queue[0]);
            Written(script, runs, queue, obuf, n)
            == Written(script, runs', queue[1..] + IssuedBy(a), obuf + Concat(WiredBy(a)), n - 1)
  {
    var a, b := Deeds(script, runs, queue[0]), AllDeeds(script, runs + Ran(queue[0]), queue[1..n]);
    GrownFirst(script, runs, queue, n);
    IssuedAppend(a, b);
    Regroup(obuf, Concat(WiredBy(a)), Concat(WiredBy(b)));
  }

  lemma GrownFirst(script: seq<seq<Action>>, runs: nat, queue: seq<Callback>, n: nat)
    requires 0 < n <= |queue| && !HasClosing(Deeds(script, runs, queue[0]))
    ensures var a, runs' := Deeds(script, runs, queue[0]), runs + Ran(queue[0]);
            var queue' := queue[1..] + IssuedBy(a);
            && queue'[..n - 1] == queue[1..n]
            && AllDeeds(script, runs, queue[..n]) == a + AllDeeds(script, runs', queue[1..n])
            && Grown(script, runs, queue, n)[1..] == Grown(script, runs', queue', n - 1)
            && AllRan(queue[..n]) == Ran(queue[0]) + AllRan(queue[1..n])
  {
    var a, b := Deeds(script, runs, queue[0]), AllDeeds(script, runs + Ran(queue[0]), queue[1..n]);
    var queue' := queue[1..] + IssuedBy(a);
    assert queue[..n][0] == queue[0] && queue[..n][1..] == queue[1..n] && queue'[..n - 1] == queue[1..n];
    IssuedAppend(a, b);
    assert (queue + (IssuedBy(a) + IssuedBy(b)))[1..] == queue' + IssuedBy(b);
  }

  lemma RanFirst(script: seq<seq<Action>>, runs: nat, queue: seq<Callback>, n: nat)
    requires 0 < n <= |queue| && !HasClosing(Deeds(script, runs, queue[0]))
    ensures var a, runs' := Deeds(script, runs, queue[0]), runs + Ran(queue[0]);
            var queue' := queue[1..] + IssuedBy(a);
            && runs + AllRan(queue[..n]) == runs' + AllRan(queue'[..n - 1])
            && Grown(script, runs, queue, n)[1..] == Grown(script, runs', queue', n - 1)
  {
    GrownFirst(script, runs, queue, n);
  }

  /** The j-th callback is the first to close, and it disconnects. */
  predicate DisconnectsAt(script: seq<seq<Action>>, runs: nat, queue: seq<Callback>, j: nat) {
    && j < |queue| && !HasClosing(AllDeeds(script, runs, queue[..j]))
    && var deeds := Deeds(script, runs + AllRan(queue[..j]), queue[j]); Disconnect in deeds && Free !in deeds
  }

  lemma DisconnectsLater(script: seq<seq<Action>>, runs: nat, queue: seq<Callback>, j: nat)
    requires DisconnectsAt(script, runs, queue, j) && j > 0
    ensures var a := Deeds(script, runs, queue[0]);
            && !HasClosing(a)
            && DisconnectsAt(script, runs + Ran(queue[0]), queue[1..] + IssuedBy(a), j - 1)
  {
    var a, b := Deeds(script, runs, queue[0]), AllDeeds(script, runs + Ran(queue[0]), queue[1..j]);
    var queue' := queue[1..] + IssuedBy(a);
    assert queue[..j][0] == queue[0] && queue[..j][1..] == queue[1..j] && queue'[..j - 1] == queue[1..j];
    assert forall x :: x in a ==> x in a + b;
    assert forall x :: x in b ==> x in a + b;
  }

  /** What a read comes to when its j-th callback disconnects. */
  predicate FailsAfter(script: seq<seq<Action>>, runs: nat, queue: seq<Callback>, obuf: bytes, news: seq<Reply>,
                       fault: Option<Fault>, j: nat)
    requires j < |queue| && j < |news|
  {
    Verdict(script, runs + AllRan(queue[..j + 1]), Grown(script, runs, queue, j + 1), j + 1,
            Written(script, runs, queue, obuf, j + 1), news, fault)
  }

  /** The verdict on a queue of which the first n callbacks are through. */
  predicate Verdict(script: seq<seq<Action>>, runs: nat, q: seq<Callback>, n: nat, obuf: bytes, news: seq<Reply>, fault: Option<Fault>)
    requires n <= |q| && n <= |news|
  {
    !FreesIn(script, runs, q[n..Min(|news|, |q|)]) && Amiss(q, obuf, news, fault)
  }

  lemma VerdictShift(script: seq<seq<Action>>, runs: nat, q: seq<Callback>, n: nat, obuf: bytes, news: seq<Reply>, fault: Option<Fault>)
    requires 0 < n <= |q| && n <= |news|
    ensures Verdict(script, runs, q, n, obuf, news, fault) <==> Verdict(script, runs, q[1..], n - 1, obuf, news[1..], fault)
  {
    SliceTail(q, n, Min(|news|, |q|));
  }

  lemma SameVerdict(script: seq<seq<Action>>, runs: nat, q: seq<Callback>, n: nat, obuf: bytes, news: seq<Reply>,
                    fault: Option<Fault>, runs': nat, q': seq<Callback>, obuf': bytes)
    requires 0 < n <= |q| && n <= |news| && runs' == runs && q' == q[1..] && obuf' == obuf
    ensures Verdict(script, runs, q, n, obuf, news, fault) <==> Verdict(script, runs', q', n - 1, obuf', news[1..], fault)
  {
    VerdictShift(script, runs, q, n, obuf, news, fault);
  }

  lemma SliceTail(q: seq<Callback>, n: nat, m: nat)
    requires 0 < n <= m <= |q|
    ensures q[1..][n - 1..m - 1] == q[n..m]
  {
    forall i | 0 <= i < m - n ensures q[1..][n - 1..m - 1][i] == q[n..m][i] {
      assert q[1..][n - 1..m - 1][i] == q[1..][n - 1 + i] == q[n + i];
    }
  }

  lemma FailsAtOnce(script: seq<seq<Action>>, runs: nat, queue: seq<Callback>, obuf: bytes, news: seq<Reply>, fault: Option<Fault>)
    requires DisconnectsAt(script, runs, queue, 0) && news != []
    ensures ReadFails(script, runs, false, queue, obuf, news, fault) <==> FailsAfter(script, runs, queue, obuf, news, fault, 0)
  {
    var a, runs' := Deeds(script, runs, queue[0]), runs + Ran(queue[0]);
    var q, obuf' := queue + IssuedBy(a), obuf + Concat(WiredBy(a));
    FirstDeeds(script, runs, queue);
    assert queue[..0] == [] && queue[1..] + IssuedBy(a) == q[1..];
    ClosingFails(script, runs', q[1..], obuf', news[1..], fault);
    VerdictShift(script, runs', q, 1, obuf', news, fault);
    assert q[1..][0..Min(|news| - 1, |q| - 1)] == q[1..][..Min(|news| - 1, |q| - 1)];
  }

  lemma FirstDeeds(script: seq<seq<Action>>, runs: nat, queue: seq<Callback>)
    requires queue != []
    ensures AllDeeds(script, runs, queue[..1]) == Deeds(script, runs, queue[0]) && AllRan(queue[..1]) == Ran(queue[0])
  {
    var one := queue[..1];
    assert one[1..] == [] && Deeds(script, runs, queue[0]) + [] == Deeds(script, runs, queue[0]);
  }

  lemma {:induction false} OpenFails(script: seq<seq<Action>>, runs: nat, queue: seq<Callback>, obuf: bytes,
                                     news: seq<Reply>, fault: Option<Fault>, j: nat)
    requires DisconnectsAt(script, runs, queue, j) && j < |news|
    ensures ReadFails(script, runs, false, queue, obuf, news, fault) <==> FailsAfter(script, runs, queue, obuf, news, fault, j)
    decreases j
  {
    if j == 0 {
      FailsAtOnce(script, runs, queue, obuf, news, fault);
    } else {
      var a, runs' := Deeds(script, runs, queue[0]), runs + Ran(queue[0]);
      var queue', obuf' := queue[1..] + IssuedBy(a), obuf + Concat(WiredBy(a));
      DisconnectsLater(script, runs, queue, j);
      OpenFails(script, runs', queue', obuf', news[1..], fault, j - 1);
      FailsLater(script, runs, queue, obuf, news, fault, j);
    }
  }

  lemma FailsLater(script: seq<seq<Action>>, runs: nat, queue: seq<Callback>, obuf: bytes, news: seq<Reply>,
                   fault: Option<Fault>, j: nat)
    requires 0 < j < |queue| && j < |news| && !HasClosing(Deeds(script, runs, queue[0]))
    ensures var a := Deeds(script, runs, queue[0]);
            FailsAfter(script, runs, queue, obuf, news, fault, j) <==>
            FailsAfter(script, runs + Ran(queue[0]), queue[1..] + IssuedBy(a), obuf + Concat(WiredBy(a)), news[1..], fault, j - 1)
  {
    var a, runs' := Deeds(script, runs, queue[0]), runs + Ran(queue[0]);
    var queue', obuf' := queue[1..] + IssuedBy(a), obuf + Concat(WiredBy(a));
    var q, o := Grown(script, runs, queue, j + 1), Written(script, runs, queue, obuf, j + 1);
    RanFirst(script, runs, queue, j + 1);
    WrittenFirst(script, runs, queue, obuf, j + 1);
    SameVerdict(script, runs + AllRan(queue[..j + 1]), q, j + 1, o, news, fault,
                runs' + AllRan(queue'[..j]), Grown(script, runs', queue', j), Written(script, runs', queue', obuf', j));
  }

  /**
   The same when it is the j-th callback of the read that disconnects, whatever commands it and those before it issue:
   the commands they queue, and the bytes those leave to be written, enter the condition.
   */
  lemma ReadDisconnectsIff(st: State, b: bytes, j: nat)
    requires Settled(st) && st.phase == Live && !st.disconnecting && DisconnectsAt(st.script, st.runs, st.pending, j)
    requires |st.got| + j < |ParseAll(st.fed + b).replies|
    ensures var all := ParseAll(st.fed + b);
            && st.got <= all.replies
            && (Read(st, Some(b)).phase == Halted <==>
                FailsAfter(st.script, st.runs, st.pending, st.obuf, all.replies[|st.got|..], all.fault, j))
  {
    ReadFailsIff(st, b);
    var all := ParseAll(st.fed + b);
    OpenFails(st.script, st.runs, st.pending, st.obuf, all.replies[|st.got|..], all.fault, j);
  }

  // ------------------------------------------------------------ only then

  /** Nobody has begun to disconnect, unless the context is gone. */
  ghost predicate Calm(st: State) {
    && (st.phase != Freed ==> !st.disconnecting) && st.got <= ParseAll(st.fed).replies
    && (st.phase == Halted ==> |st.got| > |st.issued|)
  }

  lemma InvokeCalm(st: State, cb: Callback)
    requires NeverDisconnects(st.script) && !st.disconnecting
    ensures !Invoke(st, cb).disconnecting
  {
    if cb.fn.Some? {
      ActsFlags(Entered(st), Does(st.script, st.runs));
    }
  }

  lemma OnReplyCalm(st: State, reply: Reply)
    requires Serving(st) && st.phase == Live && Calm(st) && NeverDisconnects(st.script)
    requires |st.got| < |ParseAll(st.fed).replies| && reply == ParseAll(st.fed).replies[|st.got|]
    ensures Calm(OnReply(st, reply))
  {
    var s0 := st.(got := st.got + [reply]);
    OnReplyInput(st, reply);
    if s0.pending == [] {
      FailFrees(s0);
    } else {
      var s1 := Invoke(Take(s0, Some(reply)), s0.pending[0]);
      InvokeCalm(Take(s0, Some(reply)), s0.pending[0]);
      InvokeHistory(Take(s0, Some(reply)), s0.pending[0]);
      if s1.freeing {
        DrainInput(s1);
      }
    }
  }

  lemma {:induction false} ProcessCalm(st: State)
    requires Serving(st) && Calm(st) && NeverDisconnects(st.script)
    ensures Calm(Process(st))
    decreases |ParseAll(st.fed).replies| - |st.got|
  {
    var all := ParseAll(st.fed);
    if st.phase == Live {
      if |st.got| < |all.replies| {
        var r := all.replies[|st.got|];
        OnReplyInput(st, r);
        OnReplyKeeps(st, r);
        OnReplyCalm(st, r);
        ProcessCalm(OnReply(st, r));
      } else {
        FailFrees(st);
        DrainInput(st.(disconnecting := true, trace := st.trace + [ByFailure]));
      }
    }
  }

  lemma StepCalm(st: State, e: Event)
    requires Settled(st) && st.phase == Live && Calm(st) && NeverDisconnects(st.script) && e != Call(Disconnect)
    ensures Calm(Step(st, e))
  {
    match e
    case Call(a) =>
      var s1 := Act(st.(trace := st.trace + [ByCaller(a)]), a);
      if Closing(s1) {
        DrainInput(s1);
      }
    case Readable(Some(b)) =>
      ParseAllExtend(st.fed, b);
      ProcessCalm(st.(fed := st.fed + b));
    case Writable(Some(_)) =>
    case _ =>
      DrainInput(st.(disconnecting := true, trace := st.trace + [ByFailure]));
  }

  /** Without a disconnect an assert fails only when more replies arrive than there were commands. */
  lemma {:induction false} RunCalm(st: State, events: seq<Event>)
    requires Settled(st) && Calm(st) && NeverDisconnects(st.script) && Call(Disconnect) !in events
    ensures Calm(Run(st, events))
    decreases |events|
  {
    if events != [] && st.phase == Live {
      StepCalm(st, events[0]);
      StepKeeps(st, events[0]);
      StepGiven(st, events[0]);
      RunCalm(Step(st, events[0]), events[1..]);
    }
  }

  // ------------------------------------------------------------ a run that fails

  const OK: Reply := Status([79, 75])

  /** Two commands, written at once. */
  function Opening(cb: Callback, cmd: bytes): seq<Event> {
    [Call(Command(cb, cmd)), Call(Command(cb, cmd)), Writable(Some(2 * |cmd|))]
  }

  /** The context after that: both callbacks pending, nothing left to write. */
  lemma Opened(cb: Callback, cmd: bytes, s0: State, s1: State, s2: State, s3: State)
    requires s0 == Start([[Disconnect]]) && s1 == CallBy(s0, Command(cb, cmd)) && s2 == CallBy(s1, Command(cb, cmd))
    requires s3 == Write(s2, 2 * |cmd|)
    ensures s1.phase == Live && s2.phase == Live && Settled(s3) && s3.phase == Live && s3.script == [[Disconnect]]
    ensures s3.runs == 0 && s3.pending == [cb, cb] && s3.obuf == [] && s3.fed == [] && s3.got == []
  {
    StartSettled([[Disconnect]]);
    CallKeeps(s0, Command(cb, cmd));
    CallKeeps(s1, Command(cb, cmd));
    WriteKeeps(s2, 2 * |cmd|);
    assert |s2.obuf| == 2 * |cmd|;
  }

  lemma OpenedFails(cb: Callback, st: State)
    requires Settled(st) && st.phase == Live && st.script == [[Disconnect]] && st.runs == 0
    requires st.pending == [cb, cb] && st.obuf == [] && st.fed == [] && st.got == [] && cb.fn.Some?
    ensures Read(st, Some(Encode(OK))).phase == Halted
  {
    OneReply();
    ReadFailsIff(st, Encode(OK));
    var news := ParseAll([] + Encode(OK)).replies[0..];
    assert news == [OK];
    LoneDisconnectFails(cb);
  }

  lemma LoneDisconnectFails(cb: Callback)
    requires cb.fn.Some?
    ensures ReadFails([[Disconnect]], 0, false, [cb, cb], [], [OK], None)
  {
    assert Deeds([[Disconnect]], 0, cb) == [Disconnect] && IssuedBy([Disconnect]) == [] && WiredBy([Disconnect]) == [];
    assert [cb, cb][1..] + [] == [cb] && [OK][1..] == [];
    assert ReadFails([[Disconnect]], 1, true, [cb], [], [], None);
  }

  /** Two commands are written, one reply arrives, and its callback disconnects: the assert fails. */
  lemma TwoCommandsOneReply(cb: Callback, cmd: bytes)
    requires cb.fn.Some?
    ensures Run(Start([[Disconnect]]), Opening(cb, cmd) + [Readable(Some(Encode(OK)))]).phase == Halted
  {
    var s0 := Start([[Disconnect]]);
    var s1 := CallBy(s0, Command(cb, cmd));
    var s2 := CallBy(s1, Command(cb, cmd));
    var s3 := Write(s2, 2 * |cmd|);
    Opened(cb, cmd, s0, s1, s2, s3);
    OpenedFails(cb, s3);
    var es := Opening(cb, cmd) + [Readable(Some(Encode(OK)))];
    assert |es| == 4 && es[0] == es[1] == Call(Command(cb, cmd)) && es[2] == Writable(Some(2 * |cmd|)) && es[3] == Readable(Some(Encode(OK)));
    FourEvents(s0, es, s1, s2, s3);
  }

  lemma OneReply()
    ensures ParseAll([] + Encode(OK)) == Stream([] + [OK], None)
  {
    assert OneLine(OK.text) && Encodable(OK, 0);
    ParseEncode(OK, 0, []);
    assert Encode(OK) + [] == Encode(OK) == [] + Encode(OK);
    assert ParseAll([]) == Stream([], None);
  }

  lemma FourEvents(s0: State, es: seq<Event>, s1: State, s2: State, s3: State)
    requires |es| == 4 && s0.phase == Live && s1.phase == Live && s2.phase == Live && s3.phase == Live
    requires s1 == Step(s0, es[0]) && s2 == Step(s1, es[1]) && s3 == Step(s2, es[2])
    ensures Run(s0, es) == Step(s3, es[3])
  {
    var e1, e2, e3 := es[1..], es[1..][1..], es[1..][1..][1..];
    assert Run(s0, es) == Run(s1, e1);
    assert e1[0] == es[1] && Run(s1, e1) == Run(s2, e2);
    assert e2[0] == es[2] && Run(s2, e2) == Run(s3, e3);
    assert e3[0] == es[3] && e3[1..] == [];
    var s4 := Step(s3, es[3]);
    assert Run(s3, e3) == Run(s4, []) == s4;
  }
}
