/**
 A network in which every proxy is one at work as a whole: its dispatcher handles what reaches it, its registries
 change by the messages it gets and by its periodic work, and stale calls are given up as its cleanup does. Every run
 of it is a run of the network of calls, so that what is proved there holds here.
 */
module NetworkSystem {
  import opened ProxyCore
  import opened ProxyModel
  import opened ProxyLaws
  import opened Network
  import opened NetworkRuns
  import opened NetworkDelivery

  /** The network without the trails, which are history only. */
  function Seen(s: Net): Net {
    s.(path := map[], alive := map[])
  }

  /** The proxies, and everything else as the network sees it. */
  datatype System = System(seen: Net, wholes: map<Guid, Whole>)

  /** Messages about calls travel on the wire; all others come from and go to outside of it. */
  predicate AboutCalls(k: Kind) {
    k == INVOKE || IsResponse(k) || k == ERROR
  }

  datatype Move =
    | Elsewhere(step: Network.Step)
    | Incoming(id: nat, from: Guid, methodGuid: Guid, pick: nat, now: int)
    | Aside(here: Guid, event: Event)

  /** A step in which no proxy takes part. */
  predicate NoProxy(step: Network.Step) {
    step.Issue? || step.ToNode? || step.Lose?
  }

  predicate IsAside(e: Event) {
    e.Received? ==> !AboutCalls(e.req.kind)
  }

  /** What the proxy published in one step is on the wire under the next id. */
  function Published(s: Net, w: Whole, w': Whole): Net {
    if |w'.outbox| > |w.outbox| then Send(s, w'.outbox[|w.outbox|]) else s
  }

  /** The packet is off the wire, what the proxy published is on it, and the proxy has its new state. */
  function Passing(s: Net, id: nat, w: Whole, w': Whole): Net
    requires id in s.wire
  {
    Published(Drop(s, id), w, w').(proxies := s.proxies[s.wire[id].topic := w'.core])
  }

  /** The packet reaches its proxy, which goes on as the whole w'. */
  ghost predicate Took(a: System, id: nat, from: Guid, methodGuid: Guid, pick: nat, now: int, w': Whole, b: System) {
    && id in a.seen.wire && a.seen.wire[id].topic in a.wholes
    && var here, msg := a.seen.wire[id].topic, a.seen.wire[id].msg;
       && Handled(a.wholes[here], msg, from, methodGuid, pick, now, w')
       && b == System(Passing(a.seen, id, a.wholes[here], w'), a.wholes[here := w'])
  }

  /** The network with a new state of one proxy, which has given up calls. */
  function GivenUp(s: Net, here: Guid, st: State, gone: set<Guid>): Net {
    s.(proxies := s.proxies[here := st], expired := s.expired + gone)
  }

  /** The proxy handles a message from outside the wire, or does its periodic work. */
  ghost predicate Turned(a: System, here: Guid, e: Event, w': Whole, b: System) {
    && here in a.wholes && IsAside(e) && ProxyModel.Step(a.wholes[here], e, w')
    && var gone := a.wholes[here].core.responses.Keys - w'.core.responses.Keys;
       b == System(GivenUp(a.seen, here, w'.core, gone), a.wholes[here := w'])
  }

  ghost predicate Moved(a: System, m: Move, b: System) {
    match m
    case Elsewhere(step) => NoProxy(step) && Enabled(a.seen, step) && b == a.(seen := Seen(Do(a.seen, step)))
    case Incoming(id, from, methodGuid, pick, now) => exists w' :: Took(a, id, from, methodGuid, pick, now, w', b)
    case Aside(here, e) => exists w' :: Turned(a, here, e, w', b)
  }

  /** The system and a state of the network of calls show the same. */
  ghost predicate Matches(a: System, s: Net) {
    && a.seen == Seen(s) && a.wholes.Keys == s.proxies.Keys
    && forall p :: p in a.wholes ==> a.wholes[p].core == s.proxies[p] && MapsAgree(a.wholes[p].core)
  }

  ghost predicate CallTraffic(s: Net) {
    forall id :: id in s.wire ==> AboutCalls(s.wire[id].msg.kind)
  }

  // ------------------------------------------------------------ each move is a run of the network

  lemma IssueSeen(s: Net, step: Network.Step)
    requires step.Issue? && Enabled(s, step)
    ensures Enabled(Seen(s), step) && Seen(Do(s, step)) == Seen(Do(Seen(s), step)) && Do(s, step).proxies == s.proxies
    ensures CallTraffic(s) ==> CallTraffic(Do(s, step))
  {
  }

  lemma AnswerSeen(s: Net, id: nat, answer: Answer, guidFrom: Guid)
    requires id in s.wire && IsResponse(answer.kind)
    ensures Seen(AnswerAt(s, id, answer, guidFrom)) == Seen(AnswerAt(Seen(s), id, answer, guidFrom))
    ensures CallTraffic(s) ==> CallTraffic(AnswerAt(s, id, answer, guidFrom))
  {
  }

  lemma DeliverSeen(s: Net, id: nat)
    requires id in s.wire
    ensures Seen(DeliverAt(s, id)) == Seen(DeliverAt(Seen(s), id)) && Seen(Drop(s, id)) == Seen(Drop(Seen(s), id))
    ensures CallTraffic(s) ==> CallTraffic(DeliverAt(s, id)) && CallTraffic(Drop(s, id))
  {
  }

  lemma NodeSeen(s: Net, id: nat, answer: Answer, guidFrom: Guid)
    requires id in s.wire && (s.wire[id].msg.kind == INVOKE ==> IsResponse(answer.kind))
    ensures Seen(NodeReceives(s, id, answer, guidFrom)) == Seen(NodeReceives(Seen(s), id, answer, guidFrom))
    ensures CallTraffic(s) ==> CallTraffic(NodeReceives(s, id, answer, guidFrom))
  {
    var kind := s.wire[id].msg.kind;
    if kind == INVOKE {
      AnswerSeen(s, id, answer, guidFrom);
    } else {
      DeliverSeen(s, id);
    }
  }

  lemma ToNodeSeen(s: Net, step: Network.Step)
    requires step.ToNode? && Enabled(s, step)
    ensures Enabled(Seen(s), step) && Seen(Do(s, step)) == Seen(Do(Seen(s), step)) && Do(s, step).proxies == s.proxies
    ensures CallTraffic(s) ==> CallTraffic(Do(s, step))
  {
    NodeSeen(s, step.id, step.answer, step.guidFrom);
  }

  lemma LoseSeen(s: Net, step: Network.Step)
    requires step.Lose? && Enabled(s, step)
    ensures Enabled(Seen(s), step) && Seen(Do(s, step)) == Seen(Do(Seen(s), step)) && Do(s, step).proxies == s.proxies
    ensures CallTraffic(s) ==> CallTraffic(Do(s, step))
  {
  }

  lemma ElsewhereSeen(s: Net, step: Network.Step)
    requires NoProxy(step) && Enabled(Seen(s), step)
    ensures Enabled(s, step) && Seen(Do(s, step)) == Seen(Do(Seen(s), step)) && Do(s, step).proxies == s.proxies
    ensures CallTraffic(s) ==> CallTraffic(Do(s, step))
  {
    match step {
      case Issue(_, _, _, _, _) => IssueSeen(s, step);
      case ToNode(_, _, _) => ToNodeSeen(s, step);
      case Lose(_) => LoseSeen(s, step);
    }
  }

  lemma ElsewhereMatches(a: System, step: Network.Step, b: System, s: Net)
    requires Matches(a, s) && CallTraffic(s) && Moved(a, Elsewhere(step), b)
    ensures Enabled(s, step) && Matches(b, Do(s, step)) && CallTraffic(Do(s, step))
  {
    ElsewhereSeen(s, step);
  }

  // ------------------------------------------------------------ a packet at a proxy

  function Handed(s: Net, id: nat, here: Guid, st: State, out: Packet): Net {
    Send(Drop(s, id), out).(proxies := s.proxies[here := st])
  }

  lemma InvokeSeen(s: Net, id: nat, pick: nat, now: int)
    requires id in s.wire && s.wire[id].topic in s.proxies
    ensures var here := s.wire[id].topic;
            var (st, out) := Invoke(s.proxies[here], s.wire[id].msg, pick, now);
            Seen(InvokeAt(s, id, pick, now)) == Seen(Handed(s, id, here, st, out))
  {
  }

  lemma ResponseSeen(s: Net, id: nat, from: Guid)
    requires id in s.wire && s.wire[id].topic in s.proxies
    ensures var here := s.wire[id].topic;
            var (st, out) := InvokeResponse(s.proxies[here], s.wire[id].msg, from);
            Seen(ResponseAt(s, id, from)) == Seen(Handed(s, id, here, st, out))
  {
  }

  /** The step of the network is what the dispatcher does with the packet. */
  lemma InvokeIsStep(s: Net, id: nat, from: Guid, methodGuid: Guid, pick: nat, now: int, w: Whole, w': Whole)
    requires id in s.wire && s.wire[id].topic in s.proxies && s.wire[id].msg.kind == INVOKE
    requires w.core == s.proxies[s.wire[id].topic] && Handled(w, s.wire[id].msg, from, methodGuid, pick, now, w')
    ensures Seen(Do(s, ToProxy(id, from, pick, now))) == Seen(Passing(s, id, w, w'))
    ensures |w'.outbox| > |w.outbox| && AboutCalls(w'.outbox[|w.outbox|].msg.kind)
  {
    InvokeSeen(s, id, pick, now);
  }

  lemma ResponseIsStep(s: Net, id: nat, from: Guid, methodGuid: Guid, pick: nat, now: int, w: Whole, w': Whole)
    requires id in s.wire && s.wire[id].topic in s.proxies && IsResponse(s.wire[id].msg.kind)
    requires w.core == s.proxies[s.wire[id].topic] && Handled(w, s.wire[id].msg, from, methodGuid, pick, now, w')
    ensures Seen(Do(s, ToProxy(id, from, pick, now))) == Seen(Passing(s, id, w, w'))
    ensures |w'.outbox| > |w.outbox| && AboutCalls(w'.outbox[|w.outbox|].msg.kind)
  {
    ResponseSeen(s, id, from);
  }

  lemma ErrorIsStep(s: Net, id: nat, from: Guid, methodGuid: Guid, pick: nat, now: int, w: Whole, w': Whole)
    requires id in s.wire && s.wire[id].topic in s.proxies && s.wire[id].msg.kind == ERROR
    requires w.core == s.proxies[s.wire[id].topic] && Handled(w, s.wire[id].msg, from, methodGuid, pick, now, w')
    ensures Seen(Do(s, ToProxy(id, from, pick, now))) == Seen(Passing(s, id, w, w')) && w'.outbox == w.outbox
  {
    assert s.proxies[s.wire[id].topic := w.core] == s.proxies;
  }

  lemma DispatchIsStep(s: Net, id: nat, from: Guid, methodGuid: Guid, pick: nat, now: int, w: Whole, w': Whole)
    requires id in s.wire && s.wire[id].topic in s.proxies && AboutCalls(s.wire[id].msg.kind)
    requires w.core == s.proxies[s.wire[id].topic] && Handled(w, s.wire[id].msg, from, methodGuid, pick, now, w')
    ensures Seen(Do(s, ToProxy(id, from, pick, now))) == Seen(Passing(s, id, w, w'))
    ensures |w'.outbox| > |w.outbox| ==> AboutCalls(w'.outbox[|w.outbox|].msg.kind)
  {
    var kind := s.wire[id].msg.kind;
    if kind == INVOKE {
      InvokeIsStep(s, id, from, methodGuid, pick, now, w, w');
    } else if IsResponse(kind) {
      ResponseIsStep(s, id, from, methodGuid, pick, now, w, w');
    } else {
      ErrorIsStep(s, id, from, methodGuid, pick, now, w, w');
    }
  }

  lemma PassingSeen(s: Net, id: nat, w: Whole, w': Whole)
    requires id in s.wire
    ensures Seen(Passing(s, id, w, w')) == Passing(Seen(s), id, w, w')
  {
    assert Seen(Drop(s, id)) == Drop(Seen(s), id);
  }

  lemma PassingTraffic(s: Net, id: nat, w: Whole, w': Whole)
    requires id in s.wire && CallTraffic(s)
    requires |w'.outbox| > |w.outbox| ==> AboutCalls(w'.outbox[|w.outbox|].msg.kind)
    ensures CallTraffic(Passing(s, id, w, w'))
  {
  }

  lemma IncomingMatches(a: System, id: nat, from: Guid, methodGuid: Guid, pick: nat, now: int, w': Whole, b: System, s: Net)
    requires Matches(a, s) && CallTraffic(s) && Took(a, id, from, methodGuid, pick, now, w', b)
    ensures var step := ToProxy(id, from, pick, now);
            Enabled(s, step) && Matches(b, Do(s, step)) && CallTraffic(Do(s, step))
  {
    var here, msg := s.wire[id].topic, s.wire[id].msg;
    var w, t := a.wholes[here], Do(s, ToProxy(id, from, pick, now));
    DispatchIsStep(s, id, from, methodGuid, pick, now, w, w');
    PassingSeen(s, id, w, w');
    PassingTraffic(s, id, w, w');
    StepFollows(w, Received(msg, from, methodGuid, pick, now), w', 0);
    SeenTraffic(Passing(s, id, w, w'), t);
    WholeMatches(a, s, here, w', t);
  }

  lemma SeenTraffic(s: Net, t: Net)
    requires Seen(s) == Seen(t) && CallTraffic(s)
    ensures CallTraffic(t)
  {
    assert t.wire == Seen(t).wire;
  }

  /** One proxy goes on. */
  lemma WholeMatches(a: System, s: Net, here: Guid, w': Whole, t: Net)
    requires Matches(a, s) && here in s.proxies && MapsAgree(w'.core)
    requires Seen(t).proxies == s.proxies[here := w'.core]
    ensures Matches(System(Seen(t), a.wholes[here := w']), t)
  {
  }

  // ------------------------------------------------------------ messages from outside the wire, and periodic work

  function Without(st: State, gone: set<Guid>): State {
    st.(responses := st.responses - gone, callTime := st.callTime - gone)
  }

  lemma RunCons(s: Net, step: Network.Step, rest: seq<Network.Step>)
    requires Enabled(s, step) && Possible(Do(s, step), rest)
    ensures Possible(s, [step] + rest) && After(s, [step] + rest) == After(Do(s, step), rest)
  {
    assert ([step] + rest)[1..] == rest;
  }

  /** The calls given up, one after the other. */
  lemma {:induction false} ExpireAll(s: Net, here: Guid, gone: set<Guid>) returns (steps: seq<Network.Step>)
    requires here in s.proxies && gone <= s.proxies[here].responses.Keys
    ensures Possible(s, steps) && After(s, steps) == GivenUp(s, here, Without(s.proxies[here], gone), gone)
    decreases gone
  {
    if gone == {} {
      steps := [];
      NoneGivenUp(s, here);
    } else {
      var g :| g in gone;
      var first := Expire(here, g);
      var rest := ExpireAll(Do(s, first), here, gone - {g});
      steps := [first] + rest;
      RunCons(s, first, rest);
      OneGivenUp(s, here, g, gone);
    }
  }

  lemma NoneGivenUp(s: Net, here: Guid)
    requires here in s.proxies
    ensures GivenUp(s, here, Without(s.proxies[here], {}), {}) == s
  {
    assert Without(s.proxies[here], {}) == s.proxies[here];
  }

  lemma OneGivenUp(s: Net, here: Guid, g: Guid, gone: set<Guid>)
    requires here in s.proxies && g in gone && g in s.proxies[here].responses
    ensures var t := Do(s, Expire(here, g));
            && here in t.proxies && t.proxies[here] == Without(s.proxies[here], {g})
            && GivenUp(t, here, Without(t.proxies[here], gone - {g}), gone - {g})
               == GivenUp(s, here, Without(s.proxies[here], gone), gone)
  {
    WithoutTwice(s.proxies[here], g, gone);
    assert s.expired + {g} + (gone - {g}) == s.expired + gone;
  }

  lemma WithoutTwice(st: State, g: Guid, gone: set<Guid>)
    requires g in gone
    ensures Without(Without(st, {g}), gone - {g}) == Without(st, gone)
  {
  }

  /** Apart from the tables, such an event only makes a proxy give up calls. */
  lemma AsideCore(w: Whole, e: Event, w': Whole)
    requires IsAside(e) && ProxyModel.Step(w, e, w') && MapsAgree(w.core)
    ensures var gone := w.core.responses.Keys - w'.core.responses.Keys;
            w'.core == Without(w.core.(local := w'.core.local, remote := w'.core.remote), gone)
  {
    if e.Housekeeping? {
      TidyCore(w, e.now, w');
    } else {
      assert w'.core.responses == w.core.responses && w'.core.callTime == w.core.callTime;
    }
  }

  lemma TidyCore(w: Whole, now: int, w': Whole)
    requires Tidied(w, now, w') && MapsAgree(w.core)
    ensures var gone := w.core.responses.Keys - w'.core.responses.Keys;
            w'.core == Without(w.core.(local := w'.core.local, remote := w'.core.remote), gone)
  {
  }

  /** New tables, and then the calls given up. */
  lemma AsideSteps(s: Net, here: Guid, st: State, gone: set<Guid>) returns (steps: seq<Network.Step>)
    requires here in s.proxies && gone <= s.proxies[here].responses.Keys
    requires st == Without(s.proxies[here].(local := st.local, remote := st.remote), gone)
    ensures Possible(s, steps) && After(s, steps) == GivenUp(s, here, st, gone)
  {
    var first := Tables(here, st.local, st.remote);
    var rest := ExpireAll(Do(s, first), here, gone);
    RunCons(s, first, rest);
    steps := [first] + rest;
  }

  lemma AsideMatches(a: System, here: Guid, e: Event, w': Whole, b: System, s: Net) returns (steps: seq<Network.Step>)
    requires Matches(a, s) && CallTraffic(s) && Turned(a, here, e, w', b)
    ensures Possible(s, steps) && Matches(b, After(s, steps)) && CallTraffic(After(s, steps))
  {
    var w := a.wholes[here];
    var gone := w.core.responses.Keys - w'.core.responses.Keys;
    AsideCore(w, e, w');
    StepFollows(w, e, w', 0);
    steps := AsideSteps(s, here, w'.core, gone);
    WholeMatches(a, s, here, w', After(s, steps));
  }

  // ------------------------------------------------------------ every run

  /** Every move of the system is a run of the network of calls. */
  lemma MoveMatches(a: System, m: Move, b: System, s: Net) returns (steps: seq<Network.Step>)
    requires Matches(a, s) && CallTraffic(s) && Moved(a, m, b)
    ensures Possible(s, steps) && Matches(b, After(s, steps)) && CallTraffic(After(s, steps))
  {
    match m {
      case Elsewhere(step) =>
        ElsewhereMatches(a, step, b, s);
        steps := [step];
        RunCons(s, step, []);
      case Incoming(id, from, methodGuid, pick, now) =>
        var w' :| Took(a, id, from, methodGuid, pick, now, w', b);
        IncomingMatches(a, id, from, methodGuid, pick, now, w', b, s);
        steps := [ToProxy(id, from, pick, now)];
        RunCons(s, steps[0], []);
      case Aside(here, e) =>
        var w' :| Turned(a, here, e, w', b);
        steps := AsideMatches(a, here, e, w', b, s);
    }
  }

  ghost predicate IsSystemRun(systems: seq<System>, moves: seq<Move>) {
    |systems| == |moves| + 1 && forall i :: 0 <= i < |moves| ==> Moved(systems[i], moves[i], systems[i + 1])
  }

  /** No traffic yet, and every proxy idle. */
  ghost predicate Starts(a: System) {
    && Init(a.seen) && a.wholes.Keys == a.seen.proxies.Keys
    && forall p :: p in a.wholes ==> IsIdle(a.wholes[p]) && a.wholes[p].core == a.seen.proxies[p]
  }

  lemma {:induction false} RunThen(s: Net, first: seq<Network.Step>, rest: seq<Network.Step>)
    requires Possible(s, first) && Possible(After(s, first), rest)
    ensures Possible(s, first + rest) && After(s, first + rest) == After(After(s, first), rest)
    decreases |first|
  {
    if first == [] {
      assert first + rest == rest;
    } else {
      var step, more := first[0], first[1..];
      assert first + rest == [step] + (more + rest);
      RunThen(Do(s, step), more, rest);
      RunCons(s, step, more + rest);
    }
  }

  /** Every run of the system is a run of the network of calls. */
  lemma {:induction false} SystemRuns(systems: seq<System>, moves: seq<Move>, i: nat) returns (steps: seq<Network.Step>)
    requires IsSystemRun(systems, moves) && Starts(systems[0]) && i <= |moves|
    ensures Possible(systems[0].seen, steps)
    ensures var t := After(systems[0].seen, steps); Matches(systems[i], t) && CallTraffic(t)
  {
    steps := [];
    if i > 0 {
      var first := SystemRuns(systems, moves, i - 1);
      var t := After(systems[0].seen, first);
      var rest := MoveMatches(systems[i - 1], moves[i - 1], systems[i], t);
      RunThen(systems[0].seen, first, rest);
      steps := first + rest;
    }
  }

  /** What has been delivered so far, if no record of the call expired: the callee's answer, to the node that asked. */
  ghost predicate Right(t: Net, d: Delivery) {
    d.call !in t.expired ==>
      && d.call in t.calls && d.node == t.calls[d.call]
      && d.call in t.answers && d.answer == t.answers[d.call]
  }

  /**
   In every run of whole proxies each call is delivered at most once, and rightly unless a record of it expired; and
   an answered call of which no record expired and no packet was lost has been delivered or is on its way back.
   */
  lemma SystemDelivers(systems: seq<System>, moves: seq<Move>)
    requires IsSystemRun(systems, moves) && Starts(systems[0])
    ensures var t := systems[|moves|].seen;
            && (forall j, k :: 0 <= j < k < |t.delivered| ==> t.delivered[j].call != t.delivered[k].call)
            && (forall k :: 0 <= k < |t.delivered| ==> Right(t, t.delivered[k]))
            && AllPresent(t)
  {
    var s, t := systems[0].seen, systems[|moves|].seen;
    var steps := SystemRuns(systems, moves, |moves|);
    DeliveredRight(s, steps);
    InitInv(s);
    RunPresent(s, steps);
    SeenPresent(After(s, steps));
  }

  lemma SeenPresent(s: Net)
    requires AllPresent(s)
    ensures AllPresent(Seen(s))
  {
    forall g ensures Present(Seen(s), g) {
      assert Present(s, g);
      if InFlight(s, g) {
        var id :| Carrying(s, id, g);
        assert Carrying(Seen(s), id, g);
      }
    }
  }

  /** A proxy's periodic work met the call more than three seconds after it was recorded there. */
  ghost predicate Overdue(a: System, m: Move, g: Guid) {
    && m.Aside? && m.event.Housekeeping? && m.here in a.wholes
    && var times := a.wholes[m.here].core.callTime;
       g in times && m.event.now - times[g] > 3
  }

  /** No record of a call expires before its time. */
  lemma {:induction false} ExpiredOverdue(systems: seq<System>, moves: seq<Move>, i: nat, g: Guid) returns (k: nat)
    requires IsSystemRun(systems, moves) && Starts(systems[0]) && i <= |moves| && g in systems[i].seen.expired
    ensures k < i && Overdue(systems[k], moves[k], g)
  {
    k := i - 1;
    if g in systems[k].seen.expired {
      k := ExpiredOverdue(systems, moves, k, g);
    } else {
      var _ := SystemRuns(systems, moves, k);
      MoveOverdue(systems[k], moves[k], systems[i], g);
    }
  }

  lemma MoveOverdue(a: System, m: Move, b: System, g: Guid)
    requires Moved(a, m, b) && g !in a.seen.expired && g in b.seen.expired
    requires forall p :: p in a.wholes ==> MapsAgree(a.wholes[p].core)
    ensures Overdue(a, m, g)
  {
    OnlyAsideExpires(a, m, b);
    var w' :| Turned(a, m.here, m.event, w', b);
    AsideKeeps(a.wholes[m.here], m.event, w');
    ExpiredStale(a.wholes[m.here], m.event.now, w', g);
  }

  lemma OnlyAsideExpires(a: System, m: Move, b: System)
    requires Moved(a, m, b) && b.seen.expired != a.seen.expired
    ensures m.Aside?
  {
    if m.Elsewhere? {
      ElsewhereExpires(a.seen, m.step);
    }
  }

  lemma ElsewhereExpires(s: Net, step: Network.Step)
    requires NoProxy(step) && Enabled(s, step)
    ensures Seen(Do(s, step)).expired == s.expired
  {
    if step.ToNode? {
      NodeExpires(s, step.id, step.answer, step.guidFrom);
    }
  }

  lemma NodeExpires(s: Net, id: nat, answer: Answer, guidFrom: Guid)
    requires id in s.wire
    ensures NodeReceives(s, id, answer, guidFrom).expired == s.expired
  {
    var kind := s.wire[id].msg.kind;
    if kind == INVOKE {
      assert AnswerAt(s, id, answer, guidFrom).expired == s.expired;
    } else {
      assert DeliverAt(s, id).expired == s.expired && Drop(s, id).expired == s.expired;
    }
  }

  lemma AsideKeeps(w: Whole, e: Event, w': Whole)
    requires IsAside(e) && ProxyModel.Step(w, e, w') && w'.core.responses != w.core.responses
    ensures e.Housekeeping?
  {
  }
}
