/** The accounts of a proxy, proved of every run of its model. */
module ProxyLaws {
  import opened ProxyCore
  import opened Registry
  import opened ProxyModel

  // ------------------------------------------------------------ what happens to calls

  predicate Pending(w: Whole, g: Guid) {
    g in w.core.responses
  }

  predicate Invokes(e: Event) {
    e.Received? && e.req.kind == INVOKE
  }

  predicate Responds(e: Event) {
    e.Received? && IsResponse(e.req.kind)
  }

  /** What can happen to a call: an invocation makes it pending, a response or the periodic work ends that. */
  datatype Fate = Recorded | Forwarded | Expired

  predicate Befalls(fate: Fate, w: Whole, e: Event, w': Whole, g: Guid) {
    match fate
    case Recorded => Invokes(e) && !Pending(w, g) && Pending(w', g)
    case Forwarded => Responds(e) && Pending(w, g) && !Pending(w', g)
    case Expired => e.Housekeeping? && Pending(w, g) && !Pending(w', g)
  }

  function One(b: bool): nat {
    if b then 1 else 0
  }

  /** How often that happened to the call in a run. */
  function Times(fate: Fate, states: seq<Whole>, events: seq<Event>, g: Guid): nat
    requires |states| == |events| + 1
    decreases |events|
  {
    if events == [] then 0
    else
      var n := |events| - 1;
      Times(fate, states[..n + 1], events[..n], g) + One(Befalls(fate, states[n], events[n], states[n + 1], g))
  }

  // ------------------------------------------------------------ what comes in and goes out

  predicate Brings(e: Event, kind: Kind, g: Guid) {
    e.Received? && e.req.kind == kind && e.req.guidFrom == g
  }

  /** How often a message of that kind came for the guid. */
  function Came(events: seq<Event>, kind: Kind, g: Guid): nat {
    if events == [] then 0 else Came(events[..|events| - 1], kind, g) + One(Brings(events[|events| - 1], kind, g))
  }

  /** All invocations received, and all passed on. */
  function Calls(events: seq<Event>): nat {
    if events == [] then 0 else Calls(events[..|events| - 1]) + One(Invokes(events[|events| - 1]))
  }

  function Passed(out: seq<Packet>): nat {
    if out == [] then 0 else Passed(out[..|out| - 1]) + One(out[|out| - 1].msg.kind == INVOKE)
  }

  /** The call, passed on. */
  predicate Passes(p: Packet, g: Guid) {
    p.msg.kind == INVOKE && p.msg.guidFrom == g
  }

  /** A response for the guid. */
  predicate Answers(p: Packet, g: Guid) {
    IsResponse(p.msg.kind) && p.msg.guidTo == g
  }

  function PassedOn(out: seq<Packet>, g: Guid): nat {
    if out == [] then 0 else PassedOn(out[..|out| - 1], g) + One(Passes(out[|out| - 1], g))
  }

  function Answered(out: seq<Packet>, g: Guid): nat {
    if out == [] then 0 else Answered(out[..|out| - 1], g) + One(Answers(out[|out| - 1], g))
  }

  lemma PublishedSnoc(out: seq<Packet>, p: Packet, g: Guid)
    ensures Passed(out + [p]) == Passed(out) + One(p.msg.kind == INVOKE)
    ensures PassedOn(out + [p], g) == PassedOn(out, g) + One(Passes(p, g))
    ensures Answered(out + [p], g) == Answered(out, g) + One(Answers(p, g))
  {
    assert (out + [p])[..|out|] == out;
  }

  // ------------------------------------------------------------ one step

  /** What one event adds to the accounts of a call. */
  ghost predicate Booked(w: Whole, e: Event, w': Whole, g: Guid) {
    && One(Pending(w, g)) + One(Befalls(Recorded, w, e, w', g))
       == One(Pending(w', g)) + One(Befalls(Forwarded, w, e, w', g)) + One(Befalls(Expired, w, e, w', g))
    && PassedOn(w.outbox, g) + One(Befalls(Recorded, w, e, w', g)) <= PassedOn(w'.outbox, g)
    && PassedOn(w'.outbox, g) <= PassedOn(w.outbox, g) + One(Brings(e, INVOKE, g))
    && Answered(w'.outbox, g) == Answered(w.outbox, g) + One(Befalls(Forwarded, w, e, w', g)) + One(Brings(e, PING, g))
    && w'.core.invokeCalls == w.core.invokeCalls + One(Invokes(e))
    && w'.core.invokeErrors + Passed(w'.outbox) == w.core.invokeErrors + Passed(w.outbox) + One(Invokes(e))
  }

  /** A call is passed on and recorded, unless it is pending already, or refused. */
  lemma InvokeBooked(w: Whole, e: Event, w': Whole, g: Guid)
    requires Invokes(e) && Step(w, e, w')
    ensures Booked(w, e, w', g)
  {
    InvokeEffect(w.core, e.req, e.pick, e.at);
    var p := Invoke(w.core, e.req, e.pick, e.at).1;
    assert w'.outbox == w.outbox + [p];
    PublishedSnoc(w.outbox, p, g);
  }

  /** A response for a pending call is forwarded and settles it. */
  lemma ResponseBooked(w: Whole, e: Event, w': Whole, g: Guid)
    requires Responds(e) && Step(w, e, w')
    ensures Booked(w, e, w', g)
  {
    var p := InvokeResponse(w.core, e.req, e.from).1;
    ResponseEffect(w.core, e.req, e.from);
    assert w'.outbox == w.outbox + [p];
    PublishedSnoc(w.outbox, p, g);
  }

  /** Nothing about calls changed. */
  predicate SameCalls(a: State, b: State) {
    a.responses == b.responses && a.callTime == b.callTime && a.invokeCalls == b.invokeCalls && a.invokeErrors == b.invokeErrors
  }

  lemma PublishingBooked(w: Whole, e: Event, w': Whole, p: Packet, g: Guid)
    requires !Invokes(e) && !Responds(e) && SameCalls(w.core, w'.core) && w'.outbox == w.outbox + [p]
    requires p.msg.kind != INVOKE && Answers(p, g) == Brings(e, PING, g)
    ensures Booked(w, e, w', g)
  {
    PublishedSnoc(w.outbox, p, g);
  }

  lemma RegisterBooked(w: Whole, e: Event, w': Whole, g: Guid)
    requires e.Received? && e.req.kind == REGISTER_INVOKE && Step(w, e, w')
    ensures Booked(w, e, w', g)
  {
    PublishingBooked(w, e, w', Registered(w.core.guid, e.req), g);
  }

  lemma ListedBooked(w: Whole, e: Event, w': Whole, g: Guid)
    requires e.Received? && e.req.kind == REGISTRY_EXCHANGE_REQUEST && Step(w, e, w')
    ensures Booked(w, e, w', g)
  {
    var order :| Enumerates(order, w.core.local.Keys) && w' == Listed(w, e.req, order);
    PublishingBooked(w, e, w', RegistryReply(w.core.guid, e.req, Listing(w.core.local, order, w.core.guid)), g);
  }

  lemma OtherBooked(w: Whole, e: Event, w': Whole, g: Guid)
    requires e.Received? && !Invokes(e) && !Responds(e) && Step(w, e, w')
    ensures Booked(w, e, w', g)
  {
    var guid, kind := w.core.guid, e.req.kind;
    if kind == REGISTER_INVOKE {
      RegisterBooked(w, e, w', g);
    } else if kind == REGISTRY_EXCHANGE_REQUEST {
      ListedBooked(w, e, w', g);
    } else if kind == PING {
      PublishingBooked(w, e, w', Pong(guid, e.req), g);
    } else if w'.outbox != w.outbox {
      PublishingBooked(w, e, w', if kind == PUBLISH then Announcement(guid, e.req) else Refusal(guid, e.from, e.req), g);
    }
  }

  lemma StepBooked(w: Whole, e: Event, w': Whole, g: Guid)
    requires Step(w, e, w')
    ensures Booked(w, e, w', g)
  {
    if Invokes(e) {
      InvokeBooked(w, e, w', g);
    } else if Responds(e) {
      ResponseBooked(w, e, w', g);
    } else if e.Received? {
      OtherBooked(w, e, w', g);
    }
  }

  // ------------------------------------------------------------ every run

  /**
   The accounts of a call in a run. As often as it was recorded, it was forwarded back or given up, or it is still
   pending; it is recorded only when passed on, and passed on only when received. Responses for it go out as often as
   it was forwarded back, and for pings under its guid.
   */
  ghost predicate Balanced(states: seq<Whole>, events: seq<Event>, g: Guid)
    requires |states| == |events| + 1
  {
    var w := states[|events|];
    && Times(Recorded, states, events, g)
       == Times(Forwarded, states, events, g) + Times(Expired, states, events, g) + One(Pending(w, g))
    && Times(Recorded, states, events, g) <= PassedOn(w.outbox, g) <= Came(events, INVOKE, g)
    && Answered(w.outbox, g) == Times(Forwarded, states, events, g) + Came(events, PING, g)
    && w.core.invokeCalls == Calls(events) == Passed(w.outbox) + w.core.invokeErrors
  }

  lemma {:induction false} RunBalanced(states: seq<Whole>, events: seq<Event>, g: Guid)
    requires IsRun(states, events) && IsIdle(states[0])
    ensures Balanced(states, events, g)
    decreases |events|
  {
    if events != [] {
      var n := |events| - 1;
      RunBalanced(states[..n + 1], events[..n], g);
      StepBooked(states[n], events[n], states[n + 1], g);
    }
  }

  // ------------------------------------------------------------ which invocation a call goes back to

  predicate MapsAgree(st: State) {
    st.responses.Keys == st.callTime.Keys
  }

  /** A pending call keeps its hop and time; a new one has those of the invocation that brought it. */
  ghost predicate Follows(a: State, e: Event, b: State, g: Guid)
    requires MapsAgree(a) && MapsAgree(b)
  {
    g in b.responses ==>
      if g in a.responses then b.responses[g] == a.responses[g] && b.callTime[g] == a.callTime[g]
      else Brings(e, INVOKE, g) && b.responses[g] == e.req.source && b.callTime[g] == e.at
  }

  lemma StepFollows(w: Whole, e: Event, w': Whole, g: Guid)
    requires Step(w, e, w') && MapsAgree(w.core)
    ensures MapsAgree(w'.core) && Follows(w.core, e, w'.core, g)
  {
    if Invokes(e) {
      InvokeFollows(w, e, w', g);
    } else if Responds(e) {
      ResponseFollows(w, e, w', g);
    } else if e.Housekeeping? {
      TidyFollows(w, e, w', g);
    } else {
      OtherFollows(w, e, w', g);
    }
  }

  lemma ResponseFollows(w: Whole, e: Event, w': Whole, g: Guid)
    requires Responds(e) && Step(w, e, w') && MapsAgree(w.core)
    ensures MapsAgree(w'.core) && Follows(w.core, e, w'.core, g)
  {
  }

  lemma OtherFollows(w: Whole, e: Event, w': Whole, g: Guid)
    requires e.Received? && !Invokes(e) && !Responds(e) && Step(w, e, w') && MapsAgree(w.core)
    ensures MapsAgree(w'.core) && Follows(w.core, e, w'.core, g)
  {
  }

  lemma InvokeFollows(w: Whole, e: Event, w': Whole, g: Guid)
    requires Invokes(e) && Step(w, e, w') && MapsAgree(w.core)
    ensures MapsAgree(w'.core) && Follows(w.core, e, w'.core, g)
  {
    InvokeEffect(w.core, e.req, e.pick, e.at);
  }

  lemma TidyFollows(w: Whole, e: Event, w': Whole, g: Guid)
    requires e.Housekeeping? && Step(w, e, w') && MapsAgree(w.core)
    ensures MapsAgree(w'.core) && Follows(w.core, e, w'.core, g)
  {
  }

  lemma {:induction false} RunMapsAgree(states: seq<Whole>, events: seq<Event>, i: nat)
    requires IsRun(states, events) && IsIdle(states[0]) && i <= |events|
    ensures MapsAgree(states[i].core)
  {
    if i > 0 {
      RunMapsAgree(states, events, i - 1);
      StepFollows(states[i - 1], events[i - 1], states[i], 0);
    }
  }

  /** Event j recorded the call; it has been pending since, with that event's source and time. */
  ghost predicate RecordedBy(states: seq<Whole>, events: seq<Event>, i: nat, g: Guid, j: nat)
    requires |states| == |events| + 1 && i <= |events|
  {
    && j < i && Brings(events[j], INVOKE, g)
    && !Pending(states[j], g) && (forall k :: j < k <= i ==> Pending(states[k], g))
    && states[i].core.responses[g] == events[j].req.source
    && g in states[i].core.callTime && states[i].core.callTime[g] == events[j].at
  }

  /** Whatever is pending was recorded by an invocation, and is pending since. */
  lemma {:induction false} PendingSince(states: seq<Whole>, events: seq<Event>, i: nat, g: Guid) returns (j: nat)
    requires IsRun(states, events) && IsIdle(states[0]) && i <= |events| && Pending(states[i], g)
    ensures RecordedBy(states, events, i, g, j)
  {
    RunMapsAgree(states, events, i - 1);
    StepFollows(states[i - 1], events[i - 1], states[i], g);
    j := i - 1;
    if Pending(states[i - 1], g) {
      j := PendingSince(states, events, i - 1, g);
    }
  }

  /** The response went to the hop the call was recorded with. */
  ghost predicate SentBack(w: Whole, req: Message, w': Whole, hop: Guid) {
    && |w'.outbox| == |w.outbox| + 1
    && var p := w'.outbox[|w.outbox|];
       p.topic == hop && p.msg.kind == req.kind && p.msg.guidTo == req.guidTo && p.msg.payload == req.payload
  }

  /**
   Every call forwarded back went to the source of the invocation that recorded it, with the response's kind and
   payload; every call given up had been recorded more than three seconds before.
   */
  ghost predicate Settled(states: seq<Whole>, events: seq<Event>, i: nat, g: Guid)
    requires |states| == |events| + 1 && i < |events|
  {
    && (Befalls(Forwarded, states[i], events[i], states[i + 1], g) ==>
          exists j: nat :: RecordedBy(states, events, i, g, j)
            && SentBack(states[i], events[i].req, states[i + 1], events[j].req.source))
    && (Befalls(Expired, states[i], events[i], states[i + 1], g) ==>
          exists j: nat :: RecordedBy(states, events, i, g, j) && events[i].now - events[j].at > 3)
  }

  lemma ExpiredStale(w: Whole, now: int, w': Whole, g: Guid)
    requires Tidied(w, now, w') && MapsAgree(w.core) && Pending(w, g) && !Pending(w', g)
    ensures now - w.core.callTime[g] > 3
  {
    assert g in StaleCalls(w.core.callTime, now);
  }

  lemma RunSettled(states: seq<Whole>, events: seq<Event>, i: nat, g: Guid)
    requires IsRun(states, events) && IsIdle(states[0]) && i < |events|
    ensures Settled(states, events, i, g)
  {
    if Pending(states[i], g) && !Pending(states[i + 1], g) {
      var j := PendingSince(states, events, i, g);
      RunMapsAgree(states, events, i);
      assert Step(states[i], events[i], states[i + 1]);
      if events[i].Housekeeping? {
        ExpiredStale(states[i], events[i].now, states[i + 1], g);
      } else if Responds(events[i]) {
        assert SentBack(states[i], events[i].req, states[i + 1], events[j].req.source);
      }
    }
  }

  // ------------------------------------------------------------ the periodic work, in numbers

  /** Less than a minute after the last cleanup nothing is given up; then only calls older than three seconds. */
  ghost predicate GivesUp(w: Whole, now: int, w': Whole) {
    var before, after := w.core, w'.core;
    if now - w.lastCleanUp < 60 then
      w'.lastCleanUp == w.lastCleanUp && after.responses == before.responses && after.callTime == before.callTime
    else
      && w'.lastCleanUp == now && after.responses.Keys == after.callTime.Keys
      && (forall g :: g in after.responses ==> g in before.responses && after.responses[g] == before.responses[g])
      && (forall g :: g in after.callTime ==> g in before.callTime && after.callTime[g] == before.callTime[g])
      && (forall g :: g in before.callTime && g !in after.callTime ==> now - before.callTime[g] > 3)
      && ((forall g :: g in after.callTime ==> now - after.callTime[g] <= 3)
          || |before.callTime.Keys - after.callTime.Keys| == 100000)
  }

  /** Local methods are kept for ten seconds, remote ones for five; nothing else changes. */
  ghost predicate Tidy(w: Whole, now: int, w': Whole) {
    && Swept(w.core.local, w'.core.local, now, 10) && Swept(w.core.remote, w'.core.remote, now, 5)
    && GivesUp(w, now, w')
    && w'.core.guid == w.core.guid && w'.core.invokeCalls == w.core.invokeCalls && w'.core.invokeErrors == w.core.invokeErrors
    && w'.registered == w.registered && w'.channels == w.channels && w'.subscribers == w.subscribers && w'.outbox == w.outbox
  }

  lemma TidiedIsTidy(w: Whole, now: int, w': Whole)
    requires Tidied(w, now, w') && MapsAgree(w.core)
    ensures Tidy(w, now, w')
  {
    FreshSwept(w.core.local, now, LOCAL_LIFETIME);
    FreshSwept(w.core.remote, now, REMOTE_LIFETIME);
    TidiedGivesUp(w, now, w');
  }

  lemma TidiedGivesUp(w: Whole, now: int, w': Whole)
    requires Tidied(w, now, w') && MapsAgree(w.core)
    ensures GivesUp(w, now, w')
  {
    if now - w.lastCleanUp >= CLEANUP_INTERVAL {
      SiftedMeans(w.core.responses, w.core.callTime, now, w'.core.responses, w'.core.callTime);
    }
  }

  lemma SiftedMeans(responses: map<Guid, Guid>, times: map<Guid, int>, now: int,
                    responses': map<Guid, Guid>, times': map<Guid, int>)
    requires Sifted(responses, times, now, responses', times') && responses.Keys == times.Keys
    ensures responses'.Keys == times'.Keys
    ensures forall g :: g in responses' ==> g in responses && responses'[g] == responses[g]
    ensures forall g :: g in times' ==> g in times && times'[g] == times[g]
    ensures forall g :: g in times && g !in times' ==> now - times[g] > 3
    ensures (forall g :: g in times' ==> now - times'[g] <= 3) || |times.Keys - times'.Keys| == 100000
  {
    var gone := times.Keys - times'.Keys;
    forall g | g in times && g !in times' ensures now - times[g] > 3 {
      assert g in gone && g in StaleCalls(times, now);
    }
    if gone == StaleCalls(times, now) {
      forall g | g in times' ensures now - times'[g] <= 3 {
        assert g !in gone;
      }
    }
  }

  /** Everything that holds of the calls in a run. */
  ghost predicate Accounts(states: seq<Whole>, events: seq<Event>)
    requires |states| == |events| + 1
  {
    && (forall g {:trigger Balanced(states, events, g)} :: Balanced(states, events, g))
    && (forall i: nat, g {:trigger Settled(states, events, i, g)} :: i < |events| ==> Settled(states, events, i, g))
  }

  lemma RunAccounts(states: seq<Whole>, events: seq<Event>)
    requires IsRun(states, events) && IsIdle(states[0])
    ensures Accounts(states, events)
  {
    forall g ensures Balanced(states, events, g) {
      RunBalanced(states, events, g);
    }
    forall i: nat, g | i < |events| ensures Settled(states, events, i, g) {
      RunSettled(states, events, i, g);
    }
  }
}
