/** One proxy at work: its dispatcher, its periodic work, and every sequence of both. */
module ProxyRuns {
  import opened ProxyCore
  import opened Registry
  import opened ProxyModel
  import opened ProxyLaws
  import opened ProxyTables
  import opened Proxy

  method OnInvoke(p: Proxy, req: Message, pick: nat, now: int)
    requires p.Valid()
    modifies p`invokeCalls, p`invokeErrors, p`localInvokeMethods, p`remoteInvokeMethods
    modifies p`invokeResponses, p`invokeResponsesCallTime, p`outbox
    ensures p.Valid() && p.View() == Invoking(old(p.View()), req, pick, now)
  {
    p.Invoke(req, pick, now);
  }

  method OnResponse(p: Proxy, req: Message, from: Guid)
    requires p.Valid()
    modifies p`invokeResponses, p`invokeResponsesCallTime, p`outbox
    ensures p.Valid() && p.View() == Responding(old(p.View()), req, from)
  {
    p.InvokeResponse(req, from);
  }

  method OnRegister(p: Proxy, req: Message, methodGuid: Guid, now: int)
    requires p.Valid()
    modifies p`localInvokeMethods, p`registerInvoke, p`outbox
    ensures p.Valid() && p.View() == Registering(old(p.View()), req, methodGuid, now)
  {
    p.RegisterInvoke(req, methodGuid, now);
  }

  method OnExchangeRequest(p: Proxy, req: Message)
    requires p.Valid()
    modifies p`outbox
    ensures p.Valid()
    ensures exists order :: Enumerates(order, old(p.View()).core.local.Keys) && p.View() == Listed(old(p.View()), req, order)
  {
    ghost var w := p.View();
    ghost var order := p.RegistryExchangeResponder(req);
    assert Enumerates(order, w.core.local.Keys) && p.View() == Listed(w, req, order);
  }

  method OnExchangeResponse(p: Proxy, req: Message, now: int)
    requires p.Valid()
    modifies p`remoteInvokeMethods
    ensures p.Valid() && p.View() == Updating(old(p.View()), req, now)
  {
    p.RemoteRegistryUpdate(req, now);
  }

  method OnSubscribe(p: Proxy, req: Message)
    requires p.Valid()
    modifies p`subscribeChannels, p`subscribers
    ensures p.Valid() && p.View() == Subscribing(old(p.View()), req.identifier)
  {
    p.SubscribeReq(req);
  }

  /** Messages about registries and channels. */
  method OnRegistry(p: Proxy, req: Message, methodGuid: Guid, now: int)
    requires p.Valid() && IsRegistry(req.kind)
    modifies p`localInvokeMethods, p`remoteInvokeMethods, p`registerInvoke, p`subscribeChannels, p`subscribers, p`outbox
    ensures p.Valid() && forall from, pick :: Handled(old(p.View()), req, from, methodGuid, pick, now, p.View())
  {
    if req.kind == REGISTER_INVOKE {
      OnRegister(p, req, methodGuid, now);
    } else if req.kind == REGISTRY_EXCHANGE_REQUEST {
      OnExchangeRequest(p, req);
    } else if req.kind == REGISTRY_EXCHANGE_RESPONSE {
      OnExchangeResponse(p, req, now);
    } else {
      OnSubscribe(p, req);
    }
  }

  predicate IsRegistry(kind: Kind) {
    kind == REGISTER_INVOKE || kind == REGISTRY_EXCHANGE_REQUEST || kind == REGISTRY_EXCHANGE_RESPONSE || kind == SUBSCRIBE
  }

  /** Messages that are answered on the spot, passed on, or only logged. */
  method OnRest(p: Proxy, req: Message, from: Guid)
    requires p.Valid() && !IsRegistry(req.kind) && !IsResponse(req.kind) && req.kind != INVOKE
    modifies p`outbox
    ensures p.Valid() && forall methodGuid, pick, now :: Handled(old(p.View()), req, from, methodGuid, pick, now, p.View())
  {
    if req.kind == PING {
      p.PingRequest(req);
    } else if req.kind == PUBLISH {
      p.PublishReq(req);
    } else if req.kind != ERROR && req.kind != PONG {
      p.Publish(Refusal(p.guid, from, req));
    }
  }

  /** SubscriberCallback: the handler of the message's kind, and what it does. */
  method SubscriberCallback(p: Proxy, req: Message, from: Guid, methodGuid: Guid, pick: nat, now: int)
    requires p.Valid()
    modifies p
    ensures p.Valid() && Handled(old(p.View()), req, from, methodGuid, pick, now, p.View())
  {
    if req.kind == INVOKE {
      OnInvoke(p, req, pick, now);
    } else if IsResponse(req.kind) {
      OnResponse(p, req, from);
    } else if IsRegistry(req.kind) {
      OnRegistry(p, req, methodGuid, now);
    } else {
      OnRest(p, req, from);
    }
  }

  /** The periodic work of the main loop. */
  method Housekeep(p: Proxy, now: int)
    requires p.Valid()
    modifies p
    ensures p.Valid() && Tidied(old(p.View()), now, p.View()) && Tidy(old(p.View()), now, p.View())
  {
    ghost var w := p.View();
    p.CheckRegistries(now);
    p.CleanUpResponsesMap(now);
    TidiedIsTidy(w, now, p.View());
  }

  method Handle(p: Proxy, e: Event)
    requires p.Valid()
    modifies p
    ensures p.Valid() && Step(old(p.View()), e, p.View())
  {
    match e {
      case Received(req, from, methodGuid, pick, at) => SubscriberCallback(p, req, from, methodGuid, pick, at);
      case Housekeeping(now) => Housekeep(p, now);
    }
  }

  /** What can be seen of a proxy. */
  method Look(p: Proxy) returns (w: Whole)
    ensures w == p.View()
  {
    w := Whole(State(p.guid, p.invokeCalls, p.invokeErrors, p.localInvokeMethods, p.remoteInvokeMethods,
                     p.invokeResponses, p.invokeResponsesCallTime),
               p.registerInvoke, p.subscribeChannels, p.subscribers, p.lastResponsesCleanUp, p.outbox);
  }

  /**
   Every run of the proxy goes from the idle state, event by event, through states the model allows; so all its
   accounts hold.
   */
  method Run(guid: Guid, start: int, subscribers: map<Guid, set<Name>>, events: seq<Event>)
    returns (w: Whole, ghost states: seq<Whole>)
    ensures IsRun(states, events) && w == states[|events|]
    ensures states[0] == Whole(State(guid, 0, 0, map[], map[], map[], map[]), 0, {}, subscribers, start, [])
    ensures Accounts(states, events) && TablesExact(states, events)
    ensures forall i :: 0 <= i < |states| ==> TableOk(states[i].core.local) && TableOk(states[i].core.remote)
  {
    var p := new Proxy(guid, start, subscribers);
    states := [p.View()];
    for i := 0 to |events|
      invariant fresh(p) && p.Valid() && |states| == i + 1 && states[0] == Idle(guid, start, subscribers) && states[i] == p.View()
      invariant forall j :: 0 <= j < i ==> Step(states[j], events[j], states[j + 1])
      invariant forall j :: 0 <= j <= i ==> TableOk(states[j].core.local) && TableOk(states[j].core.remote)
    {
      Handle(p, events[i]);
      states := states + [p.View()];
    }
    w := Look(p);
    RunAccounts(states, events);
    RunTablesExact(states, events);
  }
}
