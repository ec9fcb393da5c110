/** The proxy object of proxy.cc: its maps, counters and tables, and the handlers that change them. */
module Proxy {
  import opened Bytes
  import opened ProxyCore
  import opened Registry
  import opened ProxyModel

  lemma WithoutMore<T>(m: map<Guid, T>, gone: set<Guid>, g: Guid)
    ensures m - gone - {g} == m - (gone + {g})
  {
  }

  /** What the cleanup loop knows: calls in `gone` were stale and are dropped, those outside `left` are settled. */
  ghost predicate Sifting(times: map<Guid, int>, now: int, left: set<Guid>, gone: set<Guid>) {
    left <= times.Keys && gone !! left && gone <= StaleCalls(times, now) <= gone + left
  }

  lemma SiftStep(times: map<Guid, int>, now: int, left: set<Guid>, gone: set<Guid>, g: Guid)
    requires Sifting(times, now, left, gone) && g in left
    ensures if now - times[g] > CALL_LIFETIME then Sifting(times, now, left - {g}, gone + {g}) && |gone + {g}| == |gone| + 1
            else Sifting(times, now, left - {g}, gone)
  {
    assert g in StaleCalls(times, now) <==> now - times[g] > CALL_LIFETIME;
  }

  lemma SiftEnds(responses: map<Guid, Guid>, times: map<Guid, int>, now: int, left: set<Guid>, gone: set<Guid>)
    requires responses.Keys == times.Keys && Sifting(times, now, left, gone)
    requires left == {} || |gone| == CLEANUP_BATCH
    ensures Sifted(responses, times, now, responses - gone, times - gone)
  {
    GoneAre(times, gone);
    if left == {} {
      assert gone + left == gone;
    }
  }

  lemma GoneAre(times: map<Guid, int>, gone: set<Guid>)
    requires gone <= times.Keys
    ensures times.Keys - (times - gone).Keys == gone
  {
  }

  /** The cleanup loop; the order in which the map is walked is left open. */
  method Sift(responses: map<Guid, Guid>, times: map<Guid, int>, now: int)
    returns (responses': map<Guid, Guid>, times': map<Guid, int>)
    requires responses.Keys == times.Keys
    ensures responses'.Keys == times'.Keys && responses'.Keys <= responses.Keys
    ensures Sifted(responses, times, now, responses', times')
  {
    responses', times' := responses, times;
    var left, found := times.Keys, 0;
    ghost var gone: set<Guid> := {};
    assert responses - gone == responses && times - gone == times;
    while left != {}
      invariant Sifting(times, now, left, gone) && found == |gone| < CLEANUP_BATCH
      invariant responses' == responses - gone && times' == times - gone
      decreases left
    {
      var g :| g in left;
      SiftStep(times, now, left, gone, g);
      left := left - {g};
      if now - times'[g] > CALL_LIFETIME {
        found := found + 1;
        WithoutMore(responses, gone, g);
        WithoutMore(times, gone, g);
        responses', times' := responses' - {g}, times' - {g};
        gone := gone + {g};
        if found >= CLEANUP_BATCH {
          break;
        }
      }
    }
    SiftEnds(responses, times, now, left, gone);
    assert (responses - gone).Keys == responses.Keys - gone && (times - gone).Keys == times.Keys - gone;
  }

  /** Proxy::Invoke once a method has been selected or not. */
  lemma InvokeAs(st: State, req: Message, pick: nat, now: int, local: Table, remote: Table, entry: Option<Method>)
    requires Choice(entry, local, remote) == ProxyCore.Select(st.local, st.remote, req.identifier, pick)
    ensures ProxyCore.Invoke(st, req, pick, now) ==
              (State(st.guid, st.invokeCalls + 1, st.invokeErrors + (if entry.None? then 1 else 0), local, remote,
                     if entry.None? then st.responses else Insert(st.responses, req.guidFrom, req.source),
                     if entry.None? then st.callTime else Insert(st.callTime, req.guidFrom, now)),
               Reaction(st.guid, entry, req))
  {
  }

  class Proxy {
    const guid: Guid
    var invokeCalls: nat
    var invokeErrors: nat
    var registerInvoke: nat
    var lastResponsesCleanUp: int
    var localInvokeMethods: Table
    var remoteInvokeMethods: Table
    /** Pending calls: the hop each came from, and when. */
    var invokeResponses: map<Guid, Guid>
    var invokeResponsesCallTime: map<Guid, int>
    /** The channels nodes have asked for, and those each subscriber listens to. */
    var subscribeChannels: set<Name>
    var subscribers: map<Guid, set<Name>>
    /** Everything published, in order. */
    var outbox: seq<Packet>

    /** The pending maps agree. */
    ghost predicate PendingOk()
      reads `invokeResponses, `invokeResponsesCallTime
    {
      invokeResponses.Keys == invokeResponsesCallTime.Keys
    }

    ghost predicate TablesOk()
      reads `localInvokeMethods, `remoteInvokeMethods
    {
      TableOk(localInvokeMethods) && TableOk(remoteInvokeMethods)
    }

    ghost predicate Valid()
      reads this
    {
      PendingOk() && TablesOk()
    }

    ghost function Core(): State
      reads this
    {
      State(guid, invokeCalls, invokeErrors, localInvokeMethods, remoteInvokeMethods, invokeResponses, invokeResponsesCallTime)
    }

    /** The proxy as a whole. */
    ghost function View(): Whole
      reads this
    {
      Whole(Core(), registerInvoke, subscribeChannels, subscribers, lastResponsesCleanUp, outbox)
    }

    constructor (guid: Guid, now: int, subscribers: map<Guid, set<Name>>)
      ensures Valid() && View() == Idle(guid, now, subscribers)
    {
      this.guid := guid;
      invokeCalls, invokeErrors, registerInvoke, lastResponsesCleanUp := 0, 0, 0, now;
      localInvokeMethods, remoteInvokeMethods := map[], map[];
      invokeResponses, invokeResponsesCallTime, outbox := map[], map[], [];
      this.subscribers, subscribeChannels := subscribers, {};
    }

    method Publish(p: Packet)
      modifies this`outbox
      ensures outbox == old(outbox) + [p]
    {
      outbox := outbox + [p];
    }

    /** Both pending maps get the call, unless they have it already. */
    method RecordCall(call: Guid, hop: Guid, now: int)
      modifies this`invokeResponses, this`invokeResponsesCallTime
      ensures invokeResponses == Insert(old(invokeResponses), call, hop)
      ensures invokeResponsesCallTime == Insert(old(invokeResponsesCallTime), call, now)
    {
      if call !in invokeResponses {
        invokeResponses := invokeResponses[call := hop];
      }
      if call !in invokeResponsesCallTime {
        invokeResponsesCallTime := invokeResponsesCallTime[call := now];
      }
    }

    /** A method registered under the identifier, local ones first; looking it up creates empty lists. */
    method Select(identifier: Name, pick: nat) returns (entry: Option<Method>)
      requires TablesOk()
      modifies this`localInvokeMethods, this`remoteInvokeMethods
      ensures TablesOk()
      ensures Choice(entry, localInvokeMethods, remoteInvokeMethods)
           == ProxyCore.Select(old(localInvokeMethods), old(remoteInvokeMethods), identifier, pick)
    {
      TouchKeepsOk(localInvokeMethods, identifier);
      localInvokeMethods := Touch(localInvokeMethods, identifier);
      var vec := localInvokeMethods[identifier];
      if |vec| > 0 {
        return Some(vec[pick % |vec|]);
      }
      TouchKeepsOk(remoteInvokeMethods, identifier);
      remoteInvokeMethods := Touch(remoteInvokeMethods, identifier);
      var remoteVec := remoteInvokeMethods[identifier];
      if |remoteVec| < 1 {
        return None;
      }
      return Some(remoteVec[pick % |remoteVec|]);
    }

    method Invoke(req: Message, pick: nat, now: int)
      requires Valid()
      modifies this`invokeCalls, this`invokeErrors, this`localInvokeMethods, this`remoteInvokeMethods
      modifies this`invokeResponses, this`invokeResponsesCallTime, this`outbox
      ensures Valid() && Core() == ProxyCore.Invoke(old(Core()), req, pick, now).0
      ensures outbox == old(outbox) + [ProxyCore.Invoke(old(Core()), req, pick, now).1]
    {
      ghost var st := Core();
      ghost var entry := Serve(req, pick, now);
      InvokeAs(st, req, pick, now, localInvokeMethods, remoteInvokeMethods, entry);
      assert Core() == State(guid, invokeCalls, invokeErrors, localInvokeMethods, remoteInvokeMethods,
                             invokeResponses, invokeResponsesCallTime);
    }

    method Serve(req: Message, pick: nat, now: int) returns (ghost entry: Option<Method>)
      requires Valid()
      modifies this`invokeCalls, this`invokeErrors, this`localInvokeMethods, this`remoteInvokeMethods
      modifies this`invokeResponses, this`invokeResponsesCallTime, this`outbox
      ensures Valid()
      ensures Choice(entry, localInvokeMethods, remoteInvokeMethods)
           == ProxyCore.Select(old(localInvokeMethods), old(remoteInvokeMethods), req.identifier, pick)
      ensures invokeCalls == old(invokeCalls) + 1 && invokeErrors == old(invokeErrors) + if entry.None? then 1 else 0
      ensures invokeResponses ==
                if entry.None? then old(invokeResponses) else Insert(old(invokeResponses), req.guidFrom, req.source)
      ensures invokeResponsesCallTime ==
                if entry.None? then old(invokeResponsesCallTime) else Insert(old(invokeResponsesCallTime), req.guidFrom, now)
      ensures outbox == old(outbox) + [Reaction(guid, entry, req)]
    {
      invokeCalls := invokeCalls + 1;
      var e := Select(req.identifier, pick);
      if e.Some? {
        RecordCall(req.guidFrom, req.source, now);
      } else {
        invokeErrors := invokeErrors + 1;
      }
      Publish(Reaction(guid, e, req));
      entry := e;
    }

    /** Only responses are routed back; the kind is what the dispatcher matched. */
    method InvokeResponse(req: Message, from: Guid)
      requires PendingOk()
      modifies this`invokeResponses, this`invokeResponsesCallTime, this`outbox
      ensures PendingOk() && Core() == ProxyCore.InvokeResponse(old(Core()), req, from).0
      ensures outbox == old(outbox) + [ProxyCore.InvokeResponse(old(Core()), req, from).1]
    {
      ghost var st := Core();
      Publish(Routing(guid, invokeResponses, req, from));
      Settle(req.guidTo);
      assert Core() == st.(responses := invokeResponses, callTime := invokeResponsesCallTime);
    }

    /** A pending call that was forwarded leaves both maps. */
    method Settle(call: Guid)
      requires PendingOk()
      modifies this`invokeResponses, this`invokeResponsesCallTime
      ensures PendingOk()
      ensures invokeResponses == Erase(old(invokeResponses), call in old(invokeResponses), call)
      ensures invokeResponsesCallTime == Erase(old(invokeResponsesCallTime), call in old(invokeResponses), call)
    {
      if call in invokeResponses {
        invokeResponses := invokeResponses - {call};
        invokeResponsesCallTime := invokeResponsesCallTime - {call};
      }
    }

    /**
     CleanUpResponsesMap: at most once a minute, calls older than three seconds are dropped from both maps, no more
     than a hundred thousand at a time; a younger call is never dropped.
     */
    method CleanUpResponsesMap(now: int)
      requires PendingOk()
      modifies this`lastResponsesCleanUp, this`invokeResponses, this`invokeResponsesCallTime
      ensures PendingOk()
      ensures CleanedUp(old(invokeResponses), old(invokeResponsesCallTime), old(lastResponsesCleanUp), now,
                        invokeResponses, invokeResponsesCallTime, lastResponsesCleanUp)
    {
      if now - lastResponsesCleanUp < CLEANUP_INTERVAL {
        return;
      }
      lastResponsesCleanUp := now;
      var responses, times := Sift(invokeResponses, invokeResponsesCallTime, now);
      invokeResponses, invokeResponsesCallTime := responses, times;
    }

    /** RegisterInvoke; the method's guid is the payload of the request. */
    method RegisterInvoke(req: Message, methodGuid: Guid, now: int)
      requires TablesOk()
      modifies this`localInvokeMethods, this`registerInvoke, this`outbox
      ensures TablesOk()
      ensures localInvokeMethods == UpsertInto(old(localInvokeMethods), Method(req.identifier, req.source, methodGuid, now))
      ensures registerInvoke == old(registerInvoke) +
                if methodGuid in Guids(Get(old(localInvokeMethods), req.identifier)) then 0 else 1
      ensures outbox == old(outbox) + [Registered(guid, req)]
    {
      AddLocal(Method(req.identifier, req.source, methodGuid, now));
      Publish(Registered(guid, req));
    }

    /** A local method is refreshed, or added and counted. */
    method AddLocal(e: Method)
      requires TablesOk()
      modifies this`localInvokeMethods, this`registerInvoke
      ensures TablesOk() && localInvokeMethods == UpsertInto(old(localInvokeMethods), e)
      ensures registerInvoke == old(registerInvoke) +
                if e.methodGuid in Guids(Get(old(localInvokeMethods), e.identifier)) then 0 else 1
    {
      UpsertKeepsTable(localInvokeMethods, e);
      var t, added := Register(localInvokeMethods, e);
      localInvokeMethods := t;
      if added {
        registerInvoke := registerInvoke + 1;
      }
    }

    /** RemoteRegistryUpdate: every advertised method is refreshed or added under the proxy that advertised it. */
    method RemoteRegistryUpdate(req: Message, now: int)
      requires TablesOk()
      modifies this`remoteInvokeMethods
      ensures TablesOk()
      ensures remoteInvokeMethods == UpsertAds(old(remoteInvokeMethods), req.ads, now)
    {
      for i := 0 to |req.ads|
        invariant TablesOk()
        invariant remoteInvokeMethods == UpsertAds(old(remoteInvokeMethods), req.ads[..i], now)
      {
        var e := Advertised(req.ads[i], now);
        UpsertKeepsTable(remoteInvokeMethods, e);
        var t, _ := Register(remoteInvokeMethods, e);
        remoteInvokeMethods := t;
        assert req.ads[..i + 1][..i] == req.ads[..i];
      }
      assert req.ads[..|req.ads|] == req.ads;
    }

    /** RegistryExchangeResponder: the local methods are advertised, each once and as this proxy's own. */
    method RegistryExchangeResponder(req: Message) returns (ghost order: seq<Name>)
      modifies this`outbox
      ensures Enumerates(order, localInvokeMethods.Keys)
      ensures outbox == old(outbox) + [RegistryReply(guid, req, Listing(localInvokeMethods, order, guid))]
    {
      var ads;
      ads, order := CollectAds(localInvokeMethods, guid);
      Publish(RegistryReply(guid, req, ads));
    }

    /** PingRequest. */
    method PingRequest(req: Message)
      modifies this`outbox
      ensures outbox == old(outbox) + [Pong(guid, req)]
    {
      Publish(Pong(guid, req));
    }

    /** PublishReq: a publication that was passed on before is not passed on again. */
    method PublishReq(req: Message)
      modifies this`outbox
      ensures outbox == if req.recursion > 0 then old(outbox) else old(outbox) + [Announcement(guid, req)]
    {
      if req.recursion <= 0 {
        Publish(Announcement(guid, req));
      }
    }

    /** SubscribeReq: the channel is remembered and every subscriber listens to it. */
    method SubscribeReq(req: Message)
      modifies this`subscribeChannels, this`subscribers
      ensures subscribeChannels == old(subscribeChannels) + {req.identifier}
      ensures subscribers == Listening(old(subscribers), req.identifier) && subscribers.Keys == old(subscribers).Keys
      ensures forall g :: g in subscribers ==> subscribers[g] == old(subscribers)[g] + {req.identifier}
    {
      subscribeChannels := subscribeChannels + {req.identifier};
      var left := subscribers.Keys;
      while left != {}
        invariant subscribeChannels == old(subscribeChannels) + {req.identifier}
        invariant left <= subscribers.Keys == old(subscribers).Keys
        invariant forall g :: g in subscribers ==>
                    subscribers[g] == if g in left then old(subscribers)[g] else old(subscribers)[g] + {req.identifier}
        decreases left
      {
        var g :| g in left;
        subscribers := subscribers[g := subscribers[g] + {req.identifier}];
        left := left - {g};
      }
    }

    /** The repeated health checks of the main loop, for a fixed clock. */
    method CheckRegistries(now: int)
      requires TablesOk()
      modifies this`localInvokeMethods, this`remoteInvokeMethods
      ensures TablesOk()
      ensures localInvokeMethods == FreshTable(old(localInvokeMethods), now, LOCAL_LIFETIME)
      ensures remoteInvokeMethods == FreshTable(old(remoteInvokeMethods), now, REMOTE_LIFETIME)
      ensures Swept(old(localInvokeMethods), localInvokeMethods, now, 10)
      ensures Swept(old(remoteInvokeMethods), remoteInvokeMethods, now, 5)
    {
      remoteInvokeMethods := Sweep(remoteInvokeMethods, now, REMOTE_LIFETIME);
      localInvokeMethods := Sweep(localInvokeMethods, now, LOCAL_LIFETIME);
    }
  }

  /** The walk over the table and its lists; the order in which a map is walked is left open. */
  method CollectAds(t: Table, guid: Guid) returns (ads: seq<Ad>, ghost order: seq<Name>)
    ensures Enumerates(order, t.Keys) && ads == Listing(t, order, guid)
  {
    ads, order := [], [];
    var left := t.Keys;
    while left != {}
      invariant left <= t.Keys && Enumerates(order, t.Keys - left)
      invariant ads == Listing(t, order, guid)
      decreases left
    {
      var name :| name in left;
      var more := ListAds(name, t[name], guid);
      ListingSnoc(t, order, guid, name);
      ads := ads + more;
      left, order := left - {name}, order + [name];
    }
  }

  method ListAds(name: Name, list: seq<Method>, guid: Guid) returns (ads: seq<Ad>)
    ensures ads == AdsOf(name, list, guid)
  {
    ads := [];
    for i := 0 to |list|
      invariant ads == AdsOf(name, list, guid)[..i]
    {
      ads := ads + [Ad(name, list[i].methodGuid, guid)];
    }
  }
}
