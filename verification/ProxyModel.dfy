/** What a proxy does with a message and in its periodic work, as a relation between its states. */
module ProxyModel {
  import opened ProxyCore
  import opened Registry

  const CLEANUP_INTERVAL: int := 60
  const CALL_LIFETIME: int := 3
  const CLEANUP_BATCH: nat := 100000

  /** The pending calls that may be given up. */
  ghost function StaleCalls(times: map<Guid, int>, now: int): set<Guid> {
    set g | g in times && now - times[g] > CALL_LIFETIME
  }

  /** The outcome of a cleanup: only stale calls are gone, all of them or a full batch, and the rest is untouched. */
  ghost predicate Sifted(responses: map<Guid, Guid>, times: map<Guid, int>, now: int,
                         responses': map<Guid, Guid>, times': map<Guid, int>) {
    var gone := times.Keys - times'.Keys;
    && responses' == responses - gone && times' == times - gone
    && gone <= StaleCalls(times, now)
    && (gone == StaleCalls(times, now) || |gone| == CLEANUP_BATCH)
  }

  /** At most once a minute, stale calls are given up. */
  ghost predicate CleanedUp(responses: map<Guid, Guid>, times: map<Guid, int>, last: int, now: int,
                            responses': map<Guid, Guid>, times': map<Guid, int>, last': int) {
    if now - last < CLEANUP_INTERVAL then last' == last && responses' == responses && times' == times
    else last' == now && Sifted(responses, times, now, responses', times')
  }

  /** The proxy as a whole: calls and registries, what nodes asked for, and everything it has published. */
  datatype Whole = Whole(
    core: State,
    registered: nat,
    channels: set<Name>,
    subscribers: map<Guid, set<Name>>,
    lastCleanUp: int,
    outbox: seq<Packet>)

  /** A proxy that has done nothing yet. */
  function Idle(guid: Guid, start: int, subscribers: map<Guid, set<Name>>): Whole {
    Whole(State(guid, 0, 0, map[], map[], map[], map[]), 0, {}, subscribers, start, [])
  }

  predicate IsIdle(w: Whole) {
    w == Idle(w.core.guid, w.lastCleanUp, w.subscribers)
  }

  /**
   Something that happens to a proxy. With a message come the guid it was received from, the method guid a
   registration carries, the random number an invocation draws and the time.
   */
  datatype Event =
    | Received(req: Message, from: Guid, methodGuid: Guid, pick: nat, at: int)
    | Housekeeping(now: int)

  function Publishing(w: Whole, out: Packet): Whole {
    w.(outbox := w.outbox + [out])
  }

  function Invoking(w: Whole, req: Message, pick: nat, now: int): Whole {
    var r := Invoke(w.core, req, pick, now);
    Publishing(w.(core := r.0), r.1)
  }

  function Responding(w: Whole, req: Message, from: Guid): Whole {
    var r := InvokeResponse(w.core, req, from);
    Publishing(w.(core := r.0), r.1)
  }

  ghost function Registering(w: Whole, req: Message, methodGuid: Guid, now: int): Whole {
    var e := Method(req.identifier, req.source, methodGuid, now);
    Publishing(w.(core := w.core.(local := UpsertInto(w.core.local, e)),
                  registered := w.registered + if methodGuid in Guids(Get(w.core.local, req.identifier)) then 0 else 1),
               Registered(w.core.guid, req))
  }

  function Updating(w: Whole, req: Message, now: int): Whole {
    w.(core := w.core.(remote := UpsertAds(w.core.remote, req.ads, now)))
  }

  /** Every subscriber listens to the channel as well. */
  function Listening(subscribers: map<Guid, set<Name>>, channel: Name): map<Guid, set<Name>> {
    map g | g in subscribers :: subscribers[g] + {channel}
  }

  function Subscribing(w: Whole, channel: Name): Whole {
    w.(channels := w.channels + {channel}, subscribers := Listening(w.subscribers, channel))
  }

  /** SubscriberCallback: what a message does, by its kind. */
  ghost predicate Handled(w: Whole, req: Message, from: Guid, methodGuid: Guid, pick: nat, now: int, w': Whole) {
    match req.kind
    case INVOKE => w' == Invoking(w, req, pick, now)
    case RESPONSE => w' == Responding(w, req, from)
    case ERROR_RESPONSE => w' == Responding(w, req, from)
    case REGISTER_INVOKE => w' == Registering(w, req, methodGuid, now)
    case REGISTRY_EXCHANGE_REQUEST =>
      exists order :: Enumerates(order, w.core.local.Keys) && w' == Listed(w, req, order)
    case REGISTRY_EXCHANGE_RESPONSE => w' == Updating(w, req, now)
    case PING => w' == Publishing(w, Pong(w.core.guid, req))
    case PUBLISH => w' == if req.recursion > 0 then w else Publishing(w, Announcement(w.core.guid, req))
    case SUBSCRIBE => w' == Subscribing(w, req.identifier)
    case ERROR => w' == w
    case PONG => w' == w
    case _ => w' == Publishing(w, Refusal(w.core.guid, from, req))
  }

  /** The registry reply for one order of walking the table. */
  ghost function Listed(w: Whole, req: Message, order: seq<Name>): Whole
    requires Enumerates(order, w.core.local.Keys)
  {
    Publishing(w, RegistryReply(w.core.guid, req, Listing(w.core.local, order, w.core.guid)))
  }

  /** The periodic work: stale entries leave the registries, and once a minute stale calls leave the pending ones. */
  ghost predicate Tidied(w: Whole, now: int, w': Whole) {
    && w' == w.(core := w'.core, lastCleanUp := w'.lastCleanUp)
    && w'.core == w.core.(local := FreshTable(w.core.local, now, LOCAL_LIFETIME),
                          remote := FreshTable(w.core.remote, now, REMOTE_LIFETIME),
                          responses := w'.core.responses, callTime := w'.core.callTime)
    && CleanedUp(w.core.responses, w.core.callTime, w.lastCleanUp, now, w'.core.responses, w'.core.callTime, w'.lastCleanUp)
  }

  ghost predicate Step(w: Whole, e: Event, w': Whole) {
    match e
    case Received(req, from, methodGuid, pick, at) => Handled(w, req, from, methodGuid, pick, at, w')
    case Housekeeping(now) => Tidied(w, now, w')
  }

  /** The states of a run: each follows from the one before by its event. */
  ghost predicate IsRun(states: seq<Whole>, events: seq<Event>) {
    |states| == |events| + 1 && forall i :: 0 <= i < |events| ==> Step(states[i], events[i], states[i + 1])
  }
}
