/**
 The call bookkeeping of a proxy: the handlers of proxy.cc as functions of its state. Guids and identifiers are
 numbers here, since the proxy only ever compares them.
 */
module ProxyCore {
  import opened Bytes

  type Guid = nat
  type Name = nat

  /** The commands a proxy receives or sends; OTHER is one it does not know. */
  datatype Kind = ERROR | RESPONSE | ERROR_RESPONSE | INVOKE | REGISTER_INVOKE | REGISTER_INVOKE_OK
    | REGISTRY_EXCHANGE_REQUEST | REGISTRY_EXCHANGE_RESPONSE | PING | PONG | PUBLISH | SUBSCRIBE | OTHER

  predicate IsResponse(k: Kind) {
    k == RESPONSE || k == ERROR_RESPONSE
  }

  /** An advertised method. */
  datatype Ad = Ad(identifier: Name, methodGuid: Guid, proxyGuid: Guid)

  datatype Message = Message(kind: Kind, source: Guid, guidFrom: Guid, guidTo: Guid, identifier: Name,
                             payload: bytes, ads: seq<Ad>, recursion: int := 0)

  /** A message on its way: what is published, and the guid it is published to. */
  datatype Packet = Packet(topic: Guid, msg: Message)

  /** A registered method; its owner is a node in the local table and a proxy in the remote one. */
  datatype Method = Method(identifier: Name, owner: Guid, methodGuid: Guid, lastCheckTime: int)

  type Table = map<Name, seq<Method>>

  /** An unset guid or identifier; the texts of error messages are not modelled. */
  const UNSET: Guid := 0
  const NOT_FOUND: bytes := []

  datatype State = State(
    guid: Guid,
    invokeCalls: nat,
    invokeErrors: nat,
    local: Table,
    remote: Table,
    responses: map<Guid, Guid>,
    callTime: map<Guid, int>)

  /** operator[] of a map of vectors: a missing key is created with an empty vector. */
  function Touch(m: Table, k: Name): Table {
    if k in m then m else m[k := []]
  }

  /** insert of a map: the first value for a key stays. */
  function Insert<T>(m: map<Guid, T>, k: Guid, v: T): map<Guid, T> {
    if k in m then m else m[k := v]
  }

  /** The call is remembered with the hop it came from. */
  function Record(st: State, call: Guid, hop: Guid, now: int): State {
    st.(responses := Insert(st.responses, call, hop), callTime := Insert(st.callTime, call, now))
  }

  // ------------------------------------------------------------ what a proxy publishes

  /** A call, passed on to the owner of the method. */
  function Forward(guid: Guid, e: Method, req: Message): Packet {
    Packet(e.owner, Message(INVOKE, guid, req.guidFrom, e.methodGuid, e.identifier, req.payload, []))
  }

  /** An error in answer to a message. */
  function Refusal(guid: Guid, to: Guid, req: Message): Packet {
    Packet(to, Message(ERROR, guid, guid, req.guidFrom, UNSET, NOT_FOUND, []))
  }

  /** The reaction to a call. */
  function Reaction(guid: Guid, entry: Option<Method>, req: Message): Packet {
    match entry
    case Some(e) => Forward(guid, e, req)
    case None => Refusal(guid, req.source, req)
  }

  /** The hop a response goes to, or an error to its sender when the call is not pending. */
  function Routing(guid: Guid, responses: map<Guid, Guid>, req: Message, from: Guid): Packet {
    if req.guidTo in responses then
      Packet(responses[req.guidTo], Message(req.kind, guid, req.guidFrom, req.guidTo, UNSET, req.payload, []))
    else Refusal(guid, from, req)
  }

  function Registered(guid: Guid, req: Message): Packet {
    Packet(req.source, Message(REGISTER_INVOKE_OK, guid, UNSET, req.source, req.identifier, [], []))
  }

  function RegistryReply(guid: Guid, req: Message, ads: seq<Ad>): Packet {
    Packet(req.source, Message(REGISTRY_EXCHANGE_RESPONSE, guid, UNSET, UNSET, UNSET, [], ads))
  }

  const PONG_TEXT: bytes := [34, 80, 111, 110, 103, 34]

  /** A ping is answered with a response, although no call is pending. */
  function Pong(guid: Guid, req: Message): Packet {
    Packet(req.source, Message(RESPONSE, guid, UNSET, req.guidFrom, UNSET, PONG_TEXT, []))
  }

  /** A publication, passed on to the subscribers of its channel, once. */
  function Announcement(guid: Guid, req: Message): Packet {
    Packet(req.identifier, Message(PUBLISH, guid, UNSET, UNSET, req.identifier, req.payload, [], 1))
  }

  // ------------------------------------------------------------ handlers of calls

  /** A choice and the tables it leaves behind. */
  datatype Choice = Choice(entry: Option<Method>, local: Table, remote: Table)

  /** A method registered under the identifier, local ones first; looking it up creates empty lists. */
  function Select(local: Table, remote: Table, identifier: Name, pick: nat): Choice {
    var local' := Touch(local, identifier);
    var here := local'[identifier];
    if |here| > 0 then Choice(Some(here[pick % |here|]), local', remote)
    else
      var remote' := Touch(remote, identifier);
      var there := remote'[identifier];
      Choice(if |there| > 0 then Some(there[pick % |there|]) else None, local', remote')
  }

  /** Proxy::Invoke. `pick` is the random number that selects among the methods registered. */
  function Invoke(st: State, req: Message, pick: nat, now: int): (State, Packet) {
    var c := Select(st.local, st.remote, req.identifier, pick);
    var s1 := st.(invokeCalls := st.invokeCalls + 1, local := c.local, remote := c.remote);
    (if c.entry.Some? then Record(s1, req.guidFrom, req.source, now) else s1.(invokeErrors := s1.invokeErrors + 1),
     Reaction(st.guid, c.entry, req))
  }

  /** erase of a map, if the call was pending. */
  function Erase<T>(m: map<Guid, T>, pending: bool, call: Guid): map<Guid, T> {
    if pending then m - {call} else m
  }

  /** Proxy::InvokeResponse. */
  function InvokeResponse(st: State, req: Message, from: Guid): (State, Packet) {
    var pending := req.guidTo in st.responses;
    (st.(responses := Erase(st.responses, pending, req.guidTo), callTime := Erase(st.callTime, pending, req.guidTo)),
     Routing(st.guid, st.responses, req, from))
  }

  /** Whether Invoke passes the call on. */
  predicate Known(st: State, identifier: Name) {
    (identifier in st.local && |st.local[identifier]| > 0) || (identifier in st.remote && |st.remote[identifier]| > 0)
  }

  /** The methods an invocation chooses from: the local ones, or the remote ones if there are none. */
  function Candidates(st: State, identifier: Name): seq<Method> {
    if identifier in st.local && |st.local[identifier]| > 0 then st.local[identifier]
    else if identifier in st.remote then st.remote[identifier]
    else []
  }

  /** What Invoke does to the pending calls, and what it sends. */
  lemma InvokeEffect(st: State, req: Message, pick: nat, now: int)
    ensures var (st', out) := Invoke(st, req, pick, now);
            && st'.guid == st.guid && st'.invokeCalls == st.invokeCalls + 1
            && if Known(st, req.identifier) then
                 && st'.responses == Insert(st.responses, req.guidFrom, req.source)
                 && st'.callTime == Insert(st.callTime, req.guidFrom, now)
                 && st'.invokeErrors == st.invokeErrors
                 && out.msg.kind == INVOKE && out.msg.guidFrom == req.guidFrom && out.msg.source == st.guid
                 && out.msg.payload == req.payload
                 && (exists e :: e in Candidates(st, req.identifier)
                       && out.topic == e.owner && out.msg.guidTo == e.methodGuid && out.msg.identifier == e.identifier)
               else
                 && st'.responses == st.responses && st'.callTime == st.callTime
                 && st'.invokeErrors == st.invokeErrors + 1
                 && out.msg.kind == ERROR && out.topic == req.source && out.msg.guidTo == req.guidFrom
  {
    var list := Candidates(st, req.identifier);
    if Known(st, req.identifier) {
      assert list[pick % |list|] in list;
    }
  }

  /** What InvokeResponse does to the pending calls, and what it sends. */
  lemma ResponseEffect(st: State, req: Message, from: Guid)
    ensures var (st', out) := InvokeResponse(st, req, from);
            && st' == st.(responses := st'.responses, callTime := st'.callTime)
            && (forall g :: g in st'.responses <==> g in st.responses && g != req.guidTo)
            && out.msg.guidTo == (if req.guidTo in st.responses then req.guidTo else req.guidFrom)
            && out.msg.kind == if req.guidTo in st.responses then req.kind else ERROR
  {
  }
}
