/**
 A network of proxies and nodes exchanging calls and responses. Nodes issue calls under fresh guids and answer
 each call they receive at most once; packets may be delayed without bound, reordered or lost, but not
 duplicated; registry tables may change in any way at any time; pending calls may expire.
 */
module Network {
  import opened Bytes
  import opened ProxyCore

  datatype Answer = Answer(kind: Kind, payload: bytes)

  /** A response that reached a node. */
  datatype Delivery = Delivery(node: Guid, call: Guid, answer: Answer)

  /**
   `wire` holds the packets in flight under unique ids. The rest is history: who issued each call and with what payload, the proxies
   that recorded it in order, how many of those are sure to still hold it, the answer its callee gave, the calls
   of which some record expired or a packet was lost, and the deliveries so far.
   */
  datatype Net = Net(
    proxies: map<Guid, State>,
    nodes: set<Guid>,
    wire: map<nat, Packet>,
    nextId: nat,
    calls: map<Guid, Guid>,
    asked: map<Guid, bytes>,
    path: map<Guid, seq<Guid>>,
    alive: map<Guid, nat>,
    answers: map<Guid, Answer>,
    expired: set<Guid>,
    lost: set<Guid>,
    delivered: seq<Delivery>)

  datatype Step =
    | Issue(node: Guid, proxy: Guid, call: Guid, identifier: Name, payload: bytes)
    | ToProxy(id: nat, from: Guid, pick: nat, now: int)
    | ToNode(id: nat, answer: Answer, guidFrom: Guid)
    | Lose(lost: nat)
    | Tables(owner: Guid, local: Table, remote: Table)
    | Expire(keeper: Guid, stale: Guid)

  /** Packets that carry a call on its way out or back. */
  predicate Carries(p: Packet, call: Guid) {
    if p.msg.kind == INVOKE then p.msg.guidFrom == call
    else IsResponse(p.msg.kind) && p.msg.guidTo == call
  }

  function Send(s: Net, p: Packet): Net {
    s.(wire := s.wire[s.nextId := p], nextId := s.nextId + 1)
  }

  function Drop(s: Net, id: nat): Net {
    s.(wire := s.wire - {id})
  }

  /** A packet is lost, and with it the call it carries. */
  function LosePacket(s: Net, id: nat): Net
    requires id in s.wire
  {
    var msg := s.wire[id].msg;
    Drop(s, id).(lost := s.lost + if msg.kind == INVOKE then {msg.guidFrom} else if IsResponse(msg.kind) then {msg.guidTo} else {})
  }

  function IndexOf(path: seq<Guid>, p: Guid): (k: nat)
    requires p in path
    ensures k < |path| && path[k] == p && forall j :: 0 <= j < k ==> path[j] != p
  {
    if path[0] == p then 0 else 1 + IndexOf(path[1..], p)
  }

  predicate Enabled(s: Net, step: Step) {
    match step
    case Issue(node, proxy, call, _, _) => node in s.nodes && proxy in s.proxies && call !in s.calls
    case ToProxy(id, _, _, _) => id in s.wire && s.wire[id].topic in s.proxies
    case ToNode(id, answer, _) =>
      id in s.wire && s.wire[id].topic in s.nodes && (s.wire[id].msg.kind == INVOKE ==> IsResponse(answer.kind))
    case Lose(id) => id in s.wire
    case Tables(owner, _, _) => owner in s.proxies
    case Expire(keeper, stale) => keeper in s.proxies && stale in s.proxies[keeper].responses
  }

  /** How many recorded hops are sure to hold the call once it heads for this guid. */
  function AliveBelow(path: seq<Guid>, topic: Guid): nat {
    if topic in path then IndexOf(path, topic) + 1 else 0
  }

  /** An INVOKE reaches a proxy. */
  function InvokeAt(s: Net, id: nat, pick: nat, now: int): Net
    requires id in s.wire && s.wire[id].topic in s.proxies
  {
    var here, msg := s.wire[id].topic, s.wire[id].msg;
    var call := msg.guidFrom;
    var (st, out) := Invoke(s.proxies[here], msg, pick, now);
    var past := if call in s.path then s.path[call] else [];
    var path := if Known(s.proxies[here], msg.identifier) && here !in past then past + [here] else past;
    Send(Drop(s, id).(proxies := s.proxies[here := st], path := s.path[call := path], alive := s.alive[call := |path|]), out)
  }

  /** A response reaches a proxy. */
  function ResponseAt(s: Net, id: nat, from: Guid): Net
    requires id in s.wire && s.wire[id].topic in s.proxies
  {
    var here, msg := s.wire[id].topic, s.wire[id].msg;
    var call := msg.guidTo;
    var (st, out) := InvokeResponse(s.proxies[here], msg, from);
    var past := if call in s.path then s.path[call] else [];
    Send(Drop(s, id).(proxies := s.proxies[here := st], alive := s.alive[call := AliveBelow(past, out.topic)]), out)
  }

  /** A call reaches a node, which answers to the proxy it came from. */
  function AnswerAt(s: Net, id: nat, answer: Answer, guidFrom: Guid): Net
    requires id in s.wire
  {
    var here, msg := s.wire[id].topic, s.wire[id].msg;
    var call := msg.guidFrom;
    var past := if call in s.path then s.path[call] else [];
    Send(Drop(s, id).(answers := s.answers[call := answer], alive := s.alive[call := AliveBelow(past, msg.source)]),
         Packet(msg.source, Message(answer.kind, here, guidFrom, call, UNSET, answer.payload, [])))
  }

  /** A response reaches a node. */
  function DeliverAt(s: Net, id: nat): Net
    requires id in s.wire
  {
    var msg := s.wire[id].msg;
    Drop(s, id).(delivered := s.delivered + [Delivery(s.wire[id].topic, msg.guidTo, Answer(msg.kind, msg.payload))])
  }

  function NodeReceives(s: Net, id: nat, answer: Answer, guidFrom: Guid): Net
    requires id in s.wire
  {
    var kind := s.wire[id].msg.kind;
    if kind == INVOKE then AnswerAt(s, id, answer, guidFrom)
    else if IsResponse(kind) then DeliverAt(s, id)
    else Drop(s, id)
  }

  function Do(s: Net, step: Step): Net
    requires Enabled(s, step)
  {
    match step
    case Issue(node, proxy, call, identifier, payload) =>
      Send(s.(calls := s.calls[call := node], asked := s.asked[call := payload], path := s.path[call := []], alive := s.alive[call := 0]),
           Packet(proxy, Message(INVOKE, node, call, UNSET, identifier, payload, [])))
    case ToProxy(id, from, pick, now) =>
      var msg := s.wire[id].msg;
      if msg.kind == INVOKE then InvokeAt(s, id, pick, now)
      else if IsResponse(msg.kind) then ResponseAt(s, id, from)
      else Drop(s, id)
    case ToNode(id, answer, guidFrom) => NodeReceives(s, id, answer, guidFrom)
    case Lose(id) => LosePacket(s, id)
    case Tables(owner, local, remote) =>
      s.(proxies := s.proxies[owner := s.proxies[owner].(local := local, remote := remote)])
    case Expire(keeper, stale) =>
      var st := s.proxies[keeper];
      s.(proxies := s.proxies[keeper := st.(responses := st.responses - {stale}, callTime := st.callTime - {stale})],
         expired := s.expired + {stale})
  }

  /** Proxies that know their own guid, no traffic yet, and no guid that names both a proxy and a node. */
  predicate Init(s: Net) {
    && s.proxies.Keys !! s.nodes
    && (forall p :: p in s.proxies ==> s.proxies[p].guid == p && s.proxies[p].responses == map[])
    && s.wire == map[] && s.calls == map[] && s.asked == map[] && s.path == map[] && s.alive == map[] && s.answers == map[]
    && s.expired == {} && s.lost == {} && s.delivered == []
  }

  // ------------------------------------------------------------ invariants

  /** Every proxy acts under its own guid and has recorded issued calls only. */
  ghost predicate Roster(s: Net) {
    && s.proxies.Keys !! s.nodes
    && (forall p :: p in s.proxies ==> s.proxies[p].guid == p)
    && (forall p :: p in s.proxies ==> s.proxies[p].responses.Keys <= s.calls.Keys)
  }

  /** Ids are fresh, and every packet of a call belongs to an issued call. */
  ghost predicate Traffic(s: Net) {
    && (forall id :: id in s.wire ==> id < s.nextId)
    && (forall id, g :: id in s.wire && Carries(s.wire[id], g) ==> g in s.calls)
  }

  /** Histories are of issued calls. */
  ghost predicate Records(s: Net) {
    && s.path.Keys == s.calls.Keys && s.alive.Keys == s.calls.Keys && s.asked.Keys == s.calls.Keys
    && (forall g :: g in s.calls ==> s.calls[g] in s.nodes)
    && (forall g :: g in s.answers ==> g in s.calls)
    && (forall i :: 0 <= i < |s.delivered| ==> s.delivered[i].call in s.calls)
  }

  ghost predicate Sane(s: Net) {
    Roster(s) && Traffic(s) && Records(s)
  }

  /** A call is in at most one place: in one packet, or delivered once, and then nowhere else. */
  ghost predicate Single(s: Net) {
    && (forall i, j, g :: i in s.wire && j in s.wire && Carries(s.wire[i], g) && Carries(s.wire[j], g) ==> i == j)
    && (forall i, k :: i in s.wire && 0 <= k < |s.delivered| ==> !Carries(s.wire[i], s.delivered[k].call))
    && (forall j, k :: 0 <= j < k < |s.delivered| ==> s.delivered[j].call != s.delivered[k].call)
  }

  /** Back-pointers lead strictly towards the origin: hop i points at the origin or at an earlier hop. */
  ghost predicate Backward(s: Net, g: Guid, i: nat)
    requires g in s.calls && g in s.path && i < |s.path[g]|
  {
    var p := s.path[g][i];
    && p in s.proxies && g in s.proxies[p].responses
    && var back := s.proxies[p].responses[g];
       if i == 0 then back == s.calls[g] else back in s.path[g][..i]
  }

  ghost predicate Trail(s: Net, g: Guid)
    requires g in s.calls && g in s.path && g in s.alive
  {
    var path := s.path[g];
    && s.alive[g] <= |path|
    && (forall i, j :: 0 <= i < j < |path| ==> path[i] != path[j])
    && (forall p :: p in path ==> p in s.proxies)
    && (forall i {:trigger Backward(s, g, i)} :: 0 <= i < s.alive[g] ==> Backward(s, g, i))
    && (forall p :: p in s.proxies && p !in path ==> g !in s.proxies[p].responses)
  }

  /** Where a packet of a call stands in relation to the trail. */
  ghost predicate OnTrail(s: Net, g: Guid, p: Packet)
    requires g in s.calls && g in s.path && g in s.alive && g in s.asked
  {
    if p.msg.kind == INVOKE then
      && p.msg.payload == s.asked[g]
      && s.alive[g] == |s.path[g]|
      && (if s.path[g] == [] then p.msg.source == s.calls[g] && p.topic in s.proxies else p.msg.source in s.path[g])
    else
      && g in s.answers && s.answers[g] == Answer(p.msg.kind, p.msg.payload)
      && (p.topic == s.calls[g] || (p.topic in s.path[g] && s.alive[g] == IndexOf(s.path[g], p.topic) + 1))
  }

  ghost predicate Routed(s: Net, g: Guid)
    requires g in s.calls && g in s.path && g in s.alive && g in s.asked
  {
    g !in s.expired ==>
      && Trail(s, g)
      && (forall id {:trigger OnTrail(s, g, s.wire[id])} :: id in s.wire && Carries(s.wire[id], g) ==> OnTrail(s, g, s.wire[id]))
      && (forall k :: 0 <= k < |s.delivered| && s.delivered[k].call == g ==>
            && s.delivered[k].node == s.calls[g]
            && g in s.answers && s.delivered[k].answer == s.answers[g])
  }

  ghost predicate Inv(s: Net) {
    Sane(s) && Single(s) && forall g {:trigger Routed(s, g)} :: g in s.calls ==> Routed(s, g)
  }

  lemma InitInv(s: Net)
    requires Init(s)
    ensures Inv(s)
  {
  }
}
