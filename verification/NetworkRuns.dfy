/** What holds in every run of the network. */
module NetworkRuns {
  import opened ProxyCore
  import opened Network
  import opened NetworkProofs

  /** Every step of the run is possible when its turn comes. */
  predicate Possible(s: Net, steps: seq<Step>)
    decreases |steps|
  {
    steps == [] || (Enabled(s, steps[0]) && Possible(Do(s, steps[0]), steps[1..]))
  }

  function After(s: Net, steps: seq<Step>): Net
    requires Possible(s, steps)
    decreases |steps|
  {
    if steps == [] then s else After(Do(s, steps[0]), steps[1..])
  }

  lemma {:induction false} RunKeeps(s: Net, steps: seq<Step>)
    requires Inv(s) && Possible(s, steps)
    ensures Inv(After(s, steps))
    decreases |steps|
  {
    if steps != [] {
      DoKeeps(s, steps[0]);
      RunKeeps(Do(s, steps[0]), steps[1..]);
    }
  }

  /**
   In every reachable state each call has been delivered at most once; and a call of which no record expired was
   delivered only to the node that issued it, with the kind and payload its callee answered.
   */
  lemma DeliveredRight(s: Net, steps: seq<Step>)
    requires Init(s) && Possible(s, steps)
    ensures var t := After(s, steps);
            && (forall j, k :: 0 <= j < k < |t.delivered| ==> t.delivered[j].call != t.delivered[k].call)
            && (forall k :: 0 <= k < |t.delivered| && t.delivered[k].call !in t.expired ==>
                  var g := t.delivered[k].call;
                  && g in t.calls && t.delivered[k].node == t.calls[g]
                  && g in t.answers && t.delivered[k].answer == t.answers[g])
  {
    InitInv(s);
    RunKeeps(s, steps);
    var t := After(s, steps);
    forall k | 0 <= k < |t.delivered| && t.delivered[k].call !in t.expired
      ensures var g := t.delivered[k].call;
              && g in t.calls && t.delivered[k].node == t.calls[g]
              && g in t.answers && t.delivered[k].answer == t.answers[g]
    {
      assert Routed(t, t.delivered[k].call);
    }
  }

  /**
   While a call is on its way out, the back-pointers recorded for it form no cycle: each recorded proxy points at
   the origin or at a proxy that recorded the call before it, however often the call has revisited a proxy. It still
   carries the payload it was issued with.
   */
  lemma NoCycle(s: Net, steps: seq<Step>, id: nat)
    requires Init(s) && Possible(s, steps)
    requires var t := After(s, steps);
             id in t.wire && t.wire[id].msg.kind == INVOKE && t.wire[id].msg.guidFrom !in t.expired
    ensures var t := After(s, steps);
            var g := t.wire[id].msg.guidFrom;
            && g in t.path && g in t.calls && g in t.asked && t.wire[id].msg.payload == t.asked[g]
            && (forall p :: p in t.proxies && g in t.proxies[p].responses ==> p in t.path[g])
            && (forall i :: 0 <= i < |t.path[g]| ==> Backward(t, g, i))
  {
    InitInv(s);
    RunKeeps(s, steps);
    var t := After(s, steps);
    var g := t.wire[id].msg.guidFrom;
    assert Carries(t.wire[id], g);
    assert Routed(t, g);
    assert OnTrail(t, g, t.wire[id]);
  }

  /** A response in flight for a call none of whose records expired. */
  ghost predicate Returning(s: Net, id: nat) {
    && Inv(s) && id in s.wire && IsResponse(s.wire[id].msg.kind)
    && s.wire[id].msg.guidTo !in s.expired
  }

  /** One hop of the way back: still the same answer, and strictly nearer to the origin. */
  lemma Hop(s: Net, id: nat, from: Guid)
    requires Returning(s, id) && s.wire[id].topic in s.proxies
    ensures var t := ResponseAt(s, id, from);
            var g := s.wire[id].msg.guidTo;
            && g in s.alive && g in t.alive && g in s.calls && g in t.calls && g in s.answers && g in t.answers
            && Returning(t, s.nextId) && t.wire[s.nextId].msg.guidTo == g
            && t.alive[g] < s.alive[g] && t.delivered == s.delivered
            && t.calls[g] == s.calls[g] && t.answers[g] == s.answers[g]
  {
    var g := s.wire[id].msg.guidTo;
    assert Carries(s.wire[id], g);
    assert Routed(s, g);
    assert OnTrail(s, g, s.wire[id]);
    ResponseTrail(s, id, from);
    ResponseKeeps(s, id, from);
    var k := IndexOf(s.path[g], s.wire[id].topic);
    assert Backward(s, g, k);
  }

  /** The deliveries that bring a response home. */
  ghost function WayBack(s: Net, id: nat): seq<Step>
    requires Returning(s, id)
    decreases if s.wire[id].msg.guidTo in s.alive then s.alive[s.wire[id].msg.guidTo] else 0
  {
    if s.wire[id].topic in s.proxies then
      Hop(s, id, UNSET);
      [ToProxy(id, UNSET, 0, 0)] + WayBack(ResponseAt(s, id, UNSET), s.nextId)
    else [ToNode(id, Answer(ERROR, []), UNSET)]
  }

  /**
   Reverse-route delivery. From every state in which a response is in flight for a call none of whose records
   expired, handing on that one packet, at most once per recorded proxy, delivers it to the node that issued the
   call, with the callee's answer, exactly once.
   */
  lemma {:induction false} Delivers(s: Net, id: nat)
    requires Returning(s, id)
    ensures var g := s.wire[id].msg.guidTo;
            var steps := WayBack(s, id);
            && g in s.calls && g in s.answers && g in s.alive
            && |steps| <= s.alive[g] + 1
            && Possible(s, steps)
            && After(s, steps).delivered == s.delivered + [Delivery(s.calls[g], g, s.answers[g])]
    decreases if s.wire[id].msg.guidTo in s.alive then s.alive[s.wire[id].msg.guidTo] else 0
  {
    var g := s.wire[id].msg.guidTo;
    var steps := WayBack(s, id);
    if s.wire[id].topic in s.proxies {
      Hop(s, id, UNSET);
      var t := ResponseAt(s, id, UNSET);
      Delivers(t, s.nextId);
      Onward(s, id, steps, WayBack(t, s.nextId));
    } else {
      Arrives(s, id, Answer(ERROR, []), UNSET);
      assert steps[1..] == [];
    }
  }

  /** A run that begins with a hop. */
  lemma Onward(s: Net, id: nat, steps: seq<Step>, rest: seq<Step>)
    requires id in s.wire && s.wire[id].topic in s.proxies && IsResponse(s.wire[id].msg.kind)
    requires steps == [ToProxy(id, UNSET, 0, 0)] + rest && Possible(ResponseAt(s, id, UNSET), rest)
    ensures Possible(s, steps) && After(s, steps) == After(ResponseAt(s, id, UNSET), rest)
  {
    assert steps[1..] == rest;
    assert Do(s, steps[0]) == ResponseAt(s, id, UNSET);
  }

  /** The last hop. */
  lemma Arrives(s: Net, id: nat, answer: Answer, guidFrom: Guid)
    requires Returning(s, id) && s.wire[id].topic !in s.proxies
    ensures var g := s.wire[id].msg.guidTo;
            var last := ToNode(id, answer, guidFrom);
            && g in s.calls && g in s.answers && g in s.alive && Enabled(s, last)
            && Do(s, last).delivered == s.delivered + [Delivery(s.calls[g], g, s.answers[g])]
  {
    var g := s.wire[id].msg.guidTo;
    assert Carries(s.wire[id], g);
    assert Routed(s, g);
    assert OnTrail(s, g, s.wire[id]);
  }
}
