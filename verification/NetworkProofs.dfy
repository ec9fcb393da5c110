/** Every step of the network keeps its invariant. */
module NetworkProofs {
  import opened ProxyCore
  import opened Network

  /** Nothing that concerns call g differs between two networks, except that packets may be gone. */
  ghost predicate SameFor(s: Net, t: Net, g: Guid) {
    && g in s.calls && g in t.calls && g in s.path && g in t.path && g in s.alive && g in t.alive
    && g in s.asked && g in t.asked && s.asked[g] == t.asked[g]
    && s.calls[g] == t.calls[g] && s.path[g] == t.path[g] && s.alive[g] == t.alive[g]
    && (g in s.answers ==> g in t.answers && s.answers[g] == t.answers[g])
    && (g in s.expired ==> g in t.expired)
    && s.proxies.Keys == t.proxies.Keys
    && (forall p :: p in s.proxies ==> SamePointer(s.proxies[p], t.proxies[p], g))
    && (forall id :: id in t.wire && Carries(t.wire[id], g) ==> id in s.wire && s.wire[id] == t.wire[id])
    && (forall k :: 0 <= k < |t.delivered| && t.delivered[k].call == g ==> t.delivered[k] in s.delivered)
  }

  ghost predicate SamePointer(a: State, b: State, g: Guid) {
    (g in a.responses <==> g in b.responses) && (g in a.responses ==> a.responses[g] == b.responses[g])
  }

  ghost predicate Tracked(s: Net, g: Guid) {
    g in s.calls && g in s.path && g in s.alive && g in s.asked
  }

  lemma SameRouted(s: Net, t: Net, g: Guid)
    requires SameFor(s, t, g) && Routed(s, g)
    ensures Routed(t, g)
  {
    if g !in t.expired {
      assert Trail(t, g) by {
        forall i | 0 <= i < t.alive[g] ensures Backward(t, g, i) {
          assert Backward(s, g, i);
        }
      }
      forall id | id in t.wire && Carries(t.wire[id], g) ensures OnTrail(t, g, t.wire[id]) {
        assert OnTrail(s, g, s.wire[id]);
      }
    }
  }

  // ------------------------------------------------------------ packets

  /** With no new packet and no new delivery a call is still in at most one place. */
  lemma SingleShrinks(s: Net, t: Net)
    requires Single(s) && t.delivered == s.delivered && forall i :: i in t.wire ==> i in s.wire && t.wire[i] == s.wire[i]
    ensures Single(t)
  {
  }

  /** Losing a packet, or a packet that carries no call being consumed, harms nobody. */
  lemma DropKeeps(s: Net, id: nat)
    requires Inv(s) && id in s.wire
    ensures Inv(Drop(s, id))
  {
    var t := Drop(s, id);
    SingleShrinks(s, t);
    forall g | g in t.calls ensures Routed(t, g) {
      assert Routed(s, g);
      DropRouted(s, id, g);
    }
  }

  lemma DropRouted(s: Net, id: nat, g: Guid)
    requires Tracked(s, g) && Routed(s, g)
    ensures Routed(Drop(s, id), g)
  {
    SameRouted(s, Drop(s, id), g);
  }

  lemma LoseKeeps(s: Net, id: nat)
    requires Inv(s) && id in s.wire
    ensures Inv(LosePacket(s, id))
  {
    DropKeeps(s, id);
    SameInv(Drop(s, id), LosePacket(s, id).lost);
  }

  /** The invariant does not depend on what is lost. */
  lemma SameInv(s: Net, lost: set<Guid>)
    requires Inv(s)
    ensures Inv(s.(lost := lost))
  {
    var t := s.(lost := lost);
    forall g | g in t.calls ensures Routed(t, g) {
      assert Routed(s, g);
      SameRouted(s, t, g);
    }
  }

  /** A packet that takes the place of another, on behalf of the same call or of none. */
  ghost predicate Moves(s: Net, t: Net, id: nat, out: Packet, call: Guid) {
    && id in s.wire && Carries(s.wire[id], call)
    && t.wire == (s.wire - {id})[s.nextId := out] && t.nextId == s.nextId + 1
    && (forall g :: Carries(out, g) ==> g == call)
    && t.delivered == s.delivered && t.nodes == s.nodes && t.calls == s.calls && t.asked == s.asked && t.expired == s.expired
    && t.proxies.Keys == s.proxies.Keys
  }

  /** The proxies are still themselves and no new call is on record. */
  ghost predicate SameCalls(s: Net, t: Net) {
    && t.proxies.Keys == s.proxies.Keys && (forall p :: p in t.proxies ==> t.proxies[p].guid == s.proxies[p].guid)
    && (forall p :: p in t.proxies ==> t.proxies[p].responses.Keys <= s.calls.Keys)
    && t.path.Keys == s.calls.Keys && t.alive.Keys == s.calls.Keys && t.answers.Keys <= s.calls.Keys
  }

  ghost predicate Replaces(s: Net, t: Net, id: nat, out: Packet, call: Guid) {
    Moves(s, t, id, out, call) && SameCalls(s, t)
  }

  lemma ReplaceSane(s: Net, t: Net, id: nat, out: Packet, call: Guid)
    requires Sane(s) && Replaces(s, t, id, out, call)
    ensures Sane(t)
  {
  }

  lemma ReplaceSingle(s: Net, t: Net, id: nat, out: Packet, call: Guid)
    requires Sane(s) && Single(s) && Moves(s, t, id, out, call)
    ensures Single(t)
  {
    forall i | i in t.wire && i != s.nextId ensures i in s.wire && !Carries(t.wire[i], call) {
      assert i != id;
    }
    forall i, k | i in t.wire && 0 <= k < |t.delivered| ensures !Carries(t.wire[i], t.delivered[k].call) {
      assert !Carries(s.wire[id], s.delivered[k].call);
    }
  }

  /** Calls other than the one being moved are not affected. */
  lemma ReplaceOthers(s: Net, t: Net, id: nat, out: Packet, call: Guid, g: Guid)
    requires Moves(s, t, id, out, call) && Tracked(s, g) && g != call && Routed(s, g)
    requires Tracked(t, g) && s.path[g] == t.path[g] && s.alive[g] == t.alive[g]
    requires g in s.answers ==> g in t.answers && s.answers[g] == t.answers[g]
    requires forall p :: p in s.proxies ==> SamePointer(s.proxies[p], t.proxies[p], g)
    ensures Routed(t, g)
  {
    forall i | i in t.wire && Carries(t.wire[i], g) ensures i in s.wire && s.wire[i] == t.wire[i] {
      assert i != s.nextId;
    }
    SameRouted(s, t, g);
  }

  // ------------------------------------------------------------ steps

  lemma IssueKeeps(s: Net, step: Step)
    requires Inv(s) && step.Issue? && Enabled(s, step)
    ensures Inv(Do(s, step))
  {
    var t := Do(s, step);
    var call := step.call;
    forall i | i in s.wire ensures !Carries(s.wire[i], call) { }
    IssueSane(s, step);
    IssueSingle(s, step);
    forall g | g in t.calls ensures Routed(t, g) {
      if g != call {
        assert Routed(s, g);
        IssueOthers(s, step, g);
      } else {
        IssueRouted(s, step);
      }
    }
  }

  lemma IssueOthers(s: Net, step: Step, g: Guid)
    requires step.Issue? && Enabled(s, step) && Tracked(s, g) && Routed(s, g)
    ensures Tracked(Do(s, step), g) && Routed(Do(s, step), g)
  {
    SameRouted(s, Do(s, step), g);
  }

  /** A fresh call has an empty trail: no proxy can have recorded it. */
  lemma IssueRouted(s: Net, step: Step)
    requires Sane(s) && step.Issue? && Enabled(s, step)
    requires forall i :: i in s.wire ==> !Carries(s.wire[i], step.call)
    ensures Routed(Do(s, step), step.call)
  {
    var t := Do(s, step);
    assert forall k :: 0 <= k < |t.delivered| ==> t.delivered[k].call in s.calls;
    assert Trail(t, step.call);
  }

  lemma IssueSane(s: Net, step: Step)
    requires Sane(s) && step.Issue? && Enabled(s, step)
    ensures Sane(Do(s, step))
  {
    IssueRoster(s, step);
    IssueTraffic(s, step);
    IssueRecords(s, step);
  }

  lemma IssueRoster(s: Net, step: Step)
    requires Roster(s) && step.Issue? && Enabled(s, step)
    ensures Roster(Do(s, step))
  {
  }

  lemma IssueTraffic(s: Net, step: Step)
    requires Traffic(s) && step.Issue? && Enabled(s, step)
    ensures Traffic(Do(s, step))
  {
  }

  lemma IssueRecords(s: Net, step: Step)
    requires Records(s) && step.Issue? && Enabled(s, step)
    ensures Records(Do(s, step))
  {
  }

  lemma IssueSingle(s: Net, step: Step)
    requires Sane(s) && Single(s) && step.Issue? && Enabled(s, step)
    requires forall i :: i in s.wire ==> !Carries(s.wire[i], step.call)
    ensures Single(Do(s, step))
  {
  }

  // A call on its way out

  /** The state before and after an INVOKE is handled by a proxy. */
  lemma InvokeReplaces(s: Net, id: nat, pick: nat, now: int)
    requires Sane(s) && id in s.wire && s.wire[id].topic in s.proxies && s.wire[id].msg.kind == INVOKE
    ensures var out := Invoke(s.proxies[s.wire[id].topic], s.wire[id].msg, pick, now).1;
            Replaces(s, InvokeAt(s, id, pick, now), id, out, s.wire[id].msg.guidFrom)
  {
    assert Carries(s.wire[id], s.wire[id].msg.guidFrom);
    InvokeMoves(s, id, pick, now);
    InvokeSameCalls(s, id, pick, now);
  }

  lemma InvokeMoves(s: Net, id: nat, pick: nat, now: int)
    requires id in s.wire && s.wire[id].topic in s.proxies && s.wire[id].msg.kind == INVOKE
    ensures var out := Invoke(s.proxies[s.wire[id].topic], s.wire[id].msg, pick, now).1;
            Moves(s, InvokeAt(s, id, pick, now), id, out, s.wire[id].msg.guidFrom)
  {
    InvokeEffect(s.proxies[s.wire[id].topic], s.wire[id].msg, pick, now);
  }

  lemma InvokeSameCalls(s: Net, id: nat, pick: nat, now: int)
    requires id in s.wire && s.wire[id].topic in s.proxies && s.wire[id].msg.guidFrom in s.calls && SameCalls(s, s)
    ensures SameCalls(s, InvokeAt(s, id, pick, now))
  {
    InvokeEffect(s.proxies[s.wire[id].topic], s.wire[id].msg, pick, now);
  }

  /** A proxy on the trail keeps its first back-pointer; a new one joins the trail behind the sender. */
  lemma InvokeTrail(s: Net, id: nat, pick: nat, now: int)
    requires id in s.wire && s.wire[id].topic in s.proxies && s.wire[id].msg.kind == INVOKE
    requires Tracked(s, s.wire[id].msg.guidFrom) && Trail(s, s.wire[id].msg.guidFrom)
    requires OnTrail(s, s.wire[id].msg.guidFrom, s.wire[id])
    ensures var t, g := InvokeAt(s, id, pick, now), s.wire[id].msg.guidFrom;
            g in t.path && g in t.alive && Trail(t, g)
  {
    var here, msg := s.wire[id].topic, s.wire[id].msg;
    InvokeEffect(s.proxies[here], msg, pick, now);
    TrailGrows(s, InvokeAt(s, id, pick, now), msg.guidFrom, here, Known(s.proxies[here], msg.identifier), msg.source);
  }

  /** What recording a call at a proxy does to its trail. */
  lemma TrailGrows(s: Net, t: Net, g: Guid, here: Guid, known: bool, source: Guid)
    requires Tracked(s, g) && Tracked(t, g) && Trail(s, g) && s.alive[g] == |s.path[g]| && here in s.proxies
    requires if s.path[g] == [] then source == s.calls[g] else source in s.path[g]
    requires t.path[g] == (if known && here !in s.path[g] then s.path[g] + [here] else s.path[g])
    requires t.alive[g] == |t.path[g]| && t.calls[g] == s.calls[g] && t.proxies.Keys == s.proxies.Keys
    requires forall p :: p in s.proxies && p != here ==> t.proxies[p] == s.proxies[p]
    requires t.proxies[here].responses ==
               if known then Insert(s.proxies[here].responses, g, source) else s.proxies[here].responses
    ensures Trail(t, g)
  {
    forall i | 0 <= i < t.alive[g] ensures Backward(t, g, i) {
      if i < |s.path[g]| {
        assert Backward(s, g, i);
        assert t.path[g][..i] == s.path[g][..i];
      } else {
        assert here !in s.path[g] && t.path[g][..i] == s.path[g];
      }
    }
  }

  lemma InvokeKeeps(s: Net, id: nat, pick: nat, now: int)
    requires Inv(s) && id in s.wire && s.wire[id].topic in s.proxies && s.wire[id].msg.kind == INVOKE
    ensures Inv(InvokeAt(s, id, pick, now))
  {
    var here, msg := s.wire[id].topic, s.wire[id].msg;
    var call := msg.guidFrom;
    var t := InvokeAt(s, id, pick, now);
    var out := Invoke(s.proxies[here], msg, pick, now).1;
    InvokeEffect(s.proxies[here], msg, pick, now);
    InvokeReplaces(s, id, pick, now);
    ReplaceSane(s, t, id, out, call);
    ReplaceSingle(s, t, id, out, call);
    forall g | g in t.calls ensures Routed(t, g) {
      assert Routed(s, g);
      if g != call {
        InvokeOthers(s, id, pick, now, out, g);
      } else {
        InvokeRouted(s, id, pick, now, out);
      }
    }
  }

  lemma InvokeOthers(s: Net, id: nat, pick: nat, now: int, out: Packet, g: Guid)
    requires id in s.wire && s.wire[id].topic in s.proxies && s.wire[id].msg.kind == INVOKE
    requires Moves(s, InvokeAt(s, id, pick, now), id, out, s.wire[id].msg.guidFrom)
    requires Tracked(s, g) && Routed(s, g) && g != s.wire[id].msg.guidFrom
    ensures var t := InvokeAt(s, id, pick, now); Tracked(t, g) && Routed(t, g)
  {
    var here, msg := s.wire[id].topic, s.wire[id].msg;
    InvokePointers(s.proxies[here], msg, pick, now, g);
    ReplaceOthers(s, InvokeAt(s, id, pick, now), id, out, msg.guidFrom, g);
  }

  lemma InvokePointers(st: State, msg: Message, pick: nat, now: int, g: Guid)
    requires g != msg.guidFrom
    ensures SamePointer(st, Invoke(st, msg, pick, now).0, g)
  {
    InvokeEffect(st, msg, pick, now);
  }

  lemma InvokeRouted(s: Net, id: nat, pick: nat, now: int, out: Packet)
    requires Single(s) && id in s.wire && s.wire[id].topic in s.proxies && s.wire[id].msg.kind == INVOKE
    requires out == Invoke(s.proxies[s.wire[id].topic], s.wire[id].msg, pick, now).1
    requires s.proxies[s.wire[id].topic].guid == s.wire[id].topic
    requires Moves(s, InvokeAt(s, id, pick, now), id, out, s.wire[id].msg.guidFrom)
    requires Tracked(s, s.wire[id].msg.guidFrom) && Routed(s, s.wire[id].msg.guidFrom)
    ensures var t, g := InvokeAt(s, id, pick, now), s.wire[id].msg.guidFrom;
            Tracked(t, g) && Routed(t, g)
  {
    var call := s.wire[id].msg.guidFrom;
    if call !in s.expired {
      assert OnTrail(s, call, s.wire[id]);
      InvokeTrail(s, id, pick, now);
      OnlyToken(s, InvokeAt(s, id, pick, now), id, out, call);
      InvokeOnTrail(s, id, pick, now, out);
    }
  }

  /** The call goes on with the payload it was issued with, from a proxy of its trail. */
  lemma InvokeOnTrail(s: Net, id: nat, pick: nat, now: int, out: Packet)
    requires id in s.wire && s.wire[id].topic in s.proxies && s.wire[id].msg.kind == INVOKE
    requires out == Invoke(s.proxies[s.wire[id].topic], s.wire[id].msg, pick, now).1
    requires s.proxies[s.wire[id].topic].guid == s.wire[id].topic
    requires Tracked(s, s.wire[id].msg.guidFrom) && OnTrail(s, s.wire[id].msg.guidFrom, s.wire[id])
    ensures var t, g := InvokeAt(s, id, pick, now), s.wire[id].msg.guidFrom;
            Tracked(t, g) && (Carries(out, g) ==> OnTrail(t, g, out))
  {
    InvokeEffect(s.proxies[s.wire[id].topic], s.wire[id].msg, pick, now);
  }

  /** After a replacement the new packet is the only one that can carry the call. */
  lemma OnlyToken(s: Net, t: Net, id: nat, out: Packet, call: Guid)
    requires Single(s) && Moves(s, t, id, out, call)
    ensures forall i :: i in t.wire && Carries(t.wire[i], call) ==> t.wire[i] == out
    ensures forall k :: 0 <= k < |t.delivered| ==> t.delivered[k].call != call
  {
    forall i | i in t.wire && i != s.nextId ensures !Carries(t.wire[i], call) {
      assert i in s.wire && i != id;
    }
    forall k | 0 <= k < |t.delivered| ensures t.delivered[k].call != call {
      assert !Carries(s.wire[id], s.delivered[k].call);
    }
  }

  // A call answered

  lemma AnswerReplaces(s: Net, id: nat, answer: Answer, guidFrom: Guid, out: Packet)
    requires Sane(s) && id in s.wire && s.wire[id].msg.kind == INVOKE && IsResponse(answer.kind)
    requires out == Packet(s.wire[id].msg.source,
                           Message(answer.kind, s.wire[id].topic, guidFrom, s.wire[id].msg.guidFrom, UNSET, answer.payload, []))
    ensures Replaces(s, NodeReceives(s, id, answer, guidFrom), id, out, s.wire[id].msg.guidFrom)
  {
    assert Carries(s.wire[id], s.wire[id].msg.guidFrom);
  }

  /** A trail of which fewer hops are alive, nothing else being different, is still a trail. */
  lemma TrailShortens(s: Net, t: Net, g: Guid)
    requires g in s.calls && g in s.path && g in s.alive && Trail(s, g)
    requires g in t.calls && g in t.path && g in t.alive
    requires t.proxies == s.proxies && t.calls[g] == s.calls[g] && t.path[g] == s.path[g] && t.alive[g] <= s.alive[g]
    ensures Trail(t, g)
  {
    forall i | 0 <= i < t.alive[g] ensures Backward(t, g, i) {
      assert Backward(s, g, i);
    }
  }

  /** The answer starts back from the hop that passed the call on, whose trail is whole. */
  lemma AnswerRouted(s: Net, id: nat, answer: Answer, guidFrom: Guid, out: Packet)
    requires Single(s) && id in s.wire && s.wire[id].msg.kind == INVOKE && IsResponse(answer.kind)
    requires Tracked(s, s.wire[id].msg.guidFrom) && Routed(s, s.wire[id].msg.guidFrom)
    requires Moves(s, NodeReceives(s, id, answer, guidFrom), id, out, s.wire[id].msg.guidFrom)
    requires out.topic == s.wire[id].msg.source && out.msg.kind == answer.kind && out.msg.payload == answer.payload
    ensures var t, g := NodeReceives(s, id, answer, guidFrom), s.wire[id].msg.guidFrom;
            Tracked(t, g) && Routed(t, g)
  {
    var g := s.wire[id].msg.guidFrom;
    var t := NodeReceives(s, id, answer, guidFrom);
    if g !in s.expired {
      OnlyToken(s, t, id, out, g);
      assert OnTrail(s, g, s.wire[id]);
      TrailShortens(s, t, g);
      assert OnTrail(t, g, out);
    }
  }

  lemma AnswerOthers(s: Net, id: nat, answer: Answer, guidFrom: Guid, out: Packet, g: Guid)
    requires id in s.wire && s.wire[id].msg.kind == INVOKE && Tracked(s, g) && Routed(s, g) && g != s.wire[id].msg.guidFrom
    requires Moves(s, NodeReceives(s, id, answer, guidFrom), id, out, s.wire[id].msg.guidFrom)
    ensures var t := NodeReceives(s, id, answer, guidFrom); Tracked(t, g) && Routed(t, g)
  {
    ReplaceOthers(s, NodeReceives(s, id, answer, guidFrom), id, out, s.wire[id].msg.guidFrom, g);
  }

  lemma AnswerKeeps(s: Net, id: nat, answer: Answer, guidFrom: Guid)
    requires Inv(s) && id in s.wire && s.wire[id].topic in s.nodes && s.wire[id].msg.kind == INVOKE && IsResponse(answer.kind)
    ensures Inv(NodeReceives(s, id, answer, guidFrom))
  {
    var here, msg := s.wire[id].topic, s.wire[id].msg;
    var call := msg.guidFrom;
    var t := NodeReceives(s, id, answer, guidFrom);
    var out := Packet(msg.source, Message(answer.kind, here, guidFrom, call, UNSET, answer.payload, []));
    AnswerReplaces(s, id, answer, guidFrom, out);
    ReplaceSane(s, t, id, out, call);
    ReplaceSingle(s, t, id, out, call);
    forall g | g in t.calls ensures Routed(t, g) {
      assert Routed(s, g);
      if g != call {
        AnswerOthers(s, id, answer, guidFrom, out, g);
      } else {
        AnswerRouted(s, id, answer, guidFrom, out);
      }
    }
  }

  // A response on its way back

  lemma ResponseReplaces(s: Net, id: nat, from: Guid)
    requires Sane(s) && id in s.wire && s.wire[id].topic in s.proxies && IsResponse(s.wire[id].msg.kind)
    ensures var out := InvokeResponse(s.proxies[s.wire[id].topic], s.wire[id].msg, from).1;
            Replaces(s, ResponseAt(s, id, from), id, out, s.wire[id].msg.guidTo)
  {
    assert Carries(s.wire[id], s.wire[id].msg.guidTo);
    ResponseMoves(s, id, from);
    ResponseSameCalls(s, id, from);
  }

  lemma ResponseMoves(s: Net, id: nat, from: Guid)
    requires id in s.wire && s.wire[id].topic in s.proxies && IsResponse(s.wire[id].msg.kind)
    ensures var out := InvokeResponse(s.proxies[s.wire[id].topic], s.wire[id].msg, from).1;
            Moves(s, ResponseAt(s, id, from), id, out, s.wire[id].msg.guidTo)
  {
  }

  lemma ResponseSameCalls(s: Net, id: nat, from: Guid)
    requires id in s.wire && s.wire[id].topic in s.proxies && s.wire[id].msg.guidTo in s.calls && SameCalls(s, s)
    ensures SameCalls(s, ResponseAt(s, id, from))
  {
  }

  /** The response moves to the origin or to an earlier hop, whose trail is still whole. */
  lemma ResponseTrail(s: Net, id: nat, from: Guid)
    requires Sane(s) && id in s.wire && s.wire[id].topic in s.proxies && IsResponse(s.wire[id].msg.kind)
    requires s.wire[id].msg.guidTo in s.calls && s.wire[id].msg.guidTo !in s.expired
    requires Routed(s, s.wire[id].msg.guidTo)
    ensures var t := ResponseAt(s, id, from);
            var g := s.wire[id].msg.guidTo;
            var out := InvokeResponse(s.proxies[s.wire[id].topic], s.wire[id].msg, from).1;
            g in t.path && g in t.alive && g in t.asked && Trail(t, g) && OnTrail(t, g, out) && IsResponse(out.msg.kind)
  {
    var here, msg := s.wire[id].topic, s.wire[id].msg;
    var g := msg.guidTo;
    var t := ResponseAt(s, id, from);
    var path := s.path[g];
    assert OnTrail(s, g, s.wire[id]);
    var k := IndexOf(path, here);
    assert Backward(s, g, k);
    var back := s.proxies[here].responses[g];
    assert back in path ==> IndexOf(path, back) < k;
    forall i | 0 <= i < t.alive[g] ensures Backward(t, g, i) {
      assert Backward(s, g, i);
      assert path[i] != path[k];
    }
  }

  lemma ResponseKeeps(s: Net, id: nat, from: Guid)
    requires Inv(s) && id in s.wire && s.wire[id].topic in s.proxies && IsResponse(s.wire[id].msg.kind)
    ensures Inv(ResponseAt(s, id, from))
  {
    var call := s.wire[id].msg.guidTo;
    var t := ResponseAt(s, id, from);
    var out := InvokeResponse(s.proxies[s.wire[id].topic], s.wire[id].msg, from).1;
    ResponseReplaces(s, id, from);
    ReplaceSane(s, t, id, out, call);
    ReplaceSingle(s, t, id, out, call);
    forall g | g in t.calls ensures Routed(t, g) {
      assert Routed(s, g);
      if g != call {
        ResponseOthers(s, id, from, out, g);
      } else {
        ResponseRouted(s, id, from, out);
      }
    }
  }

  lemma ResponseOthers(s: Net, id: nat, from: Guid, out: Packet, g: Guid)
    requires id in s.wire && s.wire[id].topic in s.proxies
    requires Moves(s, ResponseAt(s, id, from), id, out, s.wire[id].msg.guidTo)
    requires Tracked(s, g) && Routed(s, g) && g != s.wire[id].msg.guidTo
    ensures var t := ResponseAt(s, id, from); Tracked(t, g) && Routed(t, g)
  {
    ReplaceOthers(s, ResponseAt(s, id, from), id, out, s.wire[id].msg.guidTo, g);
  }

  lemma ResponseRouted(s: Net, id: nat, from: Guid, out: Packet)
    requires Sane(s) && Single(s) && id in s.wire && s.wire[id].topic in s.proxies && IsResponse(s.wire[id].msg.kind)
    requires out == InvokeResponse(s.proxies[s.wire[id].topic], s.wire[id].msg, from).1
    requires Moves(s, ResponseAt(s, id, from), id, out, s.wire[id].msg.guidTo)
    requires Tracked(s, s.wire[id].msg.guidTo) && Routed(s, s.wire[id].msg.guidTo)
    ensures var t, g := ResponseAt(s, id, from), s.wire[id].msg.guidTo; Tracked(t, g) && Routed(t, g)
  {
    var g := s.wire[id].msg.guidTo;
    if g !in s.expired {
      ResponseTrail(s, id, from);
      OnlyToken(s, ResponseAt(s, id, from), id, out, g);
    }
  }

  /** A response reaches a node: for a call none of whose records expired, that node is the one that issued it. */
  lemma DeliveryKeeps(s: Net, id: nat, answer: Answer, guidFrom: Guid)
    requires Inv(s) && id in s.wire && s.wire[id].topic in s.nodes && IsResponse(s.wire[id].msg.kind)
    ensures Inv(NodeReceives(s, id, answer, guidFrom))
  {
    var t := NodeReceives(s, id, answer, guidFrom);
    var call := s.wire[id].msg.guidTo;
    assert Carries(s.wire[id], call);
    DeliverySane(s, id, answer, guidFrom);
    DeliverySingle(s, id, answer, guidFrom);
    forall g | g in t.calls ensures Routed(t, g) {
      assert Routed(s, g);
      if g != call {
        DeliveryOthers(s, id, answer, guidFrom, g);
      } else if g !in s.expired {
        DeliveryRouted(s, id, answer, guidFrom);
      }
    }
  }

  lemma DeliveryOthers(s: Net, id: nat, answer: Answer, guidFrom: Guid, g: Guid)
    requires id in s.wire && IsResponse(s.wire[id].msg.kind) && Tracked(s, g) && Routed(s, g) && g != s.wire[id].msg.guidTo
    ensures var t := NodeReceives(s, id, answer, guidFrom); Tracked(t, g) && Routed(t, g)
  {
    SameRouted(s, NodeReceives(s, id, answer, guidFrom), g);
  }

  lemma DeliverySane(s: Net, id: nat, answer: Answer, guidFrom: Guid)
    requires Sane(s) && id in s.wire && IsResponse(s.wire[id].msg.kind)
    ensures Sane(NodeReceives(s, id, answer, guidFrom))
  {
    assert Carries(s.wire[id], s.wire[id].msg.guidTo);
  }

  lemma DeliverySingle(s: Net, id: nat, answer: Answer, guidFrom: Guid)
    requires Single(s) && id in s.wire && IsResponse(s.wire[id].msg.kind)
    ensures Single(NodeReceives(s, id, answer, guidFrom))
  {
    var t := NodeReceives(s, id, answer, guidFrom);
    var call := s.wire[id].msg.guidTo;
    assert Carries(s.wire[id], call);
    forall i | i in t.wire ensures !Carries(t.wire[i], call) {
      assert i in s.wire && i != id;
    }
    forall k | 0 <= k < |s.delivered| ensures s.delivered[k].call != call {
      assert !Carries(s.wire[id], s.delivered[k].call);
    }
  }

  lemma DeliveryRouted(s: Net, id: nat, answer: Answer, guidFrom: Guid)
    requires Sane(s) && Single(s) && id in s.wire && s.wire[id].topic in s.nodes && IsResponse(s.wire[id].msg.kind)
    requires s.wire[id].msg.guidTo in s.calls && s.wire[id].msg.guidTo !in s.expired && Routed(s, s.wire[id].msg.guidTo)
    ensures Routed(NodeReceives(s, id, answer, guidFrom), s.wire[id].msg.guidTo)
  {
    var t := NodeReceives(s, id, answer, guidFrom);
    var g := s.wire[id].msg.guidTo;
    assert Carries(s.wire[id], g);
    assert OnTrail(s, g, s.wire[id]);
    TrailShortens(s, t, g);
    forall k | 0 <= k < |s.delivered| ensures s.delivered[k].call != g {
      assert !Carries(s.wire[id], s.delivered[k].call);
    }
    forall i | i in t.wire ensures !Carries(t.wire[i], g) {
      assert i in s.wire && i != id;
    }
  }

  lemma TablesKeep(s: Net, step: Step)
    requires Inv(s) && step.Tables? && Enabled(s, step)
    ensures Inv(Do(s, step))
  {
    TablesSane(s, step);
    var t := Do(s, step);
    forall g | g in t.calls ensures Routed(t, g) {
      assert Routed(s, g);
      TablesRouted(s, step, g);
    }
  }

  lemma TablesSane(s: Net, step: Step)
    requires Sane(s) && Single(s) && step.Tables? && Enabled(s, step)
    ensures Sane(Do(s, step)) && Single(Do(s, step)) && Do(s, step).calls == s.calls
  {
    SingleShrinks(s, Do(s, step));
    TablesRoster(s, step);
  }

  lemma TablesRoster(s: Net, step: Step)
    requires Roster(s) && step.Tables? && Enabled(s, step)
    ensures Roster(Do(s, step))
  {
  }

  lemma TablesRouted(s: Net, step: Step, g: Guid)
    requires step.Tables? && Enabled(s, step) && Tracked(s, g) && Routed(s, g)
    ensures Tracked(Do(s, step), g) && Routed(Do(s, step), g)
  {
    SameRouted(s, Do(s, step), g);
  }

  lemma ExpireKeeps(s: Net, step: Step)
    requires Inv(s) && step.Expire? && Enabled(s, step)
    ensures Inv(Do(s, step))
  {
    var t := Do(s, step);
    ExpireSane(s, step);
    forall g | g in t.calls ensures Routed(t, g) {
      if g != step.stale {
        assert Routed(s, g);
        ExpireOthers(s, step, g);
      }
    }
  }

  lemma ExpireOthers(s: Net, step: Step, g: Guid)
    requires step.Expire? && Enabled(s, step) && Tracked(s, g) && Routed(s, g) && g != step.stale
    ensures Tracked(Do(s, step), g) && Routed(Do(s, step), g)
  {
    SameRouted(s, Do(s, step), g);
  }

  lemma ExpireSane(s: Net, step: Step)
    requires Sane(s) && Single(s) && step.Expire? && Enabled(s, step)
    ensures Sane(Do(s, step)) && Single(Do(s, step))
  {
    SingleShrinks(s, Do(s, step));
    ExpireRoster(s, step);
  }

  lemma ExpireRoster(s: Net, step: Step)
    requires Roster(s) && step.Expire? && Enabled(s, step)
    ensures Roster(Do(s, step))
  {
  }

  /** Every step keeps the invariant. */
  lemma DoKeeps(s: Net, step: Step)
    requires Inv(s) && Enabled(s, step)
    ensures Inv(Do(s, step))
  {
    match step
    case Issue(_, _, _, _, _) => IssueKeeps(s, step);
    case ToProxy(id, from, pick, now) =>
      if s.wire[id].msg.kind == INVOKE {
        InvokeKeeps(s, id, pick, now);
      } else if IsResponse(s.wire[id].msg.kind) {
        ResponseKeeps(s, id, from);
      } else {
        DropKeeps(s, id);
      }
    case ToNode(id, answer, guidFrom) =>
      if s.wire[id].msg.kind == INVOKE {
        AnswerKeeps(s, id, answer, guidFrom);
      } else if IsResponse(s.wire[id].msg.kind) {
        DeliveryKeeps(s, id, answer, guidFrom);
      } else {
        DropKeeps(s, id);
      }
    case Lose(id) => LoseKeeps(s, id);
    case Tables(_, _, _) => TablesKeep(s, step);
    case Expire(_, _) => ExpireKeeps(s, step);
  }
}
