/** Answered calls are never forgotten, and every fair run delivers them. */
module NetworkDelivery {
  import opened ProxyCore
  import opened Network
  import opened NetworkProofs
  import opened NetworkRuns

  /** A response for the call is in flight. */
  ghost predicate Carrying(s: Net, id: nat, g: Guid) {
    id in s.wire && IsResponse(s.wire[id].msg.kind) && s.wire[id].msg.guidTo == g
  }

  ghost predicate InFlight(s: Net, g: Guid) {
    exists id :: Carrying(s, id, g)
  }

  ghost predicate WasDelivered(s: Net, g: Guid) {
    exists k :: 0 <= k < |s.delivered| && s.delivered[k].call == g
  }

  /** An answered call of which no record expired and no packet was lost is on its way back, or home. */
  ghost predicate Present(s: Net, g: Guid) {
    g in s.answers && g !in s.expired && g !in s.lost ==> InFlight(s, g) || WasDelivered(s, g)
  }

  ghost predicate AllPresent(s: Net) {
    forall g :: Present(s, g)
  }

  /** Whatever happens to one packet, the others stay. */
  ghost predicate OthersStay(s: Net, t: Net, gone: nat) {
    && (forall i :: i in s.wire && i != gone ==> i in t.wire && t.wire[i] == s.wire[i])
    && s.delivered <= t.delivered && s.expired <= t.expired && s.lost <= t.lost
  }

  lemma StaysPresent(s: Net, t: Net, gone: nat, g: Guid)
    requires Present(s, g) && OthersStay(s, t, gone) && !Carrying(s, gone, g) && (g in t.answers ==> g in s.answers)
    ensures Present(t, g)
  {
    if g in t.answers && g !in t.expired && g !in t.lost {
      if InFlight(s, g) {
        var id :| Carrying(s, id, g);
        assert Carrying(t, id, g);
      } else {
        var k :| 0 <= k < |s.delivered| && s.delivered[k].call == g;
        assert t.delivered[k] == s.delivered[k];
      }
    }
  }

  /** A call that is still on its way out has no answer yet, unless it is beyond help. */
  lemma OutboundUnanswered(s: Net, id: nat)
    requires Single(s) && id in s.wire && s.wire[id].msg.kind == INVOKE && Present(s, s.wire[id].msg.guidFrom)
    ensures var g := s.wire[id].msg.guidFrom; g !in s.answers || g in s.expired || g in s.lost
  {
    var g := s.wire[id].msg.guidFrom;
    assert Carries(s.wire[id], g);
    forall i | i in s.wire && i != id ensures !Carrying(s, i, g) {
      assert !Carries(s.wire[i], g);
    }
    forall k | 0 <= k < |s.delivered| ensures s.delivered[k].call != g {
      assert !Carries(s.wire[id], s.delivered[k].call);
    }
  }

  ghost predicate FreshIds(s: Net) {
    forall i :: i in s.wire ==> i < s.nextId
  }

  lemma InvokePresent(s: Net, id: nat, pick: nat, now: int, g: Guid)
    requires FreshIds(s) && Single(s) && id in s.wire && s.wire[id].topic in s.proxies && s.wire[id].msg.kind == INVOKE
    requires Present(s, g) && Present(s, s.wire[id].msg.guidFrom)
    ensures Present(InvokeAt(s, id, pick, now), g)
  {
    OutboundUnanswered(s, id);
    InvokeStays(s, id, pick, now);
    if g != s.wire[id].msg.guidFrom {
      StaysPresent(s, InvokeAt(s, id, pick, now), id, g);
    }
  }

  lemma InvokeStays(s: Net, id: nat, pick: nat, now: int)
    requires FreshIds(s) && id in s.wire && s.wire[id].topic in s.proxies
    ensures var t := InvokeAt(s, id, pick, now);
            OthersStay(s, t, id) && t.answers == s.answers && t.expired == s.expired && t.lost == s.lost
  {
  }

  lemma ResponseStays(s: Net, id: nat, from: Guid)
    requires FreshIds(s) && id in s.wire && s.wire[id].topic in s.proxies
    ensures var t := ResponseAt(s, id, from);
            OthersStay(s, t, id) && t.answers == s.answers && t.expired == s.expired
  {
  }

  lemma AnswerPresent(s: Net, id: nat, answer: Answer, guidFrom: Guid, g: Guid)
    requires FreshIds(s) && id in s.wire && s.wire[id].msg.kind == INVOKE && IsResponse(answer.kind) && Present(s, g)
    ensures Present(AnswerAt(s, id, answer, guidFrom), g)
  {
    var t := AnswerAt(s, id, answer, guidFrom);
    if g == s.wire[id].msg.guidFrom {
      assert Carrying(t, s.nextId, g);
    } else {
      StaysPresent(s, t, id, g);
    }
  }

  lemma DeliverPresent(s: Net, id: nat, g: Guid)
    requires id in s.wire && IsResponse(s.wire[id].msg.kind) && Present(s, g)
    ensures Present(DeliverAt(s, id), g)
  {
    var t := DeliverAt(s, id);
    if g == s.wire[id].msg.guidTo {
      assert t.delivered[|s.delivered|].call == g;
    } else {
      StaysPresent(s, t, id, g);
    }
  }

  lemma ResponsePresent(s: Net, id: nat, from: Guid, g: Guid)
    requires Inv(s) && id in s.wire && s.wire[id].topic in s.proxies && IsResponse(s.wire[id].msg.kind) && Present(s, g)
    ensures Present(ResponseAt(s, id, from), g)
  {
    var t := ResponseAt(s, id, from);
    ResponseStays(s, id, from);
    if g != s.wire[id].msg.guidTo {
      StaysPresent(s, t, id, g);
    } else if g !in s.expired {
      assert Carries(s.wire[id], g);
      assert Routed(s, g);
      ResponseTrail(s, id, from);
      ResponseMoves(s, id, from);
      assert Carrying(t, s.nextId, g);
    }
  }

  lemma NodePresent(s: Net, id: nat, answer: Answer, guidFrom: Guid, g: Guid)
    requires FreshIds(s) && Enabled(s, ToNode(id, answer, guidFrom)) && Present(s, g)
    ensures Present(NodeReceives(s, id, answer, guidFrom), g)
  {
    if s.wire[id].msg.kind == INVOKE {
      AnswerPresent(s, id, answer, guidFrom, g);
    } else if IsResponse(s.wire[id].msg.kind) {
      DeliverPresent(s, id, g);
    } else {
      DropPresent(s, id, g);
    }
  }

  lemma LosePresent(s: Net, id: nat, g: Guid)
    requires id in s.wire && Present(s, g)
    ensures Present(LosePacket(s, id), g)
  {
    if g !in LosePacket(s, id).lost {
      StaysPresent(s, LosePacket(s, id), id, g);
    }
  }

  lemma IssuePresent(s: Net, step: Step, g: Guid)
    requires Inv(s) && step.Issue? && Enabled(s, step) && Present(s, g)
    ensures Present(Do(s, step), g)
  {
    StaysPresent(s, Do(s, step), s.nextId, g);
  }

  lemma DropPresent(s: Net, id: nat, g: Guid)
    requires id in s.wire && !IsResponse(s.wire[id].msg.kind) && Present(s, g)
    ensures Present(Drop(s, id), g)
  {
    StaysPresent(s, Drop(s, id), id, g);
  }

  lemma DoPresent(s: Net, step: Step)
    requires Inv(s) && AllPresent(s) && Enabled(s, step)
    ensures AllPresent(Do(s, step))
  {
    forall g ensures Present(Do(s, step), g) {
      assert Present(s, g);
      match step
      case Issue(_, _, _, _, _) => IssuePresent(s, step, g);
      case ToProxy(id, from, pick, now) =>
        if s.wire[id].msg.kind == INVOKE {
          assert Present(s, s.wire[id].msg.guidFrom);
          InvokePresent(s, id, pick, now, g);
        } else if IsResponse(s.wire[id].msg.kind) {
          ResponsePresent(s, id, from, g);
        } else {
          DropPresent(s, id, g);
        }
      case ToNode(id, answer, guidFrom) => NodePresent(s, id, answer, guidFrom, g);
      case Lose(id) => LosePresent(s, id, g);
      case Tables(_, _, _) => StaysPresent(s, Do(s, step), s.nextId, g);
      case Expire(_, _) => StaysPresent(s, Do(s, step), s.nextId, g);
    }
  }

  lemma {:induction false} RunPresent(s: Net, steps: seq<Step>)
    requires Inv(s) && AllPresent(s) && Possible(s, steps)
    ensures AllPresent(After(s, steps))
    decreases |steps|
  {
    if steps != [] {
      DoKeeps(s, steps[0]);
      DoPresent(s, steps[0]);
      RunPresent(Do(s, steps[0]), steps[1..]);
    }
  }

  /**
   In every run, an answered call of which no record expired and no packet was lost has been delivered, or its
   response is in flight and can still be brought home.
   */
  lemma AnsweredStays(s: Net, steps: seq<Step>, g: Guid)
    requires Init(s) && Possible(s, steps)
    requires var t := After(s, steps); g in t.answers && g !in t.expired && g !in t.lost
    ensures var t := After(s, steps);
            WasDelivered(t, g) || exists id :: Carrying(t, id, g) && Returning(t, id)
  {
    InitInv(s);
    RunKeeps(s, steps);
    RunPresent(s, steps);
    var t := After(s, steps);
    assert Present(t, g);
    if !WasDelivered(t, g) {
      var id :| Carrying(t, id, g);
      assert Returning(t, id);
    }
  }

  // ------------------------------------------------------------ fair runs

  /** The step handles this packet. */
  predicate Touches(step: Step, id: nat) {
    (step.ToProxy? || step.ToNode?) && step.id == id
  }

  /** The step neither loses the packet nor lets a record of the call expire. */
  predicate Spares(step: Step, id: nat, g: Guid) {
    step != Lose(id) && !(step.Expire? && step.stale == g)
  }

  /** Steps on other packets leave this one and what concerns its call alone. */
  ghost predicate LeavesAlone(s: Net, t: Net, id: nat, g: Guid) {
    && id in s.wire && g in s.calls && g in s.answers && g in s.alive
    && id in t.wire && t.wire[id] == s.wire[id] && g in t.calls && t.calls[g] == s.calls[g]
    && g in t.answers && t.answers[g] == s.answers[g] && g in t.alive && t.alive[g] == s.alive[g]
  }

  lemma StepLeavesAlone(s: Net, step: Step, id: nat, g: Guid)
    requires Enabled(s, step) && id in s.wire && id < s.nextId && g in s.calls && g in s.answers && g in s.alive
    requires !Touches(step, id) && step != Lose(id)
    requires step.ToProxy? || step.ToNode? ==> !Carries(s.wire[step.id], g)
    ensures LeavesAlone(s, Do(s, step), id, g)
  {
    match step
    case Issue(_, _, _, _, _) =>
    case ToProxy(_, _, _, _) =>
    case ToNode(_, _, _) =>
    case Lose(_) =>
    case Tables(_, _, _) =>
    case Expire(_, _) =>
  }

  lemma StepExpires(s: Net, step: Step, g: Guid)
    requires Enabled(s, step) && g !in s.expired && !(step.Expire? && step.stale == g)
    ensures g !in Do(s, step).expired
  {
    match step
    case Issue(_, _, _, _, _) =>
    case ToProxy(_, _, _, _) =>
    case ToNode(_, _, _) =>
    case Lose(_) =>
    case Tables(_, _, _) =>
    case Expire(_, _) =>
  }

  lemma Untouched(s: Net, step: Step, id: nat)
    requires Returning(s, id) && Enabled(s, step) && !Touches(step, id) && Spares(step, id, s.wire[id].msg.guidTo)
    ensures var g := s.wire[id].msg.guidTo;
            LeavesAlone(s, Do(s, step), id, g) && Returning(Do(s, step), id)
  {
    var g := s.wire[id].msg.guidTo;
    ReturningFacts(s, id);
    OtherCalls(s, id, step);
    StepLeavesAlone(s, step, id, g);
    StepExpires(s, step, g);
    DoKeeps(s, step);
  }

  lemma OtherCalls(s: Net, id: nat, step: Step)
    requires Single(s) && Alive(s, id) && Enabled(s, step) && !Touches(step, id)
    ensures step.ToProxy? || step.ToNode? ==> !Carries(s.wire[step.id], s.wire[id].msg.guidTo)
  {
    assert Carries(s.wire[id], s.wire[id].msg.guidTo);
  }

  /** A touch brings the response home or strictly nearer. */
  lemma Touched(s: Net, step: Step, id: nat)
    requires Returning(s, id) && Enabled(s, step) && Touches(step, id)
    ensures var t, g := Do(s, step), s.wire[id].msg.guidTo;
            && g in s.calls && g in s.answers && g in s.alive
            && if s.wire[id].topic in s.proxies then
                 && Carrying(t, s.nextId, g) && Returning(t, s.nextId) && g in t.calls && g in t.answers && g in t.alive
                 && t.alive[g] < s.alive[g] && t.calls[g] == s.calls[g] && t.answers[g] == s.answers[g]
               else t.delivered == s.delivered + [Delivery(s.calls[g], g, s.answers[g])]
  {
    if s.wire[id].topic in s.proxies {
      Hop(s, id, step.from);
    } else {
      Arrives(s, id, step.answer, step.guidFrom);
    }
  }

  /** Where the packet is after a step. */
  function Onto(s: Net, id: nat, step: Step): nat {
    if Touches(step, id) then s.nextId else id
  }

  ghost predicate Alive(s: Net, id: nat) {
    id in s.wire && IsResponse(s.wire[id].msg.kind)
  }

  /** No step of the run loses the packet on its way or lets a record of its call expire. */
  ghost predicate AllSpare(s: Net, id: nat, steps: seq<Step>)
    requires Possible(s, steps)
    decreases |steps|
  {
    steps == [] || !Alive(s, id) ||
    (Spares(steps[0], id, s.wire[id].msg.guidTo) && AllSpare(Do(s, steps[0]), Onto(s, id, steps[0]), steps[1..]))
  }

  /** How often the run handles the packet on its way. */
  ghost function Handlings(s: Net, id: nat, steps: seq<Step>): nat
    requires Possible(s, steps)
    decreases |steps|
  {
    if steps == [] || !Alive(s, id) then 0
    else (if Touches(steps[0], id) then 1 else 0) + Handlings(Do(s, steps[0]), Onto(s, id, steps[0]), steps[1..])
  }

  lemma {:induction false} DeliveriesStay(s: Net, steps: seq<Step>)
    requires Possible(s, steps)
    ensures s.delivered <= After(s, steps).delivered
    decreases |steps|
  {
    if steps != [] {
      assert s.delivered <= Do(s, steps[0]).delivered;
      DeliveriesStay(Do(s, steps[0]), steps[1..]);
    }
  }

  /**
   Every fair run delivers: while a response is not lost and no record of its call expires, it can be handled at most
   once per recorded proxy and once more, and then it has reached the node that issued the call, with the callee's
   answer.
   */
  lemma {:induction false} FairDelivery(s: Net, id: nat, steps: seq<Step>)
    requires Returning(s, id) && Possible(s, steps) && AllSpare(s, id, steps)
    ensures var g := s.wire[id].msg.guidTo;
            && g in s.calls && g in s.answers && g in s.alive
            && (Handlings(s, id, steps) > s.alive[g] ==>
                  Delivery(s.calls[g], g, s.answers[g]) in After(s, steps).delivered)
    decreases |steps|
  {
    var g := s.wire[id].msg.guidTo;
    ReturningFacts(s, id);
    if steps != [] {
      var step, rest, t := steps[0], steps[1..], Do(s, steps[0]);
      if !Touches(step, id) {
        Untouched(s, step, id);
        FairDelivery(t, id, rest);
      } else {
        Touched(s, step, id);
        if s.wire[id].topic in s.proxies {
          FairDelivery(t, s.nextId, rest);
        } else {
          DeliveriesStay(t, rest);
          assert t.delivered[|s.delivered|] in After(t, rest).delivered;
        }
      }
    }
  }

  lemma ReturningFacts(s: Net, id: nat)
    requires Returning(s, id)
    ensures var g := s.wire[id].msg.guidTo; g in s.calls && g in s.answers && g in s.alive
  {
    var g := s.wire[id].msg.guidTo;
    assert Carries(s.wire[id], g);
    assert Routed(s, g);
    assert OnTrail(s, g, s.wire[id]);
  }
}
