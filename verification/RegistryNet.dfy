/** Registry exchange between proxies: where the entries of a remote table come from. */
module RegistryNet {
  import opened ProxyCore
  import opened Registry

  /** A registry reply in flight, with the proxy that sent it. */
  datatype Exchange = Exchange(sender: Guid, ads: seq<Ad>)

  /** A method as some proxy had it in its own local table at some time. */
  datatype Claim = Claim(proxy: Guid, identifier: Name, methodGuid: Guid)

  datatype Net = Net(locals: map<Guid, Table>, remotes: map<Guid, Table>, wire: multiset<Exchange>, claims: set<Claim>)

  datatype Step =
    | Register(proxy: Guid, entry: Method)
    | Advertise(proxy: Guid, order: seq<Name>)
    | Update(proxy: Guid, exchange: Exchange, now: int)
    | Check(proxy: Guid, now: int)
    | Lose(exchange: Exchange)

  /** A reply is what the responder sends, for some order of walking its table. */
  ghost predicate Enabled(s: Net, step: Step) {
    match step
    case Register(p, _) => p in s.locals
    case Advertise(p, order) => p in s.locals && Enumerates(order, s.locals[p].Keys)
    case Update(p, x, _) => p in s.remotes && x in s.wire
    case Check(p, _) => p in s.locals && p in s.remotes
    case Lose(x) => x in s.wire
  }

  ghost function Do(s: Net, step: Step): Net
    requires Enabled(s, step)
  {
    match step
    case Register(p, e) =>
      s.(locals := s.locals[p := UpsertInto(s.locals[p], e)], claims := s.claims + {Claim(p, e.identifier, e.methodGuid)})
    case Advertise(p, order) => s.(wire := s.wire + multiset{Exchange(p, Listing(s.locals[p], order, p))})
    case Update(p, x, now) =>
      s.(remotes := s.remotes[p := UpsertAds(s.remotes[p], x.ads, now)], wire := s.wire - multiset{x})
    case Check(p, now) =>
      s.(locals := s.locals[p := FreshTable(s.locals[p], now, LOCAL_LIFETIME)],
         remotes := s.remotes[p := FreshTable(s.remotes[p], now, REMOTE_LIFETIME)])
    case Lose(x) => s.(wire := s.wire - multiset{x})
  }

  /** Every entry of the list is a method its owner had in its own local table. */
  ghost predicate ListClaimed(claims: set<Claim>, list: seq<Method>, name: Name) {
    forall i :: 0 <= i < |list| ==> Claim(list[i].owner, name, list[i].methodGuid) in claims
  }

  ghost predicate RemoteClaimed(claims: set<Claim>, t: Table) {
    forall name :: name in t ==> ListClaimed(claims, t[name], name)
  }

  ghost predicate LocalClaimed(claims: set<Claim>, p: Guid, t: Table) {
    forall name, i :: name in t && 0 <= i < |t[name]| ==> Claim(p, name, t[name][i].methodGuid) in claims
  }

  /** Only a proxy itself advertises a method as its own, and only one it has had. */
  ghost predicate ExchangeClaimed(claims: set<Claim>, x: Exchange) {
    forall i :: 0 <= i < |x.ads| ==>
      x.ads[i].proxyGuid == x.sender && Claim(x.sender, x.ads[i].identifier, x.ads[i].methodGuid) in claims
  }

  ghost predicate Inv(s: Net) {
    && (forall p :: p in s.locals ==> LocalClaimed(s.claims, p, s.locals[p]))
    && (forall p :: p in s.remotes ==> RemoteClaimed(s.claims, s.remotes[p]))
    && (forall x :: x in s.wire ==> ExchangeClaimed(s.claims, x))
  }

  lemma UpsertClaimed(claims: set<Claim>, t: Table, e: Method)
    requires RemoteClaimed(claims, t) && Claim(e.owner, e.identifier, e.methodGuid) in claims
    ensures RemoteClaimed(claims, UpsertInto(t, e))
  {
    var list := Get(t, e.identifier);
    UpsertEffect(list, e);
    assert ListClaimed(claims, list, e.identifier);
    assert ListClaimed(claims, Upsert(list, e), e.identifier);
  }

  lemma {:induction false} AdsClaimed(claims: set<Claim>, t: Table, ads: seq<Ad>, now: int)
    requires RemoteClaimed(claims, t)
    requires forall i :: 0 <= i < |ads| ==> Claim(ads[i].proxyGuid, ads[i].identifier, ads[i].methodGuid) in claims
    ensures RemoteClaimed(claims, UpsertAds(t, ads, now))
    decreases |ads|
  {
    if ads != [] {
      var n := |ads| - 1;
      AdsClaimed(claims, t, ads[..n], now);
      UpsertClaimed(claims, UpsertAds(t, ads[..n], now), Advertised(ads[n], now));
    }
  }

  lemma {:induction false} FreshMembers(list: seq<Method>, now: int, limit: int)
    ensures forall e :: e in Fresh(list, now, limit) ==> e in list
  {
    if list != [] {
      FreshMembers(list[1..], now, limit);
    }
  }

  /** The responder advertises only what its own local table holds, as its own. */
  lemma ListingClaimed(claims: set<Claim>, t: Table, order: seq<Name>, p: Guid)
    requires LocalClaimed(claims, p, t) && Enumerates(order, t.Keys)
    ensures ExchangeClaimed(claims, Exchange(p, Listing(t, order, p)))
  {
    var ads := Listing(t, order, p);
    forall i | 0 <= i < |ads| ensures ads[i].proxyGuid == p && Claim(p, ads[i].identifier, ads[i].methodGuid) in claims {
      ListingExact(t, order, p, ads[i]);
      var name := ads[i].identifier;
      var k :| 0 <= k < |t[name]| && t[name][k].methodGuid == ads[i].methodGuid;
      assert Claim(p, name, t[name][k].methodGuid) in claims;
    }
  }

  lemma CheckKeeps(s: Net, step: Step)
    requires Inv(s) && step.Check? && Enabled(s, step)
    ensures Inv(Do(s, step))
  {
    var p, now := step.proxy, step.now;
    var t := Do(s, step);
    assert LocalClaimed(t.claims, p, t.locals[p]) by {
      forall name, i | name in t.locals[p] && 0 <= i < |t.locals[p][name]|
        ensures Claim(p, name, t.locals[p][name][i].methodGuid) in t.claims
      {
        FreshMembers(s.locals[p][name], now, LOCAL_LIFETIME);
        assert t.locals[p][name][i] in s.locals[p][name];
        assert LocalClaimed(s.claims, p, s.locals[p]);
      }
    }
    assert RemoteClaimed(t.claims, t.remotes[p]) by {
      forall name | name in t.remotes[p] ensures ListClaimed(t.claims, t.remotes[p][name], name) {
        FreshMembers(s.remotes[p][name], now, REMOTE_LIFETIME);
        assert RemoteClaimed(s.claims, s.remotes[p]);
        assert ListClaimed(s.claims, s.remotes[p][name], name);
        forall i | 0 <= i < |t.remotes[p][name]|
          ensures Claim(t.remotes[p][name][i].owner, name, t.remotes[p][name][i].methodGuid) in t.claims
        {
          assert t.remotes[p][name][i] in s.remotes[p][name];
        }
      }
    }
  }

  lemma RegisterKeeps(s: Net, step: Step)
    requires Inv(s) && step.Register? && Enabled(s, step)
    ensures Inv(Do(s, step))
  {
    var t := Do(s, step);
    var p, e := step.proxy, step.entry;
    var list := Get(s.locals[p], e.identifier);
    UpsertEffect(list, e);
    assert LocalClaimed(s.claims, p, s.locals[p]);
    assert LocalClaimed(t.claims, p, t.locals[p]);
    forall q | q in t.remotes ensures RemoteClaimed(t.claims, t.remotes[q]) {
      assert RemoteClaimed(s.claims, s.remotes[q]);
      forall name | name in t.remotes[q] ensures ListClaimed(t.claims, t.remotes[q][name], name) {
        assert ListClaimed(s.claims, s.remotes[q][name], name);
      }
    }
    forall x | x in t.wire ensures ExchangeClaimed(t.claims, x) {
      assert ExchangeClaimed(s.claims, x);
    }
  }

  /** Every step keeps the invariant: remote entries are never relayed and never invented. */
  lemma DoKeeps(s: Net, step: Step)
    requires Inv(s) && Enabled(s, step)
    ensures Inv(Do(s, step))
  {
    match step
    case Register(_, _) => RegisterKeeps(s, step);
    case Advertise(p, order) =>
      assert LocalClaimed(s.claims, p, s.locals[p]);
      ListingClaimed(s.claims, s.locals[p], order, p);
    case Update(p, x, now) =>
      assert ExchangeClaimed(s.claims, x) && RemoteClaimed(s.claims, s.remotes[p]);
      AdsClaimed(s.claims, s.remotes[p], x.ads, now);
    case Check(_, _) => CheckKeeps(s, step);
    case Lose(_) =>
  }

  ghost predicate Possible(s: Net, steps: seq<Step>)
    decreases |steps|
  {
    steps == [] || (Enabled(s, steps[0]) && Possible(Do(s, steps[0]), steps[1..]))
  }

  ghost function After(s: Net, steps: seq<Step>): Net
    requires Possible(s, steps)
    decreases |steps|
  {
    if steps == [] then s else After(Do(s, steps[0]), steps[1..])
  }

  lemma {:induction false} RunKeeps(s: Net, steps: seq<Step>)
    requires Inv(s) && Possible(s, steps)
    ensures Inv(After(s, steps))
    decreases |steps|
  {
    if steps != [] {
      DoKeeps(s, steps[0]);
      RunKeeps(Do(s, steps[0]), steps[1..]);
    }
  }

  /** All tables empty, nothing in flight. */
  predicate Init(s: Net) {
    && (forall p :: p in s.locals ==> s.locals[p] == map[])
    && (forall p :: p in s.remotes ==> s.remotes[p] == map[])
    && s.wire == multiset{} && s.claims == {}
  }

  /**
   In every run from empty tables, an entry of a remote table was registered in its owner's own local table: no
   proxy relays or invents the methods of another. And every registry reply in flight lists only its sender's methods.
   */
  lemma NeverRelayed(s: Net, steps: seq<Step>)
    requires Init(s) && Possible(s, steps)
    ensures var t := After(s, steps);
            && (forall p, name, i :: p in t.remotes && name in t.remotes[p] && 0 <= i < |t.remotes[p][name]| ==>
                  var e := t.remotes[p][name][i]; Claim(e.owner, name, e.methodGuid) in t.claims)
            && (forall x, i :: x in t.wire && 0 <= i < |x.ads| ==> x.ads[i].proxyGuid == x.sender)
  {
    RunKeeps(s, steps);
    var t := After(s, steps);
    forall p, name, i | p in t.remotes && name in t.remotes[p] && 0 <= i < |t.remotes[p][name]|
      ensures var e := t.remotes[p][name][i]; Claim(e.owner, name, e.methodGuid) in t.claims
    {
      assert RemoteClaimed(t.claims, t.remotes[p]);
      assert ListClaimed(t.claims, t.remotes[p][name], name);
    }
    forall x, i | x in t.wire && 0 <= i < |x.ads| ensures x.ads[i].proxyGuid == x.sender {
      assert ExchangeClaimed(t.claims, x);
    }
  }
}
