/** The soft-state method tables of a proxy: refreshing, adding and expiring entries. */
module Registry {
  import opened ProxyCore

  function Get(t: Table, name: Name): seq<Method> {
    if name in t then t[name] else []
  }

  /** Method guids are distinct under an identifier, and entries are filed under their own identifier. */
  ghost predicate Distinct(list: seq<Method>) {
    forall i, j :: 0 <= i < j < |list| ==> list[i].methodGuid != list[j].methodGuid
  }

  ghost predicate ListOk(name: Name, list: seq<Method>) {
    Distinct(list) && forall i :: 0 <= i < |list| ==> list[i].identifier == name
  }

  ghost predicate TableOk(t: Table) {
    forall name :: name in t ==> ListOk(name, t[name])
  }

  lemma TouchKeepsOk(t: Table, name: Name)
    requires TableOk(t)
    ensures TableOk(Touch(t, name))
  {
    assert ListOk(name, []);
  }

  // ------------------------------------------------------------ registering

  /** A method already known is refreshed in place, a new one goes to the end. */
  function Upsert(list: seq<Method>, e: Method): seq<Method> {
    if list == [] then [e]
    else if list[0].methodGuid == e.methodGuid then [list[0].(lastCheckTime := e.lastCheckTime)] + list[1..]
    else [list[0]] + Upsert(list[1..], e)
  }

  ghost function Guids(list: seq<Method>): set<Guid> {
    set i | 0 <= i < |list| :: list[i].methodGuid
  }

  /** Upsert keeps every other entry, in order; it adds an entry only for a method that was not there. */
  lemma {:induction false} UpsertEffect(list: seq<Method>, e: Method)
    ensures var r := Upsert(list, e);
            && |r| == |list| + (if e.methodGuid in Guids(list) then 0 else 1)
            && (forall i :: 0 <= i < |list| ==>
                  r[i].identifier == list[i].identifier && r[i].owner == list[i].owner && r[i].methodGuid == list[i].methodGuid)
            && (forall i :: 0 <= i < |list| && list[i].methodGuid != e.methodGuid ==> r[i] == list[i])
            && (e.methodGuid !in Guids(list) ==> r == list + [e])
  {
    if list != [] {
      var rest := list[1..];
      UpsertEffect(rest, e);
      assert Guids(list) == Guids(rest) + {list[0].methodGuid} by {
        assert forall i :: 1 <= i < |list| ==> list[i] == rest[i - 1];
        assert forall g :: g in Guids(rest) ==> g in Guids(list) by {
          forall g | g in Guids(rest) ensures g in Guids(list) {
            var i :| 0 <= i < |rest| && rest[i].methodGuid == g;
            assert list[i + 1].methodGuid == g;
          }
        }
      }
    }
  }

  lemma UpsertKeepsOk(name: Name, list: seq<Method>, e: Method)
    requires ListOk(name, list) && e.identifier == name
    ensures ListOk(name, Upsert(list, e))
  {
    UpsertEffect(list, e);
  }

  /** The entry of a method already known gets the new time and stays as it is otherwise. */
  lemma {:induction false} UpsertRefreshes(list: seq<Method>, e: Method, i: nat)
    requires Distinct(list) && i < |list| && list[i].methodGuid == e.methodGuid
    ensures i < |Upsert(list, e)| && Upsert(list, e)[i] == list[i].(lastCheckTime := e.lastCheckTime)
  {
    if i > 0 {
      UpsertRefreshes(list[1..], e, i - 1);
    }
  }

  function UpsertInto(t: Table, e: Method): Table {
    t[e.identifier := Upsert(Get(t, e.identifier), e)]
  }

  /** The search loop shared by RegisterInvoke and RemoteRegistryUpdate. */
  method Register(t: Table, e: Method) returns (t': Table, added: bool)
    ensures t' == UpsertInto(t, e)
    ensures added == (e.methodGuid !in Guids(Get(t, e.identifier)))
  {
    var vec := if e.identifier in t then t[e.identifier] else [];
    var i := 0;
    while i < |vec| && vec[i].methodGuid != e.methodGuid
      invariant i <= |vec|
      invariant forall j :: 0 <= j < i ==> vec[j].methodGuid != e.methodGuid
    {
      i := i + 1;
    }
    UpsertAt(vec, e, i);
    if i < |vec| {
      vec := vec[i := vec[i].(lastCheckTime := e.lastCheckTime)];
      added := false;
    } else {
      vec := vec + [e];
      added := true;
    }
    t' := t[e.identifier := vec];
  }

  lemma {:induction false} UpsertAt(list: seq<Method>, e: Method, i: nat)
    requires i <= |list| && forall j :: 0 <= j < i ==> list[j].methodGuid != e.methodGuid
    requires i < |list| ==> list[i].methodGuid == e.methodGuid
    ensures Upsert(list, e) == if i < |list| then list[i := list[i].(lastCheckTime := e.lastCheckTime)] else list + [e]
  {
    if list != [] && i > 0 {
      UpsertAt(list[1..], e, i - 1);
      assert list == [list[0]] + list[1..];
    }
  }

  lemma UpsertKeepsTable(t: Table, e: Method)
    requires TableOk(t)
    ensures TableOk(UpsertInto(t, e))
  {
    UpsertKeepsOk(e.identifier, Get(t, e.identifier), e);
  }

  // ------------------------------------------------------------ advertising

  /** The entry a registry advertisement stands for. */
  function Advertised(ad: Ad, now: int): Method {
    Method(ad.identifier, ad.proxyGuid, ad.methodGuid, now)
  }

  function UpsertAds(t: Table, ads: seq<Ad>, now: int): Table {
    if ads == [] then t
    else UpsertInto(UpsertAds(t, ads[..|ads| - 1], now), Advertised(ads[|ads| - 1], now))
  }

  /** The methods of one list, advertised by the proxy with this guid. */
  function AdsOf(name: Name, list: seq<Method>, guid: Guid): (ads: seq<Ad>)
    ensures |ads| == |list|
  {
    seq(|list|, i requires 0 <= i < |list| => Ad(name, list[i].methodGuid, guid))
  }

  /** The order in which a walk over a table meets its identifiers: each once. */
  ghost predicate Enumerates(order: seq<Name>, names: set<Name>) {
    && (forall name :: name in order <==> name in names)
    && (forall i, j :: 0 <= i < j < |order| ==> order[i] != order[j])
  }

  /** What a proxy advertises: every method of the table once, identifier by identifier. */
  function Listing(t: Table, order: seq<Name>, guid: Guid): seq<Ad>
    requires forall name :: name in order ==> name in t
  {
    if order == [] then []
    else
      var last := order[|order| - 1];
      Listing(t, order[..|order| - 1], guid) + AdsOf(last, t[last], guid)
  }

  lemma ListingSnoc(t: Table, order: seq<Name>, guid: Guid, name: Name)
    requires (forall n :: n in order ==> n in t) && name in t
    ensures Listing(t, order + [name], guid) == Listing(t, order, guid) + AdsOf(name, t[name], guid)
  {
    assert (order + [name])[..|order|] == order;
  }

  /** The table has the advertised method under the advertised identifier. */
  ghost predicate Lists(t: Table, ad: Ad) {
    ad.identifier in t && ad.methodGuid in Guids(t[ad.identifier])
  }

  /** Whatever the order, exactly the methods of the table are advertised, each as the proxy's own. */
  lemma {:induction false} ListingExact(t: Table, order: seq<Name>, guid: Guid, ad: Ad)
    requires forall name :: name in order ==> name in t
    ensures ad in Listing(t, order, guid) <==> ad.identifier in order && Lists(t, ad) && ad.proxyGuid == guid
    decreases |order|
  {
    if order != [] {
      var n := |order| - 1;
      ListingExact(t, order[..n], guid, ad);
      AdsExact(order[n], t[order[n]], guid, ad);
      assert order == order[..n] + [order[n]];
    }
  }

  lemma AdsExact(name: Name, list: seq<Method>, guid: Guid, ad: Ad)
    ensures ad in AdsOf(name, list, guid) <==> ad.identifier == name && ad.methodGuid in Guids(list) && ad.proxyGuid == guid
  {
    var ads := AdsOf(name, list, guid);
    if ad.identifier == name && ad.methodGuid in Guids(list) && ad.proxyGuid == guid {
      var i :| 0 <= i < |list| && list[i].methodGuid == ad.methodGuid;
      assert ads[i] == ad;
    }
  }

  // ------------------------------------------------------------ expiring

  const LOCAL_LIFETIME: int := 10
  const REMOTE_LIFETIME: int := 5

  predicate Stale(e: Method, now: int, limit: int) {
    now > e.lastCheckTime + limit
  }

  /** The entries that are not stale, in order. */
  function Fresh(list: seq<Method>, now: int, limit: int): seq<Method> {
    if list == [] then []
    else (if Stale(list[0], now, limit) then [] else [list[0]]) + Fresh(list[1..], now, limit)
  }

  function FreshTable(t: Table, now: int, limit: int): Table {
    map name | name in t :: Fresh(t[name], now, limit)
  }

  // What is left, said without the functions above.

  /** These entries, taken from the list at these places and in this order. */
  ghost predicate Picks(list: seq<Method>, kept: seq<Method>, at: seq<nat>) {
    && |at| == |kept| && (forall i :: 0 <= i < |at| ==> at[i] < |list| && kept[i] == list[at[i]])
    && (forall i, j :: 0 <= i < j < |at| ==> at[i] < at[j])
  }

  /** What is kept are the entries checked no longer than that ago, in their order. */
  ghost predicate Survivors(list: seq<Method>, kept: seq<Method>, now: int, age: int) {
    exists at: seq<nat> :: Picks(list, kept, at) && forall i :: 0 <= i < |list| ==> (i in at <==> now - list[i].lastCheckTime <= age)
  }

  lemma {:induction false} FreshPicks(list: seq<Method>, now: int, age: int) returns (at: seq<nat>)
    ensures Picks(list, Fresh(list, now, age), at)
    ensures forall i :: 0 <= i < |list| ==> (i in at <==> now - list[i].lastCheckTime <= age)
  {
    at := [];
    if list != [] {
      var rest := FreshPicks(list[1..], now, age);
      var first := now - list[0].lastCheckTime <= age;
      at := Shifted(rest, first);
      ShiftedPicks(list, Fresh(list[1..], now, age), rest, first);
      forall i | 0 <= i < |list| ensures i in at <==> now - list[i].lastCheckTime <= age {
        ShiftedIn(rest, first, i);
        assert i > 0 ==> list[i] == list[1..][i - 1];
      }
    }
  }

  /** Places in a list with one more entry in front, which is taken or not. */
  function Shifted(rest: seq<nat>, first: bool): seq<nat> {
    (if first then [0] else []) + seq(|rest|, i requires 0 <= i < |rest| => rest[i] + 1)
  }

  lemma ShiftedIn(rest: seq<nat>, first: bool, i: nat)
    ensures i in Shifted(rest, first) <==> if i == 0 then first else i - 1 in rest
  {
    var at, n := Shifted(rest, first), if first then 1 else 0;
    if i > 0 && i - 1 in rest {
      var j :| 0 <= j < |rest| && rest[j] == i - 1;
      assert at[n + j] == i;
    }
  }

  lemma ShiftedPicks(list: seq<Method>, kept: seq<Method>, rest: seq<nat>, first: bool)
    requires list != [] && Picks(list[1..], kept, rest)
    ensures Picks(list, (if first then [list[0]] else []) + kept, Shifted(rest, first))
  {
    var at, n := Shifted(rest, first), if first then 1 else 0;
    var all := (if first then [list[0]] else []) + kept;
    forall i | 0 <= i < |at| ensures at[i] < |list| && all[i] == list[at[i]] {
      if i >= n {
        assert at[i] == rest[i - n] + 1 && all[i] == kept[i - n] == list[1..][rest[i - n]];
      }
    }
    forall i, j | 0 <= i < j < |at| ensures at[i] < at[j] {
      assert at[j] == rest[j - n] + 1;
      if i >= n {
        assert at[i] == rest[i - n] + 1;
      }
    }
  }

  /** Every list keeps its survivors. */
  ghost predicate Swept(t: Table, t': Table, now: int, age: int) {
    t'.Keys == t.Keys && forall name :: name in t ==> Survivors(t[name], t'[name], now, age)
  }

  lemma FreshSwept(t: Table, now: int, age: int)
    ensures Swept(t, FreshTable(t, now, age), now, age)
  {
    forall name | name in t ensures Survivors(t[name], Fresh(t[name], now, age), now, age) {
      var at := FreshPicks(t[name], now, age);
    }
  }

  lemma {:induction false} FreshWithout(list: seq<Method>, k: nat, now: int, limit: int)
    requires k < |list| && Stale(list[k], now, limit)
    ensures Fresh(list[..k] + list[k + 1..], now, limit) == Fresh(list, now, limit)
  {
    var less := list[..k] + list[k + 1..];
    if k == 0 {
      assert less == list[1..];
    } else {
      FreshWithout(list[1..], k - 1, now, limit);
      assert less[0] == list[0] && less[1..] == list[1..][..k - 1] + list[1..][k..];
    }
  }

  lemma {:induction false} FreshAll(list: seq<Method>, now: int, limit: int)
    requires forall i :: 0 <= i < |list| ==> !Stale(list[i], now, limit)
    ensures Fresh(list, now, limit) == list
  {
    if list != [] {
      FreshAll(list[1..], now, limit);
    }
  }

  lemma {:induction false} FreshOk(name: Name, list: seq<Method>, now: int, limit: int)
    requires ListOk(name, list)
    ensures ListOk(name, Fresh(list, now, limit))
    ensures Guids(Fresh(list, now, limit)) <= Guids(list)
  {
    if list != [] {
      var rest := list[1..];
      FreshOk(name, rest, now, limit);
      var kept := Fresh(rest, now, limit);
      forall g | g in Guids(rest) ensures g in Guids(list) && g != list[0].methodGuid {
        var i :| 0 <= i < |rest| && rest[i].methodGuid == g;
        assert list[i + 1].methodGuid == g;
      }
      forall i | 0 <= i < |kept| ensures kept[i].methodGuid != list[0].methodGuid {
        assert kept[i].methodGuid in Guids(kept);
      }
    }
  }

  /** Everything registered, as pairs; each check that removes something makes it smaller. */
  ghost function Pairs(t: Table): set<(Name, Guid)> {
    set name, i | name in t && 0 <= i < |t[name]| :: (name, t[name][i].methodGuid)
  }

  /** The first stale entry of a list. */
  method FindStale(list: seq<Method>, now: int, limit: int) returns (k: nat)
    ensures k <= |list| && (k < |list| ==> Stale(list[k], now, limit))
    ensures forall i :: 0 <= i < k ==> !Stale(list[i], now, limit)
  {
    k := 0;
    while k < |list| && !Stale(list[k], now, limit)
      invariant k <= |list|
      invariant forall i :: 0 <= i < k ==> !Stale(list[i], now, limit)
    {
      k := k + 1;
    }
  }

  /** One health check: the first stale entry met is removed, wherever the iteration over the table meets it. */
  method HealthCheck(t: Table, now: int, limit: int) returns (removed: bool, t': Table)
    requires TableOk(t)
    ensures TableOk(t') && t'.Keys == t.Keys
    ensures forall name :: name in t ==> Fresh(t'[name], now, limit) == Fresh(t[name], now, limit)
    ensures removed ==> Pairs(t') < Pairs(t)
    ensures removed ==> exists name, k: nat :: Dropped(t, t', name, k) && now - t[name][k].lastCheckTime > limit
    ensures !removed ==> t' == t && forall name :: name in t ==> Fresh(t[name], now, limit) == t[name]
    ensures !removed ==> forall name, k :: name in t && 0 <= k < |t[name]| ==> now - t[name][k].lastCheckTime <= limit
  {
    var left := t.Keys;
    while left != {}
      invariant left <= t.Keys
      invariant forall name :: name in t && name !in left ==> Fresh(t[name], now, limit) == t[name]
      invariant forall name, k :: name in t && name !in left && 0 <= k < |t[name]| ==> now - t[name][k].lastCheckTime <= limit
      decreases left
    {
      var name :| name in left;
      var vec := t[name];
      var k := FindStale(vec, now, limit);
      if k < |vec| {
        FreshWithout(vec, k, now, limit);
        RemovalShrinks(t, name, k);
        removed, t' := true, t[name := vec[..k] + vec[k + 1..]];
        assert Dropped(t, t', name, k);
        return;
      }
      FreshAll(vec, now, limit);
      left := left - {name};
    }
    return false, t;
  }

  /** The table without entry k of that list. */
  ghost predicate Dropped(t: Table, t': Table, name: Name, k: nat) {
    name in t && k < |t[name]| && t' == t[name := t[name][..k] + t[name][k + 1..]]
  }

  lemma RemovalShrinks(t: Table, name: Name, k: nat)
    requires TableOk(t) && name in t && k < |t[name]|
    ensures var t': Table := t[name := t[name][..k] + t[name][k + 1..]];
            TableOk(t') && Pairs(t') < Pairs(t)
  {
    var list := t[name];
    var less := list[..k] + list[k + 1..];
    var t': Table := t[name := less];
    assert ListOk(name, list);
    assert ListOk(name, less);
    forall n: Name, i: int | n in t' && 0 <= i < |t'[n]| ensures (n, t'[n][i].methodGuid) in Pairs(t) {
      if n == name && i >= k {
        assert less[i] == list[i + 1];
      }
    }
    assert (name, list[k].methodGuid) in Pairs(t);
    assert (name, list[k].methodGuid) !in Pairs(t');
  }

  /** The loop around the health check: it ends, and removes exactly the stale entries, keeping the order. */
  method Sweep(t: Table, now: int, limit: int) returns (t': Table)
    requires TableOk(t)
    ensures TableOk(t') && t' == FreshTable(t, now, limit) && Swept(t, t', now, limit)
  {
    FreshSwept(t, now, limit);
    t' := t;
    var removed := true;
    while removed
      invariant TableOk(t') && t'.Keys == t.Keys
      invariant forall name :: name in t ==> Fresh(t'[name], now, limit) == Fresh(t[name], now, limit)
      invariant !removed ==> forall name :: name in t ==> t'[name] == Fresh(t'[name], now, limit)
      decreases removed, Pairs(t')
    {
      removed, t' := HealthCheck(t', now, limit);
    }
  }
}
