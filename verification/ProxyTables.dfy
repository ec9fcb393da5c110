/** How long a method stays registered, in every run of a proxy. */
module ProxyTables {
  import opened Bytes
  import opened ProxyCore
  import opened Registry
  import opened ProxyModel

  /** The two tables of a proxy: methods of its own nodes, and those other proxies have advertised. */
  datatype Side = Local | Remote

  function TableAt(w: Whole, side: Side): Table {
    if side == Local then w.core.local else w.core.remote
  }

  /** For how many seconds an entry is good. */
  function Age(side: Side): int {
    if side == Local then 10 else 5
  }

  ghost predicate TablesOk(w: Whole) {
    TableOk(w.core.local) && TableOk(w.core.remote)
  }

  /** The message registers the method with a local table, or advertises it to a remote one. */
  ghost predicate Renews(e: Event, side: Side, name: Name, g: Guid) {
    && e.Received?
    && match side
       case Local => e.req.kind == REGISTER_INVOKE && e.req.identifier == name && e.methodGuid == g
       case Remote => e.req.kind == REGISTRY_EXCHANGE_RESPONSE && Names(e.req.ads, name, g)
  }

  ghost predicate Names(ads: seq<Ad>, name: Name, g: Guid) {
    exists i :: 0 <= i < |ads| && ads[i].identifier == name && ads[i].methodGuid == g
  }

  /** When the method was last registered, if it is in the list. */
  function Time(list: seq<Method>, g: Guid): Option<int> {
    if list == [] then None else if list[0].methodGuid == g then Some(list[0].lastCheckTime) else Time(list[1..], g)
  }

  function TimeAt(w: Whole, side: Side, name: Name, g: Guid): Option<int> {
    Time(Get(TableAt(w, side), name), g)
  }

  lemma {:induction false} TimeIs(list: seq<Method>, g: Guid)
    ensures Time(list, g).Some? <==> g in Guids(list)
  {
    if list != [] {
      TimeIs(list[1..], g);
      if g in Guids(list[1..]) {
        var i :| 0 <= i < |list[1..]| && list[1..][i].methodGuid == g;
        assert list[i + 1].methodGuid == g;
      }
      if g in Guids(list) && list[0].methodGuid != g {
        var i :| 0 <= i < |list| && list[i].methodGuid == g;
        assert list[1..][i - 1].methodGuid == g;
      }
    }
  }

  lemma {:induction false} UpsertTime(list: seq<Method>, e: Method, g: Guid)
    ensures Time(Upsert(list, e), g) == if g == e.methodGuid then Some(e.lastCheckTime) else Time(list, g)
  {
    if list != [] {
      UpsertTime(list[1..], e, g);
    }
  }

  lemma {:induction false} FreshTime(list: seq<Method>, g: Guid, now: int, age: int)
    requires Distinct(list)
    ensures Time(Fresh(list, now, age), g)
         == if Time(list, g).Some? && now - Time(list, g).value <= age then Time(list, g) else None
  {
    if list != [] {
      FreshTime(list[1..], g, now, age);
      var kept := Fresh(list[1..], now, age);
      assert ([list[0]] + kept)[1..] == kept && [] + kept == kept;
      TimeIs(list[1..], g);
      FirstOnly(list);
    }
  }

  lemma FirstOnly(list: seq<Method>)
    requires Distinct(list) && list != []
    ensures list[0].methodGuid !in Guids(list[1..])
  {
    forall i | 0 <= i < |list[1..]| ensures list[1..][i].methodGuid != list[0].methodGuid {
      assert list[1..][i] == list[i + 1];
    }
  }

  lemma {:induction false} AdsTime(t: Table, ads: seq<Ad>, now: int, name: Name, g: Guid)
    ensures Time(Get(UpsertAds(t, ads, now), name), g) == if Names(ads, name, g) then Some(now) else Time(Get(t, name), g)
  {
    if ads != [] {
      var n := |ads| - 1;
      var before := UpsertAds(t, ads[..n], now);
      AdsTime(t, ads[..n], now, name, g);
      var e := Advertised(ads[n], now);
      UpsertTime(Get(before, e.identifier), e, g);
      NamesSnoc(ads, name, g);
      assert Get(UpsertInto(before, e), name) == if name == e.identifier then Upsert(Get(before, name), e) else Get(before, name);
    }
  }

  lemma NamesSnoc(ads: seq<Ad>, name: Name, g: Guid)
    requires ads != []
    ensures var n := |ads| - 1;
            Names(ads, name, g) <==> Names(ads[..n], name, g) || (ads[n].identifier == name && ads[n].methodGuid == g)
  {
    var n := |ads| - 1;
    if Names(ads[..n], name, g) {
      var i :| 0 <= i < n && ads[..n][i].identifier == name && ads[..n][i].methodGuid == g;
      assert ads[i].identifier == name;
    }
    if Names(ads, name, g) && !(ads[n].identifier == name && ads[n].methodGuid == g) {
      var i :| 0 <= i < |ads| && ads[i].identifier == name && ads[i].methodGuid == g;
      assert ads[..n][i].identifier == name;
    }
  }

  // ------------------------------------------------------------ one event

  /** What an event makes of the time of a method. */
  ghost function Renewed(before: Option<int>, e: Event, side: Side, name: Name, g: Guid): Option<int> {
    if Renews(e, side, name, g) then Some(e.at)
    else if e.Housekeeping? && before.Some? && e.now - before.value > Age(side) then None
    else before
  }

  /** Looking a method up may add empty lists and nothing else. */
  lemma InvokeTime(w: Whole, e: Event, w': Whole, side: Side, name: Name, g: Guid)
    requires e.Received? && e.req.kind == INVOKE && Step(w, e, w')
    ensures TimeAt(w', side, name, g) == TimeAt(w, side, name, g)
  {
  }

  lemma RegisterTime(w: Whole, e: Event, w': Whole, side: Side, name: Name, g: Guid)
    requires e.Received? && e.req.kind == REGISTER_INVOKE && Step(w, e, w')
    ensures TimeAt(w', side, name, g) == Renewed(TimeAt(w, side, name, g), e, side, name, g)
  {
    UpsertTime(Get(w.core.local, name), Method(e.req.identifier, e.req.source, e.methodGuid, e.at), g);
  }

  lemma AdvertisedTime(w: Whole, e: Event, w': Whole, side: Side, name: Name, g: Guid)
    requires e.Received? && e.req.kind == REGISTRY_EXCHANGE_RESPONSE && Step(w, e, w')
    ensures TimeAt(w', side, name, g) == Renewed(TimeAt(w, side, name, g), e, side, name, g)
  {
    AdsTime(w.core.remote, e.req.ads, e.at, name, g);
  }

  lemma TidyTime(w: Whole, e: Event, w': Whole, side: Side, name: Name, g: Guid)
    requires e.Housekeeping? && Step(w, e, w') && TablesOk(w)
    ensures TimeAt(w', side, name, g) == Renewed(TimeAt(w, side, name, g), e, side, name, g)
  {
    var t := TableAt(w, side);
    if name in t {
      assert ListOk(name, t[name]);
      FreshTime(t[name], g, e.now, Age(side));
    }
  }

  lemma StepTime(w: Whole, e: Event, w': Whole, side: Side, name: Name, g: Guid)
    requires Step(w, e, w') && TablesOk(w)
    ensures TimeAt(w', side, name, g) == Renewed(TimeAt(w, side, name, g), e, side, name, g)
  {
    if e.Housekeeping? {
      TidyTime(w, e, w', side, name, g);
    } else if e.req.kind == INVOKE {
      InvokeTime(w, e, w', side, name, g);
    } else if e.req.kind == REGISTER_INVOKE {
      RegisterTime(w, e, w', side, name, g);
    } else if e.req.kind == REGISTRY_EXCHANGE_RESPONSE {
      AdvertisedTime(w, e, w', side, name, g);
    } else {
      assert w'.core.local == w.core.local && w'.core.remote == w.core.remote;
    }
  }

  // ------------------------------------------------------------ tables stay in order

  lemma {:induction false} AdsKeepTable(t: Table, ads: seq<Ad>, now: int)
    requires TableOk(t)
    ensures TableOk(UpsertAds(t, ads, now))
  {
    if ads != [] {
      var n := |ads| - 1;
      AdsKeepTable(t, ads[..n], now);
      UpsertKeepsTable(UpsertAds(t, ads[..n], now), Advertised(ads[n], now));
    }
  }

  lemma FreshKeepsTable(t: Table, now: int, age: int)
    requires TableOk(t)
    ensures TableOk(FreshTable(t, now, age))
  {
    forall name | name in t ensures ListOk(name, Fresh(t[name], now, age)) {
      FreshOk(name, t[name], now, age);
    }
  }

  lemma StepTables(w: Whole, e: Event, w': Whole)
    requires Step(w, e, w') && TablesOk(w)
    ensures TablesOk(w')
  {
    if e.Housekeeping? {
      FreshKeepsTable(w.core.local, e.now, LOCAL_LIFETIME);
      FreshKeepsTable(w.core.remote, e.now, REMOTE_LIFETIME);
    } else if e.req.kind == INVOKE {
      TouchKeepsOk(w.core.local, e.req.identifier);
      TouchKeepsOk(w.core.remote, e.req.identifier);
    } else if e.req.kind == REGISTER_INVOKE {
      UpsertKeepsTable(w.core.local, Method(e.req.identifier, e.req.source, e.methodGuid, e.at));
    } else if e.req.kind == REGISTRY_EXCHANGE_RESPONSE {
      AdsKeepTable(w.core.remote, e.req.ads, e.at);
    } else {
      assert w'.core.local == w.core.local && w'.core.remote == w.core.remote;
    }
  }

  lemma {:induction false} RunTables(states: seq<Whole>, events: seq<Event>, i: nat)
    requires IsRun(states, events) && IsIdle(states[0]) && i <= |events|
    ensures TablesOk(states[i])
  {
    if i > 0 {
      RunTables(states, events, i - 1);
      StepTables(states[i - 1], events[i - 1], states[i]);
    }
  }

  // ------------------------------------------------------------ every run

  /** Event j is the latest to register the method, and no periodic work since came too late for it. */
  ghost predicate Standing(events: seq<Event>, i: nat, side: Side, name: Name, g: Guid, j: nat)
    requires i <= |events|
  {
    && j < i && Renews(events[j], side, name, g)
    && forall k :: j < k < i ==> !Renews(events[k], side, name, g) &&
                                 (events[k].Housekeeping? ==> events[k].now - events[j].at <= Age(side))
  }

  lemma {:induction false} StandingHas(states: seq<Whole>, events: seq<Event>, i: nat, side: Side, name: Name, g: Guid, j: nat)
    requires IsRun(states, events) && IsIdle(states[0]) && i <= |events| && Standing(events, i, side, name, g, j)
    ensures TimeAt(states[i], side, name, g) == Some(events[j].at)
  {
    var k := i - 1;
    RunTables(states, events, k);
    StepTime(states[k], events[k], states[i], side, name, g);
    if j < k {
      StandingHas(states, events, k, side, name, g, j);
    }
  }

  lemma {:induction false} HasStanding(states: seq<Whole>, events: seq<Event>, i: nat, side: Side, name: Name, g: Guid)
    returns (j: nat)
    requires IsRun(states, events) && IsIdle(states[0]) && i <= |events| && TimeAt(states[i], side, name, g).Some?
    ensures Standing(events, i, side, name, g, j)
  {
    var k := i - 1;
    RunTables(states, events, k);
    StepTime(states[k], events[k], states[i], side, name, g);
    j := k;
    if !Renews(events[k], side, name, g) {
      j := HasStanding(states, events, k, side, name, g);
      StandingHas(states, events, k, side, name, g, j);
    }
  }

  /** A method is in the table exactly when its latest registration has stood up to all periodic work since. */
  lemma RegisteredExactly(states: seq<Whole>, events: seq<Event>, i: nat, side: Side, name: Name, g: Guid)
    requires IsRun(states, events) && IsIdle(states[0]) && i <= |events|
    ensures g in Guids(Get(TableAt(states[i], side), name)) <==> exists j: nat :: Standing(events, i, side, name, g, j)
  {
    TimeIs(Get(TableAt(states[i], side), name), g);
    if TimeAt(states[i], side, name, g).Some? {
      var j := HasStanding(states, events, i, side, name, g);
    }
    forall j: nat | Standing(events, i, side, name, g, j) ensures TimeAt(states[i], side, name, g).Some? {
      StandingHas(states, events, i, side, name, g, j);
    }
  }

  /** That, of every state of a run and every method. */
  ghost predicate TablesExact(states: seq<Whole>, events: seq<Event>)
    requires |states| == |events| + 1
  {
    forall i: nat, side, name, g {:trigger TimeAt(states[i], side, name, g)} :: i <= |events| ==>
      (TimeAt(states[i], side, name, g).Some? <==> exists j: nat :: Standing(events, i, side, name, g, j))
  }

  lemma RunTablesExact(states: seq<Whole>, events: seq<Event>)
    requires IsRun(states, events) && IsIdle(states[0])
    ensures TablesExact(states, events)
  {
    forall i: nat, side, name, g | i <= |events|
      ensures TimeAt(states[i], side, name, g).Some? <==> exists j: nat :: Standing(events, i, side, name, g, j)
    {
      RegisteredExactly(states, events, i, side, name, g);
      TimeIs(Get(TableAt(states[i], side), name), g);
    }
  }

  /** Some registration, not before event j, came no longer before the periodic work of event k than entries are good. */
  ghost predicate InTime(events: seq<Event>, side: Side, name: Name, g: Guid, j: nat, k: nat)
    requires k < |events| && events[k].Housekeeping?
  {
    exists r :: j <= r < k && Renews(events[r], side, name, g) && events[k].now - events[r].at <= Age(side)
                && forall m :: r < m < k ==> !Renews(events[m], side, name, g)
  }

  /** A method whose registration is renewed in time for all periodic work is never dropped. */
  lemma {:induction false} NeverDropped(states: seq<Whole>, events: seq<Event>, i: nat, side: Side, name: Name, g: Guid, j: nat)
    requires IsRun(states, events) && IsIdle(states[0]) && j < i <= |events| && Renews(events[j], side, name, g)
    requires forall k :: j < k < i && events[k].Housekeeping? ==> InTime(events, side, name, g, j, k)
    ensures g in Guids(Get(TableAt(states[i], side), name))
  {
    var k := i - 1;
    RunTables(states, events, k);
    StepTime(states[k], events[k], states[i], side, name, g);
    TimeIs(Get(TableAt(states[i], side), name), g);
    if j < k {
      NeverDropped(states, events, k, side, name, g, j);
      TimeIs(Get(TableAt(states[k], side), name), g);
      var s := HasStanding(states, events, k, side, name, g);
      StandingHas(states, events, k, side, name, g, s);
    }
  }
}
