/** What a proxy publishes in answer to each kind of message, field by field. */
module ProxyPackets {
  import opened ProxyCore
  import opened Registry
  import opened ProxyModel

  /** Exactly this packet was published. */
  ghost predicate Publishes(w: Whole, w': Whole, p: Packet) {
    w'.outbox == w.outbox + [p]
  }

  /** The packet goes to that guid, comes from this proxy, and is of that kind. */
  predicate Sent(w: Whole, p: Packet, to: Guid, kind: Kind) {
    p.topic == to && p.msg.kind == kind && p.msg.source == w.core.guid
  }

  /** A registration is confirmed to the node it came from, under the identifier registered. */
  lemma RegisterPublishes(w: Whole, e: Event, w': Whole) returns (p: Packet)
    requires e.Received? && e.req.kind == REGISTER_INVOKE && Step(w, e, w')
    ensures Publishes(w, w', p) && Sent(w, p, e.req.source, REGISTER_INVOKE_OK)
    ensures p.msg.guidTo == e.req.source && p.msg.identifier == e.req.identifier
  {
    p := Registered(w.core.guid, e.req);
  }

  /** A registry request is answered to the proxy that asked, with exactly the local methods, as this proxy's own. */
  lemma ExchangePublishes(w: Whole, e: Event, w': Whole) returns (p: Packet)
    requires e.Received? && e.req.kind == REGISTRY_EXCHANGE_REQUEST && Step(w, e, w')
    ensures Publishes(w, w', p) && Sent(w, p, e.req.source, REGISTRY_EXCHANGE_RESPONSE)
    ensures forall ad {:trigger ad in p.msg.ads} :: ad in p.msg.ads <==>
              ad.proxyGuid == w.core.guid && ad.methodGuid in Guids(Get(w.core.local, ad.identifier))
  {
    var order :| Enumerates(order, w.core.local.Keys) && w' == Listed(w, e.req, order);
    var ads := Listing(w.core.local, order, w.core.guid);
    p := RegistryReply(w.core.guid, e.req, ads);
    forall ad ensures ad in ads <==>
      ad.proxyGuid == w.core.guid && ad.methodGuid in Guids(Get(w.core.local, ad.identifier))
    {
      ListingExact(w.core.local, order, w.core.guid, ad);
    }
  }

  /** A ping is answered to its sender under its guid, with the quoted word Pong. */
  lemma PingPublishes(w: Whole, e: Event, w': Whole) returns (p: Packet)
    requires e.Received? && e.req.kind == PING && Step(w, e, w')
    ensures Publishes(w, w', p) && Sent(w, p, e.req.source, RESPONSE)
    ensures p.msg.guidTo == e.req.guidFrom && p.msg.payload == [34, 80, 111, 110, 103, 34]
  {
    p := Pong(w.core.guid, e.req);
  }

  /** A publication goes to its channel with its payload, if it has not been passed on before. */
  lemma PublishPublishes(w: Whole, e: Event, w': Whole) returns (p: Packet)
    requires e.Received? && e.req.kind == PUBLISH && Step(w, e, w')
    ensures if e.req.recursion > 0 then w' == w else Publishes(w, w', p)
    ensures Sent(w, p, e.req.identifier, PUBLISH) && p.msg.identifier == e.req.identifier && p.msg.payload == e.req.payload
    ensures p.msg.recursion > 0
  {
    p := Announcement(w.core.guid, e.req);
  }

  /** What one proxy has passed on no proxy passes on again. */
  lemma NeverAgain(w: Whole, e: Event, w': Whole, other: Whole, e': Event, other': Whole)
    requires e.Received? && e.req.kind == PUBLISH && e.req.recursion <= 0 && Step(w, e, w')
    requires e'.Received? && w'.outbox != [] && e'.req == w'.outbox[|w'.outbox| - 1].msg && Step(other, e', other')
    ensures other' == other
  {
    var p := PublishPublishes(w, e, w');
    var again := PublishPublishes(other, e', other');
  }

  /** A message of an unknown kind is answered with an error to the guid it was received from. */
  lemma UnknownPublishes(w: Whole, e: Event, w': Whole) returns (p: Packet)
    requires e.Received? && e.req.kind in {REGISTER_INVOKE_OK, OTHER} && Step(w, e, w')
    ensures Publishes(w, w', p) && Sent(w, p, e.from, ERROR) && p.msg.guidFrom == w.core.guid && p.msg.guidTo == e.req.guidFrom
  {
    p := Refusal(w.core.guid, e.from, e.req);
  }

  /** A response goes to the recorded hop unchanged, or an error to its sender when nobody waits for it. */
  lemma ResponsePublishes(w: Whole, e: Event, w': Whole) returns (p: Packet)
    requires e.Received? && IsResponse(e.req.kind) && Step(w, e, w')
    ensures Publishes(w, w', p)
    ensures if e.req.guidTo in w.core.responses then
              && Sent(w, p, w.core.responses[e.req.guidTo], e.req.kind)
              && p.msg.guidTo == e.req.guidTo && p.msg.guidFrom == e.req.guidFrom && p.msg.payload == e.req.payload
            else
              Sent(w, p, e.from, ERROR) && p.msg.guidTo == e.req.guidFrom
  {
    p := InvokeResponse(w.core, e.req, e.from).1;
  }

  /** A new advertisement is an entry of the advertising proxy, checked now. */
  lemma AdvertisementAdds(t: Table, ad: Ad, now: int)
    requires ad.methodGuid !in Guids(Get(t, ad.identifier))
    ensures Get(UpsertAds(t, [ad], now), ad.identifier)
         == Get(t, ad.identifier) + [Method(ad.identifier, ad.proxyGuid, ad.methodGuid, now)]
  {
    assert [ad][..0] == [];
    UpsertEffect(Get(t, ad.identifier), Advertised(ad, now));
  }
}
