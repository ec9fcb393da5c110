/** The topic framing of publisher.cc and subscriber.cc. */
module Framing {
  import opened Bytes
  import opened Codec
  import opened CodecRoundTrip
  import opened CodecWriter
  import Format

  /** Publisher::Publish: the topic, a tab, and the command. */
  method Publish(topic: bytes, m: Command) returns (msg: bytes)
    requires CommandOk(m)
    ensures msg == topic + [9] + Serialize(m)
  {
    var size := ByteSize(m);
    var body := SerializeToArray(m);
    msg := Frame(topic, body, size);
  }

  /** The buffer is allocated for the size announced and filled exactly. */
  method Frame(topic: bytes, body: bytes, size: nat) returns (msg: bytes)
    requires size == |body|
    ensures msg == topic + [TAB] + body
  {
    var buffer := new byte[size + |topic| + 1];
    var bb := Format.Write(buffer, 0, topic);
    bb := Format.Write(buffer, bb, [TAB]);
    bb := Format.Write(buffer, bb, body);
    msg := buffer[..];
    assert msg == buffer[..bb];
  }

  /** The part of a message behind its first tab. */
  function Body(msg: bytes): Option<bytes> {
    if msg == [] then None
    else if msg[0] == TAB then Some(msg[1..])
    else Body(msg[1..])
  }

  /** What a subscriber gets out of a message: the command behind the first tab, addressed to itself. */
  function Received(msg: bytes, guid: bytes): Option<Command> {
    match Body(msg)
    case None => None
    case Some(body) =>
      match ParseFromArray(body)
      case None => None
      case Some(m) => Some(m.(targetProxyGuid := Some(guid)))
  }

  /** Subscriber::Poll on a received message; None when there is no command in it. */
  method Poll(msg: bytes, guid: bytes) returns (r: Option<Command>)
    ensures r == Received(msg, guid)
  {
    if |msg| < 1 {
      return None;
    }
    var index, found := 0, false;
    while !found
      invariant 0 <= index <= |msg|
      invariant if found then Body(msg) == Some(msg[index..]) else Body(msg) == Body(msg[index..])
      decreases !found, |msg| - index
    {
      if index >= |msg| {
        return None;
      }
      if msg[index] == TAB {
        found := true;
      }
      assert msg[index..][1..] == msg[index + 1..];
      index := index + 1;
    }
    var parsed := MergePartialFromCodedStream(msg[index..], NO_COMMAND);
    if parsed.None? || !Initialized(parsed.value) {
      return None;
    }
    return Some(parsed.value.(targetProxyGuid := Some(guid)));
  }

  lemma {:induction false} BodyBehindTopic(topic: bytes, rest: bytes)
    requires TAB !in topic
    ensures Body(topic + [TAB] + rest) == Some(rest)
  {
    var msg := topic + [TAB] + rest;
    if topic == [] {
      assert msg[1..] == rest;
    } else {
      BodyBehindTopic(topic[1..], rest);
      assert msg[1..] == topic[1..] + [TAB] + rest;
    }
  }

  lemma {:induction false} BodyBehindTab(topic: bytes, rest: bytes)
    requires TAB in topic
    ensures Body(topic + rest).Some? && |Body(topic + rest).value| >= |rest|
  {
    if topic[0] == TAB {
      assert (topic + rest)[1..] == topic[1..] + rest;
    } else {
      BodyBehindTab(topic[1..], rest);
      assert (topic + rest)[1..] == topic[1..] + rest;
    }
  }

  /** The receiver finds the serialization again exactly when the topic contains no tab. */
  lemma FramingExact(topic: bytes, m: Command)
    ensures Body(topic + [9] + Serialize(m)) == Some(Serialize(m)) <==> 9 !in topic
  {
    if TAB in topic {
      BodyBehindTab(topic, [TAB] + Serialize(m));
      Regroup(topic, [TAB], Serialize(m));
    } else {
      BodyBehindTopic(topic, Serialize(m));
    }
  }

  /** The fields the schema requires: three of the command, and all four of every registry entry. */
  ghost predicate Complete(m: Command) {
    && m.cmd != None && m.sourceProxyGuid != None && m.payload != None
    && forall i :: 0 <= i < |m.regEntries| ==>
         var e := m.regEntries[i]; e.kind != None && e.identifier != None && e.methodGuid != None && e.proxyGuid != None
  }

  /** A serialized command is accepted exactly when it has the fields the schema requires; its number is 1 to 14. */
  lemma CompleteComesBack(m: Command)
    requires CommandOk(m)
    ensures ParseFromArray(Serialize(m)) == (if Complete(m) then Some(m) else None)
    ensures m.cmd != None ==> 1 <= m.cmd.value <= 14
  {
    RoundTrip(m);
  }

  /**
   What is published under a topic without a tab is what a subscriber gets, addressed to the subscriber; a command
   that lacks a required field is refused.
   */
  lemma PublishPoll(topic: bytes, m: Command, guid: bytes)
    requires CommandOk(m) && 9 !in topic
    ensures Received(topic + [9] + Serialize(m), guid) == if Complete(m) then Some(m.(targetProxyGuid := Some(guid))) else None
  {
    FramingExact(topic, m);
    CompleteComesBack(m);
  }

  /** Through both loops: published, transported and polled. */
  method SendAndReceive(topic: bytes, m: Command, guid: bytes) returns (r: Option<Command>)
    requires CommandOk(m) && 9 !in topic
    ensures r == if Complete(m) then Some(m.(targetProxyGuid := Some(guid))) else None
  {
    PublishPoll(topic, m, guid);
    var msg := Publish(topic, m);
    r := Poll(msg, guid);
  }

  /**
   What a proxy publishes has a number, its own guid and a payload, and complete registry entries if any. It arrives
   whole, whichever of the identifier and the guids are set.
   */
  method SendFromProxy(topic: bytes, cmd: int, source: bytes, payload: bytes, identifier: Option<bytes>,
                       guidFrom: Option<bytes>, guidTo: Option<bytes>, recursion: Option<int>, entries: seq<Entry>, guid: bytes)
    returns (r: Option<Command>)
    requires 1 <= cmd <= 14 && |source| < 0x8000_0000 && |payload| < 0x8000_0000 && 9 !in topic
    requires Short(identifier) && Short(guidFrom) && Short(guidTo) && Int32(recursion)
    requires forall i :: 0 <= i < |entries| ==> EntryOk(entries[i])
    requires forall i :: 0 <= i < |entries| ==>
               var e := entries[i]; e.kind != None && e.identifier != None && e.methodGuid != None && e.proxyGuid != None
    ensures r == Some(Command(Some(cmd), Some(source), Some(payload), Some(guid), identifier, guidFrom, guidTo, recursion,
                              None, None, entries, []))
  {
    r := SendAndReceive(topic, Command(Some(cmd), Some(source), Some(payload), None, identifier, guidFrom, guidTo, recursion,
                                       None, None, entries, []), guid);
  }
}
