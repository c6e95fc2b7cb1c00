/** The protocol byte by byte: what is on the wire for every message, and what a receiver makes of every frame. */
module Wire {
  import opened Words
  import opened SessionSpec
  import opened Pdus
  import opened ApduSpec

  /** The session byte of a message whose flag byte is odd. */
  function Tag(flag: byte, session: byte): seq<byte> {
    if flag % 2 == 1 then [session] else []
  }

  function Message(flag: byte, kind: byte, service: byte, session: byte, payload: seq<byte>): seq<byte> {
    [1, flag, kind, service] + Tag(flag, session) + payload
  }

  /** A framed request: version 1, flag 1 if a reply is to be matched, type 0, the service's low byte, the
      session id if any, the payload. */
  lemma RequestOnWire(d: ApduData, id: byte)
    ensures Frame(Encode(RequestPdu(d, id)))
         == if d.confirmed then [1, 1, 0, d.service % 256, id] + d.payload else [1, 0, 0, d.service % 256] + d.payload
  {
  }

  lemma MessageDecodes(flag: byte, kind: byte, service: byte, session: byte, payload: seq<byte>)
    requires kind == 2 ==> payload != []
    ensures var frame := Message(flag, kind, service, session, payload);
      && CompleteFrame(frame) && frame[0] == PROTOCOL_VERSION && |frame| > 1
      && Decode(frame[1..])
         == if kind >= 4 then None
            else Some(Pdu(flag, kind, service, if flag % 2 == 1 then session else 0, payload))
  {
    var apdu := Message(flag, kind, service, session, payload)[1..];
    assert apdu == [flag, kind, service] + Tag(flag, session) + payload;
    assert apdu[HeaderSize(flag)..] == payload;
  }

  /** What a server answers: 234 and 254 are -EINVAL and -ENOENT in one byte. */
  function Answered(services: Services, src: Addr, flag: byte, service: byte, session: byte, payload: seq<byte>):
    seq<byte>
  {
    var header := (kind: byte) => [flag, kind, service] + Tag(flag, session);
    if payload == [] then header(2) + [234]
    else if service !in services then header(2) + [254]
    else
      var a := services[service].request(src, payload);
      if a.status != 0 then header(2) + [a.status % 256] else header(1) + a.data
  }

  /** A request is answered, by the registered handler's answer to exactly its sender and payload or by an
      error, and has no other effect. */
  lemma RequestFrame(services: Services, slots: Table, src: Addr, flag: byte, service: byte, session: byte,
                     payload: seq<byte>)
    ensures var frame := Message(flag, 0, service, session, payload);
      CompleteFrame(frame)
      && ReactToFrame(services, slots, src, frame)
         == Reaction(0, Some(Answered(services, src, flag, service, session, payload)), [], slots)
  {
    MessageDecodes(flag, 0, service, session, payload);
    var p := Pdu(flag, REQUEST, service, if flag % 2 == 1 then session else 0, payload);
    assert Encode(ReplyTo(p, Serve(services, src, service, payload)))
        == Answered(services, src, flag, service, session, payload);
  }

  /** A response with data reaches the service's response handler, with the session its id names or with none,
      and ends that session. */
  lemma ResponseFrame(services: Services, slots: Table, src: Addr, flag: byte, service: byte, session: byte,
                      data: seq<byte>)
    ensures var frame, odd := Message(flag, 1, service, session, data), flag % 2 == 1;
      && CompleteFrame(frame)
      && ReactToFrame(services, slots, src, frame)
         == Reaction(0, None,
                     if data != [] && service in services && services[service].onResponse then
                       [OnResponse(src, service, if odd then Lookup(slots, session) else None, data)]
                     else [],
                     if odd then Clear(slots, session) else slots)
  {
    MessageDecodes(flag, 1, service, session, data);
  }

  /** An error reaches the service's error handler with its first payload byte, likewise. */
  lemma ErrorFrame(services: Services, slots: Table, src: Addr, flag: byte, service: byte, session: byte,
                   payload: seq<byte>)
    requires payload != []
    ensures var frame, odd := Message(flag, 2, service, session, payload), flag % 2 == 1;
      && CompleteFrame(frame)
      && ReactToFrame(services, slots, src, frame)
         == Reaction(0, None,
                     if service in services && services[service].onError then
                       [OnError(src, service, payload[0], if odd then Lookup(slots, session) else None)]
                     else [],
                     if odd then Clear(slots, session) else slots)
  {
    MessageDecodes(flag, 2, service, session, payload);
  }

  /** A reject ends the session without a call; any other type, and any other version, is refused with -EPROTO
      and has no effect; nothing after the version byte is no message. */
  lemma OtherFrames(services: Services, slots: Table, src: Addr, flag: byte, kind: byte, service: byte,
                    session: byte, payload: seq<byte>, frame: seq<byte>)
    requires kind >= 3 && frame != [] && (frame[0] != 1 || |frame| == 1)
    ensures var m := Message(flag, kind, service, session, payload);
      && CompleteFrame(m) && CompleteFrame(frame)
      && ReactToFrame(services, slots, src, m)
         == (if kind >= 4 then Reaction(-71, None, [], slots)
             else Reaction(0, None, [], if flag % 2 == 1 then Clear(slots, session) else slots))
      && ReactToFrame(services, slots, src, frame)
         == (if frame[0] != 1 then Reaction(-71, None, [], slots) else Reaction(0, None, [], slots))
  {
    MessageDecodes(flag, kind, service, session, payload);
  }

  /** There is no other frame, but for those of an unknown type that are too short to name a service. */
  lemma FrameForms(frame: seq<byte>)
    requires CompleteFrame(frame)
    ensures frame[0] != 1 || |frame| == 1 || frame[2] >= 4
         || exists flag: byte, kind: byte, service: byte, session: byte, payload: seq<byte> ::
              frame == Message(flag, kind, service, session, payload) && kind < 4 && (kind == 2 ==> payload != [])
  {
    if frame[0] == 1 && |frame| > 1 && frame[2] < 4 {
      var flag, apdu := frame[1], frame[1..];
      var n := HeaderSize(flag);
      var session: byte := if n == 4 then frame[4] else 0;
      var payload := apdu[n..];
      assert frame == Message(flag, frame[2], frame[3], session, payload);
    }
  }
}
