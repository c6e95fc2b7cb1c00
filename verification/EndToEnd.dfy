/** One request and its reply, from submission to the requester's handler. */
module EndToEnd {
  import opened Words
  import opened SessionSpec
  import opened SessionRefinement
  import opened Pdus
  import opened ApduSpec
  import opened Wire

  function ReplyFrame(services: Services, slots: Table, src: Addr, frame: seq<byte>): Option<seq<byte>>
    requires CompleteFrame(frame)
  {
    match ReactToFrame(services, slots, src, frame).reply
    case None => None
    case Some(apdu) => Some(Frame(apdu))
  }

  /** A framed request makes its receiver reply with the same flag, service and session, and touch no
      session of its own. */
  lemma ReplyEchoesRequest(services: Services, slots: Table, src: Addr, d: ApduData, id: byte)
    requires !d.confirmed ==> id == 0
    ensures var p, frame := RequestPdu(d, id), Frame(Encode(RequestPdu(d, id)));
      && CompleteFrame(frame)
      && ReactToFrame(services, slots, src, frame).slots == slots
      && ReplyFrame(services, slots, src, frame)
         == Some(Frame(Encode(ReplyTo(p, Serve(services, src, p.service, d.payload)))))
  {
    var p := RequestPdu(d, id);
    DecodeEncode(p);
    assert Frame(Encode(p))[1..] == Encode(p);
  }

  /** What the requester makes of any framed reply to a request with this id. */
  lemma ReplyReceived(services: Services, slots: Table, src: Addr, p: Pdu, a: Answer)
    requires p.WellFormed() && p.kind == REQUEST
    ensures var r, frame := ReplyTo(p, a), Frame(Encode(ReplyTo(p, a)));
      && CompleteFrame(frame) && frame[0] == PROTOCOL_VERSION && Decode(frame[1..]) == Some(r)
      && ReactToFrame(services, slots, src, frame) == React(services, slots, src, Encode(r))
  {
    var r := ReplyTo(p, a);
    DecodeEncode(r);
    assert Frame(Encode(r))[1..] == Encode(r);
  }

  /** End to end: when the service accepts a confirmed request, and its reply arrives while the session
      is active, that one session ends, every other slot stays as it was, and the requester's handler
      gets exactly the service's data with exactly that session; unless there is no data or no such
      handler, when the session ends without a call. */
  lemma RequestReplyRoundTrip(limits: Limits, st: Sessions, owner: nat, dst: Addr, d: ApduData,
                              server: Services, serverSlots: Table, me: Addr,
                              client: Services, slots: Table, src: Addr, data: seq<byte>)
    requires d.confirmed && Submit(limits, st, owner, dst, d).id != 0
    requires Serve(server, me, d.service % 256, d.payload) == Answer(0, data)
    requires Consistent(limits, slots) && Lookup(slots, Submit(limits, st, owner, dst, d).id).Some?
    ensures var sub := Submit(limits, st, owner, dst, d);
      var request := Frame(sub.apdu.value);
      && CompleteFrame(request)
      && var reply := ReplyFrame(server, serverSlots, me, request);
      && reply.Some? && CompleteFrame(reply.value)
      && var r := ReactToFrame(client, slots, src, reply.value);
      && r.ret == 0 && r.reply == None
      && (if data != [] && d.service % 256 in client && client[d.service % 256].onResponse then
            r.calls == [OnResponse(src, d.service % 256, Lookup(slots, sub.id), data)]
          else r.calls == [])
      && Lookup(r.slots, sub.id) == None
      && forall i | 0 <= i < MAX_SESSIONS && slots[i].id != sub.id :: r.slots[i] == slots[i]
  {
    var sub := Submit(limits, st, owner, dst, d);
    var p := RequestPdu(d, sub.id);
    ReplyEchoesRequest(server, serverSlots, me, d, sub.id);
    ReplyReceived(client, slots, src, p, Answer(0, data));
    LookupAfterUpdate(slots, IndexOf(slots, sub.id), Released(slots[IndexOf(slots, sub.id)]), sub.id);
  }

  /** A refused request comes back as an error call with the status modulo 256, which reads as 0
      exactly when the status is a multiple of 256. */
  lemma RefusalRoundTrip(server: Services, serverSlots: Table, me: Addr, client: Services, slots: Table, src: Addr,
                         d: ApduData, id: byte, status: int, data: seq<byte>)
    requires d.confirmed
    requires Serve(server, me, d.service % 256, d.payload) == Answer(status, data) && status != 0
    requires d.service % 256 in client && client[d.service % 256].onError
    ensures var request := Frame(Encode(RequestPdu(d, id)));
      && CompleteFrame(request)
      && var reply := ReplyFrame(server, serverSlots, me, request);
      && reply.Some? && CompleteFrame(reply.value)
      && var r := ReactToFrame(client, slots, src, reply.value);
      && r.calls == [OnError(src, d.service % 256, status % 256, Lookup(slots, id))]
      && r.slots == Clear(slots, id)
      && (r.calls[0].status == 0 <==> exists k :: status == 256 * k)
  {
    ReplyEchoesRequest(server, serverSlots, me, d, id);
    ReplyReceived(client, slots, src, RequestPdu(d, id), Answer(status, data));
    assert status == 256 * (status / 256) + status % 256;
  }

  /** The final timeout callback gets back the service and the payload that were submitted. */
  lemma TimeoutGetsOriginalRequest(services: Services, d: ApduData, e: Event, id: byte)
    requires d.confirmed && e.Expired? && e.notify && e.pdu == Encode(RequestPdu(d, id))
    requires d.service % 256 in services && services[d.service % 256].onTimeout
    ensures |e.pdu| >= 4 && TimeoutCalls(services, e) == [OnTimeout(e.dest, d.service % 256, d.payload)]
  {
    assert e.pdu[4..] == d.payload;
  }

  /** A reply is matched by its session id alone: neither its source address nor which request it
      answers plays a part, so a late reply to an earlier holder of the id ends this one, and this one's
      session is handed over with that answer. */
  lemma LateReplyIsAccepted(services: Services, slots: Table, src: Addr, stale: Pdu, a: Answer, id: Id)
    requires stale.WellFormed() && stale.kind == REQUEST && HasSession(stale.flag) && stale.session == id
    requires Lookup(slots, id).Some?
    ensures var frame := Frame(Encode(ReplyTo(stale, a)));
      && CompleteFrame(frame)
      && var r := ReactToFrame(services, slots, src, frame);
      && r.slots == Clear(slots, id)
      && r.calls ==
         if a.status != 0 then
           if stale.service in services && services[stale.service].onError then
             [OnError(src, stale.service, a.status % 256, Lookup(slots, id))]
           else []
         else if a.data != [] && stale.service in services && services[stale.service].onResponse then
           [OnResponse(src, stale.service, Lookup(slots, id), a.data)]
         else []
  {
    ReplyReceived(services, slots, src, stale, a);
  }

  // ----- every request, served or not, confirmed or not

  /** The session a reply is handed over with, and the table it leaves. */
  function Matched(d: ApduData, slots: Table, id: byte): Option<Session> {
    if d.confirmed then Lookup(slots, id) else None
  }

  function Errors(client: Services, src: Addr, d: ApduData, status: byte, session: Option<Session>): seq<Callback> {
    var service := d.service % 256;
    if service in client && client[service].onError then [OnError(src, service, status, session)] else []
  }

  function Responses(client: Services, src: Addr, d: ApduData, data: seq<byte>, session: Option<Session>):
    seq<Callback>
  {
    var service := d.service % 256;
    if data != [] && service in client && client[service].onResponse then [OnResponse(src, service, session, data)]
    else []
  }

  /** What the requester is told: 234 for an empty request, 254 for a service the server does not have, and
      otherwise what the server's handler made of exactly the requester's address and payload. */
  function Told(server: Services, me: Addr, client: Services, src: Addr, d: ApduData, session: Option<Session>):
    seq<Callback>
  {
    var service := d.service % 256;
    if d.payload == [] then Errors(client, src, d, 234, session)
    else if service !in server then Errors(client, src, d, 254, session)
    else
      var a := server[service].request(me, d.payload);
      if a.status != 0 then Errors(client, src, d, a.status % 256, session)
      else Responses(client, src, d, a.data, session)
  }

  /** Any request, framed, served and its reply received: the requester is told exactly that, and of its
      sessions only that of a confirmed request changes: it ends. */
  lemma AnyRequestRoundTrip(server: Services, serverSlots: Table, me: Addr, client: Services, slots: Table, src: Addr,
                            d: ApduData, id: byte)
    requires !d.confirmed ==> id == 0
    ensures var request := Frame(Encode(RequestPdu(d, id)));
      && CompleteFrame(request)
      && var reply := ReplyFrame(server, serverSlots, me, request);
      && reply.Some? && CompleteFrame(reply.value)
      && ReactToFrame(client, slots, src, reply.value)
         == Reaction(0, None, Told(server, me, client, src, d, Matched(d, slots, id)),
                     if d.confirmed then Clear(slots, id) else slots)
  {
    RequestIsServed(server, serverSlots, me, d, id);
    var flag: byte, service: byte := if d.confirmed then 1 else 0, d.service % 256;
    var reply := Answered(server, me, flag, service, id, d.payload);
    if d.payload == [] {
      RefusalReceived(client, slots, src, d, id, 234, reply);
    } else if service !in server {
      RefusalReceived(client, slots, src, d, id, 254, reply);
    } else if server[service].request(me, d.payload).status != 0 {
      RefusalReceived(client, slots, src, d, id, server[service].request(me, d.payload).status % 256, reply);
    } else {
      DataReceived(client, slots, src, d, id, server[service].request(me, d.payload).data, reply);
    }
  }

  lemma RequestIsServed(server: Services, serverSlots: Table, me: Addr, d: ApduData, id: byte)
    ensures var request, flag: byte := Frame(Encode(RequestPdu(d, id))), if d.confirmed then 1 else 0;
      && CompleteFrame(request)
      && ReplyFrame(server, serverSlots, me, request)
         == Some(Frame(Answered(server, me, flag, d.service % 256, id, d.payload)))
  {
    var flag: byte := if d.confirmed then 1 else 0;
    RequestOnWire(d, id);
    assert Frame(Encode(RequestPdu(d, id))) == Message(flag, 0, d.service % 256, id, d.payload);
    RequestFrame(server, serverSlots, me, flag, d.service % 256, id, d.payload);
  }

  lemma RefusalReceived(client: Services, slots: Table, src: Addr, d: ApduData, id: byte, status: byte,
                        reply: seq<byte>)
    requires var flag: byte := if d.confirmed then 1 else 0;
      reply == [flag, 2, d.service % 256] + Tag(flag, id) + [status]
    ensures CompleteFrame(Frame(reply))
    ensures ReactToFrame(client, slots, src, Frame(reply))
         == Reaction(0, None, Errors(client, src, d, status, Matched(d, slots, id)),
                     if d.confirmed then Clear(slots, id) else slots)
  {
    var flag: byte := if d.confirmed then 1 else 0;
    assert Frame(reply) == Message(flag, 2, d.service % 256, id, [status]);
    ErrorFrame(client, slots, src, flag, d.service % 256, id, [status]);
  }

  lemma DataReceived(client: Services, slots: Table, src: Addr, d: ApduData, id: byte, data: seq<byte>,
                     reply: seq<byte>)
    requires var flag: byte := if d.confirmed then 1 else 0;
      reply == [flag, 1, d.service % 256] + Tag(flag, id) + data
    ensures CompleteFrame(Frame(reply))
    ensures ReactToFrame(client, slots, src, Frame(reply))
         == Reaction(0, None, Responses(client, src, d, data, Matched(d, slots, id)),
                     if d.confirmed then Clear(slots, id) else slots)
  {
    var flag: byte := if d.confirmed then 1 else 0;
    assert Frame(reply) == Message(flag, 1, d.service % 256, id, data);
    ResponseFrame(client, slots, src, flag, d.service % 256, id, data);
  }

  /** An unconfirmed request takes no session, and its reply reaches the response or the error handler without
      one, leaving the requester's sessions alone. */
  lemma UnconfirmedRoundTrip(limits: Limits, st: Sessions, owner: nat, dst: Addr, d: ApduData,
                             server: Services, serverSlots: Table, me: Addr,
                             client: Services, slots: Table, src: Addr)
    requires !d.confirmed
    ensures var sub := Submit(limits, st, owner, dst, d);
      && sub.next == st && sub.id == 0 && sub.apdu.Some?
      && var request := Frame(sub.apdu.value);
      && CompleteFrame(request)
      && var reply := ReplyFrame(server, serverSlots, me, request);
      && reply.Some? && CompleteFrame(reply.value)
      && var r := ReactToFrame(client, slots, src, reply.value);
      && r.slots == slots && r.calls == Told(server, me, client, src, d, None)
  {
    AnyRequestRoundTrip(server, serverSlots, me, client, slots, src, d, 0);
  }

  /** A request nobody serves comes back as an error: 254 for an unknown service, 234 without a payload. */
  lemma UnservedRequest(server: Services, serverSlots: Table, me: Addr, client: Services, slots: Table, src: Addr,
                        d: ApduData, id: byte)
    requires (!d.confirmed ==> id == 0) && (d.payload == [] || d.service % 256 !in server)
    requires d.service % 256 in client && client[d.service % 256].onError
    ensures var request := Frame(Encode(RequestPdu(d, id)));
      && CompleteFrame(request)
      && var reply := ReplyFrame(server, serverSlots, me, request);
      && reply.Some? && CompleteFrame(reply.value)
      && ReactToFrame(client, slots, src, reply.value).calls
         == [OnError(src, d.service % 256, if d.payload == [] then 234 else 254, Matched(d, slots, id))]
  {
    AnyRequestRoundTrip(server, serverSlots, me, client, slots, src, d, id);
  }
}
