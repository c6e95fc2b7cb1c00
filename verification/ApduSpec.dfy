/** What core/apdu.c and core/npdu.c make of a message, as values: dispatch to services, replies, and
    the effect on the session table. */
module ApduSpec {
  import opened Words
  import opened SessionSpec
  import opened Pdus

  /** A request handler's return value and the bytes it leaves in its service_data. */
  datatype Answer = Answer(status: int, data: seq<byte>)

  /** A registered service: its request handler, and which other handlers it has. */
  datatype Service = Service(request: (Addr, seq<byte>) -> Answer, onResponse: bool, onError: bool, onTimeout: bool)

  type Services = map<int, Service>

  /** Request handlers stay within the space left for their answers. */
  ghost predicate WithinBlock(services: Services) {
    forall id, a, d | id in services :: |services[id].request(a, d).data| <= MAX_APDU - 4
  }

  /** Calls made into the application. */
  datatype Callback =
    | OnResponse(src: Addr, service: byte, session: Option<Session>, data: seq<byte>)
    | OnError(src: Addr, service: byte, status: byte, session: Option<Session>)
    | OnTimeout(dest: Addr, service: byte, data: seq<byte>)

  function Serve(services: Services, src: Addr, service: byte, data: seq<byte>): Answer {
    if data == [] then Answer(-EINVAL, [])
    else if service !in services then Answer(-ENOENT, [])
    else services[service].request(src, data)
  }

  /** The reply to a request keeps its flag, service and session; an error carries the status modulo 256. */
  function ReplyTo(p: Pdu, a: Answer): Pdu {
    if a.status != 0 then Pdu(p.flag, ERROR, p.service, p.session, [a.status % 256])
    else Pdu(p.flag, RESPONSE, p.service, p.session, a.data)
  }

  function ResponseCalls(services: Services, slots: Table, src: Addr, p: Pdu): seq<Callback> {
    if p.payload != [] && p.service in services && services[p.service].onResponse then
      [OnResponse(src, p.service, Lookup(slots, p.session), p.payload)]
    else []
  }

  function ErrorCalls(services: Services, slots: Table, src: Addr, p: Pdu): seq<Callback>
    requires p.payload != []
  {
    if p.service in services && services[p.service].onError then
      [OnError(src, p.service, p.payload[0], Lookup(slots, p.session))]
    else []
  }

  /** ret is the handler's result before any reply is submitted; reply is the APDU to submit. */
  datatype Reaction = Reaction(ret: int, reply: Option<seq<byte>>, calls: seq<Callback>, slots: Table)

  /** apdu_handler. */
  function React(services: Services, slots: Table, src: Addr, apdu: seq<byte>): Reaction
    requires Complete(apdu)
  {
    match Decode(apdu)
    case None => Reaction(-EPROTO, None, [], slots)
    case Some(p) =>
      var cleared := if HasSession(p.flag) then Clear(slots, p.session) else slots;
      if p.kind == REQUEST then
        Reaction(0, Some(Encode(ReplyTo(p, Serve(services, src, p.service, p.payload)))), [], slots)
      else if p.kind == RESPONSE then
        Reaction(0, None, ResponseCalls(services, slots, src, p), cleared)
      else if p.kind == ERROR then
        Reaction(0, None, ErrorCalls(services, slots, src, p), cleared)
      else if p.kind == REJECT then Reaction(0, None, [], cleared)
      else Reaction(0, None, [], slots)
  }

  predicate CompleteFrame(frame: seq<byte>) {
    frame != [] && (frame[0] == PROTOCOL_VERSION && |frame| > 1 ==> Complete(frame[1..]))
  }

  /** npdu_handler. */
  function ReactToFrame(services: Services, slots: Table, src: Addr, frame: seq<byte>): Reaction
    requires CompleteFrame(frame)
  {
    if frame[0] != PROTOCOL_VERSION then Reaction(-EPROTO, None, [], slots)
    else if |frame| == 1 then Reaction(0, None, [], slots)
    else React(services, slots, src, frame[1..])
  }

  lemma RepliesFit(services: Services, slots: Table, src: Addr, frame: seq<byte>)
    requires CompleteFrame(frame) && WithinBlock(services)
    ensures var r := ReactToFrame(services, slots, src, frame).reply;
      r.Some? ==> 0 < |r.value| <= MAX_APDU
  {
  }

  /** The data link's return code for a framed message. */
  type Link = (Addr, seq<byte>) -> int

  /** struct apdu_data. */
  datatype ApduData = ApduData(service: int, confirmed: bool, payload: seq<byte>)

  function RequestPdu(d: ApduData, id: byte): Pdu {
    if d.confirmed then Pdu(1, REQUEST, d.service % 256, id, d.payload)
    else Pdu(0, REQUEST, d.service % 256, 0, d.payload)
  }

  /** next is the state after the attempt; apdu is what to send, None while no session is free and
      the caller keeps waiting; id is the session, 0 for an unconfirmed request. */
  datatype Submission = Submission(next: Sessions, apdu: Option<seq<byte>>, id: byte)

  /** umtp_apdu_submit, one turn of its wait for a free session. */
  function Submit(limits: Limits, st: Sessions, owner: nat, dst: Addr, d: ApduData): Submission {
    if !d.confirmed then Submission(st, Some(Encode(RequestPdu(d, 0))), 0)
    else
      var Reservation(st1, id) := Reserve(limits, st);
      if id == 0 then Submission(st1, None, 0)
      else
        var apdu := Encode(RequestPdu(d, id));
        Submission(st1.(slots := Set(limits, st1.slots, id, true, owner, dst, apdu)), Some(apdu), id)
  }

  /** apdu_timeout_handler: reads the service and the payload back out of a confirmed request. */
  function TimeoutCalls(services: Services, e: Event): seq<Callback>
    requires e.Expired? && e.notify ==> |e.pdu| >= 4
  {
    if e.Expired? && e.notify && e.pdu[2] in services && services[e.pdu[2]].onTimeout then
      [OnTimeout(e.dest, e.pdu[2], e.pdu[4..])]
    else []
  }
}
