/** A requester and a responder on a network that loses, duplicates and reorders: anything ever sent
    may be delivered at any time, any number of times, or never. */
module Network {
  import opened Words
  import opened SessionSpec
  import opened SessionRefinement
  import opened Pdus
  import opened ApduSpec
  import opened EndToEnd
  import opened Incarnations

  /** The responder: its services, its session table (which requests never touch), and the requester's
      address as the responder sees it. */
  datatype Responder = Responder(services: Services, slots: Table, peer: Addr)

  datatype System = System(client: Node, toServer: set<seq<byte>>, toClient: set<seq<byte>>)

  datatype Move =
    | Submits(owner: nat, dest: Addr, data: ApduData)
    | Ticks(ms: nat)
    | Serves(frame: seq<byte>)              // the responder receives something from toServer
    | Delivers(src: Addr, frame: seq<byte>) // the requester receives something from toClient

  function Start(): System {
    System(Incarnations.Initial(), {}, {})
  }

  function Submitted(cfg: Config, nd: Node, owner: nat, dest: Addr, d: ApduData): set<seq<byte>> {
    match Submit(cfg.limits, nd.st, owner, dest, d).apdu
    case None => {}
    case Some(apdu) => {Frame(apdu)}
  }

  function Resends(events: seq<Event>): set<seq<byte>> {
    set e | e in events && e.Resent? :: Frame(e.pdu)
  }

  function Answers(srv: Responder, frame: seq<byte>): set<seq<byte>> {
    if !CompleteFrame(frame) then {}
    else
      match ReplyFrame(srv.services, srv.slots, srv.peer, frame)
      case None => {}
      case Some(reply) => {reply}
  }

  function Advance(cfg: Config, srv: Responder, s: System, m: Move): System {
    match m
    case Submits(owner, dest, d) =>
      s.(client := Step(cfg, s.client, Send(owner, dest, d)),
         toServer := s.toServer + Submitted(cfg, s.client, owner, dest, d))
    case Ticks(ms) =>
      s.(client := Step(cfg, s.client, Tick(ms)),
         toServer := s.toServer + Resends(TickEvents(cfg.limits, s.client.st.slots, ms, MAX_SESSIONS)))
    case Serves(frame) =>
      if frame in s.toServer then s.(toClient := s.toClient + Answers(srv, frame)) else s
    case Delivers(src, frame) =>
      if frame in s.toClient then s.(client := Step(cfg, s.client, Receive(src, frame))) else s
  }

  // ----- provenance

  function AnswerTo(srv: Responder, d: ApduData): Answer {
    Serve(srv.services, srv.peer, d.service % 256, d.payload)
  }

  function ReplyBytes(srv: Responder, d: ApduData, id: byte): seq<byte> {
    Frame(Encode(ReplyTo(RequestPdu(d, id), AnswerTo(srv, d))))
  }

  /** d was submitted under this id: confirmed, as some incarnation, or unconfirmed. */
  ghost predicate WasSubmitted(born: seq<Request>, d: ApduData, id: byte) {
    if d.confirmed then exists k :: 0 <= k < |born| && born[k].id == id && born[k].data == d
    else id == 0
  }

  ghost predicate FromClient(born: seq<Request>, frame: seq<byte>) {
    exists d: ApduData, id: byte :: WasSubmitted(born, d, id) && frame == Frame(Encode(RequestPdu(d, id)))
  }

  ghost predicate FromServer(srv: Responder, born: seq<Request>, frame: seq<byte>) {
    exists d: ApduData, id: byte :: WasSubmitted(born, d, id) && frame == ReplyBytes(srv, d, id)
  }

  /** The call made for incarnation n is the responder's own answer to incarnation k, which had the
      same session id and was not submitted later. */
  ghost predicate Answered(srv: Responder, born: seq<Request>, n: nat, k: nat, c: Callback) {
    k <= n < |born| && born[k].id == born[n].id && Reports(srv, born[k].data, c)
  }

  /** The call carries the responder's answer to d: its data, or its status modulo 256. */
  ghost predicate Reports(srv: Responder, d: ApduData, c: Callback) {
    var a := AnswerTo(srv, d);
    match c
    case OnResponse(_, service, _, data) => service == d.service % 256 && a == Answer(0, data)
    case OnError(_, service, status, _) => service == d.service % 256 && a.status != 0 && status == a.status % 256
    case OnTimeout(_, _, _) => false
  }

  predicate IsReply(e: Entry) {
    e.Call? && !e.callback.OnTimeout?
  }

  ghost predicate Justified(srv: Responder, born: seq<Request>, e: Entry) {
    IsReply(e) ==> exists k :: Answered(srv, born, e.n, k, e.callback)
  }

  ghost predicate SystemInv(cfg: Config, srv: Responder, s: System) {
    && Inv(cfg, s.client)
    && (forall f | f in s.toServer :: FromClient(s.client.born, f))
    && (forall f | f in s.toClient :: FromServer(srv, s.client.born, f))
    && (forall i | 0 <= i < |s.client.log| :: Justified(srv, s.client.born, s.client.log[i]))
  }

  lemma SubmittedMonotone(born: seq<Request>, more: seq<Request>, d: ApduData, id: byte)
    requires born <= more && WasSubmitted(born, d, id)
    ensures WasSubmitted(more, d, id)
  {
    if d.confirmed {
      var k :| 0 <= k < |born| && born[k].id == id && born[k].data == d;
      assert more[k] == born[k];
    }
  }

  lemma WiresMonotone(srv: Responder, s: System, more: seq<Request>)
    requires s.client.born <= more
    requires forall f | f in s.toServer :: FromClient(s.client.born, f)
    requires forall f | f in s.toClient :: FromServer(srv, s.client.born, f)
    requires forall i | 0 <= i < |s.client.log| :: Justified(srv, s.client.born, s.client.log[i])
    ensures forall f | f in s.toServer :: FromClient(more, f)
    ensures forall f | f in s.toClient :: FromServer(srv, more, f)
    ensures forall i | 0 <= i < |s.client.log| :: Justified(srv, more, s.client.log[i])
  {
    var born := s.client.born;
    forall f | f in s.toServer
      ensures FromClient(more, f)
    {
      var d: ApduData, id: byte :| WasSubmitted(born, d, id) && f == Frame(Encode(RequestPdu(d, id)));
      SubmittedMonotone(born, more, d, id);
    }
    forall f | f in s.toClient
      ensures FromServer(srv, more, f)
    {
      var d: ApduData, id: byte :| WasSubmitted(born, d, id) && f == ReplyBytes(srv, d, id);
      SubmittedMonotone(born, more, d, id);
    }
    forall i | 0 <= i < |s.client.log|
      ensures Justified(srv, more, s.client.log[i])
    {
      var e := s.client.log[i];
      if IsReply(e) {
        var k :| Answered(srv, born, e.n, k, e.callback);
        assert Answered(srv, more, e.n, k, e.callback);
      }
    }
  }

  // ----- moves

  lemma SubmitsKeepsInv(cfg: Config, srv: Responder, s: System, owner: nat, dest: Addr, d: ApduData)
    requires SystemInv(cfg, srv, s)
    ensures SystemInv(cfg, srv, Advance(cfg, srv, s, Submits(owner, dest, d)))
  {
    var s' := Advance(cfg, srv, s, Submits(owner, dest, d));
    var sub, born' := Submit(cfg.limits, s.client.st, owner, dest, d), s'.client.born;
    StepKeepsInv(cfg, s.client, Send(owner, dest, d));
    WiresMonotone(srv, s, born');
    if sub.apdu.Some? {
      SubmittedIsFromClient(cfg, s.client, owner, dest, d);
    }
  }

  lemma SubmittedIsFromClient(cfg: Config, nd: Node, owner: nat, dest: Addr, d: ApduData)
    requires Submit(cfg.limits, nd.st, owner, dest, d).apdu.Some?
    ensures FromClient(SendStep(cfg, nd, owner, dest, d).born,
                       Frame(Submit(cfg.limits, nd.st, owner, dest, d).apdu.value))
  {
    var sub, born' := Submit(cfg.limits, nd.st, owner, dest, d), SendStep(cfg, nd, owner, dest, d).born;
    assert d.confirmed ==> born'[|nd.born|] == Request(sub.id, dest, d);
    assert WasSubmitted(born', d, sub.id);
  }

  lemma {:induction false} TickEventsHeld(cfg: Config, nd: Node, ms: nat, n: nat)
    requires TableInv(cfg, nd) && n <= MAX_SESSIONS
    ensures forall e | e in TickEvents(cfg.limits, nd.st.slots, ms, n) && e.Resent? :: FromClient(nd.born, Frame(e.pdu))
  {
    if n > 0 {
      TickEventsHeld(cfg, nd, ms, n - 1);
      var s := nd.st.slots[n - 1];
      if s.waiting {
        LookupAt(nd.st.slots, n - 1);
        var r := nd.born[nd.inc[s.id]];
        assert Holds(nd.st.slots, s.id, r);
        assert WasSubmitted(nd.born, r.data, r.id);
        assert FromClient(nd.born, Frame(s.pdu));
      }
    }
  }

  lemma SlotNotesCallTimeouts(cfg: Config, inc: map<byte, nat>, s: Session, ms: nat)
    ensures forall e | e in SlotNotes(cfg, inc, TickSession(cfg.limits, s, ms).1) && e.Call? :: e.callback.OnTimeout?
  {
    SlotNotesAre(cfg, inc, s, ms);
  }

  lemma {:induction false} TickNotesCallTimeouts(cfg: Config, nd: Node, ms: nat, n: nat)
    requires n <= MAX_SESSIONS
    ensures forall e | e in TickNotes(cfg, nd.inc, nd.st.slots, ms, n) && e.Call? :: e.callback.OnTimeout?
  {
    if n > 0 {
      TickNotesCallTimeouts(cfg, nd, ms, n - 1);
      SlotNotesCallTimeouts(cfg, nd.inc, nd.st.slots[n - 1], ms);
    }
  }

  lemma TicksKeepsInv(cfg: Config, srv: Responder, s: System, ms: nat)
    requires SystemInv(cfg, srv, s)
    ensures SystemInv(cfg, srv, Advance(cfg, srv, s, Ticks(ms)))
  {
    StepKeepsInv(cfg, s.client, Tick(ms));
    TickEventsHeld(cfg, s.client, ms, MAX_SESSIONS);
    TickNotesCallTimeouts(cfg, s.client, ms, MAX_SESSIONS);
    var s' := Advance(cfg, srv, s, Ticks(ms));
    forall i | 0 <= i < |s'.client.log|
      ensures Justified(srv, s'.client.born, s'.client.log[i])
    {
      if i >= |s.client.log| {
        assert s'.client.log[i] in TickNotes(cfg, s.client.inc, s.client.st.slots, ms, MAX_SESSIONS);
      }
    }
  }

  lemma AnswersFromServer(srv: Responder, born: seq<Request>, frame: seq<byte>)
    requires FromClient(born, frame)
    ensures forall f | f in Answers(srv, frame) :: FromServer(srv, born, f)
  {
    var d: ApduData, id: byte :| WasSubmitted(born, d, id) && frame == Frame(Encode(RequestPdu(d, id)));
    ReplyEchoesRequest(srv.services, srv.slots, srv.peer, d, id);
    assert Answers(srv, frame) == {ReplyBytes(srv, d, id)};
    assert FromServer(srv, born, ReplyBytes(srv, d, id));
  }

  lemma ServesKeepsInv(cfg: Config, srv: Responder, s: System, frame: seq<byte>)
    requires SystemInv(cfg, srv, s)
    ensures SystemInv(cfg, srv, Advance(cfg, srv, s, Serves(frame)))
  {
    if frame in s.toServer {
      AnswersFromServer(srv, s.client.born, frame);
    }
  }

  lemma ReplyReports(services: Services, slots: Table, src: Addr, srv: Responder, d: ApduData, id: byte)
    requires !d.confirmed ==> id == 0
    ensures var frame := ReplyBytes(srv, d, id);
      && CompleteFrame(frame) && Cleared(frame) == id
      && forall c | c in ReactToFrame(services, slots, src, frame).calls :: Reports(srv, d, c)
  {
    ReplyReceived(services, slots, src, RequestPdu(d, id), AnswerTo(srv, d));
    DecodeEncode(ReplyTo(RequestPdu(d, id), AnswerTo(srv, d)));
  }

  lemma DeliveredNotesJustified(cfg: Config, srv: Responder, nd: Node, src: Addr, d: ApduData, id: byte, e: Entry)
    requires TableInv(cfg, nd) && WasSubmitted(nd.born, d, id)
    requires CompleteFrame(ReplyBytes(srv, d, id))
    requires e in CallNotes(nd.inc, ReactToFrame(cfg.services, nd.st.slots, src, ReplyBytes(srv, d, id)).calls, id)
    ensures Justified(srv, nd.born, e)
  {
    ReplyReports(cfg.services, nd.st.slots, src, srv, d, id);
    assert Holds(nd.st.slots, id, nd.born[nd.inc[id]]);
    var k :| 0 <= k < |nd.born| && nd.born[k].id == id && nd.born[k].data == d;
    assert Answered(srv, nd.born, nd.inc[id], k, e.callback);
  }

  lemma DeliversKeepsJustified(cfg: Config, srv: Responder, nd: Node, src: Addr, frame: seq<byte>)
    requires TableInv(cfg, nd) && FromServer(srv, nd.born, frame)
    requires forall i | 0 <= i < |nd.log| :: Justified(srv, nd.born, nd.log[i])
    ensures CompleteFrame(frame)
    ensures var log := ReceiveStep(cfg, nd, src, frame).log;
      forall i | 0 <= i < |log| :: Justified(srv, nd.born, log[i])
  {
    var d: ApduData, id: byte :| WasSubmitted(nd.born, d, id) && frame == ReplyBytes(srv, d, id);
    ReplyReports(cfg.services, nd.st.slots, src, srv, d, id);
    var log := ReceiveStep(cfg, nd, src, frame).log;
    var notes := CallNotes(nd.inc, ReactToFrame(cfg.services, nd.st.slots, src, frame).calls, id);
    forall i | 0 <= i < |log|
      ensures Justified(srv, nd.born, log[i])
    {
      if |nd.log| <= i < |nd.log| + |notes| {
        assert log[i] in notes;
        DeliveredNotesJustified(cfg, srv, nd, src, d, id, log[i]);
      }
    }
  }

  lemma DeliversKeepsInv(cfg: Config, srv: Responder, s: System, src: Addr, frame: seq<byte>)
    requires SystemInv(cfg, srv, s)
    ensures SystemInv(cfg, srv, Advance(cfg, srv, s, Delivers(src, frame)))
  {
    StepKeepsInv(cfg, s.client, Receive(src, frame));
    if frame in s.toClient {
      DeliversKeepsJustified(cfg, srv, s.client, src, frame);
    }
  }

  lemma AdvanceKeepsInv(cfg: Config, srv: Responder, s: System, m: Move)
    requires SystemInv(cfg, srv, s)
    ensures SystemInv(cfg, srv, Advance(cfg, srv, s, m))
  {
    match m
    case Submits(owner, dest, d) => SubmitsKeepsInv(cfg, srv, s, owner, dest, d);
    case Ticks(ms) => TicksKeepsInv(cfg, srv, s, ms);
    case Serves(frame) => ServesKeepsInv(cfg, srv, s, frame);
    case Delivers(src, frame) => DeliversKeepsInv(cfg, srv, s, src, frame);
  }

  function Reach(cfg: Config, srv: Responder, moves: seq<Move>): System {
    if moves == [] then Start()
    else Advance(cfg, srv, Reach(cfg, srv, moves[..|moves| - 1]), moves[|moves| - 1])
  }

  lemma {:induction false} ReachKeepsInv(cfg: Config, srv: Responder, moves: seq<Move>)
    ensures SystemInv(cfg, srv, Reach(cfg, srv, moves))
  {
    if moves == [] {
      InitialInv(cfg);
    } else {
      ReachKeepsInv(cfg, srv, moves[..|moves| - 1]);
      AdvanceKeepsInv(cfg, srv, Reach(cfg, srv, moves[..|moves| - 1]), moves[|moves| - 1]);
    }
  }

  /** Every response or error handed to an incarnation is the responder's own answer, for that service,
      to this or an earlier request that held the same session id. */
  lemma CallsAreAnswers(cfg: Config, srv: Responder, moves: seq<Move>)
    ensures var nd := Reach(cfg, srv, moves).client;
      forall i | 0 <= i < |nd.log| && IsReply(nd.log[i]) ::
        exists k :: Answered(srv, nd.born, nd.log[i].n, k, nd.log[i].callback)
  {
    var nd := Reach(cfg, srv, moves).client;
    ReachKeepsInv(cfg, srv, moves);
    assert forall i | 0 <= i < |nd.log| :: Justified(srv, nd.born, nd.log[i]);
  }

  /** No earlier request held the session id of request n. */
  ghost predicate FreshId(born: seq<Request>, n: nat) {
    n < |born| && forall k | 0 <= k < n :: born[k].id != born[n].id
  }

  /** A reply handed to a request with a fresh id is the answer to that very request. */
  lemma FreshIdsGetTheirOwnAnswer(cfg: Config, srv: Responder, moves: seq<Move>)
    ensures var nd := Reach(cfg, srv, moves).client;
      forall i | 0 <= i < |nd.log| && IsReply(nd.log[i]) && FreshId(nd.born, nd.log[i].n) ::
        Answered(srv, nd.born, nd.log[i].n, nd.log[i].n, nd.log[i].callback)
  {
    var nd := Reach(cfg, srv, moves).client;
    CallsAreAnswers(cfg, srv, moves);
    forall i | 0 <= i < |nd.log| && IsReply(nd.log[i]) && FreshId(nd.born, nd.log[i].n)
      ensures Answered(srv, nd.born, nd.log[i].n, nd.log[i].n, nd.log[i].callback)
    {
      var k :| Answered(srv, nd.born, nd.log[i].n, k, nd.log[i].callback);
      assert k == nd.log[i].n;
    }
  }

  lemma AdvanceKeepsFirstTurn(cfg: Config, srv: Responder, s: System, m: Move)
    requires TableInv(cfg, s.client) && FirstTurn(s.client)
    ensures FirstTurn(Advance(cfg, srv, s, m).client)
  {
    match m
    case Submits(owner, dest, d) => StepKeepsFirstTurn(cfg, s.client, Send(owner, dest, d));
    case Ticks(ms) => StepKeepsFirstTurn(cfg, s.client, Tick(ms));
    case Serves(frame) =>
    case Delivers(src, frame) => StepKeepsFirstTurn(cfg, s.client, Receive(src, frame));
  }

  lemma {:induction false} ReachKeepsFirstTurn(cfg: Config, srv: Responder, moves: seq<Move>)
    ensures FirstTurn(Reach(cfg, srv, moves).client)
  {
    if moves != [] {
      var before := moves[..|moves| - 1];
      ReachKeepsFirstTurn(cfg, srv, before);
      ReachKeepsInv(cfg, srv, before);
      AdvanceKeepsFirstTurn(cfg, srv, Reach(cfg, srv, before), moves[|moves| - 1]);
    }
  }

  /** The first 255 confirmed requests of a run only ever get their own answers, however late. */
  lemma FirstRequestsGetTheirOwnAnswer(cfg: Config, srv: Responder, moves: seq<Move>)
    ensures var nd := Reach(cfg, srv, moves).client;
      forall i | 0 <= i < |nd.log| && IsReply(nd.log[i]) && nd.log[i].n < 255 ::
        Answered(srv, nd.born, nd.log[i].n, nd.log[i].n, nd.log[i].callback)
  {
    var nd := Reach(cfg, srv, moves).client;
    ReachKeepsFirstTurn(cfg, srv, moves);
    ReachKeepsInv(cfg, srv, moves);
    FreshIdsGetTheirOwnAnswer(cfg, srv, moves);
    forall i | 0 <= i < |nd.log| && IsReply(nd.log[i]) && nd.log[i].n < 255
      ensures FreshId(nd.born, nd.log[i].n)
    {
      assert Faithful(nd.born, nd.log[i]);
    }
  }
}
