/** Exactly which requests are sure of their own answer: the first 255 of a run. Every later one can be
    handed the answer to the request 255 before it, under the shipped limits and in normal operation, by
    a network that delivers a reply twice. */
module StaleReplies {
  import opened Words
  import opened SessionSpec
  import opened Pdus
  import opened ApduSpec
  import opened EndToEnd
  import opened Incarnations
  import opened Network

  const PEER: Addr := [0, 0, 0, 0, 0, 0, 0, 0]

  /** A service that answers with what it was sent. */
  function Echo(): Service {
    Service((src: Addr, data: seq<byte>) => Answer(0, data), true, false, false)
  }

  /** The default timeout and retry count. */
  function Shipped(): Config {
    Config(Limits(3000, 1), map[1 := Echo()])
  }

  function EchoResponder(): Responder {
    Responder(map[1 := Echo()], seq(MAX_SESSIONS, _ => FREE), PEER)
  }

  function Asking(payload: byte): ApduData {
    ApduData(1, true, [payload])
  }

  /** The usual question under a given session id, and its answer. */
  function AskFrame(id: Id): seq<byte> {
    Frame(Encode(RequestPdu(Asking(0), id)))
  }

  function UsualReply(id: Id): seq<byte> {
    ReplyBytes(EchoResponder(), Asking(0), id)
  }

  function Act(s: System, m: Move): System {
    Advance(Shipped(), EchoResponder(), s, m)
  }

  /** Request number m submitted, answered, and its reply delivered. */
  function Round(s: System, m: nat): System {
    var id := Cycle(1, m);
    Act(Act(Act(s, Submits(0, PEER, Asking(0))), Serves(AskFrame(id))), Delivers(PEER, UsualReply(id)))
  }

  function Rounds(m: nat): seq<Move> {
    if m == 0 then []
    else
      var id := Cycle(1, m - 1);
      Rounds(m - 1) + [Submits(0, PEER, Asking(0))] + [Serves(AskFrame(id))] + [Delivers(PEER, UsualReply(id))]
  }

  ghost predicate AllFree(t: Table) {
    forall i | 0 <= i < MAX_SESSIONS :: t[i].id == 0 && !t[i].waiting
  }

  /** One session waits, in slot 0. */
  ghost predicate OneWaiting(t: Table, id: Id) {
    t[0].waiting && t[0].id == id && AllFree(t[0 := FREE])
  }

  /** The first m requests asked the usual question, and their replies may still be delivered again. */
  ghost predicate Answerable(s: System, m: nat) {
    && m <= |s.client.born|
    && forall k | 0 <= k < m ::
         s.client.born[k] == Request(Cycle(1, k), PEER, Asking(0)) && UsualReply(Cycle(1, k)) in s.toClient
  }

  /** After m rounds nothing is pending and the cursor has moved on m places. */
  ghost predicate Resting(s: System, m: nat) {
    && AllFree(s.client.st.slots) && s.client.st.cursor == Cycle(1, m)
    && |s.client.born| == m && s.client.inc == map[] && Answerable(s, m)
  }

  /** From rest, request number m waits under the cursor's id. */
  ghost predicate Asked(s: System, m: nat, d: ApduData) {
    var id := Cycle(1, m);
    && OneWaiting(s.client.st.slots, id) && s.client.st.cursor == Cycle(1, m + 1)
    && |s.client.born| == m + 1 && s.client.born[m] == Request(id, PEER, d)
    && s.client.inc == map[id := m] && Answerable(s, m)
    && Frame(Encode(RequestPdu(d, id))) in s.toServer
  }

  lemma SubmitFromRest(st: Sessions, d: ApduData)
    requires AllFree(st.slots) && d.confirmed
    ensures var sub := Submit(Shipped().limits, st, 0, PEER, d);
      && sub.id == st.cursor && sub.apdu == Some(Encode(RequestPdu(d, sub.id)))
      && sub.next.cursor == Cycle(st.cursor, 1) && OneWaiting(sub.next.slots, st.cursor)
  {
    assert Cycle(st.cursor, 0) == st.cursor;
    assert Probe(st.slots, st.cursor, 0) == 0 && IndexOf(st.slots, 0) == 0;
    var Reservation(st1, id) := Reserve(Shipped().limits, st);
    assert st1.slots[0].id == id && IndexOf(st1.slots, id) == 0;
    assert forall i | 0 < i < MAX_SESSIONS :: st1.slots[i] == st.slots[i];
  }

  lemma AskFromRest(s: System, m: nat, d: ApduData)
    requires Resting(s, m) && d.confirmed
    ensures Asked(Act(s, Submits(0, PEER, d)), m, d)
    ensures Act(s, Submits(0, PEER, d)).client.log == s.client.log
  {
    var sub := Submit(Shipped().limits, s.client.st, 0, PEER, d);
    SubmitFromRest(s.client.st, d);
    CycleAdds(1, m, 1);
    var s1 := Act(s, Submits(0, PEER, d));
    assert s1.client.st == sub.next && s1.client.born == s.client.born + [Request(sub.id, PEER, d)];
    assert s1.client.inc == map[sub.id := m];
    assert Submitted(Shipped(), s.client, 0, PEER, d) == {Frame(Encode(RequestPdu(d, sub.id)))};
  }

  lemma ServeUsual(s: System, id: Id)
    requires AskFrame(id) in s.toServer
    ensures Act(s, Serves(AskFrame(id))) == s.(toClient := s.toClient + {UsualReply(id)})
  {
    ReplyEchoesRequest(EchoResponder().services, EchoResponder().slots, PEER, Asking(0), id);
  }

  /** Whoever holds the id takes the usual reply, and gives the id up. */
  lemma UsualReplyIsTaken(t: Table, id: Id)
    requires OneWaiting(t, id)
    ensures CompleteFrame(UsualReply(id)) && Cleared(UsualReply(id)) == id
    ensures var r := ReactToFrame(Shipped().services, t, PEER, UsualReply(id));
      r.calls == [OnResponse(PEER, 1, Lookup(t, id), [0])] && AllFree(r.slots)
  {
    var p, a := RequestPdu(Asking(0), id), Answer(0, [0]);
    assert AnswerTo(EchoResponder(), Asking(0)) == a;
    ReplyReceived(Shipped().services, t, PEER, p, a);
    DecodeEncode(ReplyTo(p, a));
    assert IndexOf(t, id) == 0;
    assert forall i | 0 < i < MAX_SESSIONS :: t[i] == t[0 := FREE][i];
  }

  lemma DeliverToRest(s: System, m: nat)
    requires Asked(s, m, Asking(0)) && UsualReply(Cycle(1, m)) in s.toClient
    ensures Resting(Act(s, Delivers(PEER, UsualReply(Cycle(1, m)))), m + 1)
  {
    UsualReplyIsTaken(s.client.st.slots, Cycle(1, m));
    var s' := Act(s, Delivers(PEER, UsualReply(Cycle(1, m))));
    assert s'.client == ReceiveStep(Shipped(), s.client, PEER, UsualReply(Cycle(1, m)));
    assert forall x: byte :: Lookup(s'.client.st.slots, x) == None;
  }

  lemma AnotherRound(s: System, m: nat)
    requires Resting(s, m)
    ensures Resting(Round(s, m), m + 1)
  {
    var s1 := Act(s, Submits(0, PEER, Asking(0)));
    AskFromRest(s, m, Asking(0));
    ServeUsual(s1, Cycle(1, m));
    DeliverToRest(s1.(toClient := s1.toClient + {UsualReply(Cycle(1, m))}), m);
  }

  lemma ReachNext(moves: seq<Move>, m: Move)
    ensures Reach(Shipped(), EchoResponder(), moves + [m]) == Act(Reach(Shipped(), EchoResponder(), moves), m)
  {
    assert (moves + [m])[..|moves + [m]| - 1] == moves;
  }

  lemma ReachThree(moves: seq<Move>, a: Move, b: Move, c: Move)
    ensures Reach(Shipped(), EchoResponder(), moves + [a] + [b] + [c])
         == Act(Act(Act(Reach(Shipped(), EchoResponder(), moves), a), b), c)
  {
    ReachNext(moves, a);
    ReachNext(moves + [a], b);
    ReachNext(moves + [a] + [b], c);
  }

  lemma StartRests()
    ensures Resting(Reach(Shipped(), EchoResponder(), []), 0)
  {
    assert Cycle(1, 0) == 1;
  }

  lemma {:induction false} RoundsRest(m: nat)
    ensures Resting(Reach(Shipped(), EchoResponder(), Rounds(m)), m)
  {
    if m == 0 {
      StartRests();
    } else {
      var id := Cycle(1, m - 1);
      RoundsRest(m - 1);
      ReachThree(Rounds(m - 1), Submits(0, PEER, Asking(0)), Serves(AskFrame(id)), Delivers(PEER, UsualReply(id)));
      AnotherRound(Reach(Shipped(), EchoResponder(), Rounds(m - 1)), m - 1);
    }
  }

  // ----- the wrong answer

  /** Request n was handed what answers request n - 255 and does not answer request n. */
  ghost predicate Mistaken(nd: Node, n: nat, e: Entry)
    requires n >= 255
  {
    && IsReply(e) && e.n == n
    && Answered(EchoResponder(), nd.born, n, n - 255, e.callback)
    && !Answered(EchoResponder(), nd.born, n, n, e.callback)
  }

  lemma CycleRepeats(m: nat)
    requires m >= 255
    ensures Cycle(1, m - 255) == Cycle(1, m)
  {
  }

  lemma UsualAnswers()
    ensures AnswerTo(EchoResponder(), Asking(0)) == Answer(0, [0])
    ensures AnswerTo(EchoResponder(), Asking(1)) == Answer(0, [1])
  {
  }

  /** A different question, waiting under id Cycle(1, n), is handed the old reply. */
  lemma OldReplyMistaken(s: System, n: nat)
    requires n >= 255 && Asked(s, n, Asking(1))
    ensures var nd := Act(s, Delivers(PEER, UsualReply(Cycle(1, n)))).client;
      exists i :: 0 <= i < |nd.log| && Mistaken(nd, n, nd.log[i])
  {
    var id := Cycle(1, n);
    CycleRepeats(n);
    assert UsualReply(Cycle(1, n - 255)) in s.toClient && s.client.born[n - 255] == Request(id, PEER, Asking(0));
    UsualReplyIsTaken(s.client.st.slots, id);
    UsualAnswers();
    var nd := Act(s, Delivers(PEER, UsualReply(id))).client;
    var e := Call(n, OnResponse(PEER, 1, Lookup(s.client.st.slots, id), [0]));
    assert nd == ReceiveStep(Shipped(), s.client, PEER, UsualReply(id));
    assert nd.log[|s.client.log|] == e;
    assert Mistaken(nd, n, e);
  }

  /** After n >= 255 rounds, the next request can be handed the answer to the one 255 before it. */
  lemma LaterRequestCanGetAStaleAnswer(n: nat) returns (moves: seq<Move>)
    requires n >= 255
    ensures var nd := Reach(Shipped(), EchoResponder(), moves).client;
      exists i :: 0 <= i < |nd.log| && Mistaken(nd, n, nd.log[i])
  {
    var rest, a, b := Rounds(n), Submits(0, PEER, Asking(1)), Delivers(PEER, UsualReply(Cycle(1, n)));
    moves := rest + [a] + [b];
    RoundsRest(n);
    AskFromRest(Reach(Shipped(), EchoResponder(), rest), n, Asking(1));
    ReachNext(rest, a);
    ReachNext(rest + [a], b);
    OldReplyMistaken(Reach(Shipped(), EchoResponder(), rest + [a]), n);
  }

  // ----- the exact condition

  /** In this run, whatever request n is handed is the responder's answer to request n. */
  ghost predicate OwnAnswers(cfg: Config, srv: Responder, moves: seq<Move>, n: nat) {
    var nd := Reach(cfg, srv, moves).client;
    forall i | 0 <= i < |nd.log| && IsReply(nd.log[i]) && nd.log[i].n == n ::
      Answered(srv, nd.born, n, n, nd.log[i].callback)
  }

  lemma EarlyRequestsGetOwnAnswers(cfg: Config, srv: Responder, moves: seq<Move>, n: nat)
    requires n < 255
    ensures OwnAnswers(cfg, srv, moves, n)
  {
    FirstRequestsGetTheirOwnAnswer(cfg, srv, moves);
  }

  /** Request number n, counting confirmed requests from 0, gets only its own answers in every run of
      every requester and responder if and only if n is below 255. */
  lemma OwnAnswerIff(n: nat)
    ensures (forall cfg: Config, srv: Responder, moves: seq<Move> :: OwnAnswers(cfg, srv, moves, n)) <==> n < 255
  {
    if n < 255 {
      forall cfg: Config, srv: Responder, moves: seq<Move>
        ensures OwnAnswers(cfg, srv, moves, n)
      {
        EarlyRequestsGetOwnAnswers(cfg, srv, moves, n);
      }
    } else {
      var moves := LaterRequestCanGetAStaleAnswer(n);
      assert !OwnAnswers(Shipped(), EchoResponder(), moves, n);
    }
  }

  /** The smallest instance. */
  lemma Request255CanGetAStaleAnswer() returns (moves: seq<Move>)
    ensures !OwnAnswers(Shipped(), EchoResponder(), moves, 255)
  {
    moves := LaterRequestCanGetAStaleAnswer(255);
  }
}
