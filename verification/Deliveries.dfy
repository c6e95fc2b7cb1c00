/** What a network that does deliver achieves: from every reachable state, any pending request can be brought to
    its end with the responder's own answer, in two moves. */
module Deliveries {
  import opened Words
  import opened SessionSpec
  import opened Pdus
  import opened ApduSpec
  import opened Wire
  import opened EndToEnd
  import opened Incarnations
  import opened Network

  /** Every request submitted so far can still be delivered. */
  ghost predicate RequestsOnWire(s: System) {
    forall k | 0 <= k < |s.client.born| :: Frame(s.client.born[k].Apdu()) in s.toServer
  }

  lemma SubmitsPutsOnWire(cfg: Config, srv: Responder, s: System, owner: nat, dest: Addr, d: ApduData)
    requires RequestsOnWire(s)
    ensures RequestsOnWire(Advance(cfg, srv, s, Submits(owner, dest, d)))
    ensures var sub := Submit(cfg.limits, s.client.st, owner, dest, d);
      sub.apdu.Some? ==> Frame(sub.apdu.value) in Advance(cfg, srv, s, Submits(owner, dest, d)).toServer
  {
    var s', sub := Advance(cfg, srv, s, Submits(owner, dest, d)), Submit(cfg.limits, s.client.st, owner, dest, d);
    forall k | 0 <= k < |s'.client.born|
      ensures Frame(s'.client.born[k].Apdu()) in s'.toServer
    {
      if k < |s.client.born| {
        assert s'.client.born[k] == s.client.born[k];
      } else {
        assert s'.client.born[k] == Request(sub.id, dest, d);
      }
    }
  }

  lemma AdvanceKeepsRequests(cfg: Config, srv: Responder, s: System, m: Move)
    requires RequestsOnWire(s)
    ensures RequestsOnWire(Advance(cfg, srv, s, m))
  {
    match m
    case Submits(owner, dest, d) => SubmitsPutsOnWire(cfg, srv, s, owner, dest, d);
    case _ =>
      assert Advance(cfg, srv, s, m).client.born == s.client.born;
      assert s.toServer <= Advance(cfg, srv, s, m).toServer;
  }

  lemma {:induction false} RequestsStayOnWire(cfg: Config, srv: Responder, moves: seq<Move>)
    ensures RequestsOnWire(Reach(cfg, srv, moves))
  {
    if moves != [] {
      RequestsStayOnWire(cfg, srv, moves[..|moves| - 1]);
      AdvanceKeepsRequests(cfg, srv, Reach(cfg, srv, moves[..|moves| - 1]), moves[|moves| - 1]);
    }
  }

  lemma ReachNext(cfg: Config, srv: Responder, moves: seq<Move>, m: Move)
    ensures Reach(cfg, srv, moves + [m]) == Advance(cfg, srv, Reach(cfg, srv, moves), m)
  {
    assert (moves + [m])[..|moves + [m]| - 1] == moves;
  }

  /** A request that reaches the responder is answered. */
  lemma ServedIsAnswered(cfg: Config, srv: Responder, s: System, d: ApduData, id: byte)
    requires (!d.confirmed ==> id == 0) && Frame(Encode(RequestPdu(d, id))) in s.toServer
    ensures var s' := Advance(cfg, srv, s, Serves(Frame(Encode(RequestPdu(d, id)))));
      s' == s.(toClient := s.toClient + {ReplyBytes(srv, d, id)})
  {
    ReplyEchoesRequest(srv.services, srv.slots, srv.peer, d, id);
  }

  /** What the requester makes of the responder's reply to any request. */
  lemma ReplyTells(cfg: Config, srv: Responder, slots: Table, src: Addr, d: ApduData, id: byte)
    requires !d.confirmed ==> id == 0
    ensures var reply := ReplyBytes(srv, d, id);
      && CompleteFrame(reply) && Cleared(reply) == id
      && ReactToFrame(cfg.services, slots, src, reply)
         == Reaction(0, None, Told(srv.services, srv.peer, cfg.services, src, d, Matched(d, slots, id)),
                     if d.confirmed then Clear(slots, id) else slots)
  {
    ReplyEchoesRequest(srv.services, srv.slots, srv.peer, d, id);
    AnyRequestRoundTrip(srv.services, srv.slots, srv.peer, cfg.services, slots, src, d, id);
    ReplyReports(cfg.services, slots, src, srv, d, id);
  }

  /** Served and answered, as far as the requester is concerned. */
  lemma ServeAndDeliver(cfg: Config, srv: Responder, s: System, d: ApduData, id: byte, src: Addr)
    requires (!d.confirmed ==> id == 0) && Frame(Encode(RequestPdu(d, id))) in s.toServer
    ensures CompleteFrame(ReplyBytes(srv, d, id))
    ensures var served := Advance(cfg, srv, s, Serves(Frame(Encode(RequestPdu(d, id)))));
      Advance(cfg, srv, served, Delivers(src, ReplyBytes(srv, d, id))).client
      == ReceiveStep(cfg, s.client, src, ReplyBytes(srv, d, id))
  {
    ServedIsAnswered(cfg, srv, s, d, id);
    ReplyTells(cfg, srv, s.client.st.slots, src, d, id);
  }

  lemma ReachTwo(cfg: Config, srv: Responder, moves: seq<Move>, a: Move, b: Move)
    ensures Reach(cfg, srv, moves + [a, b]) == Advance(cfg, srv, Advance(cfg, srv, Reach(cfg, srv, moves), a), b)
  {
    assert moves + [a, b] == moves + [a] + [b];
    ReachNext(cfg, srv, moves, a);
    ReachNext(cfg, srv, moves + [a], b);
  }

  /** From nd to nd', request n has been told what the responder makes of it, and has ended. */
  ghost predicate CompletedBy(cfg: Config, srv: Responder, nd: Node, n: nat, src: Addr, nd': Node)
    requires n < |nd.born|
  {
    var r := nd.born[n];
    var told := Told(srv.services, srv.peer, cfg.services, src, r.data, Lookup(nd.st.slots, r.id));
    && !Pending(nd', n) && nd'.calls == nd.calls + told
    && nd'.log == nd.log + (seq(|told|, i requires 0 <= i < |told| => Call(n, told[i])) + [Left(n)])
  }

  lemma ReplyEnds(cfg: Config, srv: Responder, nd: Node, src: Addr, n: nat)
    requires TableInv(cfg, nd) && Pending(nd, n)
    ensures var reply := ReplyBytes(srv, nd.born[n].data, nd.born[n].id);
      CompleteFrame(reply) && CompletedBy(cfg, srv, nd, n, src, ReceiveStep(cfg, nd, src, reply))
  {
    var r := nd.born[n];
    ReplyTells(cfg, srv, nd.st.slots, src, r.data, r.id);
    ReceiveEndsOne(cfg, nd, src, ReplyBytes(srv, r.data, r.id), n);
  }

  /** From every reachable state, whatever was lost, repeated or reordered before: serve a pending request and
      deliver the reply, and it ends, told exactly what the responder makes of it. */
  lemma PendingRequestCanComplete(cfg: Config, srv: Responder, moves: seq<Move>, n: nat, src: Addr)
    requires Pending(Reach(cfg, srv, moves).client, n)
    ensures var nd := Reach(cfg, srv, moves).client;
      var r := nd.born[n];
      var more := [Serves(Frame(r.Apdu())), Delivers(src, ReplyBytes(srv, r.data, r.id))];
      CompletedBy(cfg, srv, nd, n, src, Reach(cfg, srv, moves + more).client)
  {
    var s := Reach(cfg, srv, moves);
    var r := s.client.born[n];
    ReachKeepsInv(cfg, srv, moves);
    RequestsStayOnWire(cfg, srv, moves);
    ServeAndDeliver(cfg, srv, s, r.data, r.id, src);
    ReachTwo(cfg, srv, moves, Serves(Frame(r.Apdu())), Delivers(src, ReplyBytes(srv, r.data, r.id)));
    ReplyEnds(cfg, srv, s.client, src, n);
  }

  lemma UnconfirmedIsSent(cfg: Config, srv: Responder, s: System, owner: nat, dest: Addr, d: ApduData)
    requires RequestsOnWire(s) && !d.confirmed
    ensures var s' := Advance(cfg, srv, s, Submits(owner, dest, d));
      s'.client == s.client && Frame(Encode(RequestPdu(d, 0))) in s'.toServer
  {
    SubmitsPutsOnWire(cfg, srv, s, owner, dest, d);
  }

  /** An unconfirmed request, served and its reply delivered: the requester is told, and nothing else changes. */
  lemma UnconfirmedRequestCanComplete(cfg: Config, srv: Responder, moves: seq<Move>, owner: nat, dest: Addr,
                                      d: ApduData, src: Addr)
    requires !d.confirmed
    ensures var nd := Reach(cfg, srv, moves).client;
      var more := [Serves(Frame(Encode(RequestPdu(d, 0)))), Delivers(src, ReplyBytes(srv, d, 0))];
      Reach(cfg, srv, moves + [Submits(owner, dest, d)] + more).client
      == nd.(calls := nd.calls + Told(srv.services, srv.peer, cfg.services, src, d, None))
  {
    var s, submit := Reach(cfg, srv, moves), Submits(owner, dest, d);
    ReachKeepsInv(cfg, srv, moves);
    RequestsStayOnWire(cfg, srv, moves);
    UnconfirmedIsSent(cfg, srv, s, owner, dest, d);
    ReachNext(cfg, srv, moves, submit);
    ServeAndDeliver(cfg, srv, Reach(cfg, srv, moves + [submit]), d, 0, src);
    ReachTwo(cfg, srv, moves + [submit], Serves(Frame(Encode(RequestPdu(d, 0)))), Delivers(src, ReplyBytes(srv, d, 0)));
    UnconfirmedReplyTells(cfg, srv, s.client, src, d);
  }

  lemma UnconfirmedReplyTells(cfg: Config, srv: Responder, nd: Node, src: Addr, d: ApduData)
    requires TableInv(cfg, nd) && !d.confirmed
    ensures CompleteFrame(ReplyBytes(srv, d, 0))
    ensures ReceiveStep(cfg, nd, src, ReplyBytes(srv, d, 0))
         == nd.(calls := nd.calls + Told(srv.services, srv.peer, cfg.services, src, d, None))
  {
    ReplyTells(cfg, srv, nd.st.slots, src, d, 0);
    assert Lookup(nd.st.slots, 0) == None;
    assert 0 !in nd.inc;
    assert StillHeld(nd.inc, nd.st.slots) == nd.inc;
    assert nd.log + ([] + []) == nd.log;
  }
}
