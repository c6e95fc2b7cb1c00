/** The two queues of core/mpu.c as values: what one turn of the worker does, when its drain loop ends,
    and what holds over every run. */
module MpuSpec {
  import opened Words
  import opened SessionSpec
  import opened Pdus
  import opened ApduSpec
  import opened EndToEnd

  const MAX_PDU_COUNT: nat := 16
  const MAX_MPU_DATA: nat := 2000

  /** The opaque data pointer of a packet, as stored. */
  type Handle = h: seq<byte> | |h| == 8 witness [0, 0, 0, 0, 0, 0, 0, 0]

  /** A queued message and its peer. */
  datatype Packet = Packet(addr: Addr, data: Handle, message: seq<byte>)

  /** What a receive handler decides about a packet, whatever the session table holds. */
  datatype Verdict = Rejected | Accepted(reply: Option<Packet>)

  function Judge(services: Services, p: Packet): Verdict
    requires CompleteFrame(p.message)
  {
    var r := ReactToFrame(services, seq(MAX_SESSIONS, _ => FREE), p.addr, p.message);
    if r.ret != 0 then Rejected
    else
      match r.reply
      case None => Accepted(None)
      case Some(apdu) => Accepted(Some(Packet(p.addr, p.data, apdu)))
  }

  /** Result and reply of the handler depend on the packet and the services alone; a request leaves the
      session table as it is. */
  lemma JudgementIgnoresSessions(services: Services, slots: Table, p: Packet)
    requires CompleteFrame(p.message)
    ensures var r := ReactToFrame(services, slots, p.addr, p.message);
      && (Judge(services, p).Rejected? <==> r.ret != 0)
      && (Judge(services, p).Accepted? ==>
            Judge(services, p).reply
            == match r.reply case None => None case Some(apdu) => Some(Packet(p.addr, p.data, apdu)))
      && (r.reply.Some? || r.ret != 0 ==> r.slots == slots && r.calls == [])
      && (r.ret != 0 ==> r.reply == None)
  {
  }

  predicate Sendable(link: Link, p: Packet) {
    p.message != [] && link(p.addr, Frame(p.message)) == 0
  }

  /** running is what mpu_stop clears: the drain loop goes on without it, but nothing is accepted any more. */
  /** What is handed to the data link: where to, and the bytes. */
  datatype Datagram = Datagram(to: Addr, bytes: seq<byte>)

  /** A packet goes to its own address, as version 1 and its message. */
  function WireOf(p: Packet): Datagram {
    Datagram(p.addr, [1] + p.message)
  }

  function Wires(ps: seq<Packet>): (ds: seq<Datagram>)
    ensures |ds| == |ps|
  {
    seq(|ps|, i requires 0 <= i < |ps| => WireOf(ps[i]))
  }

  /** A send turn succeeds exactly when the link takes that datagram. */
  lemma SendableIff(link: Link, p: Packet)
    ensures Sendable(link, p) <==> p.message != [] && link(WireOf(p).to, WireOf(p).bytes) == 0
  {
  }

  /** A link that takes nothing but this packet's own datagram is enough. */
  lemma OwnDatagramSuffices(p: Packet)
    requires p.message != []
    ensures var only: Link := (a: Addr, bytes: seq<byte>) =>
        if a == p.addr && bytes != [] && bytes[0] == PROTOCOL_VERSION && bytes[1..] == p.message then 0 else -1;
      Sendable(only, p)
  {
    assert ([1] + p.message)[1..] == p.message;
  }

  /** The peer that gets the datagram of a message reacts as to the message itself. */
  lemma PeerReadsDatagram(peer: Services, slots: Table, src: Addr, p: Packet)
    requires Complete(p.message)
    ensures CompleteFrame(WireOf(p).bytes)
    ensures ReactToFrame(peer, slots, src, WireOf(p).bytes) == React(peer, slots, src, p.message)
  {
    assert WireOf(p).bytes[1..] == p.message;
  }

  /** From a request's datagram to the requester's handlers: the reply queued for it goes back to its sender,
      who is told what AnyRequestRoundTrip says. */
  lemma RequestIsAnswered(services: Services, p: Packet, d: ApduData, id: byte, client: Services, slots: Table,
                          src: Addr)
    requires (!d.confirmed ==> id == 0) && p.message == Frame(Encode(RequestPdu(d, id)))
    ensures CompleteFrame(p.message) && Judge(services, p).Accepted? && Judge(services, p).reply.Some?
    ensures var reply := Judge(services, p).reply.value;
      && reply.data == p.data && WireOf(reply).to == p.addr && CompleteFrame(WireOf(reply).bytes)
      && ReactToFrame(client, slots, src, WireOf(reply).bytes)
         == Reaction(0, None, Told(services, p.addr, client, src, d, Matched(d, slots, id)),
                     if d.confirmed then Clear(slots, id) else slots)
  {
    AnyRequestRoundTrip(services, seq(MAX_SESSIONS, _ => FREE), p.addr, client, slots, src, d, id);
  }

  datatype Queues = Queues(recv: seq<Packet>, send: seq<Packet>, running: bool)

  predicate Idle(q: Queues) {
    q.recv == [] && q.send == []
  }

  predicate AllComplete(packets: seq<Packet>) {
    forall p | p in packets :: CompleteFrame(p.message)
  }

  /** mpu_msg_handle on the receive queue: the packet leaves only once its handler has succeeded, which
      for a request takes room for the reply; a stopped unit reports success and drops the reply. */
  function RecvTurn(services: Services, q: Queues): Queues
    requires AllComplete(q.recv)
  {
    if q.recv == [] then q
    else
      match Judge(services, q.recv[0])
      case Rejected => q
      case Accepted(None) => q.(recv := q.recv[1..])
      case Accepted(Some(reply)) =>
        if !q.running then q.(recv := q.recv[1..])
        else if |q.send| < MAX_PDU_COUNT then q.(recv := q.recv[1..], send := q.send + [reply])
        else q
  }

  /** The same, told by what the handler returns and replies. */
  lemma RecvTurnByReaction(services: Services, slots: Table, q: Queues)
    requires AllComplete(q.recv) && q.recv != []
    ensures var p := q.recv[0];
      var r := ReactToFrame(services, slots, p.addr, p.message);
      && (r.ret != 0 ==> r.reply == None && RecvTurn(services, q) == q)
      && (r.ret == 0 && (r.reply == None || !q.running) ==> RecvTurn(services, q) == q.(recv := q.recv[1..]))
      && (r.ret == 0 && r.reply.Some? && q.running ==>
            RecvTurn(services, q)
            == if |q.send| < MAX_PDU_COUNT then
                 q.(recv := q.recv[1..], send := q.send + [Packet(p.addr, p.data, r.reply.value)])
               else q)
  {
    JudgementIgnoresSessions(services, slots, q.recv[0]);
  }

  /** mpu_msg_handle on the send queue. */
  function SendTurn(link: Link, q: Queues): Queues {
    if q.send != [] && Sendable(link, q.send[0]) then q.(send := q.send[1..]) else q
  }

  function Turn(services: Services, link: Link, q: Queues): (q': Queues)
    requires AllComplete(q.recv)
    ensures AllComplete(q'.recv)
  {
    SendTurn(link, RecvTurn(services, q))
  }

  function Turns(services: Services, link: Link, q: Queues, n: nat): Queues
    requires AllComplete(q.recv)
    decreases n
  {
    if n == 0 then q else Turns(services, link, Turn(services, link, q), n - 1)
  }

  /** With nothing stuck, what a turn gives to the link is what it sends. */
  lemma GivenIsSent(services: Services, link: Link, q: Queues)
    requires AllComplete(q.recv) && AllDigestible(services, link, q)
    ensures var mid, q' := RecvTurn(services, q), Turn(services, link, q);
      var out := if |q'.send| < |mid.send| then [mid.send[0]] else [];
      Given(mid.send) == Wires(out)
  {
    RecvTurnDigestible(services, link, q);
  }

  /** What a send turn gives to the link. */
  function Given(send: seq<Packet>): seq<Datagram> {
    if send == [] || send[0].message == [] then [] else [WireOf(send[0])]
  }

  lemma WiresAppend(a: seq<Packet>, b: seq<Packet>)
    ensures Wires(a + b) == Wires(a) + Wires(b)
  {
  }

  // ----- when the drain loop ends

  ghost predicate Digestible(services: Services, link: Link, running: bool, p: Packet)
    requires CompleteFrame(p.message)
  {
    match Judge(services, p)
    case Rejected => false
    case Accepted(None) => true
    case Accepted(Some(reply)) => !running || Sendable(link, reply)
  }

  ghost predicate AllDigestible(services: Services, link: Link, q: Queues)
    requires AllComplete(q.recv)
  {
    && (forall i | 0 <= i < |q.recv| :: Digestible(services, link, q.running, q.recv[i]))
    && (forall i | 0 <= i < |q.send| :: Sendable(link, q.send[i]))
  }

  function Work(q: Queues): nat {
    2 * |q.recv| + |q.send|
  }

  lemma RecvTurnDigestible(services: Services, link: Link, q: Queues)
    requires AllComplete(q.recv)
    ensures AllDigestible(services, link, RecvTurn(services, q)) <==> AllDigestible(services, link, q)
  {
    var q' := RecvTurn(services, q);
    if |q'.recv| < |q.recv| {
      assert q.recv == [q.recv[0]] + q'.recv;
      assert forall i | 0 <= i < |q'.recv| :: q'.recv[i] == q.recv[i + 1];
      assert forall i | 0 <= i < |q.send| :: q'.send[i] == q.send[i];
      assert |q'.send| > |q.send| ==> Judge(services, q.recv[0]) == Accepted(Some(q'.send[|q.send|]));
      if AllDigestible(services, link, q') {
        forall i | 0 <= i < |q.recv|
          ensures Digestible(services, link, q.running, q.recv[i])
        {
          assert i > 0 ==> q.recv[i] == q'.recv[i - 1];
        }
      }
    }
  }

  lemma SendTurnDigestible(services: Services, link: Link, q: Queues)
    requires AllComplete(q.recv)
    ensures AllDigestible(services, link, SendTurn(link, q)) <==> AllDigestible(services, link, q)
  {
    var q' := SendTurn(link, q);
    if |q'.send| < |q.send| {
      assert forall i | 0 <= i < |q'.send| :: q'.send[i] == q.send[i + 1];
      if AllDigestible(services, link, q') {
        forall i | 0 <= i < |q.send|
          ensures Sendable(link, q.send[i])
        {
          assert i > 0 ==> q.send[i] == q'.send[i - 1];
        }
      }
    }
  }

  lemma TurnDigestible(services: Services, link: Link, q: Queues)
    requires AllComplete(q.recv)
    ensures AllDigestible(services, link, Turn(services, link, q)) <==> AllDigestible(services, link, q)
  {
    RecvTurnDigestible(services, link, q);
    SendTurnDigestible(services, link, RecvTurn(services, q));
  }

  /** With nothing stuck, every turn of a non-empty pair of queues gets work done. */
  lemma TurnProgress(services: Services, link: Link, q: Queues)
    requires AllComplete(q.recv) && AllDigestible(services, link, q)
    requires !Idle(q) && |q.send| <= MAX_PDU_COUNT
    ensures Work(Turn(services, link, q)) < Work(q)
    ensures |Turn(services, link, q).send| < MAX_PDU_COUNT
    ensures q.recv != [] && |q.send| < MAX_PDU_COUNT ==> |Turn(services, link, q).recv| < |q.recv|
  {
    RecvTurnDigestible(services, link, q);
  }

  lemma TurnGoesOn(services: Services, link: Link, q: Queues)
    requires AllComplete(q.recv) && AllDigestible(services, link, q)
    requires !Idle(q) && |q.send| <= MAX_PDU_COUNT
    ensures var q' := Turn(services, link, q);
      AllDigestible(services, link, q') && |q'.send| <= MAX_PDU_COUNT && Work(q') < Work(q)
  {
    TurnProgress(services, link, q);
    TurnDigestible(services, link, q);
  }

  lemma TurnsNext(services: Services, link: Link, q: Queues, m: nat)
    requires AllComplete(q.recv)
    ensures Turns(services, link, q, 0) == q
    ensures Turns(services, link, q, m + 1) == Turns(services, link, Turn(services, link, q), m)
  {
  }

  lemma {:induction false} DrainReaches(services: Services, link: Link, q: Queues) returns (n: nat)
    requires AllComplete(q.recv) && AllDigestible(services, link, q) && |q.send| <= MAX_PDU_COUNT
    ensures Idle(Turns(services, link, q, n))
    decreases Work(q)
  {
    n := 0;
    if !Idle(q) {
      TurnGoesOn(services, link, q);
      n := DrainReaches(services, link, Turn(services, link, q));
      TurnsNext(services, link, q, n);
      n := n + 1;
    }
  }

  lemma {:induction false} StuckStaysStuck(services: Services, link: Link, q: Queues, n: nat)
    requires AllComplete(q.recv) && !AllDigestible(services, link, q)
    ensures !Idle(Turns(services, link, q, n))
    decreases n
  {
    if n > 0 {
      TurnDigestible(services, link, q);
      StuckStaysStuck(services, link, Turn(services, link, q), n - 1);
    }
  }

  predicate IdleAfter(services: Services, link: Link, q: Queues, n: nat)
    requires AllComplete(q.recv)
  {
    Idle(Turns(services, link, q, n))
  }

  /** With no other producer, the drain loop ends exactly when no queued packet is one its handler
      rejects, and no queued packet or reply is one the link refuses. */
  lemma DrainEndsIff(services: Services, link: Link, q: Queues)
    requires AllComplete(q.recv) && |q.send| <= MAX_PDU_COUNT
    ensures (exists n :: IdleAfter(services, link, q, n)) <==> AllDigestible(services, link, q)
  {
    if AllDigestible(services, link, q) {
      var n := DrainReaches(services, link, q);
      assert IdleAfter(services, link, q, n);
    } else {
      forall n: nat
        ensures !IdleAfter(services, link, q, n)
      {
        StuckStaysStuck(services, link, q, n);
      }
    }
  }

  /** The packets a handler rejects, forever, are those of a wrong version or of an unknown type. */
  lemma RejectedIffMalformed(services: Services, p: Packet)
    requires CompleteFrame(p.message)
    ensures Judge(services, p).Rejected?
       <==> p.message[0] != PROTOCOL_VERSION || (|p.message| > 1 && p.message[2] >= TYPE_MAX)
  {
  }

  // ----- what a drain produces

  /** The replies the packets call for, in order. */
  function Replies(services: Services, packets: seq<Packet>): seq<Packet>
    requires AllComplete(packets)
  {
    if packets == [] then []
    else
      (match Judge(services, packets[0])
       case Rejected => []
       case Accepted(None) => []
       case Accepted(Some(reply)) => [reply])
      + Replies(services, packets[1..])
  }

  /** The replies still to come: none once the unit is stopped. */
  function Due(services: Services, q: Queues): seq<Packet>
    requires AllComplete(q.recv)
  {
    if q.running then Replies(services, q.recv) else []
  }

  /** The session table after handling the packets in order, and the calls made. */
  function Handled(services: Services, slots: Table, packets: seq<Packet>): (Table, seq<Callback>)
    requires AllComplete(packets)
    decreases |packets|
  {
    if packets == [] then (slots, [])
    else
      var r := ReactToFrame(services, slots, packets[0].addr, packets[0].message);
      var (slots', calls) := Handled(services, r.slots, packets[1..]);
      (slots', r.calls + calls)
  }

  lemma HandledFirst(services: Services, slots: Table, p: Packet, rest: seq<Packet>)
    requires AllComplete(rest) && CompleteFrame(p.message)
    ensures AllComplete([p] + rest)
    ensures var r := ReactToFrame(services, slots, p.addr, p.message);
      Handled(services, slots, [p] + rest)
      == (Handled(services, r.slots, rest).0, r.calls + Handled(services, r.slots, rest).1)
  {
    assert ([p] + rest)[1..] == rest;
  }

  /** Handling some packets and then others. */
  lemma {:induction false} HandledAppend(services: Services, slots: Table, first: seq<Packet>, more: seq<Packet>)
    requires AllComplete(first) && AllComplete(more)
    ensures AllComplete(first + more)
    ensures var (slots', calls) := Handled(services, slots, first);
      Handled(services, slots, first + more)
      == (Handled(services, slots', more).0, calls + Handled(services, slots', more).1)
    decreases |first|
  {
    if first == [] {
      var later := Handled(services, slots, more).1;
      assert first + more == more && [] + later == later;
    } else {
      var p, rest := first[0], first[1..];
      assert first == [p] + rest && first + more == [p] + (rest + more);
      var r := ReactToFrame(services, slots, p.addr, p.message);
      HandledAppend(services, r.slots, rest, more);
      HandledFirst(services, slots, p, rest);
      HandledFirst(services, slots, p, rest + more);
      var (slots', calls) := Handled(services, r.slots, rest);
      Regroup(r.calls, calls, Handled(services, slots', more).1, []);
    }
  }

  /** The packet a receive turn takes off the queue, if any. */
  function Taken(services: Services, q: Queues): (ps: seq<Packet>)
    requires AllComplete(q.recv)
    ensures AllComplete(ps)
  {
    if |RecvTurn(services, q).recv| < |q.recv| then [q.recv[0]] else []
  }

  /** A packet that stays queued has had no effect. */
  lemma TakenOnce(services: Services, slots: Table, q: Queues)
    requires AllComplete(q.recv)
    ensures q.recv == [] ==> Handled(services, slots, Taken(services, q)) == (slots, [])
    ensures q.recv != [] ==>
      var r := ReactToFrame(services, slots, q.recv[0].addr, q.recv[0].message);
      Handled(services, slots, Taken(services, q)) == (r.slots, r.calls)
  {
    if q.recv != [] {
      var r := ReactToFrame(services, slots, q.recv[0].addr, q.recv[0].message);
      JudgementIgnoresSessions(services, slots, q.recv[0]);
      if Taken(services, q) != [] {
        assert Handled(services, slots, [q.recv[0]]) == (r.slots, r.calls + []);
        assert r.calls + [] == r.calls;
      }
    }
  }

  /** A full send queue makes the first receive attempt of a drain fail if it needs a reply. */
  predicate FirstAttemptFails(services: Services, q: Queues)
    requires AllComplete(q.recv)
  {
    q.running && q.recv != [] && |q.send| == MAX_PDU_COUNT
    && Judge(services, q.recv[0]).Accepted? && Judge(services, q.recv[0]).reply.Some?
  }

  /** The send queue, and the replies still to come, are settled by the packets queued: a turn only
      moves them along. */
  lemma RecvTurnAccounts(services: Services, slots: Table, q: Queues)
    requires AllComplete(q.recv) && q.recv != []
    ensures var r, q' := ReactToFrame(services, slots, q.recv[0].addr, q.recv[0].message), RecvTurn(services, q);
      && AllComplete(q'.recv)
      && (if q'.recv == q.recv then q' == q && r.slots == slots && r.calls == [] else q'.recv == q.recv[1..])
      && q'.send + Due(services, q') == q.send + Due(services, q)
      && Handled(services, slots, q.recv)
         == (Handled(services, r.slots, q'.recv).0, r.calls + Handled(services, r.slots, q'.recv).1)
  {
    var r, q' := ReactToFrame(services, slots, q.recv[0].addr, q.recv[0].message), RecvTurn(services, q);
    JudgementIgnoresSessions(services, slots, q.recv[0]);
    if |q'.recv| < |q.recv| {
      var rest := Replies(services, q.recv[1..]);
      match Judge(services, q.recv[0])
      case Accepted(Some(reply)) =>
        if q.running {
          assert q.send + ([reply] + rest) == (q.send + [reply]) + rest;
        }
      case Accepted(None) => assert [] + rest == rest;
      case Rejected =>
    } else {
      assert [] + Handled(services, slots, q.recv).1 == Handled(services, slots, q.recv).1;
    }
  }

  /** Every message fits npdu_send's buffer. */
  ghost predicate AllFit(packets: seq<Packet>) {
    forall i | 0 <= i < |packets| :: |packets[i].message| <= MAX_APDU
  }

  /** What the drain loop has produced so far: the packets handed to the receive handler, the session
      table, the calls made, and the packets sent. */
  datatype Progress = Progress(q: Queues, slots: Table, attempts: seq<Packet>, calls: seq<Callback>, sent: seq<Packet>)

  function Retried(services: Services, q: Queues): seq<Packet>
    requires AllComplete(q.recv)
  {
    if FirstAttemptFails(services, q) then [q.recv[0]] else []
  }

  /** Nothing is stuck and everything fits. */
  ghost predicate Flowing(services: Services, link: Link, q: Queues) {
    AllComplete(q.recv) && AllFit(q.send) && AllDigestible(services, link, q) && |q.send| <= MAX_PDU_COUNT
  }

  /** What is done together with what is left to do is what the packets queued at the start call for. */
  ghost predicate SameTotals(services: Services, p: Progress, p': Progress) {
    && AllComplete(p.q.recv) && AllComplete(p'.q.recv)
    && p'.sent + (p'.q.send + Due(services, p'.q)) == p.sent + (p.q.send + Due(services, p.q))
    && Handled(services, p'.slots, p'.q.recv).0 == Handled(services, p.slots, p.q.recv).0
    && p'.calls + Handled(services, p'.slots, p'.q.recv).1 == p.calls + Handled(services, p.slots, p.q.recv).1
  }

  /** Only the first attempt may have been in vain. */
  ghost predicate OneRetry(services: Services, p: Progress, p': Progress) {
    && AllComplete(p.q.recv)
    && (|| (p'.q == p.q && p'.attempts == p.attempts)
        || (|p'.q.send| < MAX_PDU_COUNT
            && p'.attempts + p'.q.recv == p.attempts + (Retried(services, p.q) + p.q.recv)))
  }

  ghost predicate OnTrack(services: Services, link: Link, p: Progress, p': Progress) {
    Flowing(services, link, p'.q) && SameTotals(services, p, p') && OneRetry(services, p, p')
  }

  /** The progress after one pass: the first packet received is handed to its handler, then the first
      packet to send is sent. */
  function Pass(services: Services, link: Link, p: Progress): (p': Progress)
    requires AllComplete(p.q.recv)
    ensures AllComplete(p'.q.recv)
  {
    var mid, q' := RecvTurn(services, p.q), Turn(services, link, p.q);
    var out := if |q'.send| < |mid.send| then [mid.send[0]] else [];
    if p.q.recv == [] then p.(q := q', sent := p.sent + out)
    else
      var r := ReactToFrame(services, p.slots, p.q.recv[0].addr, p.q.recv[0].message);
      Progress(q', r.slots, p.attempts + [p.q.recv[0]], p.calls + r.calls, p.sent + out)
  }

  lemma Regroup<T>(a: seq<T>, b: seq<T>, c: seq<T>, d: seq<T>)
    ensures (a + b) + (c + d) == a + ((b + c) + d)
    ensures (a + b) + c == a + (b + c)
  {
  }

  lemma PassKeepsSends(services: Services, link: Link, p: Progress)
    requires AllComplete(p.q.recv)
    ensures var p' := Pass(services, link, p);
      p'.sent + (p'.q.send + Due(services, p'.q)) == p.sent + (p.q.send + Due(services, p.q))
  {
    var mid, q' := RecvTurn(services, p.q), Turn(services, link, p.q);
    var out := if |q'.send| < |mid.send| then [mid.send[0]] else [];
    assert out + q'.send == mid.send;
    Regroup(p.sent, out, q'.send, Due(services, mid));
    if p.q.recv != [] {
      RecvTurnAccounts(services, p.slots, p.q);
    }
  }

  lemma PassKeepsCalls(services: Services, link: Link, p: Progress)
    requires AllComplete(p.q.recv)
    ensures SameTotals(services, p, Pass(services, link, p))
  {
    PassKeepsSends(services, link, p);
    if p.q.recv != [] {
      RecvTurnAccounts(services, p.slots, p.q);
      var p' := Pass(services, link, p);
      var r := ReactToFrame(services, p.slots, p.q.recv[0].addr, p.q.recv[0].message);
      Regroup(p.calls, r.calls, Handled(services, p'.slots, p'.q.recv).1, []);
    }
  }

  lemma RecvTurnPops(services: Services, link: Link, q: Queues)
    requires Flowing(services, link, q) && q.recv != []
    ensures RecvTurn(services, q).recv == if FirstAttemptFails(services, q) then q.recv else q.recv[1..]
  {
    assert Digestible(services, link, q.running, q.recv[0]);
  }

  lemma AttemptsAddUp(attempts: seq<Packet>, recv: seq<Packet>, recv': seq<Packet>, again: bool)
    requires recv != [] && recv' == if again then recv else recv[1..]
    ensures (attempts + [recv[0]]) + recv' == attempts + ((if again then [recv[0]] else []) + recv)
  {
    assert recv == [recv[0]] + recv[1..];
    assert [] + recv == recv;
  }

  lemma PassKeepsAttempts(services: Services, link: Link, p: Progress)
    requires Flowing(services, link, p.q)
    ensures Pass(services, link, p).attempts + Pass(services, link, p).q.recv
         == p.attempts + (Retried(services, p.q) + p.q.recv)
  {
    if p.q.recv != [] {
      RecvTurnPops(services, link, p.q);
      AttemptsAddUp(p.attempts, p.q.recv, Pass(services, link, p).q.recv, FirstAttemptFails(services, p.q));
    }
  }

  lemma RecvTurnFits(services: Services, q: Queues)
    requires AllComplete(q.recv) && AllFit(q.send) && WithinBlock(services)
    ensures AllFit(RecvTurn(services, q).send)
  {
    if q.recv != [] {
      RepliesFit(services, seq(MAX_SESSIONS, _ => FREE), q.recv[0].addr, q.recv[0].message);
    }
  }

  lemma TurnKeepsFlowing(services: Services, link: Link, q: Queues)
    requires Flowing(services, link, q) && WithinBlock(services) && !Idle(q)
    ensures Flowing(services, link, Turn(services, link, q))
  {
    TurnProgress(services, link, q);
    TurnDigestible(services, link, q);
    RecvTurnFits(services, q);
  }

  lemma PassKeepsOneRetry(services: Services, p0: Progress, p: Progress, p': Progress)
    requires OneRetry(services, p0, p) && AllComplete(p.q.recv)
    requires p'.attempts + p'.q.recv == p.attempts + (Retried(services, p.q) + p.q.recv)
    requires |p'.q.send| < MAX_PDU_COUNT
    ensures OneRetry(services, p0, p')
  {
  }

  lemma StaysOnTrack(services: Services, link: Link, p0: Progress, p: Progress)
    requires OnTrack(services, link, p0, p) && WithinBlock(services) && !Idle(p.q)
    ensures OnTrack(services, link, p0, Pass(services, link, p))
    ensures Work(Pass(services, link, p).q) < Work(p.q)
  {
    var p' := Pass(services, link, p);
    assert p'.q == Turn(services, link, p.q);
    TurnProgress(services, link, p.q);
    TurnKeepsFlowing(services, link, p.q);
    PassKeepsCalls(services, link, p);
    PassKeepsAttempts(services, link, p);
    PassKeepsOneRetry(services, p0, p, p');
  }

  lemma EndsOnTrack(services: Services, link: Link, q: Queues, slots: Table, p: Progress)
    requires OnTrack(services, link, Progress(q, slots, [], [], []), p) && Idle(p.q)
    ensures p.sent == q.send + Due(services, q)
    ensures (p.slots, p.calls) == Handled(services, slots, q.recv)
    ensures p.attempts == Retried(services, q) + q.recv
  {
    assert Due(services, p.q) == [] && Handled(services, p.slots, []) == (p.slots, []);
    assert p.sent + ([] + []) == p.sent && p.calls + [] == p.calls && p.attempts + [] == p.attempts;
    assert [] + (q.send + Due(services, q)) == q.send + Due(services, q);
    assert [] + Handled(services, slots, q.recv).1 == Handled(services, slots, q.recv).1;
    assert [] + (Retried(services, q) + q.recv) == Retried(services, q) + q.recv;
  }

  // ----- examples

  function EchoServices(): Services {
    map[1 := Service((src: Addr, data: seq<byte>) => Answer(0, data), false, false, false)]
  }

  function Always(ret: int): Link {
    (dst: Addr, frame: seq<byte>) => ret
  }

  /** An unconfirmed request of service 1. */
  function Asking(): Packet {
    Packet([0, 0, 0, 0, 0, 0, 0, 0], [0, 0, 0, 0, 0, 0, 0, 0], [PROTOCOL_VERSION, 0, REQUEST, 1, 5])
  }

  function Replying(): Packet {
    Asking().(message := [0, RESPONSE, 1, 5])
  }

  lemma AskingIsAnswered()
    ensures CompleteFrame(Asking().message) && Judge(EchoServices(), Asking()) == Accepted(Some(Replying()))
  {
    var apdu := Asking().message[1..];
    assert apdu == [0, REQUEST, 1, 5] && apdu[3..] == [5];
    assert Decode(apdu) == Some(Pdu(0, REQUEST, 1, 0, [5]));
    assert Encode(Pdu(0, RESPONSE, 1, 0, [5])) == [0, RESPONSE, 1, 5];
  }

  /** A request that finds the send queue full reaches its service twice, though the drain ends. */
  lemma HandlerCanRunTwice()
    ensures var q := Queues([Asking()], seq(MAX_PDU_COUNT, _ => Replying()), true);
      Flowing(EchoServices(), Always(0), q) && Retried(EchoServices(), q) + q.recv == [Asking(), Asking()]
  {
    AskingIsAnswered();
  }

  /** A packet of another protocol version keeps the drain loop going forever. */
  lemma OldVersionBlocks(n: nat)
    ensures var q := Queues([Asking().(message := [2])], [], true);
      AllComplete(q.recv) && !Idle(Turns(EchoServices(), Always(0), q, n))
  {
    var q := Queues([Asking().(message := [2])], [], true);
    assert Judge(EchoServices(), q.recv[0]).Rejected?;
    assert !Digestible(EchoServices(), Always(0), true, q.recv[0]);
    StuckStaysStuck(EchoServices(), Always(0), q, n);
  }

  // ----- stopping during a drain

  predicate IsSuffix(a: seq<Packet>, b: seq<Packet>) {
    |a| <= |b| && b[|b| - |a|..] == a
  }

  lemma PassKeepsSuffix(services: Services, link: Link, p: Progress, whole: seq<Packet>)
    requires AllComplete(p.q.recv) && IsSuffix(p.q.recv, whole)
    ensures IsSuffix(Pass(services, link, p).q.recv, whole)
  {
    var rest := RecvTurn(services, p.q).recv;
    assert rest == p.q.recv || rest == p.q.recv[1..];
    assert rest == whole[|whole| - |rest|..];
  }

  lemma StopKeepsFlowing(services: Services, link: Link, q: Queues)
    requires Flowing(services, link, q)
    ensures Flowing(services, link, q.(running := false))
  {
    assert forall i | 0 <= i < |q.recv| :: Digestible(services, link, q.running, q.recv[i]);
  }

  /** What a drain has done by p1 comes, with the queues it left, to what was queued at the start. */
  lemma HalfwayAccounts(services: Services, link: Link, q: Queues, slots: Table, p1: Progress)
    requires OnTrack(services, link, Progress(q, slots, [], [], []), p1) && AllComplete(q.recv)
    ensures AllComplete(p1.q.recv) && (p1.sent + p1.q.send) + Due(services, p1.q) == q.send + Due(services, q)
    ensures var (t, calls) := Handled(services, p1.slots, p1.q.recv);
      (t, p1.calls + calls) == Handled(services, slots, q.recv)
    ensures p1.attempts + p1.q.recv == q.recv || p1.attempts + p1.q.recv == Retried(services, q) + q.recv
  {
    Regroup(p1.sent, p1.q.send, Due(services, p1.q), []);
    NothingBefore(q.send + Due(services, q));
    NothingBefore(Handled(services, slots, q.recv).1);
    NothingBefore(q.recv);
    NothingBefore(Retried(services, q) + q.recv);
  }

  lemma NothingBefore<T>(s: seq<T>)
    ensures [] + s == s == s + []
  {
  }

  /** A unit stopped at p1, in the middle of a drain: the rest of the drain does everything but send the replies
      to the packets still queued then. */
  lemma StopLosesReplies(services: Services, link: Link, q: Queues, slots: Table, p1: Progress,
                         more: seq<Packet>, t: Table, now: seq<Callback>, out: seq<Packet>)
    requires OnTrack(services, link, Progress(q, slots, [], [], []), p1) && AllComplete(q.recv)
    requires p1.q.running == q.running
    requires var stopped := p1.q.(running := false);
      && more == Retried(services, stopped) + p1.q.recv && out == p1.q.send + Due(services, stopped)
      && (t, now) == Handled(services, p1.slots, p1.q.recv)
    ensures AllComplete(p1.q.recv)
    ensures (p1.sent + out) + Due(services, p1.q) == q.send + Due(services, q)
    ensures (t, p1.calls + now) == Handled(services, slots, q.recv)
    ensures p1.attempts + more == q.recv || p1.attempts + more == Retried(services, q) + q.recv
  {
    HalfwayAccounts(services, link, q, slots, p1);
    NothingBefore(p1.q.send);
    NothingBefore(p1.q.recv);
  }

  /** A reply is lost exactly when the unit is stopped: its request counts as handled all the same. */
  lemma ReplyLostIff(services: Services, q: Queues)
    requires AllComplete(q.recv) && q.recv != []
    requires Judge(services, q.recv[0]).Accepted? && Judge(services, q.recv[0]).reply.Some?
    ensures var q' := RecvTurn(services, q);
      (q'.recv == q.recv[1..] && q'.send == q.send) <==> !q.running
  {
  }

  // ----- runs with other producers

  /** The queues and their histories: what was accepted into each, what was handled, what was sent. */
  datatype History = History(q: Queues, acceptedRecv: seq<Packet>, handled: seq<Packet>,
                             acceptedSend: seq<Packet>, sent: seq<Packet>)

  datatype Step =
    | PutRecv(p: Packet)
    | PutSend(p: Packet)
    | HandleRecv
    | HandleSend(link: Link) // the link may refuse a packet at one time and take it at another
    | SetRunning(on: bool) // mpu_start and mpu_stop

  function Initial(): History {
    History(Queues([], [], true), [], [], [], [])
  }

  function Apply(services: Services, h: History, step: Step): (h': History)
    requires AllComplete(h.q.recv)
    ensures AllComplete(h'.q.recv)
  {
    match step
    case PutRecv(p) =>
      if h.q.running && |h.q.recv| < MAX_PDU_COUNT && CompleteFrame(p.message) then
        h.(q := h.q.(recv := h.q.recv + [p]), acceptedRecv := h.acceptedRecv + [p])
      else h
    case PutSend(p) =>
      if h.q.running && |h.q.send| < MAX_PDU_COUNT then
        h.(q := h.q.(send := h.q.send + [p]), acceptedSend := h.acceptedSend + [p])
      else h
    case HandleRecv =>
      var q' := RecvTurn(services, h.q);
      h.(q := q', handled := h.handled + Taken(services, h.q),
         acceptedSend := h.acceptedSend + q'.send[|h.q.send|..])
    case HandleSend(link) =>
      var q' := SendTurn(link, h.q);
      if |q'.send| == |h.q.send| then h else h.(q := q', sent := h.sent + [h.q.send[0]])
    case SetRunning(on) => h.(q := h.q.(running := on))
  }

  /** handled and sent are what left the queues on the way from h to h'; the session table and the calls are
      those of handling these packets, once each and in order. */
  ghost predicate Accounts(services: Services, h: History, h': History, slots: Table, slots': Table,
                           handled: seq<Packet>, calls: seq<Callback>, sent: seq<Packet>) {
    && h'.handled == h.handled + handled && h'.sent == h.sent + sent
    && AllComplete(handled) && (slots', calls) == Handled(services, slots, handled)
  }

  lemma NothingHandled(services: Services, h: History, h': History, slots: Table, sent: seq<Packet>)
    requires h'.handled == h.handled && h'.sent == h.sent + sent
    ensures Accounts(services, h, h', slots, slots, [], [], sent)
  {
    assert h.handled + [] == h.handled;
  }

  lemma AccountsAppend(services: Services, h: History, h1: History, h2: History, t: Table, t1: Table, t2: Table,
                       handled: seq<Packet>, calls: seq<Callback>, sent: seq<Packet>,
                       now: seq<Packet>, made: seq<Callback>, out: seq<Packet>)
    requires Accounts(services, h, h1, t, t1, handled, calls, sent)
    requires Accounts(services, h1, h2, t1, t2, now, made, out)
    ensures Accounts(services, h, h2, t, t2, handled + now, calls + made, sent + out)
  {
    HandledAppend(services, t, handled, now);
    Regroup(h.handled, handled, now, []);
    Regroup(h.sent, sent, out, []);
  }

  /** What a caller may put: complete frames that fit a packet, and messages that fit npdu_send's buffer. */
  predicate InRange(step: Step) {
    && (step.PutRecv? ==> CompleteFrame(step.p.message) && |step.p.message| <= MAX_MPU_DATA)
    && (step.PutSend? ==> |step.p.message| <= MAX_APDU)
  }

  ghost predicate Orderly(services: Services, h: History) {
    && AllComplete(h.q.recv) && AllComplete(h.handled)
    && |h.q.recv| <= MAX_PDU_COUNT && |h.q.send| <= MAX_PDU_COUNT
    && h.acceptedRecv == h.handled + h.q.recv
    && h.acceptedSend == h.sent + h.q.send
  }

  lemma HandleRecvKeepsOrder(services: Services, h: History)
    requires Orderly(services, h)
    ensures Orderly(services, Apply(services, h, HandleRecv))
  {
    var q' := RecvTurn(services, h.q);
    assert h.q.recv == Taken(services, h.q) + q'.recv;
    assert q'.send == h.q.send + q'.send[|h.q.send|..];
    Regroup(h.handled, Taken(services, h.q), q'.recv, []);
    Regroup(h.sent, h.q.send, q'.send[|h.q.send|..], []);
  }

  lemma ApplyKeepsOrder(services: Services, h: History, step: Step)
    requires Orderly(services, h)
    ensures Orderly(services, Apply(services, h, step))
  {
    var h' := Apply(services, h, step);
    match step
    case HandleRecv => HandleRecvKeepsOrder(services, h);
    case HandleSend(link) =>
      if |h'.q.send| < |h.q.send| {
        assert h.q.send == [h.q.send[0]] + h'.q.send;
      }
    case _ =>
  }

  function Run(services: Services, h: History, steps: seq<Step>): (h': History)
    requires AllComplete(h.q.recv)
    ensures AllComplete(h'.q.recv)
  {
    if |steps| == 0 then h
    else Apply(services, Run(services, h, steps[..|steps| - 1]), steps[|steps| - 1])
  }

  lemma {:induction false} RunKeepsOrder(services: Services, h: History, steps: seq<Step>)
    requires Orderly(services, h)
    ensures Orderly(services, Run(services, h, steps))
  {
    if |steps| != 0 {
      RunKeepsOrder(services, h, steps[..|steps| - 1]);
      ApplyKeepsOrder(services, Run(services, h, steps[..|steps| - 1]), steps[|steps| - 1]);
    }
  }

  /** A put is accepted exactly by a running unit with fewer than 16 packets in that queue; stopping and
      starting changes nothing else. */
  lemma PutsAcceptedIff(services: Services, h: History, p: Packet)
    requires AllComplete(h.q.recv) && CompleteFrame(p.message)
    ensures var h' := Apply(services, h, PutRecv(p));
      if h.q.running && |h.q.recv| < 16 then
        h' == h.(q := h.q.(recv := h.q.recv + [p]), acceptedRecv := h.acceptedRecv + [p])
      else h' == h
    ensures var h' := Apply(services, h, PutSend(p));
      if h.q.running && |h.q.send| < 16 then
        h' == h.(q := h.q.(send := h.q.send + [p]), acceptedSend := h.acceptedSend + [p])
      else h' == h
    ensures forall on :: Apply(services, h, SetRunning(on)) == h.(q := Queues(h.q.recv, h.q.send, on))
  {
  }

  function Rounds(link: Link, n: nat): seq<Step> {
    if n == 0 then [] else Rounds(link, n - 1) + [HandleRecv] + [HandleSend(link)]
  }

  lemma {:induction false} LastTurn(services: Services, link: Link, q: Queues, n: nat)
    requires AllComplete(q.recv)
    ensures AllComplete(Turns(services, link, q, n).recv)
    ensures Turns(services, link, q, n + 1) == Turn(services, link, Turns(services, link, q, n))
    decreases n
  {
    TurnsNext(services, link, q, n);
    if n == 0 {
      TurnsNext(services, link, Turn(services, link, q), 0);
    } else {
      TurnsNext(services, link, q, n - 1);
      LastTurn(services, link, Turn(services, link, q), n - 1);
    }
  }

  lemma RunNext(services: Services, h: History, steps: seq<Step>, step: Step)
    requires AllComplete(h.q.recv)
    ensures Run(services, h, steps + [step]) == Apply(services, Run(services, h, steps), step)
  {
    assert (steps + [step])[..|steps + [step]| - 1] == steps;
  }

  lemma RunTurn(services: Services, link: Link, h: History, steps: seq<Step>)
    requires AllComplete(h.q.recv)
    ensures Run(services, h, steps + [HandleRecv] + [HandleSend(link)]).q
         == Turn(services, link, Run(services, h, steps).q)
  {
    RunNext(services, h, steps, HandleRecv);
    RunNext(services, h, steps + [HandleRecv], HandleSend(link));
  }

  lemma RunTakesTurn(services: Services, link: Link, h: History, n: nat)
    requires AllComplete(h.q.recv) && Run(services, h, Rounds(link, n)).q == Turns(services, link, h.q, n)
    ensures Run(services, h, Rounds(link, n + 1)).q == Turns(services, link, h.q, n + 1)
  {
    LastTurn(services, link, h.q, n);
    RunTurn(services, link, h, Rounds(link, n));
  }

  /** A run of nothing but handler turns is the drain loop. */
  lemma {:induction false} RunsTakeTurns(services: Services, link: Link, h: History, n: nat)
    requires AllComplete(h.q.recv)
    ensures Run(services, h, Rounds(link, n)).q == Turns(services, link, h.q, n)
    decreases n
  {
    if n == 0 {
      TurnsNext(services, link, h.q, 0);
    } else {
      RunsTakeTurns(services, link, h, n - 1);
      RunTakesTurn(services, link, h, n - 1);
    }
  }

  /** So every run can be brought to an end: from any state with nothing stuck, enough turns of both handlers
      empty both queues. */
  lemma RunsCanFinish(services: Services, link: Link, h: History) returns (n: nat)
    requires AllComplete(h.q.recv) && AllDigestible(services, link, h.q) && |h.q.send| <= MAX_PDU_COUNT
    ensures Idle(Run(services, h, Rounds(link, n)).q)
  {
    n := DrainReaches(services, link, h.q);
    RunsTakeTurns(services, link, h, n);
  }

  /** In every run, packets are handled in the order they were accepted, each successfully at most once
      and none skipped; likewise for sending. */
  lemma HandledInOrder(services: Services, steps: seq<Step>)
    ensures var h := Run(services, Initial(), steps);
      && h.handled <= h.acceptedRecv && h.acceptedRecv[|h.handled|..] == h.q.recv
      && h.sent <= h.acceptedSend && h.acceptedSend[|h.sent|..] == h.q.send
  {
    var h := Run(services, Initial(), steps);
    RunKeepsOrder(services, Initial(), steps);
    assert h.acceptedRecv[..|h.handled|] == h.handled && h.acceptedSend[..|h.sent|] == h.sent;
  }
}
