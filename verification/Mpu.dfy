/** core/mpu.c: the message processing unit over two ring buffers, with the receive and send handlers of
    core/umtp.c, proved against MpuSpec. */
module Mpus {
  import opened Words
  import opened RingLayout
  import opened RingBuffers
  import opened SessionSpec
  import SessionRuns
  import opened Pdus
  import opened ApduSpec
  import opened ApduLayer
  import opened MpuSpec

  /** struct mpu_packet on a 64-bit target: length, buffer, addr, padding, data. */
  const LENGTH_AT: nat := 0
  const BUFFER_AT: nat := 2
  const ADDR_AT: nat := 2002
  const DATA_AT: nat := 2016
  const PACKET_SIZE: nat := 2024

  function Length(e: seq<byte>): nat
    requires |e| == PACKET_SIZE
  {
    var low: nat, high: nat := e[LENGTH_AT], e[LENGTH_AT + 1];
    low + 256 * high
  }

  predicate IsPacket(e: seq<byte>) {
    |e| == PACKET_SIZE && Length(e) <= MAX_MPU_DATA
  }

  function PacketOf(e: seq<byte>): Packet
    requires IsPacket(e)
  {
    Packet(e[ADDR_AT..ADDR_AT + 8], e[DATA_AT..DATA_AT + 8], e[BUFFER_AT..BUFFER_AT + Length(e)])
  }

  ghost predicate ArePackets(es: seq<seq<byte>>) {
    forall i | 0 <= i < |es| :: IsPacket(es[i])
  }

  ghost function PacketsOf(es: seq<seq<byte>>): (ps: seq<Packet>)
    requires ArePackets(es)
    ensures |ps| == |es|
  {
    seq(|es|, i requires 0 <= i < |es| => PacketOf(es[i]))
  }

  function Overwritten(e: seq<byte>, at: nat, bytes: seq<byte>): seq<byte>
    requires at + |bytes| <= |e|
  {
    e[..at] + bytes + e[at + |bytes|..]
  }

  /** The bytes a packet's fields leave in its slot, in the order mpu_put_recv writes them. */
  function Stored(e: seq<byte>, addr: Addr, data: Handle, message: seq<byte>): seq<byte>
    requires |e| == PACKET_SIZE && |message| <= MAX_MPU_DATA
  {
    var e1 := Overwritten(e, BUFFER_AT, message);
    var e2 := Overwritten(e1, LENGTH_AT, [|message| % 256, |message| / 256]);
    var e3 := Overwritten(e2, DATA_AT, data);
    Overwritten(e3, ADDR_AT, addr)
  }

  /** Reading a stored packet back gives its fields, whatever the slot held before. */
  lemma StoredReadsBack(e: seq<byte>, addr: Addr, data: Handle, message: seq<byte>)
    requires |e| == PACKET_SIZE && |message| <= MAX_MPU_DATA
    ensures IsPacket(Stored(e, addr, data, message))
    ensures PacketOf(Stored(e, addr, data, message)) == Packet(addr, data, message)
  {
    var n, len := BUFFER_AT + |message|, [|message| % 256, |message| / 256];
    var e1 := Overwritten(e, BUFFER_AT, message);
    var e2 := Overwritten(e1, LENGTH_AT, len);
    var e3 := Overwritten(e2, DATA_AT, data);
    OverwrittenSlices(e, BUFFER_AT, message, BUFFER_AT, n);
    OverwrittenSlices(e1, LENGTH_AT, len, BUFFER_AT, n);
    OverwrittenSlices(e2, DATA_AT, data, BUFFER_AT, n);
    OverwrittenSlices(e2, DATA_AT, data, LENGTH_AT, BUFFER_AT);
    OverwrittenSlices(e3, ADDR_AT, addr, BUFFER_AT, n);
    OverwrittenSlices(e3, ADDR_AT, addr, LENGTH_AT, BUFFER_AT);
    OverwrittenSlices(e3, ADDR_AT, addr, DATA_AT, PACKET_SIZE);
    var s := Stored(e, addr, data, message);
    assert s[LENGTH_AT..BUFFER_AT] == len;
    assert s[0] == s[LENGTH_AT..BUFFER_AT][0] && s[1] == s[LENGTH_AT..BUFFER_AT][1];
  }

  /** Overwriting a stretch gives the new bytes there and the old ones in any stretch apart from it. */
  lemma OverwrittenSlices(e: seq<byte>, at: nat, bytes: seq<byte>, lo: nat, hi: nat)
    requires at + |bytes| <= |e| && lo <= hi <= |e|
    ensures Overwritten(e, at, bytes)[at..at + |bytes|] == bytes
    ensures hi <= at || at + |bytes| <= lo ==> Overwritten(e, at, bytes)[lo..hi] == e[lo..hi]
  {
    var r, end := Overwritten(e, at, bytes), at + |bytes|;
    assert |r| == |e|;
    forall k | 0 <= k < |e|
      ensures r[k] == if at <= k < end then bytes[k - at] else e[k]
    {
      var front := e[..at] + bytes;
      assert r[k] == if k < end then front[k] else e[end..][k - end];
    }
    assert r[at..end] == bytes;
  }

  lemma OverwrittenNext(e: seq<byte>, at: nat, bytes: seq<byte>, i: nat)
    requires at + |bytes| <= |e| && i < |bytes|
    ensures Overwritten(e, at, bytes[..i])[at + i := bytes[i]] == Overwritten(e, at, bytes[..i + 1])
  {
    assert bytes[..i + 1] == bytes[..i] + [bytes[i]];
  }

  lemma PacketsOfAppend(es: seq<seq<byte>>, e: seq<byte>)
    requires ArePackets(es) && IsPacket(e)
    ensures ArePackets(es + [e]) && PacketsOf(es + [e]) == PacketsOf(es) + [PacketOf(e)]
  {
  }

  /** A store through the packet pointer into a reserved slot. */
  method WriteField(queue: RingBuffer, slot: nat, at: nat, bytes: seq<byte>)
    requires queue.Valid() && |queue.Contents()| < queue.geometry.count && queue.IsHeadSlot(slot)
    requires at + |bytes| <= queue.geometry.size
    modifies queue.buffer
    ensures queue.Contents() == old(queue.Contents())
    ensures queue.At(slot) == Overwritten(old(queue.At(slot)), at, bytes)
  {
    ghost var before := queue.At(slot);
    assert Overwritten(before, at, bytes[..0]) == before;
    for i := 0 to |bytes|
      invariant queue.Contents() == old(queue.Contents())
      invariant queue.At(slot) == Overwritten(before, at, bytes[..i])
    {
      OverwrittenNext(before, at, bytes, i);
      queue.WriteReserved(slot, at + i, bytes[i]);
    }
    assert bytes[..|bytes|] == bytes;
  }

  method StorePacket(queue: RingBuffer, slot: nat, addr: Addr, data: Handle, message: seq<byte>)
    requires queue.Valid() && |queue.Contents()| < queue.geometry.count && queue.IsHeadSlot(slot)
    requires queue.geometry.size == PACKET_SIZE && |message| <= MAX_MPU_DATA
    modifies queue.buffer
    ensures queue.Contents() == old(queue.Contents())
    ensures IsPacket(queue.At(slot)) && PacketOf(queue.At(slot)) == Packet(addr, data, message)
  {
    StoredReadsBack(queue.At(slot), addr, data, message);
    WriteField(queue, slot, BUFFER_AT, message);
    WriteField(queue, slot, LENGTH_AT, [|message| % 256, |message| / 256]);
    WriteField(queue, slot, DATA_AT, data);
    WriteField(queue, slot, ADDR_AT, addr);
  }

  /** Reserve a slot, store the packet in it, publish it: the body of mpu_put_recv and mpu_put_send. */
  method Enqueue(queue: RingBuffer, addr: Addr, data: Handle, message: seq<byte>) returns (ret: int)
    requires queue.Valid() && queue.geometry.size == PACKET_SIZE && ArePackets(queue.Contents())
    requires |message| <= MAX_MPU_DATA
    modifies queue`head, queue.buffer
    ensures queue.Valid() && ArePackets(queue.Contents())
    ensures ret == if |old(queue.Contents())| < queue.geometry.count then 0 else -ENOMEM
    ensures PacketsOf(queue.Contents())
         == PacketsOf(old(queue.Contents())) + if ret == 0 then [Packet(addr, data, message)] else []
  {
    ret := -ENOMEM;
    var slot := queue.DataPeek();
    if slot.Some? {
      StorePacket(queue, slot.value, addr, data, message);
      PacketsOfAppend(queue.Contents(), queue.At(slot.value));
      var ok := queue.DataPut(slot.value);
      if ok {
        ret := 0;
      }
    }
  }

  /** The packet at the front, read through the pointer ringbuf_peek returns. */
  method Front(queue: RingBuffer) returns (p: Packet)
    requires queue.Valid() && queue.geometry.size == PACKET_SIZE && ArePackets(queue.Contents())
    requires queue.Contents() != []
    ensures p == PacketsOf(queue.Contents())[0]
  {
    var e := queue.Fetch();
    assert e.value == queue.Contents()[0];
    p := PacketOf(e.value);
  }

  method DropFront(queue: RingBuffer)
    requires queue.Valid() && queue.geometry.size == PACKET_SIZE && ArePackets(queue.Contents())
    requires queue.Contents() != []
    modifies queue`tail
    ensures queue.Valid() && ArePackets(queue.Contents())
    ensures PacketsOf(queue.Contents()) == PacketsOf(old(queue.Contents()))[1..]
  {
    var ok := queue.Pop(null);
  }

  class Mpu {
    const recvQueue: RingBuffer
    const sendQueue: RingBuffer
    const apdu: Apdu
    var running: bool

    ghost predicate Valid()
      reads this, recvQueue, recvQueue.buffer, sendQueue, sendQueue.buffer, apdu, apdu.table, apdu.table.slots
    {
      && recvQueue.Valid() && recvQueue.geometry == Geometry(MAX_PDU_COUNT, PACKET_SIZE)
      && sendQueue.Valid() && sendQueue.geometry == Geometry(MAX_PDU_COUNT, PACKET_SIZE)
      && recvQueue != sendQueue && recvQueue.buffer != sendQueue.buffer
      && apdu.Valid() && apdu.transBlk != recvQueue.buffer && apdu.transBlk != sendQueue.buffer
      && ArePackets(recvQueue.Contents()) && ArePackets(sendQueue.Contents())
    }

    ghost function Queued(): (q: Queues)
      requires Valid()
      reads this, recvQueue, recvQueue.buffer, sendQueue, sendQueue.buffer, apdu, apdu.table, apdu.table.slots
      ensures |q.recv| <= MAX_PDU_COUNT && |q.send| <= MAX_PDU_COUNT
    {
      Queues(PacketsOf(recvQueue.Contents()), PacketsOf(sendQueue.Contents()), running)
    }

    ghost function Slots(): Table
      requires Valid()
      reads this, recvQueue, recvQueue.buffer, sendQueue, sendQueue.buffer, apdu, apdu.table, apdu.table.slots
    {
      apdu.table.Slots()
    }

    /** mpu_create and mpu_start. */
    constructor (apdu: Apdu)
      requires apdu.Valid()
      ensures Valid() && Queued() == Queues([], [], true) && this.apdu == apdu
      ensures fresh(recvQueue) && fresh(sendQueue) && fresh(recvQueue.buffer) && fresh(sendQueue.buffer)
    {
      var recvBuffer := new byte[MAX_PDU_COUNT * PACKET_SIZE];
      var sendBuffer := new byte[MAX_PDU_COUNT * PACKET_SIZE];
      recvQueue := new RingBuffer(recvBuffer, PACKET_SIZE, MAX_PDU_COUNT);
      sendQueue := new RingBuffer(sendBuffer, PACKET_SIZE, MAX_PDU_COUNT);
      this.apdu := apdu;
      running := true;
    }

    /** A stopped unit drops the message and still reports success. */
    method PutRecv(src: Addr, data: Handle, message: seq<byte>) returns (ret: int)
      requires Valid() && |message| <= MAX_MPU_DATA
      modifies recvQueue`head, recvQueue.buffer
      ensures Valid() && Slots() == old(Slots())
      ensures Queued().send == old(Queued().send)
      ensures !running ==> ret == 0 && Queued() == old(Queued())
      ensures running ==>
        if |old(Queued().recv)| < MAX_PDU_COUNT then
          ret == 0 && Queued().recv == old(Queued().recv) + [Packet(src, data, message)]
        else ret == -ENOMEM && Queued().recv == old(Queued().recv)
    {
      if !running {
        return 0;
      }
      ret := Enqueue(recvQueue, src, data, message);
    }

    method PutSend(dst: Addr, data: Handle, message: seq<byte>) returns (ret: int)
      requires Valid() && |message| <= MAX_MPU_DATA
      modifies sendQueue`head, sendQueue.buffer
      ensures Valid() && Slots() == old(Slots())
      ensures Queued().recv == old(Queued().recv)
      ensures !running ==> ret == 0 && Queued() == old(Queued())
      ensures running ==>
        if |old(Queued().send)| < MAX_PDU_COUNT then
          ret == 0 && Queued().send == old(Queued().send) + [Packet(dst, data, message)]
        else ret == -ENOMEM && Queued().send == old(Queued().send)
    {
      if !running {
        return 0;
      }
      ret := Enqueue(sendQueue, dst, data, message);
    }

    /** _umtp_handle_msg: network and application decoding, and the submission of a reply. */
    method HandlePacket(services: Services, p: Packet) returns (ret: int, calls: seq<Callback>)
      requires Valid() && CompleteFrame(p.message) && WithinBlock(services)
      modifies sendQueue`head, sendQueue.buffer, apdu.transBlk, apdu.table.slots
      ensures Valid() && Queued().recv == old(Queued().recv)
      ensures var r := ReactToFrame(services, old(Slots()), p.addr, p.message);
        && Slots() == r.slots && calls == r.calls
        && (r.reply == None ==> ret == r.ret && Queued().send == old(Queued().send))
        && (r.reply.Some? && !running ==> ret == 0 && Queued().send == old(Queued().send))
        && (r.reply.Some? && running && |old(Queued().send)| < MAX_PDU_COUNT ==>
              ret == 0 && Queued().send == old(Queued().send) + [Packet(p.addr, p.data, r.reply.value)])
        && (r.reply.Some? && running && |old(Queued().send)| >= MAX_PDU_COUNT ==>
              ret == -ENOMEM && Queued().send == old(Queued().send))
    {
      RepliesFit(services, Slots(), p.addr, p.message);
      var reply;
      ret, reply, calls := apdu.HandleFrame(services, p.addr, p.message);
      if reply.Some? {
        ret := PutSend(p.addr, p.data, reply.value);
      }
    }

    /** umtp_apdu_submit, handing over to the send queue; None if no session becomes free. A confirmed request
        keeps its armed session even when the handover fails or a stopped unit drops it. */
    method SubmitRequest(owner: nat, dst: Addr, data: Handle, d: ApduData, others: seq<seq<SessionRuns.Op>>)
      returns (ret: Option<int>, id: byte, turns: nat)
      requires Valid() && |d.payload| <= MAX_APDU - 4
      requires forall i, op | 0 <= i < |others| && op in others[i] :: SessionRuns.InRange(op)
      modifies apdu.table`counter, apdu.table.slots, sendQueue`head, sendQueue.buffer
      ensures Valid() && turns <= |others| && Queued().recv == old(Queued().recv)
      ensures Waited(apdu.table.limits, old(apdu.table.State()), d, others, turns)
      ensures var st := AfterTurns(apdu.table.limits, old(apdu.table.State()), others, turns);
        var sub := ApduSpec.Submit(apdu.table.limits, st, owner, dst, d);
        && apdu.table.State() == sub.next && id == sub.id
        && (sub.apdu.None? ==>
              ret == None && Queued().send == old(Queued().send) && turns == |others| && AllTaken(st.slots))
        && (sub.apdu.Some? && !running ==> ret == Some(0) && Queued().send == old(Queued().send))
        && (sub.apdu.Some? && running && |old(Queued().send)| < MAX_PDU_COUNT ==>
              ret == Some(0) && Queued().send == old(Queued().send) + [Packet(dst, data, sub.apdu.value)])
        && (sub.apdu.Some? && running && |old(Queued().send)| >= MAX_PDU_COUNT ==>
              ret == Some(-ENOMEM) && Queued().send == old(Queued().send))
    {
      var message;
      message, id, turns := apdu.Await(owner, dst, d, others);
      ret := None;
      if message.Some? {
        var code := PutSend(dst, data, message.value);
        ret := Some(code);
      }
    }

    method PopRecv()
      requires Valid() && Queued().recv != []
      modifies recvQueue`tail
      ensures Valid() && Slots() == old(Slots())
      ensures Queued() == old(Queued()).(recv := old(Queued()).recv[1..])
    {
      DropFront(recvQueue);
    }

    /** mpu_msg_handle on the receive queue. attempt is the packet handed to the handler, if any. */
    method HandleRecv(services: Services) returns (attempt: seq<Packet>, calls: seq<Callback>)
      requires Valid() && AllComplete(Queued().recv) && WithinBlock(services)
      modifies recvQueue`tail, sendQueue`head, sendQueue.buffer, apdu.transBlk, apdu.table.slots
      ensures Valid() && Queued() == RecvTurn(services, old(Queued()))
      ensures attempt == if old(Queued().recv) == [] then [] else [old(Queued().recv)[0]]
      ensures attempt == [] ==> Slots() == old(Slots()) && calls == []
      ensures attempt != [] ==>
        var r := ReactToFrame(services, old(Slots()), attempt[0].addr, attempt[0].message);
        Slots() == r.slots && calls == r.calls
    {
      attempt, calls := [], [];
      if recvQueue.Empty() {
        return;
      }
      var p := Front(recvQueue);
      attempt := [p];
      RecvTurnByReaction(services, Slots(), Queued());
      var ret;
      ret, calls := HandlePacket(services, p);
      if ret == 0 {
        PopRecv();
      }
    }

    /** mpu_msg_handle on the send queue with _umtp_send_msg. given is what the link was handed, out the packet
        that left the queue because the link took it. */
    method HandleSend(link: Link) returns (out: seq<Packet>, given: seq<Datagram>)
      requires Valid() && AllFit(Queued().send)
      modifies sendQueue`tail
      ensures Valid() && Slots() == old(Slots())
      ensures Queued() == SendTurn(link, old(Queued()))
      ensures out == if |Queued().send| < |old(Queued().send)| then [old(Queued().send)[0]] else []
      ensures given == Given(old(Queued().send))
      ensures |Queued().send| < |old(Queued().send)| <==> given != [] && link(given[0].to, given[0].bytes) == 0
    {
      out, given := [], [];
      if sendQueue.Empty() {
        return;
      }
      var p := Front(sendQueue);
      var ret, frame := EncodeFrame(p.message);
      if ret == 0 {
        given := [Datagram(p.addr, frame)];
        ret := link(p.addr, frame);
      }
      if ret == 0 {
        DropFront(sendQueue);
        out := [p];
      }
    }

    /** HandleRecv as a step: handled is the packet that left the queue, if any. */
    method TakeRecv(services: Services) returns (handled: seq<Packet>, calls: seq<Callback>)
      requires Valid() && AllComplete(Queued().recv) && WithinBlock(services)
      modifies recvQueue`tail, sendQueue`head, sendQueue.buffer, apdu.transBlk, apdu.table.slots
      ensures Valid() && Queued() == RecvTurn(services, old(Queued()))
      ensures handled == Taken(services, old(Queued()))
      ensures (Slots(), calls) == Handled(services, old(Slots()), handled)
    {
      var waiting := recvQueue.Count();
      TakenOnce(services, Slots(), Queued());
      handled, calls := HandleRecv(services);
      if recvQueue.Count() == waiting {
        handled := [];
      }
    }

    /** One step of a run. handled and sent are the packets that left the queues, at most one each. */
    method Take(services: Services, step: Step, ghost h: History)
      returns (handled: seq<Packet>, calls: seq<Callback>, sent: seq<Packet>, ghost h': History)
      requires Valid() && WithinBlock(services) && InRange(step)
      requires h.q == Queued() && AllComplete(h.q.recv) && AllFit(h.q.send)
      modifies `running, recvQueue`head, recvQueue`tail, recvQueue.buffer
      modifies sendQueue`head, sendQueue`tail, sendQueue.buffer, apdu.transBlk, apdu.table.slots
      ensures Valid() && h' == Apply(services, h, step) && h'.q == Queued() && AllFit(h'.q.send)
      ensures Accounts(services, h, h', old(Slots()), Slots(), handled, calls, sent)
    {
      handled, calls, sent := [], [], [];
      h' := Apply(services, h, step);
      match step
      case PutRecv(p) =>
        NothingHandled(services, h, h', Slots(), sent);
        var ret := PutRecv(p.addr, p.data, p.message);
      case PutSend(p) =>
        NothingHandled(services, h, h', Slots(), sent);
        var ret := PutSend(p.addr, p.data, p.message);
      case HandleRecv =>
        RecvTurnFits(services, Queued());
        handled, calls := TakeRecv(services);
      case HandleSend(link) =>
        ghost var given;
        sent, given := HandleSend(link);
        NothingHandled(services, h, h', Slots(), sent);
      case SetRunning(on) =>
        NothingHandled(services, h, h', Slots(), sent);
        running := on;
    }

    /** Any run of the unit: its queues go through the states of MpuSpec.Run, and the session table and the
        calls are those of handling, once each and in order, the packets that run handles. */
    method Perform(services: Services, steps: seq<Step>, ghost h: History)
      returns (handled: seq<Packet>, calls: seq<Callback>, sent: seq<Packet>, ghost h': History)
      requires Valid() && WithinBlock(services)
      requires forall i | 0 <= i < |steps| :: InRange(steps[i])
      requires h.q == Queued() && AllComplete(h.q.recv) && AllFit(h.q.send)
      modifies `running, recvQueue`head, recvQueue`tail, recvQueue.buffer
      modifies sendQueue`head, sendQueue`tail, sendQueue.buffer, apdu.transBlk, apdu.table.slots
      ensures Valid() && h' == Run(services, h, steps) && h'.q == Queued() && AllFit(h'.q.send)
      ensures Accounts(services, h, h', old(Slots()), Slots(), handled, calls, sent)
      decreases |steps|
    {
      handled, calls, sent, h' := [], [], [], h;
      if |steps| > 0 {
        var n := |steps| - 1;
        handled, calls, sent, h' := Perform(services, steps[..n], h);
        ghost var h1, slots := h', Slots();
        var now, made, out;
        now, made, out, h' := Take(services, steps[n], h');
        AccountsAppend(services, h, h1, h', old(Slots()), slots, Slots(), handled, calls, sent, now, made, out);
        handled, calls, sent := handled + now, calls + made, sent + out;
      }
    }

    /** The body of the drain loop, adding to the logs of what it did. */
    method TurnOnce(services: Services, link: Link, ghost p: Progress)
      returns (attempt: seq<Packet>, calls: seq<Callback>, out: seq<Packet>, given: seq<Datagram>, ghost p': Progress)
      requires Valid() && AllComplete(Queued().recv) && WithinBlock(services)
      requires AllFit(RecvTurn(services, Queued()).send)
      requires p.q == Queued() && p.slots == Slots()
      modifies recvQueue`tail, sendQueue`head, sendQueue`tail, sendQueue.buffer, apdu.transBlk, apdu.table.slots
      ensures Valid() && p' == Pass(services, link, p)
      ensures p' == Progress(Queued(), Slots(), p.attempts + attempt, p.calls + calls, p.sent + out)
      ensures var mid := RecvTurn(services, p.q);
        given == Given(mid.send) && out == if |p'.q.send| < |mid.send| then [mid.send[0]] else []
    {
      attempt, calls := HandleRecv(services);
      out, given := HandleSend(link);
      p' := Pass(services, link, p);
      assert p.q.recv == [] ==> p.attempts + attempt == p.attempts && p.calls + calls == p.calls;
    }

    /** The same with nothing stuck: all the link is given is sent. */
    method TurnOn(services: Services, link: Link, ghost p0: Progress, ghost p: Progress)
      returns (attempt: seq<Packet>, calls: seq<Callback>, out: seq<Packet>, given: seq<Datagram>, ghost p': Progress)
      requires Valid() && WithinBlock(services) && OnTrack(services, link, p0, p)
      requires p.q == Queued() && p.slots == Slots() && !Idle(p.q)
      modifies recvQueue`tail, sendQueue`head, sendQueue`tail, sendQueue.buffer, apdu.transBlk, apdu.table.slots
      ensures Valid() && p' == Pass(services, link, p) && Work(p'.q) < Work(p.q)
      ensures p' == Progress(Queued(), Slots(), p.attempts + attempt, p.calls + calls, p.sent + out)
      ensures OnTrack(services, link, p0, p') && given == Wires(out)
    {
      StaysOnTrack(services, link, p0, p);
      RecvTurnFits(services, p.q);
      GivenIsSent(services, link, p.q);
      attempt, calls, out, given, p' := TurnOnce(services, link, p);
    }

    /** The drain loop of mpu_task. With no other producer and nothing stuck it ends with both queues
        empty; each received packet has been handled once, in order, and what went out is what was
        queued followed by the replies, in order. Handling a packet may be attempted twice only for the
        first, when the send queue starts out full. */
    method Drain(services: Services, link: Link)
      returns (attempts: seq<Packet>, calls: seq<Callback>, sent: seq<Packet>, given: seq<Datagram>)
      requires Valid() && AllComplete(Queued().recv) && WithinBlock(services)
      requires AllFit(Queued().send) && AllDigestible(services, link, Queued())
      modifies recvQueue`tail, sendQueue`head, sendQueue`tail, sendQueue.buffer, apdu.transBlk, apdu.table.slots
      ensures Valid() && Idle(Queued())
      ensures sent == old(Queued().send) + Due(services, old(Queued())) && given == Wires(sent)
      ensures (Slots(), calls) == Handled(services, old(Slots()), old(Queued().recv))
      ensures attempts == Retried(services, old(Queued())) + old(Queued().recv)
    {
      attempts, calls, sent, given := [], [], [], [];
      ghost var q0, slots0 := Queued(), Slots();
      ghost var p0 := Progress(q0, slots0, attempts, calls, sent);
      ghost var p := p0;
      while !sendQueue.Empty() || !recvQueue.Empty()
        invariant Valid() && p == Progress(Queued(), Slots(), attempts, calls, sent) && given == Wires(sent)
        invariant OnTrack(services, link, p0, p)
        decreases Work(p.q)
      {
        var attempt, now, out, bytes;
        attempt, now, out, bytes, p := TurnOn(services, link, p0, p);
        WiresAppend(sent, out);
        attempts, calls, sent, given := attempts + attempt, calls + now, sent + out, given + bytes;
      }
      EndsOnTrack(services, link, q0, slots0, p);
    }

    /** At most so many passes of the drain loop. */
    method Passes(services: Services, link: Link, passes: nat, ghost p0: Progress)
      returns (attempts: seq<Packet>, calls: seq<Callback>, sent: seq<Packet>, given: seq<Datagram>, ghost p: Progress)
      requires Valid() && WithinBlock(services) && Flowing(services, link, Queued())
      requires p0 == Progress(Queued(), Slots(), [], [], [])
      modifies recvQueue`tail, sendQueue`head, sendQueue`tail, sendQueue.buffer, apdu.transBlk, apdu.table.slots
      ensures Valid() && p == Progress(Queued(), Slots(), attempts, calls, sent) && given == Wires(sent)
      ensures OnTrack(services, link, p0, p) && IsSuffix(p.q.recv, p0.q.recv)
    {
      attempts, calls, sent, given, p := [], [], [], [], p0;
      var k := 0;
      while k < passes && (!sendQueue.Empty() || !recvQueue.Empty())
        invariant Valid() && p == Progress(Queued(), Slots(), attempts, calls, sent) && given == Wires(sent)
        invariant OnTrack(services, link, p0, p) && IsSuffix(p.q.recv, p0.q.recv)
      {
        PassKeepsSuffix(services, link, p, p0.q.recv);
        var attempt, now, out, bytes;
        attempt, now, out, bytes, p := TurnOn(services, link, p0, p);
        WiresAppend(sent, out);
        attempts, calls, sent, given := attempts + attempt, calls + now, sent + out, given + bytes;
        k := k + 1;
      }
    }

    /** mpu_stop, at p1 in a drain that began with q and slots, and the rest of that drain. */
    method StopAndFinish(services: Services, link: Link, ghost q: Queues, ghost slots: Table, ghost p1: Progress)
      returns (more: seq<Packet>, now: seq<Callback>, out: seq<Packet>, bytes: seq<Datagram>)
      requires Valid() && WithinBlock(services) && AllComplete(q.recv)
      requires p1.q == Queued() && p1.slots == Slots() && p1.q.running == q.running
      requires OnTrack(services, link, Progress(q, slots, [], [], []), p1)
      modifies `running, recvQueue`tail
      modifies sendQueue`head, sendQueue`tail, sendQueue.buffer, apdu.transBlk, apdu.table.slots
      ensures Valid() && Idle(Queued()) && !running
      ensures (p1.sent + out) + Due(services, p1.q) == q.send + Due(services, q) && bytes == Wires(out)
      ensures (Slots(), p1.calls + now) == Handled(services, slots, q.recv)
      ensures p1.attempts + more == q.recv || p1.attempts + more == Retried(services, q) + q.recv
    {
      StopKeepsFlowing(services, link, p1.q);
      running := false;
      more, now, out, bytes := Drain(services, link);
      StopLosesReplies(services, link, q, slots, p1, more, Slots(), now, out);
    }

    /** A drain during which mpu_stop is called, after so many passes. The loop still empties both queues and
        handles every packet, in order; but the replies due for those left when the unit was stopped are lost. */
    method StopWhileDraining(services: Services, link: Link, passes: nat)
      returns (attempts: seq<Packet>, calls: seq<Callback>, sent: seq<Packet>, given: seq<Datagram>, ghost left: Queues)
      requires Valid() && AllComplete(Queued().recv) && WithinBlock(services)
      requires AllFit(Queued().send) && AllDigestible(services, link, Queued())
      modifies `running, recvQueue`tail
      modifies sendQueue`head, sendQueue`tail, sendQueue.buffer, apdu.transBlk, apdu.table.slots
      ensures Valid() && Idle(Queued()) && !running
      ensures IsSuffix(left.recv, old(Queued().recv)) && AllComplete(left.recv) && left.running == old(running)
      ensures sent + Due(services, left) == old(Queued().send) + Due(services, old(Queued())) && given == Wires(sent)
      ensures (Slots(), calls) == Handled(services, old(Slots()), old(Queued().recv))
      ensures attempts == old(Queued().recv) || attempts == Retried(services, old(Queued())) + old(Queued().recv)
    {
      ghost var q0, slots0 := Queued(), Slots();
      ghost var p1;
      attempts, calls, sent, given, p1 := Passes(services, link, passes, Progress(q0, slots0, [], [], []));
      left := p1.q;
      var more, now, out, bytes := StopAndFinish(services, link, q0, slots0, p1);
      WiresAppend(sent, out);
      attempts, calls, sent, given := attempts + more, calls + now, sent + out, given + bytes;
    }
  }
}
