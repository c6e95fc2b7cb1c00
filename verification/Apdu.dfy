/** core/apdu.c and core/npdu.c: messages built byte by byte in place, proved against ApduSpec. */
module ApduLayer {
  import opened Words
  import opened SessionSpec
  import opened SessionTables
  import SessionRuns
  import opened Pdus
  import opened ApduSpec

  /** npdu_send's framing: the version byte and a copy of the APDU, in a buffer of MAX_NPDU bytes. */
  method EncodeFrame(data: seq<byte>) returns (ret: int, frame: seq<byte>)
    requires |data| <= MAX_APDU
    ensures data == [] ==> ret == -EINVAL && frame == []
    ensures data != [] ==> ret == 0 && frame == Frame(data)
  {
    if |data| == 0 {
      return -EINVAL, [];
    }
    var tmp := new byte[MAX_APDU + 1](_ => 0);
    tmp[0] := PROTOCOL_VERSION;
    var encodeLen := 1;
    for i := 0 to |data|
      invariant tmp[..1 + i] == Frame(data[..i])
    {
      tmp[encodeLen + i] := data[i];
    }
    encodeLen := encodeLen + |data|;
    assert data[..|data|] == data;
    return 0, tmp[..encodeLen];
  }

  /** The header bytes of a message, one encode_len++ at a time. */
  method WriteHeader(block: array<byte>, flag: byte, kind: byte, service: byte, session: byte) returns (n: nat)
    requires block.Length == MAX_APDU
    modifies block
    ensures n == HeaderSize(flag)
    ensures block[..n] == [flag, kind, service] + if HasSession(flag) then [session] else []
    ensures block[n..] == old(block[n..])
  {
    n := 0;
    block[n] := flag;
    n := n + 1;
    block[n] := kind;
    n := n + 1;
    block[n] := service;
    n := n + 1;
    if HasSession(flag) {
      block[n] := session;
      n := n + 1;
    }
  }

  /** umtp_apdu_submit's local buffer. */
  method BuildRequest(d: ApduData, id: byte) returns (apdu: seq<byte>)
    requires |d.payload| <= MAX_APDU - 4
    ensures apdu == Encode(RequestPdu(d, id))
  {
    var tmp := new byte[MAX_APDU](_ => 0);
    var n := WriteHeader(tmp, if d.confirmed then 1 else 0, REQUEST, d.service % 256, id);
    ghost var header := tmp[..n];
    for i := 0 to |d.payload|
      invariant tmp[..n] == header && tmp[n..n + i] == d.payload[..i]
    {
      tmp[n + i] := d.payload[i];
      assert d.payload[..i + 1] == d.payload[..i] + [d.payload[i]];
    }
    assert d.payload[..|d.payload|] == d.payload;
    apdu := tmp[..n + |d.payload|];
    assert apdu == header + d.payload;
  }

  ghost predicate AllTaken(t: Table) {
    forall i | 0 <= i < MAX_SESSIONS :: t[i].id != 0
  }

  /** The table after the first n rounds of what others do to it. */
  ghost function AfterTurns(limits: Limits, st: Sessions, others: seq<seq<SessionRuns.Op>>, n: nat): Sessions
    requires n <= |others|
  {
    if n == 0 then st else SessionRuns.Run(limits, AfterTurns(limits, st, others, n - 1), others[n - 1])
  }

  /** Before each of the first n rounds a session was wanted and every slot was taken. */
  ghost predicate Waited(limits: Limits, st: Sessions, d: ApduData, others: seq<seq<SessionRuns.Op>>, n: nat)
    requires n <= |others|
  {
    forall j | 0 <= j < n :: d.confirmed && AllTaken(AfterTurns(limits, st, others, j).slots)
  }

  lemma WaitedOnce(limits: Limits, st: Sessions, d: ApduData, others: seq<seq<SessionRuns.Op>>, n: nat)
    requires n < |others| && Waited(limits, st, d, others, n)
    requires d.confirmed && AllTaken(AfterTurns(limits, st, others, n).slots)
    ensures Waited(limits, st, d, others, n + 1)
  {
  }

  /** A submission waits exactly when it needs a session and every slot is taken; it then changes nothing. */
  lemma SubmitWaitsIff(limits: Limits, st: Sessions, owner: nat, dst: Addr, d: ApduData)
    ensures var sub := ApduSpec.Submit(limits, st, owner, dst, d);
      && (sub.apdu.None? <==> d.confirmed && AllTaken(st.slots))
      && (sub.apdu.None? ==> sub.next == st)
      && (sub.id != 0 <==> d.confirmed && sub.apdu.Some?)
  {
    ReserveFirstUnused(limits, st);
  }

  class Apdu {
    const table: SessionTable
    /** apdu_trans_blk */
    const transBlk: array<byte>

    ghost predicate Valid()
      reads this, table, table.slots
    {
      table.Valid() && transBlk.Length == MAX_APDU
    }

    constructor (table: SessionTable)
      requires table.Valid()
      ensures Valid() && this.table == table && fresh(transBlk)
    {
      this.table := table;
      transBlk := new byte[MAX_APDU];
    }

    /** A service's writes through service_data.data. */
    method ServiceWrites(offset: nat, data: seq<byte>)
      requires offset + |data| <= transBlk.Length
      modifies transBlk
      ensures transBlk[offset..offset + |data|] == data
    {
      for i := 0 to |data|
        invariant transBlk[offset..offset + i] == data[..i]
      {
        transBlk[offset + i] := data[i];
      }
      assert data[..|data|] == data;
    }

    /** memcpy inside the block; the two places turn out to coincide. */
    method CopyWithin(from: nat, to: nat, len: nat)
      requires from + len <= transBlk.Length && to + len <= transBlk.Length && from == to
      modifies transBlk
      ensures transBlk[..] == old(transBlk[..])
    {
      for i := 0 to len
        invariant transBlk[..] == old(transBlk[..])
      {
        transBlk[to + i] := transBlk[from + i];
      }
    }

    /** The request branch of apdu_handler. The service writes its data at the payload offset of its
        own request; the reply's header is then written in front of it and the data copied to where
        that header ends, which CopyWithin is asked to prove is the same place. */
    method BuildReply(p: Pdu, a: Answer) returns (reply: seq<byte>)
      requires Valid() && |a.data| <= MAX_APDU - 4
      modifies transBlk
      ensures reply == Encode(ReplyTo(p, a))
    {
      var offset := HeaderSize(p.flag);
      ServiceWrites(offset, a.data);
      ghost var rest := transBlk[offset..];
      assert rest[..|a.data|] == transBlk[offset..offset + |a.data|] == a.data;
      var n := WriteHeader(transBlk, p.flag, if a.status != 0 then ERROR else RESPONSE, p.service, p.session);
      ghost var header := transBlk[..n];
      assert transBlk[n..] == rest;
      if a.status != 0 {
        transBlk[n] := a.status % 256;
        n := n + 1;
        assert transBlk[..n] == header + [a.status % 256];
      } else {
        CopyWithin(offset, n, |a.data|);
        assert transBlk[..n] == header && transBlk[n..] == rest;
        assert transBlk[..n + |a.data|] == header + rest[..|a.data|];
        n := n + |a.data|;
      }
      reply := transBlk[..n];
    }

    /** apdu_handler up to the submission of a reply. */
    method Handle(services: Services, src: Addr, apdu: seq<byte>) returns (ret: int, reply: Option<seq<byte>>,
                                                                          calls: seq<Callback>)
      requires Valid() && Complete(apdu) && WithinBlock(services)
      modifies transBlk, table.slots
      ensures Valid()
      ensures Reaction(ret, reply, calls, table.Slots()) == React(services, old(table.Slots()), src, apdu)
    {
      ret, reply, calls := 0, None, [];
      var flag, kind := apdu[0], apdu[1];
      if kind >= TYPE_MAX {
        return -EPROTO, None, [];
      }
      var service, sessionId, decodeLen := apdu[2], 0, 3;
      if HasSession(flag) {
        sessionId := apdu[decodeLen];
        decodeLen := decodeLen + 1;
      }
      var payload := apdu[decodeLen..];
      ghost var p := Pdu(flag, kind, service, sessionId, payload);
      assert Decode(apdu) == Some(p);
      if kind == REQUEST {
        var answer := Serve(services, src, service, payload);
        var message := BuildReply(Pdu(flag, kind, service, sessionId, payload), answer);
        reply := Some(message);
      } else if kind == RESPONSE {
        var session := None;
        if HasSession(flag) {
          session := table.Get(sessionId);
        }
        if payload != [] && service in services && services[service].onResponse {
          calls := [OnResponse(src, service, session, payload)];
        }
        if HasSession(flag) {
          table.Clear(sessionId);
        }
      } else if kind == ERROR {
        var session := None;
        if HasSession(flag) {
          session := table.Get(sessionId);
        }
        if service in services && services[service].onError {
          calls := [OnError(src, service, apdu[decodeLen], session)];
        }
        if HasSession(flag) {
          table.Clear(sessionId);
        }
      } else if kind == REJECT {
        if HasSession(flag) {
          table.Clear(sessionId);
        }
      }
    }

    /** npdu_handler. */
    method HandleFrame(services: Services, src: Addr, frame: seq<byte>) returns (ret: int, reply: Option<seq<byte>>,
                                                                                calls: seq<Callback>)
      requires Valid() && CompleteFrame(frame) && WithinBlock(services)
      modifies transBlk, table.slots
      ensures Valid()
      ensures Reaction(ret, reply, calls, table.Slots()) == ReactToFrame(services, old(table.Slots()), src, frame)
    {
      if frame[0] != PROTOCOL_VERSION {
        return -EPROTO, None, [];
      }
      if |frame| == 1 {
        return 0, None, [];
      }
      ret, reply, calls := Handle(services, src, frame[1..]);
    }

    /** npdu_handler in synchronous mode: a reply is framed and given to the link at once. */
    method HandleFrameSync(services: Services, link: Link, src: Addr, frame: seq<byte>)
      returns (ret: int, sent: seq<seq<byte>>, calls: seq<Callback>)
      requires Valid() && CompleteFrame(frame) && WithinBlock(services)
      modifies transBlk, table.slots
      ensures Valid()
      ensures var r := ReactToFrame(services, old(table.Slots()), src, frame);
        && table.Slots() == r.slots && calls == r.calls
        && (r.reply == None ==> ret == r.ret && sent == [])
        && (r.reply.Some? ==> sent == [Frame(r.reply.value)] && ret == link(src, Frame(r.reply.value)))
    {
      RepliesFit(services, table.Slots(), src, frame);
      var reply;
      ret, reply, calls := HandleFrame(services, src, frame);
      sent := [];
      if reply.Some? {
        var code, message := EncodeFrame(reply.value);
        ret := link(src, message);
        sent := [message];
      }
    }

    /** One turn of umtp_apdu_submit's wait, up to the handover; None while every session is taken. */
    method Submit(owner: nat, dst: Addr, d: ApduData) returns (apdu: Option<seq<byte>>, id: byte)
      requires Valid() && |d.payload| <= MAX_APDU - 4
      modifies table`counter, table.slots
      ensures Valid()
      ensures Submission(table.State(), apdu, id) == ApduSpec.Submit(table.limits, old(table.State()), owner, dst, d)
    {
      id := 0;
      if d.confirmed {
        ghost var steps;
        id, steps := table.FreeSession();
        if id == 0 {
          return None, 0;
        }
      }
      var message := BuildRequest(d, id);
      if d.confirmed {
        table.Set(id, true, owner, dst, message);
      }
      apdu := Some(message);
    }

    /** umtp_apdu_submit up to the handover, with its wait for a free session: others says what happens to
        the table between its turns. It ends with the first state that has a slot to spare. */
    method Await(owner: nat, dst: Addr, d: ApduData, others: seq<seq<SessionRuns.Op>>)
      returns (apdu: Option<seq<byte>>, id: byte, turns: nat)
      requires Valid() && |d.payload| <= MAX_APDU - 4
      requires forall i, op | 0 <= i < |others| && op in others[i] :: SessionRuns.InRange(op)
      modifies table`counter, table.slots
      ensures Valid() && turns <= |others|
      ensures Waited(table.limits, old(table.State()), d, others, turns)
      ensures var st := AfterTurns(table.limits, old(table.State()), others, turns);
        && Submission(table.State(), apdu, id) == ApduSpec.Submit(table.limits, st, owner, dst, d)
        && (apdu.None? ==> turns == |others| && d.confirmed && AllTaken(st.slots) && table.State() == st)
    {
      turns := 0;
      SubmitWaitsIff(table.limits, table.State(), owner, dst, d);
      apdu, id := Submit(owner, dst, d);
      while apdu.None? && turns < |others|
        invariant Valid() && turns <= |others|
        invariant Waited(table.limits, old(table.State()), d, others, turns)
        invariant var st := AfterTurns(table.limits, old(table.State()), others, turns);
          && Submission(table.State(), apdu, id) == ApduSpec.Submit(table.limits, st, owner, dst, d)
          && (apdu.None? ==> d.confirmed && AllTaken(st.slots) && table.State() == st)
      {
        WaitedOnce(table.limits, old(table.State()), d, others, turns);
        var events := SessionRuns.Perform(table, others[turns]);
        turns := turns + 1;
        assert table.State() == AfterTurns(table.limits, old(table.State()), others, turns);
        SubmitWaitsIff(table.limits, table.State(), owner, dst, d);
        apdu, id := Submit(owner, dst, d);
      }
    }
  }
}
