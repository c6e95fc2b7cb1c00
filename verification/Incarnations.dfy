/** A requester over a whole run: each confirmed request is an incarnation of its session id, numbered
    in order of submission. Messages may arrive at any time, from anyone, with any content. */
module Incarnations {
  import opened Words
  import opened SessionSpec
  import opened SessionRefinement
  import opened Pdus
  import opened ApduSpec

  datatype Config = Config(limits: Limits, services: Services)

  datatype Request = Request(id: byte, dest: Addr, data: ApduData) {
    function Apdu(): seq<byte> {
      Encode(RequestPdu(data, id))
    }
  }

  /** What happens to incarnation n: a retransmission, a call into the application, its end. */
  datatype Entry =
    | Resend(n: nat, dest: Addr, pdu: seq<byte>)
    | Call(n: nat, callback: Callback)
    | Left(n: nat)

  /** inc numbers the incarnation that holds each id; born lists all incarnations; log is their history;
      calls are all calls made into the application. */
  datatype Node = Node(st: Sessions, inc: map<byte, nat>, born: seq<Request>, log: seq<Entry>, calls: seq<Callback>)

  datatype Action =
    | Send(owner: nat, dest: Addr, data: ApduData)
    | Receive(src: Addr, frame: seq<byte>)
    | Tick(ms: nat)

  function Initial(): Node {
    Node(Sessions(seq(MAX_SESSIONS, _ => FREE), 1), map[], [], [], [])
  }

  // ----- steps

  function SendStep(cfg: Config, nd: Node, owner: nat, dest: Addr, d: ApduData): Node {
    var sub := Submit(cfg.limits, nd.st, owner, dest, d);
    if sub.id == 0 then nd.(st := sub.next)
    else nd.(st := sub.next, inc := nd.inc[sub.id := |nd.born|], born := nd.born + [Request(sub.id, dest, d)])
  }

  /** The id a frame clears, 0 if none. */
  function Cleared(frame: seq<byte>): byte
    requires CompleteFrame(frame)
  {
    if frame[0] != PROTOCOL_VERSION || |frame| == 1 then 0
    else
      match Decode(frame[1..])
      case None => 0
      case Some(p) => if p.kind != REQUEST && HasSession(p.flag) then p.session else 0
  }

  /** Every call made while id is held is noted for its holder. */
  function CallNotes(inc: map<byte, nat>, calls: seq<Callback>, id: byte): seq<Entry> {
    if id in inc then seq(|calls|, i requires 0 <= i < |calls| => Call(inc[id], calls[i])) else []
  }

  function LeftNote(inc: map<byte, nat>, id: byte): seq<Entry> {
    if id in inc then [Left(inc[id])] else []
  }

  function StillHeld(inc: map<byte, nat>, t: Table): map<byte, nat> {
    map id | id in inc && Lookup(t, id).Some? :: inc[id]
  }

  /** What a frame adds to the log. */
  function ReceiveLog(cfg: Config, nd: Node, src: Addr, frame: seq<byte>): seq<Entry>
    requires CompleteFrame(frame)
  {
    CallNotes(nd.inc, ReactToFrame(cfg.services, nd.st.slots, src, frame).calls, Cleared(frame))
    + LeftNote(nd.inc, Cleared(frame))
  }

  function ReceiveStep(cfg: Config, nd: Node, src: Addr, frame: seq<byte>): Node
    requires CompleteFrame(frame)
  {
    var r := ReactToFrame(cfg.services, nd.st.slots, src, frame);
    nd.(st := nd.st.(slots := r.slots), inc := StillHeld(nd.inc, r.slots),
        log := nd.log + ReceiveLog(cfg, nd, src, frame), calls := nd.calls + r.calls)
  }

  /** The calls umtp_session_process makes for an event. */
  function EventCalls(cfg: Config, e: Event): seq<Callback> {
    if e.Expired? && e.notify && |e.pdu| < 4 then [] else TimeoutCalls(cfg.services, e)
  }

  function EventNotes(cfg: Config, inc: map<byte, nat>, e: Event): seq<Entry> {
    if e.id !in inc then []
    else
      match e
      case Resent(id, _, dest, pdu) => [Resend(inc[id], dest, pdu)]
      case Expired(id, notify, _, pdu) =>
        CallNotes(inc, EventCalls(cfg, e), id) + [Left(inc[id])]
  }

  function SlotNotes(cfg: Config, inc: map<byte, nat>, events: seq<Event>): seq<Entry> {
    if events == [] then [] else EventNotes(cfg, inc, events[0]) + SlotNotes(cfg, inc, events[1..])
  }

  function TickNotes(cfg: Config, inc: map<byte, nat>, t: Table, ms: nat, n: nat): seq<Entry>
    requires n <= MAX_SESSIONS
  {
    if n == 0 then []
    else
      TickNotes(cfg, inc, t, ms, n - 1) + SlotNotes(cfg, inc, TickSession(cfg.limits, t[n - 1], ms).1)
  }

  function SlotCalls(cfg: Config, events: seq<Event>): seq<Callback> {
    if events == [] then [] else EventCalls(cfg, events[0]) + SlotCalls(cfg, events[1..])
  }

  function TickCalls(cfg: Config, t: Table, ms: nat, n: nat): seq<Callback>
    requires n <= MAX_SESSIONS
  {
    if n == 0 then []
    else TickCalls(cfg, t, ms, n - 1) + SlotCalls(cfg, TickSession(cfg.limits, t[n - 1], ms).1)
  }

  function TickStep(cfg: Config, nd: Node, ms: nat): Node {
    var t := Ticked(cfg.limits, nd.st.slots, ms);
    nd.(st := nd.st.(slots := t), inc := StillHeld(nd.inc, t),
        log := nd.log + TickNotes(cfg, nd.inc, nd.st.slots, ms, MAX_SESSIONS),
        calls := nd.calls + TickCalls(cfg, nd.st.slots, ms, MAX_SESSIONS))
  }

  /** A frame without a complete header is outside the model; the step then does nothing. */
  function Step(cfg: Config, nd: Node, a: Action): Node {
    match a
    case Send(owner, dest, d) => SendStep(cfg, nd, owner, dest, d)
    case Receive(src, frame) => if CompleteFrame(frame) then ReceiveStep(cfg, nd, src, frame) else nd
    case Tick(ms) => TickStep(cfg, nd, ms)
  }

  // ----- invariant

  ghost predicate Holds(t: Table, id: byte, r: Request) {
    && Lookup(t, id).Some?
    && var s := Lookup(t, id).value;
    && s.id == id == r.id && s.waiting && s.notify && s.dest == r.dest && s.pdu == r.Apdu()
  }

  /** The table holds exactly the incarnations in inc, each the latest with its id. */
  ghost predicate TableInv(cfg: Config, nd: Node) {
    && Consistent(cfg.limits, nd.st.slots)
    && (forall id: byte :: id in nd.inc <==> Lookup(nd.st.slots, id).Some?)
    && (forall id | id in nd.inc :: nd.inc[id] < |nd.born| && Holds(nd.st.slots, id, nd.born[nd.inc[id]]))
    && (forall k | 0 <= k < |nd.born| ::
          nd.born[k].data.confirmed && (nd.born[k].id in nd.inc ==> k <= nd.inc[nd.born[k].id]))
  }

  ghost predicate Pending(nd: Node, n: nat) {
    n < |nd.born| && nd.born[n].id in nd.inc && nd.inc[nd.born[n].id] == n
  }

  /** Nothing follows an incarnation's end, and a call is followed at once by that end. */
  ghost predicate EndsOnce(log: seq<Entry>) {
    && (forall i, j | 0 <= i < j < |log| && log[i].Left? :: log[j].n != log[i].n)
    && (forall i | 0 <= i < |log| && log[i].Call? :: i + 1 < |log| && log[i + 1] == Left(log[i].n))
  }

  /** The callback hands over the session that was set up for r. */
  predicate HandsOver(c: Callback, r: Request) {
    && !c.OnTimeout? && c.session.Some?
    && c.session.value.id == r.id && c.session.value.dest == r.dest && c.session.value.pdu == r.Apdu()
  }

  /** Resends carry what was submitted, to where it was submitted; a timeout call gets the service and
      the payload that were submitted; a reply call gets the session that was set up. */
  ghost predicate Faithful(born: seq<Request>, e: Entry) {
    && e.n < |born|
    && var r := born[e.n];
    && (e.Resend? ==> e.dest == r.dest && e.pdu == r.Apdu())
    && (e.Call? ==>
          e.callback == OnTimeout(r.dest, r.data.service % 256, r.data.payload) || HandsOver(e.callback, r))
  }

  /** The calls that concern an incarnation: a timeout, or a reply handed over with its session. */
  predicate Tied(c: Callback) {
    c.OnTimeout? || c.session.Some?
  }

  function TiedCalls(calls: seq<Callback>): seq<Callback> {
    if |calls| == 0 then []
    else TiedCalls(calls[..|calls| - 1]) + if Tied(calls[|calls| - 1]) then [calls[|calls| - 1]] else []
  }

  /** The calls a log notes. */
  function NotedCalls(log: seq<Entry>): seq<Callback> {
    if |log| == 0 then []
    else NotedCalls(log[..|log| - 1]) + if log[|log| - 1].Call? then [log[|log| - 1].callback] else []
  }

  ghost predicate LogInv(nd: Node) {
    && EndsOnce(nd.log) && NotedCalls(nd.log) == TiedCalls(nd.calls)
    && (forall i | 0 <= i < |nd.log| ::
          Faithful(nd.born, nd.log[i]) && (Pending(nd, nd.log[i].n) ==> nd.log[i].Resend?))
  }

  ghost predicate Inv(cfg: Config, nd: Node) {
    TableInv(cfg, nd) && LogInv(nd)
  }

  lemma {:induction false} TiedCallsAppend(a: seq<Callback>, b: seq<Callback>)
    ensures TiedCalls(a + b) == TiedCalls(a) + TiedCalls(b)
    decreases |b|
  {
    if b == [] {
      assert a + b == a;
    } else {
      TiedCallsAppend(a, b[..|b| - 1]);
      assert (a + b)[..|a + b| - 1] == a + b[..|b| - 1];
    }
  }

  lemma {:induction false} NotedCallsAppend(a: seq<Entry>, b: seq<Entry>)
    ensures NotedCalls(a + b) == NotedCalls(a) + NotedCalls(b)
    decreases |b|
  {
    if b == [] {
      assert a + b == a;
    } else {
      NotedCallsAppend(a, b[..|b| - 1]);
      assert (a + b)[..|a + b| - 1] == a + b[..|b| - 1];
    }
  }

  /** Each call made for the holder of id is noted, once. */
  lemma {:induction false} CallNotesNote(inc: map<byte, nat>, calls: seq<Callback>, id: byte)
    requires id in inc
    ensures NotedCalls(CallNotes(inc, calls, id)) == calls
    ensures forall j | 0 <= j < |CallNotes(inc, calls, id)| :: CallNotes(inc, calls, id)[j].Call?
    decreases |calls|
  {
    if calls != [] {
      var fewer := calls[..|calls| - 1];
      CallNotesNote(inc, fewer, id);
      assert CallNotes(inc, calls, id)[..|calls| - 1] == CallNotes(inc, fewer, id);
    }
  }

  lemma FewTied(calls: seq<Callback>)
    requires |calls| <= 1
    ensures TiedCalls(calls) == if calls != [] && Tied(calls[0]) then calls else []
  {
    if |calls| == 1 {
      var c := calls[0];
      assert TiedCalls(calls[..0]) == [];
      assert calls == [c] && TiedCalls(calls) == [] + if Tied(c) then [c] else [];
    }
  }

  lemma EndsOnceAppend(a: seq<Entry>, b: seq<Entry>)
    requires EndsOnce(a) && EndsOnce(b)
    requires forall i, j | 0 <= i < |a| && 0 <= j < |b| && a[i].Left? :: b[j].n != a[i].n
    ensures EndsOnce(a + b)
  {
    var log := a + b;
    forall i | 0 <= i < |log| && log[i].Call?
      ensures i + 1 < |log| && log[i + 1] == Left(log[i].n)
    {
      if i >= |a| {
        assert b[i - |a|].Call? && log[i + 1] == b[i + 1 - |a|];
      }
    }
  }

  lemma NotesNoteBoth(a: seq<Entry>, b: seq<Entry>, x: seq<Callback>, y: seq<Callback>)
    requires NotedCalls(a) == TiedCalls(x) && NotedCalls(b) == TiedCalls(y)
    ensures NotedCalls(a + b) == TiedCalls(x + y)
  {
    NotedCallsAppend(a, b);
    TiedCallsAppend(x, y);
  }

  lemma CallsAfter(calls: seq<Callback>, now: seq<Callback>)
    ensures calls <= calls + now && (calls + now)[|calls|..] == now
  {
  }

  lemma CallsExtend(nd: Node, nd': Node, added: seq<Entry>)
    requires NotedCalls(nd.log) == TiedCalls(nd.calls) && nd'.log == nd.log + added
    requires nd.calls <= nd'.calls && NotedCalls(added) == TiedCalls(nd'.calls[|nd.calls|..])
    ensures NotedCalls(nd'.log) == TiedCalls(nd'.calls)
  {
    NotesNoteBoth(nd.log, added, nd.calls, nd'.calls[|nd.calls|..]);
    assert nd.calls + nd'.calls[|nd.calls|..] == nd'.calls;
  }

  /** New entries about active incarnations, none of which survives its end, extend the log. */
  lemma LogExtends(nd: Node, nd': Node, added: seq<Entry>)
    requires LogInv(nd) && EndsOnce(added)
    requires nd'.born == nd.born && nd'.log == nd.log + added
    requires nd.calls <= nd'.calls && NotedCalls(added) == TiedCalls(nd'.calls[|nd.calls|..])
    requires forall j | 0 <= j < |added| :: Pending(nd, added[j].n) && Faithful(nd.born, added[j])
    requires forall j | 0 <= j < |added| && !added[j].Resend? :: !Pending(nd', added[j].n)
    requires forall n | Pending(nd', n) :: Pending(nd, n)
    ensures LogInv(nd')
  {
    EndsOnceAppend(nd.log, added);
    CallsExtend(nd, nd', added);
    forall i | 0 <= i < |nd'.log|
      ensures Faithful(nd'.born, nd'.log[i]) && (Pending(nd', nd'.log[i].n) ==> nd'.log[i].Resend?)
    {
      var e := nd'.log[i];
      assert e == if i < |nd.log| then nd.log[i] else added[i - |nd.log|];
    }
  }

  // ----- sending

  lemma SendKeepsInv(cfg: Config, nd: Node, owner: nat, dest: Addr, d: ApduData)
    requires Inv(cfg, nd)
    ensures Inv(cfg, SendStep(cfg, nd, owner, dest, d))
  {
    var sub := Submit(cfg.limits, nd.st, owner, dest, d);
    if sub.id == 0 {
      ReserveRefines(cfg.limits, nd.st);
    } else {
      SubmitLookups(cfg.limits, nd.st, owner, dest, d);
      SendKeepsTable(cfg, nd, owner, dest, d);
      SendKeepsLog(cfg, nd, SendStep(cfg, nd, owner, dest, d), sub.id);
    }
  }

  lemma SendKeepsTable(cfg: Config, nd: Node, owner: nat, dest: Addr, d: ApduData)
    requires TableInv(cfg, nd) && Submit(cfg.limits, nd.st, owner, dest, d).id != 0
    ensures TableInv(cfg, SendStep(cfg, nd, owner, dest, d))
  {
    var sub, nd' := Submit(cfg.limits, nd.st, owner, dest, d), SendStep(cfg, nd, owner, dest, d);
    SubmitLookups(cfg.limits, nd.st, owner, dest, d);
    forall id | id in nd'.inc
      ensures nd'.inc[id] < |nd'.born| && Holds(nd'.st.slots, id, nd'.born[nd'.inc[id]])
    {
      if id != sub.id {
        assert Lookup(nd'.st.slots, id) == Lookup(nd.st.slots, id);
      }
    }
  }

  lemma SubmitLookups(limits: Limits, st: Sessions, owner: nat, dest: Addr, d: ApduData)
    requires Consistent(limits, st.slots) && Submit(limits, st, owner, dest, d).id != 0
    ensures var Submission(st', _, id) := Submit(limits, st, owner, dest, d);
      && d.confirmed && Consistent(limits, st'.slots) && Lookup(st.slots, id) == None
      && Holds(st'.slots, id, Request(id, dest, d))
      && forall x: byte | x != id :: Lookup(st'.slots, x) == Lookup(st.slots, x)
  {
    var Reservation(st1, id) := Reserve(limits, st);
    var apdu := Encode(RequestPdu(d, id));
    ReserveRefines(limits, st);
    SetRefines(limits, st1.slots, id, true, owner, dest, apdu);
    var t' := Set(limits, st1.slots, id, true, owner, dest, apdu);
    ActiveLookup(st1.slots, id);
    ActiveLookup(t', id);
    ActiveLookup(st.slots, id);
    forall x: byte | x != id
      ensures Lookup(t', x) == Lookup(st.slots, x)
    {
      if x != 0 {
        ActiveLookup(st.slots, x);
        ActiveLookup(t', x);
      }
    }
  }

  lemma SendKeepsLog(cfg: Config, nd: Node, nd': Node, id: byte)
    requires Inv(cfg, nd) && id !in nd.inc
    requires |nd'.born| == |nd.born| + 1 && nd.born <= nd'.born && nd'.born[|nd.born|].id == id
    requires nd'.inc == nd.inc[id := |nd.born|] && nd'.log == nd.log && nd'.calls == nd.calls
    ensures LogInv(nd')
  {
    forall i | 0 <= i < |nd.log|
      ensures Faithful(nd'.born, nd.log[i]) && (Pending(nd', nd.log[i].n) ==> nd.log[i].Resend?)
    {
      assert nd'.born[nd.log[i].n] == nd.born[nd.log[i].n];
      assert Pending(nd', nd.log[i].n) ==> Pending(nd, nd.log[i].n);
    }
  }

  // ----- receiving

  /** A frame clears one id, calls only for that id, and leaves all other sessions alone. */
  lemma FrameLookups(cfg: Config, t: Table, src: Addr, frame: seq<byte>)
    requires CompleteFrame(frame) && Consistent(cfg.limits, t)
    ensures var r := ReactToFrame(cfg.services, t, src, frame);
      && Consistent(cfg.limits, r.slots)
      && r.slots == Clear(t, Cleared(frame))
      && forall x: byte :: Lookup(r.slots, x) == if x == Cleared(frame) then None else Lookup(t, x)
  {
    var r, id := ReactToFrame(cfg.services, t, src, frame), Cleared(frame);
    ClearRefines(cfg.limits, t, id);
    ClearRefines(cfg.limits, t, 0);
    forall x: byte
      ensures Lookup(Clear(t, id), x) == if x == id then None else Lookup(t, x)
    {
      if x != 0 {
        ActiveLookup(t, x);
        ActiveLookup(Clear(t, id), x);
      }
    }
  }

  lemma ReceiveKeepsTable(cfg: Config, nd: Node, src: Addr, frame: seq<byte>)
    requires TableInv(cfg, nd) && CompleteFrame(frame)
    ensures TableInv(cfg, ReceiveStep(cfg, nd, src, frame))
  {
    var nd', t := ReceiveStep(cfg, nd, src, frame), nd.st.slots;
    FrameLookups(cfg, t, src, frame);
    forall id | id in nd'.inc
      ensures Holds(nd'.st.slots, id, nd'.born[nd'.inc[id]])
    {
      assert Holds(t, id, nd.born[nd.inc[id]]);
    }
  }

  /** A frame triggers at most one call, with the session its id names, if any. */
  lemma FrameCalls(cfg: Config, t: Table, src: Addr, frame: seq<byte>)
    requires CompleteFrame(frame)
    ensures var calls := ReactToFrame(cfg.services, t, src, frame).calls;
      && |calls| <= 1
      && forall i | 0 <= i < |calls| :: !calls[i].OnTimeout? && calls[i].session == Lookup(t, Cleared(frame))
  {
  }

  lemma ReceiveNotes(inc: map<byte, nat>, calls: seq<Callback>, id: byte)
    requires |calls| <= 1
    ensures var added := CallNotes(inc, calls, id) + LeftNote(inc, id);
      && EndsOnce(added) && NotedCalls(added) == (if id in inc then calls else [])
      && (added != [] ==> id in inc)
      && forall j | 0 <= j < |added| ::
           added[j].n == inc[id] && !added[j].Resend? && (added[j].Call? ==> added[j].callback in calls)
  {
    if id in inc {
      CallNotesNote(inc, calls, id);
      NotedCallsAppend(CallNotes(inc, calls, id), LeftNote(inc, id));
      assert NotedCalls(LeftNote(inc, id)) == [];
    }
  }

  /** Receiving starts no incarnation and ends only the one whose id is cleared. */
  lemma ReceiveEndsOne(cfg: Config, nd: Node, src: Addr, frame: seq<byte>, n: nat)
    requires TableInv(cfg, nd) && CompleteFrame(frame)
    ensures var id := Cleared(frame);
      Pending(ReceiveStep(cfg, nd, src, frame), n) <==> Pending(nd, n) && nd.born[n].id != id
    ensures Cleared(frame) in nd.inc ==>
      Pending(nd, nd.inc[Cleared(frame)]) && nd.born[nd.inc[Cleared(frame)]].id == Cleared(frame)
  {
    var id := Cleared(frame);
    FrameLookups(cfg, nd.st.slots, src, frame);
    if id in nd.inc {
      assert Holds(nd.st.slots, id, nd.born[nd.inc[id]]);
    }
  }

  lemma ReceiveKeepsInv(cfg: Config, nd: Node, src: Addr, frame: seq<byte>)
    requires Inv(cfg, nd) && CompleteFrame(frame)
    ensures Inv(cfg, ReceiveStep(cfg, nd, src, frame))
  {
    ReceiveKeepsTable(cfg, nd, src, frame);
    ReceiveKeepsLog(cfg, nd, src, frame);
  }

  /** What a frame adds to the log notes every call it triggers for an incarnation. */
  lemma ReceiveLogNotes(cfg: Config, nd: Node, src: Addr, frame: seq<byte>)
    requires TableInv(cfg, nd) && CompleteFrame(frame)
    ensures var added := ReceiveLog(cfg, nd, src, frame);
      && EndsOnce(added)
      && NotedCalls(added) == TiedCalls(ReactToFrame(cfg.services, nd.st.slots, src, frame).calls)
      && (added != [] ==> Cleared(frame) in nd.inc)
      && forall j | 0 <= j < |added| ::
           added[j].n == nd.inc[Cleared(frame)] && !added[j].Resend?
  {
    var calls := ReactToFrame(cfg.services, nd.st.slots, src, frame).calls;
    FrameCalls(cfg, nd.st.slots, src, frame);
    ReceiveNotes(nd.inc, calls, Cleared(frame));
    FewTied(calls);
  }

  /** Any call it makes for an incarnation hands over that incarnation's session. */
  lemma ReceiveLogHandsOver(cfg: Config, nd: Node, src: Addr, frame: seq<byte>, e: Entry)
    requires TableInv(cfg, nd) && CompleteFrame(frame)
    requires e in ReceiveLog(cfg, nd, src, frame) && e.Call?
    ensures e.n < |nd.born| && HandsOver(e.callback, nd.born[e.n])
  {
    var id := Cleared(frame);
    assert Holds(nd.st.slots, id, nd.born[nd.inc[id]]);
    FrameCalls(cfg, nd.st.slots, src, frame);
  }

  lemma ReceiveKeepsLog(cfg: Config, nd: Node, src: Addr, frame: seq<byte>)
    requires Inv(cfg, nd) && CompleteFrame(frame)
    ensures LogInv(ReceiveStep(cfg, nd, src, frame))
  {
    ReceiveNotesCalls(cfg, nd, src, frame);
    ReceiveNotesEnds(cfg, nd, src, frame);
    LogExtends(nd, ReceiveStep(cfg, nd, src, frame), ReceiveLog(cfg, nd, src, frame));
  }

  lemma ReceiveNotesCalls(cfg: Config, nd: Node, src: Addr, frame: seq<byte>)
    requires TableInv(cfg, nd) && CompleteFrame(frame)
    ensures var nd', added := ReceiveStep(cfg, nd, src, frame), ReceiveLog(cfg, nd, src, frame);
      && nd'.born == nd.born && nd'.log == nd.log + added && EndsOnce(added)
      && nd.calls <= nd'.calls && NotedCalls(added) == TiedCalls(nd'.calls[|nd.calls|..])
  {
    CallsAfter(nd.calls, ReactToFrame(cfg.services, nd.st.slots, src, frame).calls);
    ReceiveLogNotes(cfg, nd, src, frame);
  }

  lemma ReceiveNotesEnds(cfg: Config, nd: Node, src: Addr, frame: seq<byte>)
    requires TableInv(cfg, nd) && CompleteFrame(frame)
    ensures var nd', added := ReceiveStep(cfg, nd, src, frame), ReceiveLog(cfg, nd, src, frame);
      && (forall n | Pending(nd', n) :: Pending(nd, n))
      && (forall j | 0 <= j < |added| :: Pending(nd, added[j].n) && !Pending(nd', added[j].n))
      && (forall j | 0 <= j < |added| :: Faithful(nd.born, added[j]))
  {
    var added := ReceiveLog(cfg, nd, src, frame);
    ReceiveLogNotes(cfg, nd, src, frame);
    ReceiveEndsNoted(cfg, nd, src, frame, added);
    forall j | 0 <= j < |added|
      ensures Faithful(nd.born, added[j])
    {
      if added[j].Call? {
        ReceiveLogHandsOver(cfg, nd, src, frame, added[j]);
      }
    }
  }

  lemma ReceiveEndsNoted(cfg: Config, nd: Node, src: Addr, frame: seq<byte>, added: seq<Entry>)
    requires TableInv(cfg, nd) && CompleteFrame(frame)
    requires added != [] ==> Cleared(frame) in nd.inc
    requires forall j | 0 <= j < |added| :: added[j].n == nd.inc[Cleared(frame)]
    ensures var nd' := ReceiveStep(cfg, nd, src, frame);
      && (forall n | Pending(nd', n) :: Pending(nd, n))
      && (forall j | 0 <= j < |added| :: Pending(nd, added[j].n) && !Pending(nd', added[j].n))
  {
    forall n | Pending(ReceiveStep(cfg, nd, src, frame), n)
      ensures Pending(nd, n)
    {
      ReceiveEndsOne(cfg, nd, src, frame, n);
    }
    if added != [] {
      ReceiveEndsOne(cfg, nd, src, frame, nd.inc[Cleared(frame)]);
    }
  }

  // ----- ticking

  ghost predicate FromSlots(inc: map<byte, nat>, t: Table, n: nat, e: Entry)
    requires n <= MAX_SESSIONS
  {
    exists i :: 0 <= i < n && t[i].id in inc && inc[t[i].id] == e.n
  }

  /** A slot's tick emits at most one event. */
  lemma SlotNotesAre(cfg: Config, inc: map<byte, nat>, s: Session, ms: nat)
    ensures var events := TickSession(cfg.limits, s, ms).1;
      && |events| <= 1
      && SlotNotes(cfg, inc, events) == (if events == [] then [] else EventNotes(cfg, inc, events[0]))
      && SlotCalls(cfg, events) == (if events == [] then [] else EventCalls(cfg, events[0]))
  {
    var events := TickSession(cfg.limits, s, ms).1;
    if events != [] {
      assert events[1..] == [];
    }
  }

  lemma ApduParts(r: Request)
    requires r.data.confirmed
    ensures var pdu := r.Apdu();
      |pdu| >= 4 && pdu[2] == r.data.service % 256 && pdu[4..] == r.data.payload
  {
  }

  /** An expired session's only call is the timeout call, with what was submitted. */
  lemma ExpiryCalls(cfg: Config, s: Session, r: Request, e: Event)
    requires r.data.confirmed && s.id == r.id && s.pdu == r.Apdu()
    requires e == Expired(s.id, true, r.dest, s.pdu)
    ensures var calls := EventCalls(cfg, e);
      && (calls == [] || calls == [OnTimeout(r.dest, r.data.service % 256, r.data.payload)])
      && TiedCalls(calls) == calls
  {
    ApduParts(r);
    FewTied(EventCalls(cfg, e));
  }

  lemma SlotEventIs(cfg: Config, nd: Node, i: nat, ms: nat)
    requires TableInv(cfg, nd) && i < MAX_SESSIONS
    requires TickSession(cfg.limits, nd.st.slots[i], ms).1 != []
    ensures var s, e := nd.st.slots[i], TickSession(cfg.limits, nd.st.slots[i], ms).1[0];
      && s.id in nd.inc && nd.inc[s.id] < |nd.born|
      && var r := nd.born[nd.inc[s.id]];
      && r.data.confirmed && s.id == r.id && s.pdu == r.Apdu()
      && (if e.Resent? then e == Resent(s.id, s.owner, r.dest, s.pdu)
          else e == Expired(s.id, true, r.dest, s.pdu) && Survivor(cfg.limits, s, ms) == None)
  {
    var s := nd.st.slots[i];
    assert s.waiting && s.id != 0;
    LookupAt(nd.st.slots, i);
    assert Holds(nd.st.slots, s.id, nd.born[nd.inc[s.id]]);
  }

  lemma EventNotesFit(cfg: Config, nd: Node, i: nat, ms: nat)
    requires TableInv(cfg, nd) && i < MAX_SESSIONS
    requires TickSession(cfg.limits, nd.st.slots[i], ms).1 != []
    ensures var s, e := nd.st.slots[i], TickSession(cfg.limits, nd.st.slots[i], ms).1[0];
      var notes := EventNotes(cfg, nd.inc, e);
      && s.id in nd.inc && EndsOnce(notes) && NotedCalls(notes) == TiedCalls(EventCalls(cfg, e))
      && forall j | 0 <= j < |notes| ::
           && notes[j].n == nd.inc[s.id] && Faithful(nd.born, notes[j])
           && (!notes[j].Resend? ==> Survivor(cfg.limits, s, ms) == None)
  {
    var s, e := nd.st.slots[i], TickSession(cfg.limits, nd.st.slots[i], ms).1[0];
    SlotEventIs(cfg, nd, i, ms);
    EventNotesNote(cfg, nd.inc, nd.born[nd.inc[s.id]], s, e);
  }

  lemma EventNotesNote(cfg: Config, inc: map<byte, nat>, r: Request, s: Session, e: Event)
    requires s.id in inc && r.data.confirmed && s.id == r.id && s.pdu == r.Apdu()
    requires e == Resent(s.id, s.owner, r.dest, s.pdu) || e == Expired(s.id, true, r.dest, s.pdu)
    ensures var notes := EventNotes(cfg, inc, e);
      && EndsOnce(notes) && NotedCalls(notes) == TiedCalls(EventCalls(cfg, e))
      && forall j | 0 <= j < |notes| ::
           && notes[j].n == inc[s.id]
           && (notes[j].Resend? ==> e.Resent? && notes[j].dest == r.dest && notes[j].pdu == r.Apdu())
           && (notes[j].Call? ==> notes[j].callback == OnTimeout(r.dest, r.data.service % 256, r.data.payload))
  {
    if e.Expired? {
      ExpiryNotes(cfg, inc, r, s, e);
    } else {
      assert EventCalls(cfg, e) == [] && EventNotes(cfg, inc, e) == [Resend(inc[s.id], r.dest, s.pdu)];
    }
  }

  lemma EndNotes(inc: map<byte, nat>, calls: seq<Callback>, id: byte, c: Callback)
    requires id in inc && (calls == [] || calls == [c])
    ensures var notes := CallNotes(inc, calls, id) + LeftNote(inc, id);
      && EndsOnce(notes) && NotedCalls(notes) == calls
      && forall j | 0 <= j < |notes| ::
           notes[j].n == inc[id] && !notes[j].Resend? && (notes[j].Call? ==> notes[j].callback == c)
  {
    ReceiveNotes(inc, calls, id);
  }

  lemma ExpiredNotes(cfg: Config, inc: map<byte, nat>, e: Event)
    requires e.Expired? && e.id in inc
    ensures EventNotes(cfg, inc, e) == CallNotes(inc, EventCalls(cfg, e), e.id) + LeftNote(inc, e.id)
  {
  }

  lemma ExpiryNotes(cfg: Config, inc: map<byte, nat>, r: Request, s: Session, e: Event)
    requires s.id in inc && r.data.confirmed && s.id == r.id && s.pdu == r.Apdu()
    requires e == Expired(s.id, true, r.dest, s.pdu)
    ensures var notes := EventNotes(cfg, inc, e);
      && EndsOnce(notes) && NotedCalls(notes) == TiedCalls(EventCalls(cfg, e))
      && forall j | 0 <= j < |notes| ::
           && notes[j].n == inc[s.id] && !notes[j].Resend?
           && (notes[j].Call? ==> notes[j].callback == OnTimeout(r.dest, r.data.service % 256, r.data.payload))
  {
    var calls := EventCalls(cfg, e);
    ExpiryCalls(cfg, s, r, e);
    EndNotes(inc, calls, s.id, OnTimeout(r.dest, r.data.service % 256, r.data.payload));
    ExpiredNotes(cfg, inc, e);
  }

  ghost predicate NoteFits(cfg: Config, nd: Node, ms: nat, n: nat, e: Entry)
    requires n <= MAX_SESSIONS
  {
    && FromSlots(nd.inc, nd.st.slots, n, e) && Faithful(nd.born, e)
    && (!e.Resend? ==> !Pending(TickStep(cfg, nd, ms), e.n))
  }

  /** A session that does not survive a tick ends its incarnation. */
  lemma SlotEnds(cfg: Config, nd: Node, ms: nat, i: nat)
    requires TableInv(cfg, nd) && i < MAX_SESSIONS && nd.st.slots[i].id in nd.inc
    requires Survivor(cfg.limits, nd.st.slots[i], ms) == None
    ensures !Pending(TickStep(cfg, nd, ms), nd.inc[nd.st.slots[i].id])
  {
    var id := nd.st.slots[i].id;
    assert Holds(nd.st.slots, id, nd.born[nd.inc[id]]);
    LookupAt(nd.st.slots, i);
    LookupAfterTick(cfg.limits, nd.st.slots, ms, id);
  }

  lemma SlotNotesFit(cfg: Config, nd: Node, ms: nat, i: nat)
    requires TableInv(cfg, nd) && i < MAX_SESSIONS
    requires TickSession(cfg.limits, nd.st.slots[i], ms).1 != []
    ensures var notes := EventNotes(cfg, nd.inc, TickSession(cfg.limits, nd.st.slots[i], ms).1[0]);
      && nd.st.slots[i].id in nd.inc && NotesFit(cfg, nd, ms, i + 1, notes)
      && forall j | 0 <= j < |notes| :: notes[j].n == nd.inc[nd.st.slots[i].id]
  {
    var s := nd.st.slots[i];
    EventNotesFit(cfg, nd, i, ms);
    if Survivor(cfg.limits, s, ms) == None {
      SlotEnds(cfg, nd, ms, i);
    }
  }

  lemma NoteFitsMore(cfg: Config, nd: Node, ms: nat, n: nat, e: Entry)
    requires n < MAX_SESSIONS && NoteFits(cfg, nd, ms, n, e)
    ensures NoteFits(cfg, nd, ms, n + 1, e)
  {
  }

  ghost predicate NotesFit(cfg: Config, nd: Node, ms: nat, n: nat, entries: seq<Entry>)
    requires n <= MAX_SESSIONS
  {
    EndsOnce(entries) && forall j | 0 <= j < |entries| :: NoteFits(cfg, nd, ms, n, entries[j])
  }

  lemma NotesConcat(cfg: Config, nd: Node, ms: nat, n: nat, before: seq<Entry>, notes: seq<Entry>)
    requires n < MAX_SESSIONS && NotesFit(cfg, nd, ms, n, before) && NotesFit(cfg, nd, ms, n + 1, notes)
    requires forall i, j | 0 <= i < |before| && 0 <= j < |notes| :: notes[j].n != before[i].n
    ensures NotesFit(cfg, nd, ms, n + 1, before + notes)
  {
    EndsOnceAppend(before, notes);
    forall j | 0 <= j < |before|
      ensures NoteFits(cfg, nd, ms, n + 1, before[j])
    {
      NoteFitsMore(cfg, nd, ms, n, before[j]);
    }
  }

  lemma NextSlotNotesFit(cfg: Config, nd: Node, ms: nat, i: nat)
    requires TableInv(cfg, nd) && i < MAX_SESSIONS
    requires NotesFit(cfg, nd, ms, i, TickNotes(cfg, nd.inc, nd.st.slots, ms, i))
    ensures NotesFit(cfg, nd, ms, i + 1, TickNotes(cfg, nd.inc, nd.st.slots, ms, i + 1))
  {
    var before := TickNotes(cfg, nd.inc, nd.st.slots, ms, i);
    var now := TickSession(cfg.limits, nd.st.slots[i], ms).1;
    var notes := SlotNotes(cfg, nd.inc, now);
    SlotNotesAre(cfg, nd.inc, nd.st.slots[i], ms);
    if now != [] {
      SlotNotesFit(cfg, nd, ms, i);
      forall j | 0 <= j < |before|
        ensures FromSlots(nd.inc, nd.st.slots, i, before[j])
      {
        assert NoteFits(cfg, nd, ms, i, before[j]);
      }
      NotesApart(cfg, nd, i, before, notes);
    }
    NotesConcat(cfg, nd, ms, i, before, notes);
    assert TickNotes(cfg, nd.inc, nd.st.slots, ms, i + 1) == before + notes;
  }

  lemma {:induction false} TickNotesFit(cfg: Config, nd: Node, ms: nat, n: nat)
    requires TableInv(cfg, nd) && n <= MAX_SESSIONS
    ensures NotesFit(cfg, nd, ms, n, TickNotes(cfg, nd.inc, nd.st.slots, ms, n))
    decreases n
  {
    if n > 0 {
      TickNotesFit(cfg, nd, ms, n - 1);
      NextSlotNotesFit(cfg, nd, ms, n - 1);
    }
  }

  ghost predicate SlotNoted(cfg: Config, inc: map<byte, nat>, s: Session, ms: nat) {
    var now := TickSession(cfg.limits, s, ms).1;
    NotedCalls(SlotNotes(cfg, inc, now)) == TiedCalls(SlotCalls(cfg, now))
  }

  lemma SlotNotesNote(cfg: Config, nd: Node, ms: nat, i: nat)
    requires TableInv(cfg, nd) && i < MAX_SESSIONS
    ensures SlotNoted(cfg, nd.inc, nd.st.slots[i], ms)
  {
    SlotNotesAre(cfg, nd.inc, nd.st.slots[i], ms);
    if TickSession(cfg.limits, nd.st.slots[i], ms).1 != [] {
      EventNotesFit(cfg, nd, i, ms);
    }
  }

  lemma {:induction false} TickNotesNote(cfg: Config, inc: map<byte, nat>, t: Table, ms: nat, n: nat)
    requires n <= MAX_SESSIONS && forall i | 0 <= i < n :: SlotNoted(cfg, inc, t[i], ms)
    ensures NotedCalls(TickNotes(cfg, inc, t, ms, n)) == TiedCalls(TickCalls(cfg, t, ms, n))
    decreases n
  {
    if n > 0 {
      var now := TickSession(cfg.limits, t[n - 1], ms).1;
      TickNotesNote(cfg, inc, t, ms, n - 1);
      assert SlotNoted(cfg, inc, t[n - 1], ms);
      NotesNoteBoth(TickNotes(cfg, inc, t, ms, n - 1), SlotNotes(cfg, inc, now),
                    TickCalls(cfg, t, ms, n - 1), SlotCalls(cfg, now));
    }
  }

  lemma NotesApart(cfg: Config, nd: Node, n: nat, before: seq<Entry>, notes: seq<Entry>)
    requires TableInv(cfg, nd) && n < MAX_SESSIONS && nd.st.slots[n].id in nd.inc
    requires forall j | 0 <= j < |before| :: FromSlots(nd.inc, nd.st.slots, n, before[j])
    requires forall j | 0 <= j < |notes| :: notes[j].n == nd.inc[nd.st.slots[n].id]
    ensures forall i, j | 0 <= i < |before| && 0 <= j < |notes| :: notes[j].n != before[i].n
  {
    var t := nd.st.slots;
    forall i, j | 0 <= i < |before| && 0 <= j < |notes|
      ensures notes[j].n != before[i].n
    {
      var k :| 0 <= k < n && t[k].id in nd.inc && nd.inc[t[k].id] == before[i].n;
      assert Holds(t, t[k].id, nd.born[nd.inc[t[k].id]]) && Holds(t, t[n].id, nd.born[nd.inc[t[n].id]]);
    }
  }

  lemma TickKeepsInv(cfg: Config, nd: Node, ms: nat)
    requires Inv(cfg, nd)
    ensures Inv(cfg, TickStep(cfg, nd, ms))
  {
    var nd', t := TickStep(cfg, nd, ms), nd.st.slots;
    var added := TickNotes(cfg, nd.inc, t, ms, MAX_SESSIONS);
    TickNotesFit(cfg, nd, ms, MAX_SESSIONS);
    forall i: nat | i < MAX_SESSIONS {
      SlotNotesNote(cfg, nd, ms, i);
    }
    TickNotesNote(cfg, nd.inc, t, ms, MAX_SESSIONS);
    CallsAfter(nd.calls, TickCalls(cfg, t, ms, MAX_SESSIONS));
    TickKeepsTable(cfg, nd, ms);
    forall j | 0 <= j < |added|
      ensures Pending(nd, added[j].n)
    {
      assert NoteFits(cfg, nd, ms, MAX_SESSIONS, added[j]);
      var i :| 0 <= i < MAX_SESSIONS && t[i].id in nd.inc && nd.inc[t[i].id] == added[j].n;
      assert Holds(t, t[i].id, nd.born[nd.inc[t[i].id]]);
    }
    LogExtends(nd, nd', added);
  }

  lemma TickKeepsTable(cfg: Config, nd: Node, ms: nat)
    requires TableInv(cfg, nd)
    ensures TableInv(cfg, TickStep(cfg, nd, ms))
  {
    var nd', t := TickStep(cfg, nd, ms), nd.st.slots;
    TickKeepsConsistent(cfg.limits, t, ms);
    forall id: byte
      ensures id in nd'.inc <==> Lookup(nd'.st.slots, id).Some?
      ensures id in nd'.inc ==> Holds(nd'.st.slots, id, nd'.born[nd'.inc[id]])
    {
      if id != 0 {
        LookupAfterTick(cfg.limits, t, ms, id);
        if id in nd.inc {
          assert Holds(t, id, nd.born[nd.inc[id]]);
        }
      }
    }
  }

  // ----- runs

  lemma StepKeepsInv(cfg: Config, nd: Node, a: Action)
    requires Inv(cfg, nd)
    ensures Inv(cfg, Step(cfg, nd, a))
  {
    match a
    case Send(owner, dest, d) => SendKeepsInv(cfg, nd, owner, dest, d);
    case Receive(src, frame) => if CompleteFrame(frame) { ReceiveKeepsInv(cfg, nd, src, frame); }
    case Tick(ms) => TickKeepsInv(cfg, nd, ms);
  }

  /** The first 255 requests take the ids 1 to 255 in order, whatever has completed in between. */
  ghost predicate FirstTurn(nd: Node) {
    && (forall k | 0 <= k < |nd.born| && k < 255 :: nd.born[k].id == k + 1)
    && (|nd.born| < 255 ==> nd.st.cursor == |nd.born| + 1)
  }

  /** While fewer than 255 requests have been submitted, the cursor's id has not been used. */
  lemma CursorUnused(cfg: Config, nd: Node)
    requires TableInv(cfg, nd) && FirstTurn(nd) && |nd.born| < 255
    ensures !Used(nd.st.slots, nd.st.cursor) && Probe(nd.st.slots, nd.st.cursor, 0) == 0
    ensures Cycle(nd.st.cursor, 0) == nd.st.cursor
  {
    forall id | id in nd.inc
      ensures id <= |nd.born|
    {
      assert Holds(nd.st.slots, id, nd.born[nd.inc[id]]);
    }
    var c: byte := nd.st.cursor;
    assert c in nd.inc <==> Lookup(nd.st.slots, c).Some?;
  }

  lemma SubmitTakesCursor(limits: Limits, st: Sessions, owner: nat, dest: Addr, d: ApduData)
    requires Probe(st.slots, st.cursor, 0) == 0 && Cycle(st.cursor, 0) == st.cursor
    ensures var sub := Submit(limits, st, owner, dest, d);
      && (sub.id == 0 ==> sub.next.cursor == st.cursor)
      && (sub.id != 0 ==> sub.id == st.cursor && (st.cursor < 255 ==> sub.next.cursor == st.cursor + 1))
  {
  }

  lemma SendKeepsFirstTurn(cfg: Config, nd: Node, owner: nat, dest: Addr, d: ApduData)
    requires TableInv(cfg, nd) && FirstTurn(nd)
    ensures FirstTurn(SendStep(cfg, nd, owner, dest, d))
  {
    if |nd.born| < 255 {
      CursorUnused(cfg, nd);
      SubmitTakesCursor(cfg.limits, nd.st, owner, dest, d);
    }
    var born' := SendStep(cfg, nd, owner, dest, d).born;
    assert forall k | 0 <= k < |nd.born| :: born'[k] == nd.born[k];
  }

  lemma StepKeepsFirstTurn(cfg: Config, nd: Node, a: Action)
    requires TableInv(cfg, nd) && FirstTurn(nd)
    ensures FirstTurn(Step(cfg, nd, a))
  {
    if a.Send? {
      SendKeepsFirstTurn(cfg, nd, a.owner, a.dest, a.data);
    }
  }

  lemma InitialInv(cfg: Config)
    ensures Inv(cfg, Initial())
  {
  }

  function Run(cfg: Config, actions: seq<Action>): Node {
    if actions == [] then Initial() else Step(cfg, Run(cfg, actions[..|actions| - 1]), actions[|actions| - 1])
  }

  lemma {:induction false} RunKeepsInv(cfg: Config, actions: seq<Action>)
    ensures Inv(cfg, Run(cfg, actions))
  {
    if actions == [] {
      InitialInv(cfg);
    } else {
      RunKeepsInv(cfg, actions[..|actions| - 1]);
      StepKeepsInv(cfg, Run(cfg, actions[..|actions| - 1]), actions[|actions| - 1]);
    }
  }

  /** In every run, whatever arrives: an incarnation leaves the table at most once, at most one call is
      made for it, and no resend or call follows its end. */
  lemma EachIncarnationEndsOnce(cfg: Config, actions: seq<Action>)
    ensures var log := Run(cfg, actions).log;
      forall i, j | 0 <= i < j < |log| && log[i].n == log[j].n ::
        !log[i].Left? && (log[i].Call? ==> j == i + 1 && log[j].Left?)
  {
    var log := Run(cfg, actions).log;
    RunKeepsInv(cfg, actions);
    forall i, j | 0 <= i < j < |log| && log[i].n == log[j].n
      ensures !log[i].Left? && (log[i].Call? ==> j == i + 1 && log[j].Left?)
    {
      assert log[i].Call? ==> log[i + 1] == Left(log[i].n);
    }
  }

  /** The log misses no call: those it notes are, in order, all the calls of the run that concern an
      incarnation. With EachIncarnationEndsOnce, none gets more than one. */
  lemma NoCallGoesUnnoted(cfg: Config, actions: seq<Action>)
    ensures NotedCalls(Run(cfg, actions).log) == TiedCalls(Run(cfg, actions).calls)
  {
    RunKeepsInv(cfg, actions);
  }

  /** The final timeout call of an incarnation gets the destination, service and payload submitted. */
  lemma TimeoutCallsGetTheRequest(cfg: Config, actions: seq<Action>)
    ensures var nd := Run(cfg, actions);
      forall i | 0 <= i < |nd.log| && nd.log[i].Call? && nd.log[i].callback.OnTimeout? ::
        && nd.log[i].n < |nd.born|
        && var r := nd.born[nd.log[i].n];
        && nd.log[i].callback == OnTimeout(r.dest, r.data.service % 256, r.data.payload)
  {
    var nd := Run(cfg, actions);
    RunKeepsInv(cfg, actions);
    assert forall i | 0 <= i < |nd.log| :: Faithful(nd.born, nd.log[i]);
  }

  /** A response or error call for an incarnation hands over the session set up for it: its id, destination
      and bytes. */
  lemma RepliesHandOverTheSession(cfg: Config, actions: seq<Action>)
    ensures var nd := Run(cfg, actions);
      forall i | 0 <= i < |nd.log| && nd.log[i].Call? && !nd.log[i].callback.OnTimeout? ::
        nd.log[i].n < |nd.born| && HandsOver(nd.log[i].callback, nd.born[nd.log[i].n])
  {
    var nd := Run(cfg, actions);
    RunKeepsInv(cfg, actions);
    assert forall i | 0 <= i < |nd.log| :: Faithful(nd.born, nd.log[i]);
  }

  /** An incarnation still in the table has had no call; every resend of any incarnation went to its
      destination with the exact bytes submitted. */
  lemma ActiveIncarnationsAwaitReplies(cfg: Config, actions: seq<Action>)
    ensures var nd := Run(cfg, actions);
      forall i | 0 <= i < |nd.log| ::
        && nd.log[i].n < |nd.born|
        && (Pending(nd, nd.log[i].n) ==> nd.log[i].Resend?)
        && (nd.log[i].Resend? ==>
              var r := nd.born[nd.log[i].n]; nd.log[i].dest == r.dest && nd.log[i].pdu == r.Apdu())
  {
    var nd := Run(cfg, actions);
    RunKeepsInv(cfg, actions);
    assert forall i | 0 <= i < |nd.log| :: Faithful(nd.born, nd.log[i]);
  }
}
