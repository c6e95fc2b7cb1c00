/** What becomes of each request over a whole run: the log misses no departure and no resend, and a request
    is pending exactly until a frame clears its id or its own clock runs out. */
module Outcomes {
  import opened Words
  import opened SessionSpec
  import opened SessionRefinement
  import opened Pdus
  import opened ApduSpec
  import opened Incarnations
  import SessionRuns

  // ----- departures

  ghost predicate DeparturesNoted(nd: Node) {
    forall n | 0 <= n < |nd.born| && !Pending(nd, n) :: Left(n) in nd.log
  }

  lemma SendKeepsActive(cfg: Config, nd: Node, owner: nat, dest: Addr, d: ApduData, n: nat)
    requires TableInv(cfg, nd) && n < |nd.born|
    ensures var nd' := SendStep(cfg, nd, owner, dest, d);
      nd.born <= nd'.born && (Pending(nd', n) <==> Pending(nd, n))
  {
    if Submit(cfg.limits, nd.st, owner, dest, d).id != 0 {
      SubmitLookups(cfg.limits, nd.st, owner, dest, d);
    }
  }

  lemma SendKeepsNoted(cfg: Config, nd: Node, owner: nat, dest: Addr, d: ApduData)
    requires TableInv(cfg, nd) && DeparturesNoted(nd)
    ensures DeparturesNoted(SendStep(cfg, nd, owner, dest, d))
  {
    var nd' := SendStep(cfg, nd, owner, dest, d);
    forall n | 0 <= n < |nd'.born| && !Pending(nd', n)
      ensures Left(n) in nd'.log
    {
      if n < |nd.born| {
        SendKeepsActive(cfg, nd, owner, dest, d, n);
      }
    }
  }

  lemma ReceiveKeepsNoted(cfg: Config, nd: Node, src: Addr, frame: seq<byte>)
    requires TableInv(cfg, nd) && DeparturesNoted(nd) && CompleteFrame(frame)
    ensures DeparturesNoted(ReceiveStep(cfg, nd, src, frame))
  {
    var nd' := ReceiveStep(cfg, nd, src, frame);
    forall n | 0 <= n < |nd'.born| && !Pending(nd', n)
      ensures Left(n) in nd'.log
    {
      ReceiveEndsOne(cfg, nd, src, frame, n);
      if Pending(nd, n) {
        assert LeftNote(nd.inc, Cleared(frame)) == [Left(n)];
        assert Left(n) in ReceiveLog(cfg, nd, src, frame);
      }
    }
  }

  lemma {:induction false} SlotInTickNotes(cfg: Config, inc: map<byte, nat>, t: Table, ms: nat, n: nat, i: nat,
                                           e: Entry)
    requires i < n <= MAX_SESSIONS && e in SlotNotes(cfg, inc, TickSession(cfg.limits, t[i], ms).1)
    ensures e in TickNotes(cfg, inc, t, ms, n)
    decreases n
  {
    if i < n - 1 {
      SlotInTickNotes(cfg, inc, t, ms, n - 1, i, e);
    }
  }

  lemma ExpiryIsNoted(cfg: Config, nd: Node, ms: nat, n: nat)
    requires TableInv(cfg, nd) && Pending(nd, n) && !Pending(TickStep(cfg, nd, ms), n)
    ensures Left(n) in TickNotes(cfg, nd.inc, nd.st.slots, ms, MAX_SESSIONS)
  {
    var t, id := nd.st.slots, nd.born[n].id;
    assert Holds(t, id, nd.born[n]);
    var i := IndexOf(t, id);
    LookupAfterTick(cfg.limits, t, ms, id);
    var e := Expired(id, t[i].notify, t[i].dest, t[i].pdu);
    assert TickSession(cfg.limits, t[i], ms).1 == [e];
    SlotNotesAre(cfg, nd.inc, t[i], ms);
    ExpiredNotes(cfg, nd.inc, e);
    SlotInTickNotes(cfg, nd.inc, t, ms, MAX_SESSIONS, i, Left(n));
  }

  lemma TickKeepsNoted(cfg: Config, nd: Node, ms: nat)
    requires TableInv(cfg, nd) && DeparturesNoted(nd)
    ensures DeparturesNoted(TickStep(cfg, nd, ms))
  {
    var nd' := TickStep(cfg, nd, ms);
    forall n | 0 <= n < |nd'.born| && !Pending(nd', n)
      ensures Left(n) in nd'.log
    {
      if Pending(nd, n) {
        ExpiryIsNoted(cfg, nd, ms, n);
      }
    }
  }

  lemma {:induction false} RunKeepsNoted(cfg: Config, actions: seq<Action>)
    ensures DeparturesNoted(Run(cfg, actions))
  {
    if actions != [] {
      var before, a := actions[..|actions| - 1], actions[|actions| - 1];
      var nd := Run(cfg, before);
      RunKeepsNoted(cfg, before);
      RunKeepsInv(cfg, before);
      match a
      case Send(owner, dest, d) => SendKeepsNoted(cfg, nd, owner, dest, d);
      case Receive(src, frame) => if CompleteFrame(frame) { ReceiveKeepsNoted(cfg, nd, src, frame); }
      case Tick(ms) => TickKeepsNoted(cfg, nd, ms);
    }
  }

  /** The log misses no departure: a request is in the table exactly as long as its end is not logged. */
  lemma EndedIffLeft(cfg: Config, actions: seq<Action>, n: nat)
    requires n < |Run(cfg, actions).born|
    ensures var nd := Run(cfg, actions);
      Pending(nd, n) <==> Left(n) !in nd.log
  {
    var nd := Run(cfg, actions);
    RunKeepsNoted(cfg, actions);
    RunKeepsInv(cfg, actions);
    if Left(n) in nd.log {
      var i :| 0 <= i < |nd.log| && nd.log[i] == Left(n);
      assert !nd.log[i].Resend?;
    }
  }

  // ----- resends

  /** A retransmission, as the network sees it. */
  datatype Copy = Copy(dest: Addr, pdu: seq<byte>)

  function NotedCopies(log: seq<Entry>): seq<Copy> {
    if |log| == 0 then []
    else
      var e := log[|log| - 1];
      NotedCopies(log[..|log| - 1]) + if e.Resend? then [Copy(e.dest, e.pdu)] else []
  }

  function Copies(events: seq<Event>): seq<Copy> {
    if |events| == 0 then []
    else
      var e := events[|events| - 1];
      Copies(events[..|events| - 1]) + if e.Resent? then [Copy(e.dest, e.pdu)] else []
  }

  function Emits(cfg: Config, nd: Node, a: Action): seq<Event> {
    if a.Tick? then TickEvents(cfg.limits, nd.st.slots, a.ms, MAX_SESSIONS) else []
  }

  /** All events of a run's ticks, in order. */
  function Emitted(cfg: Config, actions: seq<Action>): seq<Event> {
    if |actions| == 0 then []
    else
      var before, a := actions[..|actions| - 1], actions[|actions| - 1];
      Emitted(cfg, before) + Emits(cfg, Run(cfg, before), a)
  }

  lemma {:induction false} NotedCopiesAppend(a: seq<Entry>, b: seq<Entry>)
    ensures NotedCopies(a + b) == NotedCopies(a) + NotedCopies(b)
    decreases |b|
  {
    if b == [] {
      assert a + b == a;
    } else {
      NotedCopiesAppend(a, b[..|b| - 1]);
      assert (a + b)[..|a + b| - 1] == a + b[..|b| - 1];
    }
  }

  lemma {:induction false} CopiesAppend(a: seq<Event>, b: seq<Event>)
    ensures Copies(a + b) == Copies(a) + Copies(b)
    decreases |b|
  {
    if b == [] {
      assert a + b == a;
    } else {
      CopiesAppend(a, b[..|b| - 1]);
      assert (a + b)[..|a + b| - 1] == a + b[..|b| - 1];
    }
  }

  lemma CopiesBoth(a: seq<Entry>, b: seq<Entry>, x: seq<Event>, y: seq<Event>)
    requires NotedCopies(a) == Copies(x) && NotedCopies(b) == Copies(y)
    ensures NotedCopies(a + b) == Copies(x + y)
  {
    NotedCopiesAppend(a, b);
    CopiesAppend(x, y);
  }

  lemma {:induction false} NoCopies(log: seq<Entry>)
    requires forall i | 0 <= i < |log| :: !log[i].Resend?
    ensures NotedCopies(log) == []
  {
    if log != [] {
      NoCopies(log[..|log| - 1]);
    }
  }

  ghost predicate SlotCopied(cfg: Config, inc: map<byte, nat>, s: Session, ms: nat) {
    var now := TickSession(cfg.limits, s, ms).1;
    NotedCopies(SlotNotes(cfg, inc, now)) == Copies(now)
  }

  lemma CopyAlone(n: nat, e: Event)
    ensures NotedCopies([]) == [] && Copies([]) == []
    ensures e.Resent? ==> NotedCopies([Resend(n, e.dest, e.pdu)]) == [Copy(e.dest, e.pdu)] == Copies([e])
    ensures e.Expired? ==> Copies([e]) == []
  {
    assert [e][..0] == [];
    if e.Resent? {
      assert [Resend(n, e.dest, e.pdu)][..0] == [];
    }
  }

  lemma SlotIsCopied(cfg: Config, nd: Node, ms: nat, i: nat)
    requires TableInv(cfg, nd) && i < MAX_SESSIONS
    ensures SlotCopied(cfg, nd.inc, nd.st.slots[i], ms)
  {
    var s := nd.st.slots[i];
    var now := TickSession(cfg.limits, s, ms).1;
    SlotNotesAre(cfg, nd.inc, s, ms);
    if now != [] {
      SlotEventIs(cfg, nd, i, ms);
      CopyAlone(nd.inc[s.id], now[0]);
      assert now == [now[0]];
      if now[0].Expired? {
        EventNotesFit(cfg, nd, i, ms);
        EventNotesNote(cfg, nd.inc, nd.born[nd.inc[s.id]], s, now[0]);
        NoCopies(EventNotes(cfg, nd.inc, now[0]));
      }
    }
  }

  lemma {:induction false} TickCopies(cfg: Config, inc: map<byte, nat>, t: Table, ms: nat, n: nat)
    requires n <= MAX_SESSIONS && forall i | 0 <= i < n :: SlotCopied(cfg, inc, t[i], ms)
    ensures NotedCopies(TickNotes(cfg, inc, t, ms, n)) == Copies(TickEvents(cfg.limits, t, ms, n))
    decreases n
  {
    if n > 0 {
      var now := TickSession(cfg.limits, t[n - 1], ms).1;
      TickCopies(cfg, inc, t, ms, n - 1);
      assert SlotCopied(cfg, inc, t[n - 1], ms);
      CopiesBoth(TickNotes(cfg, inc, t, ms, n - 1), SlotNotes(cfg, inc, now),
                 TickEvents(cfg.limits, t, ms, n - 1), now);
    }
  }

  /** Entries other than resends add no copy. */
  lemma ReceiveCopiesNothing(cfg: Config, nd: Node, src: Addr, frame: seq<byte>)
    requires TableInv(cfg, nd) && CompleteFrame(frame)
    ensures NotedCopies(ReceiveStep(cfg, nd, src, frame).log) == NotedCopies(nd.log)
  {
    var added := ReceiveLog(cfg, nd, src, frame);
    ReceiveLogNotes(cfg, nd, src, frame);
    NoCopies(added);
    NotedCopiesAppend(nd.log, added);
  }

  lemma TickCopiesAll(cfg: Config, nd: Node, ms: nat, events: seq<Event>)
    requires TableInv(cfg, nd) && NotedCopies(nd.log) == Copies(events)
    ensures NotedCopies(TickStep(cfg, nd, ms).log)
         == Copies(events + TickEvents(cfg.limits, nd.st.slots, ms, MAX_SESSIONS))
  {
    var t := nd.st.slots;
    forall i: nat | i < MAX_SESSIONS {
      SlotIsCopied(cfg, nd, ms, i);
    }
    TickCopies(cfg, nd.inc, t, ms, MAX_SESSIONS);
    CopiesBoth(nd.log, TickNotes(cfg, nd.inc, t, ms, MAX_SESSIONS), events,
               TickEvents(cfg.limits, t, ms, MAX_SESSIONS));
  }

  lemma StepCopies(cfg: Config, nd: Node, a: Action, events: seq<Event>)
    requires TableInv(cfg, nd) && NotedCopies(nd.log) == Copies(events)
    ensures NotedCopies(Step(cfg, nd, a).log) == Copies(events + Emits(cfg, nd, a))
  {
    assert events + [] == events;
    if a.Tick? {
      TickCopiesAll(cfg, nd, a.ms, events);
    } else if a.Receive? && CompleteFrame(a.frame) {
      ReceiveCopiesNothing(cfg, nd, a.src, a.frame);
    }
  }

  /** The log misses no resend: those it notes are, in order, all retransmissions of the run. */
  lemma {:induction false} NoResendGoesUnnoted(cfg: Config, actions: seq<Action>)
    ensures NotedCopies(Run(cfg, actions).log) == Copies(Emitted(cfg, actions))
  {
    if actions != [] {
      var before := actions[..|actions| - 1];
      NoResendGoesUnnoted(cfg, before);
      RunKeepsInv(cfg, before);
      StepCopies(cfg, Run(cfg, before), actions[|actions| - 1], Emitted(cfg, before));
    }
  }

  // ----- time

  /** The ticks of a run, in order. */
  function TicksOf(actions: seq<Action>): seq<nat> {
    if |actions| == 0 then []
    else
      var a := actions[|actions| - 1];
      TicksOf(actions[..|actions| - 1]) + if a.Tick? then [a.ms] else []
  }

  predicate Clears(a: Action, id: byte) {
    a.Receive? && CompleteFrame(a.frame) && Cleared(a.frame) == id
  }

  /** Some frame ends whatever session holds id. */
  ghost predicate ClearedIn(actions: seq<Action>, id: byte) {
    exists k :: 0 <= k < |actions| && Clears(actions[k], id)
  }

  /** What one step does to a pending request: only a frame with its id or the end of its own clock ends it. */
  lemma StepAges(cfg: Config, nd: Node, a: Action, n: nat)
    requires TableInv(cfg, nd) && Pending(nd, n)
    ensures var id, nd' := nd.born[n].id, Step(cfg, nd, a);
      && Lookup(nd.st.slots, id).Some? && nd.born <= nd'.born
      && var s := Lookup(nd.st.slots, id).value;
      && var s' := if a.Tick? then TickSession(cfg.limits, s, a.ms).0 else s;
      && s.id == id && s.waiting
      && (Pending(nd', n) <==> !Clears(a, id) && s'.waiting)
      && (Pending(nd', n) ==> Lookup(nd'.st.slots, id) == Some(s'))
  {
    var id := nd.born[n].id;
    assert Holds(nd.st.slots, id, nd.born[n]);
    match a
    case Send(owner, dest, d) => SendAges(cfg, nd, owner, dest, d, n);
    case Receive(src, frame) => if CompleteFrame(frame) { ReceiveAges(cfg, nd, src, frame, n); }
    case Tick(ms) => TickAges(cfg, nd, ms, n);
  }

  lemma ReceiveAges(cfg: Config, nd: Node, src: Addr, frame: seq<byte>, n: nat)
    requires TableInv(cfg, nd) && Pending(nd, n) && CompleteFrame(frame)
    ensures var id, nd' := nd.born[n].id, ReceiveStep(cfg, nd, src, frame);
      && nd'.born == nd.born && (Pending(nd', n) <==> Cleared(frame) != id)
      && (Pending(nd', n) ==> Lookup(nd'.st.slots, id) == Lookup(nd.st.slots, id))
  {
    ReceiveEndsOne(cfg, nd, src, frame, n);
    FrameLookups(cfg, nd.st.slots, src, frame);
  }

  lemma TickAges(cfg: Config, nd: Node, ms: nat, n: nat)
    requires TableInv(cfg, nd) && Pending(nd, n)
    ensures var id, nd' := nd.born[n].id, TickStep(cfg, nd, ms);
      && nd'.born == nd.born && Lookup(nd.st.slots, id).Some?
      && var s' := TickSession(cfg.limits, Lookup(nd.st.slots, id).value, ms).0;
      && (Pending(nd', n) <==> s'.waiting)
      && (Pending(nd', n) ==> Lookup(nd'.st.slots, id) == Some(s'))
  {
    var id, t := nd.born[n].id, nd.st.slots;
    assert Holds(t, id, nd.born[n]);
    LookupAfterTick(cfg.limits, t, ms, id);
    WaitingSurvives(cfg.limits, Lookup(t, id).value, ms);
    HeldIsPending(nd, TickStep(cfg, nd, ms), Ticked(cfg.limits, t, ms), n);
  }

  lemma HeldIsPending(nd: Node, nd': Node, t: Table, n: nat)
    requires Pending(nd, n) && nd'.born == nd.born && nd'.inc == StillHeld(nd.inc, t)
    ensures Pending(nd', n) <==> Lookup(t, nd.born[n].id).Some?
  {
  }

  lemma WaitingSurvives(limits: Limits, s: Session, ms: nat)
    requires s.waiting && s.id != 0
    ensures var s' := TickSession(limits, s, ms).0;
      Survivor(limits, s, ms) == if s'.waiting then Some(s') else None
  {
  }

  lemma SendAges(cfg: Config, nd: Node, owner: nat, dest: Addr, d: ApduData, n: nat)
    requires TableInv(cfg, nd) && Pending(nd, n)
    ensures var id, nd' := nd.born[n].id, SendStep(cfg, nd, owner, dest, d);
      nd.born <= nd'.born && Pending(nd', n) && Lookup(nd'.st.slots, id) == Lookup(nd.st.slots, id)
  {
    SendKeepsActive(cfg, nd, owner, dest, d, n);
    if Submit(cfg.limits, nd.st, owner, dest, d).id != 0 {
      SubmitLookups(cfg.limits, nd.st, owner, dest, d);
    } else {
      ReserveRefines(cfg.limits, nd.st);
    }
  }

  /** Nothing brings a request back. */
  lemma StepRevivesNone(cfg: Config, nd: Node, a: Action, n: nat)
    requires TableInv(cfg, nd) && n < |nd.born| && !Pending(nd, n)
    ensures nd.born <= Step(cfg, nd, a).born && !Pending(Step(cfg, nd, a), n)
  {
    match a
    case Send(owner, dest, d) => SendKeepsActive(cfg, nd, owner, dest, d, n);
    case Receive(src, frame) => if CompleteFrame(frame) { ReceiveEndsOne(cfg, nd, src, frame, n); }
    case Tick(ms) =>
  }

  lemma FreshSession(limits: Limits, st: Sessions, owner: nat, dest: Addr, d: ApduData)
    requires Consistent(limits, st.slots) && Submit(limits, st, owner, dest, d).id != 0
    ensures var sub := Submit(limits, st, owner, dest, d);
      Lookup(sub.next.slots, sub.id) == Some(Begun(limits, sub.id, owner, dest, d))
  {
    var Reservation(st1, id) := Reserve(limits, st);
    ReserveRefines(limits, st);
    SessionRuns.LookupAfterSet(limits, st1, id, true, owner, dest, Encode(RequestPdu(d, id)));
  }

  /** The session of a request just submitted. */
  function Begun(limits: Limits, id: byte, owner: nat, dest: Addr, d: ApduData): Session {
    Session(id, true, 0, limits.timeout, true, owner, dest, Encode(RequestPdu(d, id)))
  }

  /** Request n, numbered under id, is pending with session s, unless cleared or over. */
  ghost predicate Aged(nd: Node, n: nat, id: byte, cleared: bool, s: Session) {
    && n < |nd.born| && nd.born[n].id == id
    && (Pending(nd, n) <==> !cleared && s.waiting)
    && (Pending(nd, n) ==> Lookup(nd.st.slots, id) == Some(s))
  }

  lemma AgesByStep(cfg: Config, nd: Node, a: Action, n: nat, id: byte, cleared: bool, s: Session)
    requires TableInv(cfg, nd) && Aged(nd, n, id, cleared, s)
    ensures Aged(Step(cfg, nd, a), n, id, cleared || Clears(a, id),
                 if a.Tick? then TickSession(cfg.limits, s, a.ms).0 else s)
  {
    if Pending(nd, n) {
      StepAges(cfg, nd, a, n);
    } else {
      StepRevivesNone(cfg, nd, a, n);
    }
  }

  /** A run, a request, and what comes after it. */
  function History(before: seq<Action>, owner: nat, dest: Addr, d: ApduData, after: seq<Action>): seq<Action> {
    before + [Send(owner, dest, d)] + after
  }

  lemma RunNext(cfg: Config, actions: seq<Action>, a: Action)
    ensures Run(cfg, actions + [a]) == Step(cfg, Run(cfg, actions), a)
  {
    assert (actions + [a])[..|actions + [a]| - 1] == actions;
  }

  lemma HistoryNext(before: seq<Action>, owner: nat, dest: Addr, d: ApduData, after: seq<Action>)
    ensures History(before, owner, dest, d, []) == before + [Send(owner, dest, d)]
    ensures after != [] ==>
      History(before, owner, dest, d, after)
      == History(before, owner, dest, d, after[..|after| - 1]) + [after[|after| - 1]]
  {
    if after != [] {
      assert after == after[..|after| - 1] + [after[|after| - 1]];
    }
  }

  lemma ClearedInNext(after: seq<Action>, id: byte)
    requires after != []
    ensures var fewer, a := after[..|after| - 1], after[|after| - 1];
      ClearedIn(after, id) <==> ClearedIn(fewer, id) || Clears(a, id)
  {
    var fewer, a := after[..|after| - 1], after[|after| - 1];
    if ClearedIn(fewer, id) {
      var k :| 0 <= k < |fewer| && Clears(fewer[k], id);
      assert Clears(after[k], id);
    }
    if ClearedIn(after, id) && !Clears(a, id) {
      var k :| 0 <= k < |after| && Clears(after[k], id);
      assert Clears(fewer[k], id);
    }
    assert a == after[|after| - 1];
  }

  function Submitted(cfg: Config, before: seq<Action>, owner: nat, dest: Addr, d: ApduData): byte {
    Submit(cfg.limits, Run(cfg, before).st, owner, dest, d).id
  }

  /** The session of the request, had it been alone. */
  function Alone(cfg: Config, id: byte, owner: nat, dest: Addr, d: ApduData, after: seq<Action>): Session {
    SessionRuns.Life(cfg.limits, Begun(cfg.limits, id, owner, dest, d), TicksOf(after)).0
  }

  ghost predicate AgedAfter(cfg: Config, before: seq<Action>, owner: nat, dest: Addr, d: ApduData, after: seq<Action>) {
    var id := Submitted(cfg, before, owner, dest, d);
    Aged(Run(cfg, History(before, owner, dest, d, after)), |Run(cfg, before).born|, id, ClearedIn(after, id),
         Alone(cfg, id, owner, dest, d, after))
  }

  lemma AgesAtFirst(cfg: Config, before: seq<Action>, owner: nat, dest: Addr, d: ApduData)
    requires Submitted(cfg, before, owner, dest, d) != 0
    ensures AgedAfter(cfg, before, owner, dest, d, [])
  {
    HistoryNext(before, owner, dest, d, []);
    RunKeepsInv(cfg, before);
    RunNext(cfg, before, Send(owner, dest, d));
    FreshSession(cfg.limits, Run(cfg, before).st, owner, dest, d);
  }

  lemma AloneNext(cfg: Config, id: byte, owner: nat, dest: Addr, d: ApduData, after: seq<Action>)
    requires after != []
    ensures var s, a := Alone(cfg, id, owner, dest, d, after[..|after| - 1]), after[|after| - 1];
      Alone(cfg, id, owner, dest, d, after) == if a.Tick? then TickSession(cfg.limits, s, a.ms).0 else s
  {
    var fewer, a := after[..|after| - 1], after[|after| - 1];
    if a.Tick? {
      SessionRuns.LifeNext(cfg.limits, Begun(cfg.limits, id, owner, dest, d), TicksOf(fewer), a.ms);
    } else {
      assert TicksOf(fewer) + [] == TicksOf(fewer);
    }
  }

  lemma AgesNext(cfg: Config, before: seq<Action>, owner: nat, dest: Addr, d: ApduData, after: seq<Action>)
    requires after != [] && AgedAfter(cfg, before, owner, dest, d, after[..|after| - 1])
    ensures AgedAfter(cfg, before, owner, dest, d, after)
  {
    var id, fewer, a := Submitted(cfg, before, owner, dest, d), after[..|after| - 1], after[|after| - 1];
    var past := History(before, owner, dest, d, fewer);
    HistoryNext(before, owner, dest, d, after);
    RunKeepsInv(cfg, past);
    RunNext(cfg, past, a);
    ClearedInNext(after, id);
    AloneNext(cfg, id, owner, dest, d, after);
    AgesByStep(cfg, Run(cfg, past), a, |Run(cfg, before).born|, id, ClearedIn(fewer, id),
               Alone(cfg, id, owner, dest, d, fewer));
  }

  lemma {:induction false} AgesInRun(cfg: Config, before: seq<Action>, owner: nat, dest: Addr, d: ApduData,
                                     after: seq<Action>)
    requires Submitted(cfg, before, owner, dest, d) != 0
    ensures AgedAfter(cfg, before, owner, dest, d, after)
    decreases |after|
  {
    if after == [] {
      AgesAtFirst(cfg, before, owner, dest, d);
    } else {
      AgesInRun(cfg, before, owner, dest, d, after[..|after| - 1]);
      AgesNext(cfg, before, owner, dest, d, after);
    }
  }

  /** A request is pending exactly until a frame with its id arrives or its own session, ticking by
      itself, is over: whatever other requests do, and whoever holds the id afterwards. */
  lemma PendingIff(cfg: Config, before: seq<Action>, owner: nat, dest: Addr, d: ApduData, after: seq<Action>)
    requires Submitted(cfg, before, owner, dest, d) != 0
    ensures var id := Submitted(cfg, before, owner, dest, d);
      Pending(Run(cfg, History(before, owner, dest, d, after)), |Run(cfg, before).born|)
      <==> !ClearedIn(after, id) && Alone(cfg, id, owner, dest, d, after).waiting
  {
    AgesInRun(cfg, before, owner, dest, d, after);
  }

  ghost predicate EndsExactlyOnce(log: seq<Entry>, n: nat) {
    exists i :: 0 <= i < |log| && log[i] == Left(n) && forall j | 0 <= j < |log| && log[j].n == n :: j <= i
  }

  /** Exactly one outcome, in time: under ticks of 1 to most milliseconds, a request has ended exactly once, and
      nothing about it follows, as soon as Latest milliseconds have passed, whatever frames arrived; and it
      is still pending before Soonest unless a frame with its id did. */
  lemma OneOutcomeInTime(cfg: Config, before: seq<Action>, owner: nat, dest: Addr, d: ApduData, after: seq<Action>,
                         most: nat)
    requires Submitted(cfg, before, owner, dest, d) != 0
    requires most >= 1 && forall k | 0 <= k < |TicksOf(after)| :: 1 <= TicksOf(after)[k] <= most
    ensures var n, id := |Run(cfg, before).born|, Submitted(cfg, before, owner, dest, d);
      var nd, elapsed := Run(cfg, History(before, owner, dest, d, after)), SessionRuns.Sum(TicksOf(after));
      && (SessionRuns.Latest(cfg.limits, most) <= elapsed ==> !Pending(nd, n) && EndsExactlyOnce(nd.log, n))
      && (elapsed < SessionRuns.Soonest(cfg.limits) && !ClearedIn(after, id) ==> Pending(nd, n))
  {
    var n, id := |Run(cfg, before).born|, Submitted(cfg, before, owner, dest, d);
    var all := History(before, owner, dest, d, after);
    PendingIff(cfg, before, owner, dest, d, after);
    AgesInRun(cfg, before, owner, dest, d, after);
    SessionRuns.LifeBounds(cfg.limits, Begun(cfg.limits, id, owner, dest, d), TicksOf(after), most);
    if !Pending(Run(cfg, all), n) {
      EndedOnce(cfg, all, n);
    }
  }

  /** A request that is no longer pending has exactly one end in the log, and it comes last. */
  lemma EndedOnce(cfg: Config, actions: seq<Action>, n: nat)
    requires n < |Run(cfg, actions).born| && !Pending(Run(cfg, actions), n)
    ensures EndsExactlyOnce(Run(cfg, actions).log, n)
  {
    var log := Run(cfg, actions).log;
    EndedIffLeft(cfg, actions, n);
    EachIncarnationEndsOnce(cfg, actions);
    var i :| 0 <= i < |log| && log[i] == Left(n);
    forall j | 0 <= j < |log| && log[j].n == n
      ensures j <= i
    {
    }
  }
}
