/** The whole log of one request, in a run where anything happens to the others: its resends, then at most
    one call, then its end. */
module RequestStories {
  import opened Words
  import opened SessionSpec
  import opened SessionRefinement
  import opened ApduSpec
  import opened Incarnations
  import opened Outcomes
  import SessionRuns

  /** What a log says about request n, in order. */
  function EntriesOf(log: seq<Entry>, n: nat): seq<Entry> {
    if |log| == 0 then []
    else EntriesOf(log[..|log| - 1], n) + if log[|log| - 1].n == n then [log[|log| - 1]] else []
  }

  lemma {:induction false} EntriesOfAppend(a: seq<Entry>, b: seq<Entry>, n: nat)
    ensures EntriesOf(a + b, n) == EntriesOf(a, n) + EntriesOf(b, n)
    decreases |b|
  {
    if b == [] {
      assert a + b == a;
    } else {
      EntriesOfAppend(a, b[..|b| - 1], n);
      assert (a + b)[..|a + b| - 1] == a + b[..|b| - 1];
    }
  }

  lemma {:induction false} AllAbout(log: seq<Entry>, n: nat)
    requires forall i | 0 <= i < |log| :: log[i].n == n
    ensures EntriesOf(log, n) == log
  {
    if |log| > 0 {
      AllAbout(log[..|log| - 1], n);
      assert log == log[..|log| - 1] + [log[|log| - 1]];
    }
  }

  lemma {:induction false} NoneAbout(log: seq<Entry>, n: nat)
    requires forall i | 0 <= i < |log| :: log[i].n != n
    ensures EntriesOf(log, n) == []
  {
    if |log| > 0 {
      NoneAbout(log[..|log| - 1], n);
    }
  }

  lemma NothingAdded(log: seq<Entry>)
    ensures [] + log == log + [] == log
  {
  }

  // ----- what one step says about one request

  /** What a step adds to the log. */
  function Notes(cfg: Config, nd: Node, a: Action): seq<Entry> {
    match a
    case Send(_, _, _) => []
    case Receive(src, frame) => if CompleteFrame(frame) then ReceiveLog(cfg, nd, src, frame) else []
    case Tick(ms) => TickNotes(cfg, nd.inc, nd.st.slots, ms, MAX_SESSIONS)
  }

  lemma StepNotes(cfg: Config, nd: Node, a: Action)
    ensures Step(cfg, nd, a).log == nd.log + Notes(cfg, nd, a)
  {
  }

  lemma SlotTells(cfg: Config, nd: Node, ms: nat, i: nat, n: nat)
    requires TableInv(cfg, nd) && i < MAX_SESSIONS
    ensures var s := nd.st.slots[i];
      var notes := SlotNotes(cfg, nd.inc, TickSession(cfg.limits, s, ms).1);
      EntriesOf(notes, n) == if s.id in nd.inc && nd.inc[s.id] == n then notes else []
  {
    var s := nd.st.slots[i];
    var now := TickSession(cfg.limits, s, ms).1;
    SlotNotesAre(cfg, nd.inc, s, ms);
    if now != [] {
      EventNotesFit(cfg, nd, i, ms);
      if s.id in nd.inc && nd.inc[s.id] == n {
        AllAbout(SlotNotes(cfg, nd.inc, now), n);
      } else {
        NoneAbout(SlotNotes(cfg, nd.inc, now), n);
      }
    }
  }

  function Joined(parts: seq<seq<Entry>>): seq<Entry> {
    if |parts| == 0 then [] else Joined(parts[..|parts| - 1]) + parts[|parts| - 1]
  }

  lemma JoinedLast(parts: seq<seq<Entry>>, n: nat)
    requires |parts| > 0
    ensures var fewer, last := parts[..|parts| - 1], parts[|parts| - 1];
      EntriesOf(Joined(parts), n) == EntriesOf(Joined(fewer), n) + EntriesOf(last, n)
  {
    EntriesOfAppend(Joined(parts[..|parts| - 1]), parts[|parts| - 1], n);
  }

  /** If at most part i says something about request n, it is all that is said. */
  lemma {:induction false} JoinedTells(parts: seq<seq<Entry>>, n: nat, i: nat)
    requires forall j | 0 <= j < |parts| && j != i :: EntriesOf(parts[j], n) == []
    ensures EntriesOf(Joined(parts), n) == if i < |parts| then EntriesOf(parts[i], n) else []
  {
    if |parts| > 0 {
      var fewer, last := parts[..|parts| - 1], parts[|parts| - 1];
      JoinedTells(fewer, n, i);
      JoinedLast(parts, n);
      if i == |fewer| {
        NothingAdded(EntriesOf(last, n));
      } else {
        NothingAdded(EntriesOf(Joined(fewer), n));
      }
    }
  }

  /** What each of the first m slots adds to the log. */
  function Parts(cfg: Config, inc: map<byte, nat>, t: Table, ms: nat, m: nat): (parts: seq<seq<Entry>>)
    requires m <= MAX_SESSIONS
    ensures |parts| == m
  {
    seq(m, j requires 0 <= j < m => SlotNotes(cfg, inc, TickSession(cfg.limits, t[j], ms).1))
  }

  lemma {:induction false} TickNotesJoin(cfg: Config, inc: map<byte, nat>, t: Table, ms: nat, m: nat)
    requires m <= MAX_SESSIONS
    ensures TickNotes(cfg, inc, t, ms, m) == Joined(Parts(cfg, inc, t, ms, m))
    decreases m
  {
    if m > 0 {
      TickNotesJoin(cfg, inc, t, ms, m - 1);
      assert Parts(cfg, inc, t, ms, m)[..m - 1] == Parts(cfg, inc, t, ms, m - 1);
    }
  }

  lemma OnlyItsSlot(cfg: Config, nd: Node, n: nat, i: nat, j: nat)
    requires TableInv(cfg, nd) && Pending(nd, n)
    requires i == IndexOf(nd.st.slots, nd.born[n].id) && j < MAX_SESSIONS
    ensures i < MAX_SESSIONS && nd.st.slots[i].id == nd.born[n].id
    ensures nd.st.slots[j].id in nd.inc && nd.inc[nd.st.slots[j].id] == n ==> j == i
  {
    var t := nd.st.slots;
    assert Holds(t, nd.born[n].id, nd.born[n]);
    if t[j].id in nd.inc && nd.inc[t[j].id] == n {
      assert Holds(t, t[j].id, nd.born[n]);
      LookupAt(t, j);
    }
  }

  /** A tick says about a pending request what its own session does. */
  lemma TickTellsPending(cfg: Config, nd: Node, ms: nat, n: nat)
    requires TableInv(cfg, nd) && Pending(nd, n)
    ensures Lookup(nd.st.slots, nd.born[n].id).Some?
    ensures EntriesOf(Notes(cfg, nd, Tick(ms)), n)
         == SlotNotes(cfg, nd.inc, TickSession(cfg.limits, Lookup(nd.st.slots, nd.born[n].id).value, ms).1)
  {
    var t, i := nd.st.slots, IndexOf(nd.st.slots, nd.born[n].id);
    assert Holds(t, nd.born[n].id, nd.born[n]);
    forall j: nat | j < MAX_SESSIONS && j != i
      ensures EntriesOf(Parts(cfg, nd.inc, t, ms, MAX_SESSIONS)[j], n) == []
    {
      OnlyItsSlot(cfg, nd, n, i, j);
      SlotTells(cfg, nd, ms, j, n);
    }
    SlotTells(cfg, nd, ms, i, n);
    TickNotesJoin(cfg, nd.inc, t, ms, MAX_SESSIONS);
    JoinedTells(Parts(cfg, nd.inc, t, ms, MAX_SESSIONS), n, i);
  }

  /** A step says nothing about a request that is over. */
  lemma StepSilent(cfg: Config, nd: Node, a: Action, n: nat)
    requires TableInv(cfg, nd) && n < |nd.born| && !Pending(nd, n)
    ensures EntriesOf(Notes(cfg, nd, a), n) == []
  {
    match a
    case Send(_, _, _) =>
    case Receive(src, frame) =>
      if CompleteFrame(frame) {
        ReceiveNotesEnds(cfg, nd, src, frame);
        NoneAbout(ReceiveLog(cfg, nd, src, frame), n);
      }
    case Tick(ms) =>
      forall j: nat | j < MAX_SESSIONS
        ensures EntriesOf(Parts(cfg, nd.inc, nd.st.slots, ms, MAX_SESSIONS)[j], n) == []
      {
        HolderIsPending(cfg, nd, nd.st.slots[j].id);
        SlotTells(cfg, nd, ms, j, n);
      }
      TickNotesJoin(cfg, nd.inc, nd.st.slots, ms, MAX_SESSIONS);
      JoinedTells(Parts(cfg, nd.inc, nd.st.slots, ms, MAX_SESSIONS), n, MAX_SESSIONS);
  }

  lemma HolderIsPending(cfg: Config, nd: Node, id: byte)
    requires TableInv(cfg, nd)
    ensures id in nd.inc ==> Pending(nd, nd.inc[id])
  {
    if id in nd.inc {
      assert Holds(nd.st.slots, id, nd.born[nd.inc[id]]);
    }
  }

  lemma ReceiveLogHolder(cfg: Config, nd: Node, src: Addr, frame: seq<byte>)
    requires CompleteFrame(frame)
    ensures var log, id := ReceiveLog(cfg, nd, src, frame), Cleared(frame);
      && (log != [] ==> id in nd.inc)
      && forall j | 0 <= j < |log| :: log[j].n == nd.inc[id]
  {
  }

  /** A frame that does not clear a pending request's id says nothing about it. */
  lemma ReceiveTellsOther(cfg: Config, nd: Node, src: Addr, frame: seq<byte>, n: nat)
    requires TableInv(cfg, nd) && Pending(nd, n) && CompleteFrame(frame) && Cleared(frame) != nd.born[n].id
    ensures EntriesOf(ReceiveLog(cfg, nd, src, frame), n) == []
  {
    ReceiveLogHolder(cfg, nd, src, frame);
    HolderIsPending(cfg, nd, Cleared(frame));
    NoneAbout(ReceiveLog(cfg, nd, src, frame), n);
  }

  /** One that does says that it ends, after at most one call. */
  lemma ReceiveTellsOwn(cfg: Config, nd: Node, src: Addr, frame: seq<byte>, n: nat) returns (calls: seq<Entry>)
    requires TableInv(cfg, nd) && Pending(nd, n) && CompleteFrame(frame) && Cleared(frame) == nd.born[n].id
    ensures |calls| <= 1 && OnlyCalls(calls)
    ensures EntriesOf(ReceiveLog(cfg, nd, src, frame), n) == calls + [Left(n)]
  {
    calls := ReceiveTellsEnd(cfg, nd, src, frame);
    ReceiveLogHolder(cfg, nd, src, frame);
    AllAbout(ReceiveLog(cfg, nd, src, frame), n);
  }

  lemma ReceiveTellsEnd(cfg: Config, nd: Node, src: Addr, frame: seq<byte>) returns (calls: seq<Entry>)
    requires CompleteFrame(frame) && Cleared(frame) in nd.inc
    ensures |calls| <= 1 && OnlyCalls(calls)
    ensures ReceiveLog(cfg, nd, src, frame) == calls + [Left(nd.inc[Cleared(frame)])]
  {
    FrameCalls(cfg, nd.st.slots, src, frame);
    calls := CallNotes(nd.inc, ReactToFrame(cfg.services, nd.st.slots, src, frame).calls, Cleared(frame));
  }

  predicate OnlyCalls(entries: seq<Entry>) {
    forall i | 0 <= i < |entries| :: entries[i].Call?
  }

  // ----- the story

  function Again(n: nat, r: Request): Entry {
    Resend(n, r.dest, r.Apdu())
  }

  /** The timeout call, if the service has a handler for it. */
  function TimeoutNotes(cfg: Config, n: nat, r: Request): seq<Entry> {
    var service := r.data.service % 256;
    if service in cfg.services && cfg.services[service].onTimeout then
      [Call(n, OnTimeout(r.dest, service, r.data.payload))]
    else []
  }

  /** Resends and at most one call, then the end; all the resends and the timeout call unless it was cleared. */
  ghost predicate Finished(cfg: Config, n: nat, r: Request, cleared: bool, entries: seq<Entry>) {
    exists k: nat, calls ::
      && entries == SessionRuns.Repeat(Again(n, r), k) + calls + [Left(n)]
      && k <= cfg.limits.retries && |calls| <= 1 && OnlyCalls(calls)
      && (!cleared ==> k == cfg.limits.retries && calls == TimeoutNotes(cfg, n, r))
  }

  /** retry counts the resends of a request still pending. */
  ghost predicate Told(cfg: Config, nd: Node, n: nat, cleared: bool, retry: nat)
    requires n < |nd.born|
  {
    var entries := EntriesOf(nd.log, n);
    if Pending(nd, n) then retry <= cfg.limits.retries && entries == SessionRuns.Repeat(Again(n, nd.born[n]), retry)
    else Finished(cfg, n, nd.born[n], cleared, entries)
  }

  lemma RepeatNext(e: Entry, k: nat)
    ensures SessionRuns.Repeat(e, k) + [e] == SessionRuns.Repeat(e, k + 1)
    ensures SessionRuns.Repeat(e, k) + [] == SessionRuns.Repeat(e, k)
  {
  }

  lemma ExpiryTells(cfg: Config, inc: map<byte, nat>, r: Request, e: Event)
    requires r.data.confirmed && r.id in inc && e == Expired(r.id, true, r.dest, r.Apdu())
    ensures EventNotes(cfg, inc, e) == TimeoutNotes(cfg, inc[r.id], r) + [Left(inc[r.id])]
  {
    ApduParts(r);
    ExpiredNotes(cfg, inc, e);
    assert CallNotes(inc, EventCalls(cfg, e), r.id) == TimeoutNotes(cfg, inc[r.id], r);
  }

  /** A tick's news of a pending request: nothing, one more resend, or after the last of them its end. */
  lemma TickNews(cfg: Config, nd: Node, ms: nat, n: nat)
    requires TableInv(cfg, nd) && Pending(nd, n)
    ensures Lookup(nd.st.slots, nd.born[n].id).Some?
    ensures var s, notes := Lookup(nd.st.slots, nd.born[n].id).value, EntriesOf(Notes(cfg, nd, Tick(ms)), n);
      var s' := TickSession(cfg.limits, s, ms).0;
      if !s'.waiting then s.retry == cfg.limits.retries && notes == TimeoutNotes(cfg, n, nd.born[n]) + [Left(n)]
      else if s'.retry == s.retry then notes == []
      else s'.retry == s.retry + 1 <= cfg.limits.retries && notes == [Again(n, nd.born[n])]
  {
    var t, r := nd.st.slots, nd.born[n];
    assert Holds(t, r.id, r);
    var s := Lookup(t, r.id).value;
    TickTellsPending(cfg, nd, ms, n);
    SlotNotesAre(cfg, nd.inc, s, ms);
    var events := TickSession(cfg.limits, s, ms).1;
    if events != [] && events[0].Expired? {
      ExpiryTells(cfg, nd.inc, r, events[0]);
    }
  }

  lemma FinishedMore(cfg: Config, n: nat, r: Request, cleared: bool, entries: seq<Entry>)
    requires Finished(cfg, n, r, cleared, entries)
    ensures Finished(cfg, n, r, true, entries)
  {
  }

  lemma FinishedNow(cfg: Config, n: nat, r: Request, cleared: bool, k: nat, calls: seq<Entry>)
    requires k <= cfg.limits.retries && |calls| <= 1 && OnlyCalls(calls)
    requires !cleared ==> k == cfg.limits.retries && calls == TimeoutNotes(cfg, n, r)
    ensures Finished(cfg, n, r, cleared, SessionRuns.Repeat(Again(n, r), k) + (calls + [Left(n)]))
  {
    var resends := SessionRuns.Repeat(Again(n, r), k);
    assert resends + (calls + [Left(n)]) == resends + calls + [Left(n)];
  }

  lemma ToldByTick(cfg: Config, nd: Node, ms: nat, n: nat, id: byte, s: Session)
    requires TableInv(cfg, nd) && Aged(nd, n, id, false, s) && Pending(nd, n) && Told(cfg, nd, n, false, s.retry)
    ensures n < |TickStep(cfg, nd, ms).born|
    ensures Told(cfg, TickStep(cfg, nd, ms), n, false, TickSession(cfg.limits, s, ms).0.retry)
  {
    var r := nd.born[n];
    TickAges(cfg, nd, ms, n);
    TickNews(cfg, nd, ms, n);
    EntriesOfAppend(nd.log, Notes(cfg, nd, Tick(ms)), n);
    if TickSession(cfg.limits, s, ms).0.waiting {
      RepeatNext(Again(n, r), s.retry);
    } else {
      FinishedNow(cfg, n, r, false, cfg.limits.retries, TimeoutNotes(cfg, n, r));
    }
  }

  lemma ToldByFrame(cfg: Config, nd: Node, src: Addr, frame: seq<byte>, n: nat, id: byte, s: Session)
    requires TableInv(cfg, nd) && Aged(nd, n, id, false, s) && Pending(nd, n) && Told(cfg, nd, n, false, s.retry)
    requires CompleteFrame(frame)
    ensures n < |ReceiveStep(cfg, nd, src, frame).born|
    ensures Told(cfg, ReceiveStep(cfg, nd, src, frame), n, Cleared(frame) == id, s.retry)
  {
    var r := nd.born[n];
    ReceiveAges(cfg, nd, src, frame, n);
    EntriesOfAppend(nd.log, ReceiveLog(cfg, nd, src, frame), n);
    RepeatNext(Again(n, r), s.retry);
    if Cleared(frame) == id {
      var calls := ReceiveTellsOwn(cfg, nd, src, frame, n);
      FinishedNow(cfg, n, r, true, s.retry, calls);
    } else {
      ReceiveTellsOther(cfg, nd, src, frame, n);
    }
  }

  lemma ToldWhenOver(cfg: Config, nd: Node, a: Action, n: nat, cleared: bool, retry: nat, more: bool, retry': nat)
    requires TableInv(cfg, nd) && n < |nd.born| && !Pending(nd, n) && Told(cfg, nd, n, cleared, retry)
    ensures n < |Step(cfg, nd, a).born|
    ensures Told(cfg, Step(cfg, nd, a), n, cleared || more, retry')
  {
    var r, entries := nd.born[n], EntriesOf(nd.log, n);
    StepRevivesNone(cfg, nd, a, n);
    StepNotes(cfg, nd, a);
    StepSilent(cfg, nd, a, n);
    EntriesOfAppend(nd.log, Notes(cfg, nd, a), n);
    NothingAdded(entries);
    FinishedMore(cfg, n, r, cleared, entries);
  }

  lemma ToldByStep(cfg: Config, nd: Node, a: Action, n: nat, id: byte, cleared: bool, s: Session)
    requires TableInv(cfg, nd) && Aged(nd, n, id, cleared, s) && Told(cfg, nd, n, cleared, s.retry)
    ensures n < |Step(cfg, nd, a).born|
    ensures Told(cfg, Step(cfg, nd, a), n, cleared || Clears(a, id),
                 if a.Tick? then TickSession(cfg.limits, s, a.ms).0.retry else s.retry)
  {
    if !Pending(nd, n) {
      ToldWhenOver(cfg, nd, a, n, cleared, s.retry, Clears(a, id),
                   if a.Tick? then TickSession(cfg.limits, s, a.ms).0.retry else s.retry);
    } else {
      match a
      case Send(owner, dest, d) => SendAges(cfg, nd, owner, dest, d, n);
      case Receive(src, frame) => if CompleteFrame(frame) { ToldByFrame(cfg, nd, src, frame, n, id, s); }
      case Tick(ms) => ToldByTick(cfg, nd, ms, n, id, s);
    }
  }

  ghost predicate ToldAfter(cfg: Config, before: seq<Action>, owner: nat, dest: Addr, d: ApduData, after: seq<Action>) {
    var n, id := |Run(cfg, before).born|, Submitted(cfg, before, owner, dest, d);
    var nd := Run(cfg, History(before, owner, dest, d, after));
    n < |nd.born| && Told(cfg, nd, n, ClearedIn(after, id), Alone(cfg, id, owner, dest, d, after).retry)
  }

  lemma NothingYet(cfg: Config, actions: seq<Action>, n: nat)
    requires n >= |Run(cfg, actions).born|
    ensures EntriesOf(Run(cfg, actions).log, n) == []
  {
    RunKeepsInv(cfg, actions);
    NoneAbout(Run(cfg, actions).log, n);
  }

  lemma ToldAtFirst(cfg: Config, before: seq<Action>, owner: nat, dest: Addr, d: ApduData)
    requires Submitted(cfg, before, owner, dest, d) != 0
    ensures ToldAfter(cfg, before, owner, dest, d, [])
  {
    HistoryNext(before, owner, dest, d, []);
    AgesAtFirst(cfg, before, owner, dest, d);
    RunNext(cfg, before, Send(owner, dest, d));
    NothingYet(cfg, before, |Run(cfg, before).born|);
  }

  lemma ToldNext(cfg: Config, before: seq<Action>, owner: nat, dest: Addr, d: ApduData, after: seq<Action>)
    requires after != [] && Submitted(cfg, before, owner, dest, d) != 0
    requires ToldAfter(cfg, before, owner, dest, d, after[..|after| - 1])
    ensures ToldAfter(cfg, before, owner, dest, d, after)
  {
    var id, fewer, a := Submitted(cfg, before, owner, dest, d), after[..|after| - 1], after[|after| - 1];
    var past := History(before, owner, dest, d, fewer);
    AgesInRun(cfg, before, owner, dest, d, fewer);
    HistoryNext(before, owner, dest, d, after);
    RunKeepsInv(cfg, past);
    RunNext(cfg, past, a);
    ClearedInNext(after, id);
    AloneNext(cfg, id, owner, dest, d, after);
    ToldByStep(cfg, Run(cfg, past), a, |Run(cfg, before).born|, id, ClearedIn(fewer, id),
               Alone(cfg, id, owner, dest, d, fewer));
  }

  /** The whole story of a request: while it is pending, its log is as many resends of the exact bytes as its
      own clock calls for; once it is over, at most R resends, at most one call, and its end; exactly R
      resends, the timeout call and its end if no frame with its id came. */
  lemma {:induction false} RequestStory(cfg: Config, before: seq<Action>, owner: nat, dest: Addr, d: ApduData,
                                        after: seq<Action>)
    requires Submitted(cfg, before, owner, dest, d) != 0
    ensures ToldAfter(cfg, before, owner, dest, d, after)
    decreases |after|
  {
    if after == [] {
      ToldAtFirst(cfg, before, owner, dest, d);
    } else {
      RequestStory(cfg, before, owner, dest, d, after[..|after| - 1]);
      ToldNext(cfg, before, owner, dest, d, after);
    }
  }
}
