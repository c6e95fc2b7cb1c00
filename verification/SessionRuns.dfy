/** What holds over whole runs of the session table: who gets resent what, when a session gives up,
    and how long an id rests before it is handed out again. */
module SessionRuns {
  import opened Words
  import opened SessionSpec
  import opened SessionRefinement
  import opened SessionTables

  datatype Op =
    | FreeSession
    | SetSession(id: byte, notify: bool, owner: nat, dest: Addr, pdu: seq<byte>)
    | ClearSession(id: byte)
    | Process(ms: nat)

  function Apply(limits: Limits, st: Sessions, op: Op): Sessions {
    match op
    case FreeSession => Reserve(limits, st).next
    case SetSession(id, notify, owner, dest, pdu) =>
      st.(slots := Set(limits, st.slots, id, notify, owner, dest, pdu))
    case ClearSession(id) => st.(slots := Clear(st.slots, id))
    case Process(ms) => st.(slots := Ticked(limits, st.slots, ms))
  }

  function Emitted(limits: Limits, st: Sessions, op: Op): seq<Event> {
    if op.Process? then TickEvents(limits, st.slots, op.ms, MAX_SESSIONS) else []
  }

  function Run(limits: Limits, st: Sessions, ops: seq<Op>): Sessions
    decreases |ops|
  {
    if ops == [] then st else Run(limits, Apply(limits, st, ops[0]), ops[1..])
  }

  function Events(limits: Limits, st: Sessions, ops: seq<Op>): seq<Event>
    decreases |ops|
  {
    if ops == [] then []
    else Emitted(limits, st, ops[0]) + Events(limits, Apply(limits, st, ops[0]), ops[1..])
  }

  lemma ApplyKeepsConsistent(limits: Limits, st: Sessions, op: Op)
    requires Consistent(limits, st.slots)
    ensures Consistent(limits, Apply(limits, st, op).slots)
  {
    match op
    case FreeSession => ReserveRefines(limits, st);
    case SetSession(id, notify, owner, dest, pdu) => SetRefines(limits, st.slots, id, notify, owner, dest, pdu);
    case ClearSession(id) => ClearRefines(limits, st.slots, id);
    case Process(ms) => TickKeepsConsistent(limits, st.slots, ms);
  }

  /** The table invariant holds in every reachable state. */
  lemma {:induction false} RunKeepsConsistent(limits: Limits, st: Sessions, ops: seq<Op>)
    requires Consistent(limits, st.slots)
    ensures Consistent(limits, Run(limits, st, ops).slots)
    decreases |ops|
  {
    if ops != [] {
      ApplyKeepsConsistent(limits, st, ops[0]);
      RunKeepsConsistent(limits, Apply(limits, st, ops[0]), ops[1..]);
    }
  }

  predicate InRange(op: Op) {
    (op.SetSession? ==> |op.pdu| <= MAX_PDU) && (op.Process? ==> op.ms < 0x1_0000)
  }

  /** The table in memory, put through any script, goes through exactly these states and emits exactly
      these events. */
  method Perform(table: SessionTable, ops: seq<Op>) returns (events: seq<Event>)
    requires table.Valid() && forall op | op in ops :: InRange(op)
    modifies table`counter, table.slots
    ensures table.Valid()
    ensures table.State() == Run(table.limits, old(table.State()), ops)
    ensures events == Events(table.limits, old(table.State()), ops)
    decreases |ops|
  {
    events := [];
    if ops != [] {
      var op, now := ops[0], [];
      assert InRange(op);
      match op {
        case FreeSession =>
          ghost var steps;
          var id;
          id, steps := table.FreeSession();
        case SetSession(id, notify, owner, dest, pdu) => table.Set(id, notify, owner, dest, pdu);
        case ClearSession(id) => table.Clear(id);
        case Process(ms) => now := table.Process(ms);
      }
      var later := Perform(table, ops[1..]);
      events := now + later;
    }
  }

  // ----- one session's life

  /** The state and the events of a single session under a sequence of ticks. */
  function Life(limits: Limits, s: Session, ticks: seq<nat>): (Session, seq<Event>)
    decreases |ticks|
  {
    if ticks == [] then (s, [])
    else
      var (s', now) := TickSession(limits, s, ticks[0]);
      var (s'', later) := Life(limits, s', ticks[1..]);
      (s'', now + later)
  }

  /** One tick more. */
  lemma {:induction false} LifeNext(limits: Limits, s: Session, ticks: seq<nat>, ms: nat)
    ensures Life(limits, s, ticks + [ms]).0 == TickSession(limits, Life(limits, s, ticks).0, ms).0
    decreases |ticks|
  {
    if ticks == [] {
      assert (ticks + [ms])[1..] == [];
    } else {
      assert (ticks + [ms])[1..] == ticks[1..] + [ms];
      LifeNext(limits, TickSession(limits, s, ticks[0]).0, ticks[1..], ms);
    }
  }

  function Repeat<T>(x: T, n: nat): (r: seq<T>)
    ensures |r| == n
  {
    seq(n, _ => x)
  }

  lemma {:induction false} AfterLife(limits: Limits, s: Session, ticks: seq<nat>)
    requires !s.waiting
    ensures Life(limits, s, ticks) == (s, [])
    decreases |ticks|
  {
    if ticks != [] {
      AfterLife(limits, s, ticks[1..]);
      var none: seq<Event> := [];
      assert TickSession(limits, s, ticks[0]) == (s, none);
      assert Life(limits, s, ticks) == (s, none + none);
      assert none + none == none;
    }
  }

  /** A session only ever resends what was stored when it was set, to where it was set to go, and
      ends with at most one expiry, carrying the same bytes. */
  lemma {:induction false} LifeResendsTheOriginal(limits: Limits, s: Session, ticks: seq<nat>)
    requires s.waiting && s.id != 0 && s.retry <= limits.retries
    ensures var (s', events) := Life(limits, s, ticks);
      var resent := Resent(s.id, s.owner, s.dest, s.pdu);
      if s'.waiting then
        s'.id == s.id && s.retry <= s'.retry <= limits.retries && events == Repeat(resent, s'.retry - s.retry)
      else
        s'.id == 0
        && events == Repeat(resent, limits.retries - s.retry) + [Expired(s.id, s.notify, s.dest, s.pdu)]
    decreases |ticks|
  {
    if ticks != [] {
      var s1 := TickSession(limits, s, ticks[0]).0;
      if s1.waiting {
        LifeResendsTheOriginal(limits, s1, ticks[1..]);
      } else {
        AfterLife(limits, s1, ticks[1..]);
      }
    }
  }

  // ----- timing

  function Sum(ticks: seq<nat>): nat {
    if ticks == [] then 0 else ticks[0] + Sum(ticks[1..])
  }

  lemma {:induction false} SumSplit(ticks: seq<nat>, k: nat)
    requires k <= |ticks|
    ensures Sum(ticks) == Sum(ticks[..k]) + Sum(ticks[k..])
  {
    if k > 0 {
      SumSplit(ticks[1..], k - 1);
      assert ticks[..k][1..] == ticks[1..][..k - 1];
    } else {
      assert ticks[..0] == [] && ticks[0..] == ticks;
    }
  }

  function AtLeast1(n: nat): (m: nat)
    ensures m >= 1 && m >= n
  {
    if n == 0 then 1 else n
  }

  function Times(n: nat, t: nat): nat {
    if n == 0 then 0 else Times(n - 1, t) + t
  }

  lemma {:induction false} TimesIsProduct(n: nat, t: nat)
    ensures Times(n, t) == n * t
  {
    if n > 0 {
      TimesIsProduct(n - 1, t);
    }
  }

  /** Timing from any point of a session's life: it cannot have expired before the time left on the
      timer and all remaining periods have passed, and has once each has been overshot by a tick. */
  lemma {:induction false} LifeTiming(limits: Limits, s: Session, ticks: seq<nat>, d: nat)
    requires s.waiting && s.id != 0 && s.retry <= limits.retries
    requires forall k | 0 <= k < |ticks| :: 1 <= ticks[k] <= d
    ensures var left, s' := limits.retries - s.retry, Life(limits, s, ticks).0;
      && (!s'.waiting ==> s.timer + Times(left, limits.timeout) <= Sum(ticks))
      && (s'.waiting ==>
            Sum(ticks) <= AtLeast1(s.timer) - 1 + Times(left, AtLeast1(limits.timeout) + d - 1))
    decreases |ticks|
  {
    if ticks != [] {
      var s1 := TickSession(limits, s, ticks[0]).0;
      if s1.waiting {
        LifeTiming(limits, s1, ticks[1..], d);
      } else {
        AfterLife(limits, s1, ticks[1..]);
      }
    }
  }

  /** Retry timing: a session set with timeout T and limit R that expires on the last of some ticks,
      each of 1 to d milliseconds, was resent exactly R times, and expired after at least (R+1)*T and
      at most (R+1)*(T+d-1) milliseconds. */
  lemma RetryTiming(limits: Limits, s: Session, ticks: seq<nat>, d: nat)
    requires s.waiting && s.id != 0 && s.retry == 0 && s.timer == limits.timeout
    requires forall k | 0 <= k < |ticks| :: 1 <= ticks[k] <= d
    requires ticks != [] && Life(limits, s, ticks[..|ticks| - 1]).0.waiting
    requires !Life(limits, s, ticks).0.waiting
    ensures Life(limits, s, ticks).1
         == Repeat(Resent(s.id, s.owner, s.dest, s.pdu), limits.retries) + [Expired(s.id, s.notify, s.dest, s.pdu)]
    ensures (limits.retries + 1) * limits.timeout <= Sum(ticks)
    ensures Sum(ticks) <= (limits.retries + 1) * (AtLeast1(limits.timeout) + d - 1)
  {
    var n: nat, r: nat := |ticks| - 1, limits.retries;
    LifeResendsTheOriginal(limits, s, ticks);
    LifeTiming(limits, s, ticks, d);
    LifeTiming(limits, s, ticks[..n], d);
    SumSplit(ticks, n);
    assert Sum([ticks[n]]) == ticks[n] && ticks[n..] == [ticks[n]];
    TimesIsProduct(r + 1, limits.timeout);
    TimesIsProduct(r + 1, AtLeast1(limits.timeout) + d - 1);
  }

  function Ceil(a: nat, d: nat): nat
    requires d > 0
  {
    (a + d - 1) / d
  }

  lemma CeilStep(a: nat, d: nat)
    requires d > 0
    ensures 0 < a <= d ==> Ceil(a, d) == 1
    ensures a > d ==> Ceil(a, d) == Ceil(a - d, d) + 1
  {
    if 0 < a <= d {
      assert a + d - 1 == 1 * d + (a - 1);
      QuotientUnique(a + d - 1, 1, a - 1, d);
    } else if a > d {
      var q, r := (a - 1) / d, (a - 1) % d;
      assert a - 1 == q * d + r;
      assert a + d - 1 == (q + 1) * d + r;
      QuotientUnique(a + d - 1, q + 1, r, d);
    }
  }

  lemma QuotientUnique(a: int, q: int, r: int, c: nat)
    requires c > 0 && a == q * c + r && 0 <= r < c
    ensures a / c == q
  {
    ModUnique(a, q, r, c);
    assert a == (a / c) * c + r;
    SmallMultiple(q - a / c, c);
  }

  lemma {:induction false} ConstantTicks(limits: Limits, s: Session, d: nat, n: nat)
    requires s.waiting && s.id != 0 && s.retry <= limits.retries && d > 0
    ensures Life(limits, s, Repeat(d, n)).0.waiting
       <==> n < Ceil(AtLeast1(s.timer), d) + Times(limits.retries - s.retry, Ceil(AtLeast1(limits.timeout), d))
    decreases n
  {
    CeilStep(AtLeast1(s.timer), d);
    if n > 0 {
      assert Repeat(d, n)[1..] == Repeat(d, n - 1);
      var s1 := TickSession(limits, s, d).0;
      if s1.waiting {
        ConstantTicks(limits, s1, d, n - 1);
      } else {
        AfterLife(limits, s1, Repeat(d, n - 1));
      }
    }
  }

  /** Under a constant tick d the session expires on tick number (R+1)*ceil(T/d), not before, not after. */
  lemma ConstantTickTiming(limits: Limits, s: Session, d: nat, n: nat)
    requires s.waiting && s.id != 0 && s.retry == 0 && s.timer == limits.timeout && d > 0
    ensures Life(limits, s, Repeat(d, n)).0.waiting <==> n < (limits.retries + 1) * Ceil(AtLeast1(limits.timeout), d)
  {
    var r: nat := limits.retries;
    ConstantTicks(limits, s, d, n);
    TimesIsProduct(r + 1, Ceil(AtLeast1(limits.timeout), d));
  }

  // ----- a session among others

  predicate Names(op: Op, id: byte) {
    (op.SetSession? || op.ClearSession?) && op.id == id
  }

  function Ticks(ops: seq<Op>): seq<nat> {
    if ops == [] then []
    else (if ops[0].Process? then [ops[0].ms] else []) + Ticks(ops[1..])
  }

  /** The events that concern one id, in order. */
  function About(events: seq<Event>, id: byte): seq<Event> {
    if events == [] then []
    else (if events[0].id == id then [events[0]] else []) + About(events[1..], id)
  }

  lemma {:induction false} AboutAppend(a: seq<Event>, b: seq<Event>, id: byte)
    ensures About(a + b, id) == About(a, id) + About(b, id)
  {
    if a == [] {
      assert a + b == b;
    } else {
      AboutAppend(a[1..], b, id);
      assert (a + b)[0] == a[0] && (a + b)[1..] == a[1..] + b;
      var first := if a[0].id == id then [a[0]] else [];
      assert first + (About(a[1..], id) + About(b, id)) == (first + About(a[1..], id)) + About(b, id);
    }
  }

  lemma TickAbout(limits: Limits, s: Session, ms: nat, id: byte)
    ensures About(TickSession(limits, s, ms).1, id) == if s.id == id then TickSession(limits, s, ms).1 else []
  {
    var events := TickSession(limits, s, ms).1;
    if events != [] {
      assert events[1..] == [] && events == [events[0]];
    }
  }

  lemma {:induction false} TickEventsSilent(limits: Limits, t: Table, ms: nat, n: nat, id: byte)
    requires n <= MAX_SESSIONS && forall j | 0 <= j < n :: t[j].id != id
    ensures About(TickEvents(limits, t, ms, n), id) == []
    decreases n
  {
    if n > 0 {
      TickEventsSilent(limits, t, ms, n - 1, id);
      AboutAppend(TickEvents(limits, t, ms, n - 1), TickSession(limits, t[n - 1], ms).1, id);
      TickAbout(limits, t[n - 1], ms, id);
    }
  }

  /** Of a tick's events, those about the session in slot i are its own. */
  lemma {:induction false} TickEventsAbout(limits: Limits, t: Table, ms: nat, n: nat, i: nat)
    requires i < n <= MAX_SESSIONS && forall j | 0 <= j < n && j != i :: t[j].id != t[i].id
    ensures About(TickEvents(limits, t, ms, n), t[i].id) == TickSession(limits, t[i], ms).1
    decreases n
  {
    var id, now := t[i].id, TickSession(limits, t[n - 1], ms).1;
    AboutAppend(TickEvents(limits, t, ms, n - 1), now, id);
    TickAbout(limits, t[n - 1], ms, id);
    if i == n - 1 {
      TickEventsSilent(limits, t, ms, n - 1, id);
      assert [] + now == now;
    } else {
      TickEventsAbout(limits, t, ms, n - 1, i);
    }
  }

  lemma EmittedAbout(limits: Limits, st: Sessions, op: Op, id: Id)
    requires Consistent(limits, st.slots)
    ensures About(Emitted(limits, st, op), id)
         == match Lookup(st.slots, id)
            case None => []
            case Some(s) => if op.Process? then TickSession(limits, s, op.ms).1 else []
  {
    if op.Process? {
      if Used(st.slots, id) {
        TickEventsAbout(limits, st.slots, op.ms, MAX_SESSIONS, IndexOf(st.slots, id));
      } else {
        TickEventsSilent(limits, st.slots, op.ms, MAX_SESSIONS, id);
      }
    }
  }

  /** Operations on other sessions leave a session alone. */
  lemma LookupAfterApply(limits: Limits, st: Sessions, op: Op, id: Id)
    requires Consistent(limits, st.slots) && !Names(op, id)
    ensures var after := Lookup(Apply(limits, st, op).slots, id);
      match Lookup(st.slots, id)
      case None => after.Some? ==> !after.value.waiting
      case Some(s) => after == if op.Process? then Survivor(limits, s, op.ms) else Some(s)
  {
    var t := st.slots;
    ActiveLookup(t, id);
    ActiveLookup(Apply(limits, st, op).slots, id);
    match op
    case FreeSession => ReserveRefines(limits, st);
    case SetSession(x, notify, owner, dest, pdu) => SetRefines(limits, t, x, notify, owner, dest, pdu);
    case ClearSession(x) => ClearRefines(limits, t, x);
    case Process(ms) => LookupAfterTick(limits, t, ms, id);
  }

  lemma {:induction false} IdleIdIsSilent(limits: Limits, st: Sessions, ops: seq<Op>, id: Id)
    requires Consistent(limits, st.slots)
    requires forall k | 0 <= k < |ops| :: !Names(ops[k], id)
    requires Lookup(st.slots, id).Some? ==> !Lookup(st.slots, id).value.waiting
    ensures About(Events(limits, st, ops), id) == []
    decreases |ops|
  {
    if ops != [] {
      var st' := Apply(limits, st, ops[0]);
      EmittedAbout(limits, st, ops[0], id);
      LookupAfterApply(limits, st, ops[0], id);
      ApplyKeepsConsistent(limits, st, ops[0]);
      IdleIdIsSilent(limits, st', ops[1..], id);
      AboutAppend(Emitted(limits, st, ops[0]), Events(limits, st', ops[1..]), id);
    }
  }

  /** A cleared id is out of the table, and nothing is heard of it until it is set again. */
  lemma ClearSilences(limits: Limits, st: Sessions, id: Id, ops: seq<Op>)
    requires Consistent(limits, st.slots) && forall k | 0 <= k < |ops| :: !Names(ops[k], id)
    ensures var st' := Apply(limits, st, ClearSession(id));
      && Lookup(st'.slots, id) == None && About(Events(limits, st', ops), id) == []
      && forall x: Id | x != id :: Lookup(st'.slots, x) == Lookup(st.slots, x)
  {
    var st' := Apply(limits, st, ClearSession(id));
    ClearRefines(limits, st.slots, id);
    ActiveLookup(st'.slots, id);
    forall x: Id | x != id
      ensures Lookup(st'.slots, x) == Lookup(st.slots, x)
    {
      ActiveLookup(st.slots, x);
      ActiveLookup(st'.slots, x);
    }
    IdleIdIsSilent(limits, st', ops, id);
  }

  lemma FirstTick(limits: Limits, s: Session, op: Op, ops: seq<Op>)
    ensures var all := [op] + ops;
      if op.Process? then
        Ticks(all) == [op.ms] + Ticks(ops)
        && Life(limits, s, Ticks(all)).1
           == TickSession(limits, s, op.ms).1 + Life(limits, TickSession(limits, s, op.ms).0, Ticks(ops)).1
      else Ticks(all) == Ticks(ops)
  {
    var all := [op] + ops;
    assert all[1..] == ops;
    if op.Process? {
      assert Ticks(all)[1..] == Ticks(ops);
    }
  }

  /** Whatever happens to other sessions in between, a waiting session's resends and expiry are those
      of its own life under the run's ticks: with LifeResendsTheOriginal, every resend of a run goes
      to the destination and carries the bytes stored when the session was set. */
  lemma {:induction false} LifeWithinRun(limits: Limits, st: Sessions, ops: seq<Op>, id: Id)
    requires Consistent(limits, st.slots)
    requires forall k | 0 <= k < |ops| :: !Names(ops[k], id)
    requires Lookup(st.slots, id).Some? && Lookup(st.slots, id).value.waiting
    ensures About(Events(limits, st, ops), id) == Life(limits, Lookup(st.slots, id).value, Ticks(ops)).1
    decreases |ops|
  {
    if ops != [] {
      var op, s := ops[0], Lookup(st.slots, id).value;
      var st' := Apply(limits, st, op);
      EmittedAbout(limits, st, op, id);
      LookupAfterApply(limits, st, op, id);
      ApplyKeepsConsistent(limits, st, op);
      AboutAppend(Emitted(limits, st, op), Events(limits, st', ops[1..]), id);
      if op.Process? && !TickSession(limits, s, op.ms).0.waiting {
        IdleIdIsSilent(limits, st', ops[1..], id);
        AfterLife(limits, TickSession(limits, s, op.ms).0, Ticks(ops[1..]));
      } else {
        LifeWithinRun(limits, st', ops[1..], id);
      }
      FirstTick(limits, s, op, ops[1..]);
      assert ops == [op] + ops[1..];
    }
  }

  lemma LookupAfterSet(limits: Limits, st: Sessions, id: Id, notify: bool, owner: nat, dest: Addr, pdu: seq<byte>)
    requires Consistent(limits, st.slots) && Lookup(st.slots, id).Some?
    ensures var t := Set(limits, st.slots, id, notify, owner, dest, pdu);
      && Consistent(limits, t)
      && Lookup(t, id) == Some(Session(id, true, 0, limits.timeout, notify, owner, dest, pdu))
  {
    SetRefines(limits, st.slots, id, notify, owner, dest, pdu);
    ActiveLookup(st.slots, id);
    ActiveLookup(Set(limits, st.slots, id, notify, owner, dest, pdu), id);
  }

  ghost predicate HasExpired(events: seq<Event>) {
    events != [] && events[|events| - 1].Expired?
  }

  /** No session expires before Soonest, nor waits as long as Latest under ticks of at most d. */
  function Soonest(limits: Limits): nat {
    (limits.retries + 1) * limits.timeout
  }

  function Latest(limits: Limits, d: nat): nat
    requires d >= 1
  {
    (limits.retries + 1) * (AtLeast1(limits.timeout) + d - 1)
  }

  /** The events of a session that was s when set, elapsed milliseconds ago. */
  ghost predicate Story(limits: Limits, s: Session, elapsed: nat, d: nat, events: seq<Event>)
    requires d >= 1
  {
    var resent := Resent(s.id, s.owner, s.dest, s.pdu);
    if HasExpired(events) then
      Soonest(limits) <= elapsed
      && events == Repeat(resent, limits.retries) + [Expired(s.id, s.notify, s.dest, s.pdu)]
    else
      elapsed < Latest(limits, d)
      && |events| <= limits.retries && events == Repeat(resent, |events|)
  }

  lemma BoundsAreProducts(limits: Limits, d: nat)
    requires d >= 1
    ensures Soonest(limits) == Times(limits.retries + 1, limits.timeout)
    ensures Latest(limits, d) == Times(limits.retries + 1, AtLeast1(limits.timeout) + d - 1)
  {
    TimesIsProduct(limits.retries + 1, limits.timeout);
    TimesIsProduct(limits.retries + 1, AtLeast1(limits.timeout) + d - 1);
  }

  lemma LifeBounds(limits: Limits, s: Session, ticks: seq<nat>, d: nat)
    requires s.waiting && s.id != 0 && s.retry == 0 && s.timer == limits.timeout
    requires d >= 1 && forall k | 0 <= k < |ticks| :: 1 <= ticks[k] <= d
    ensures if Life(limits, s, ticks).0.waiting then Sum(ticks) < Latest(limits, d) else Soonest(limits) <= Sum(ticks)
  {
    BoundsAreProducts(limits, d);
    LifeTiming(limits, s, ticks, d);
  }

  lemma LifeStory(limits: Limits, s: Session, ticks: seq<nat>, d: nat)
    requires s.waiting && s.id != 0 && s.retry == 0 && s.timer == limits.timeout
    requires d >= 1 && forall k | 0 <= k < |ticks| :: 1 <= ticks[k] <= d
    ensures Story(limits, s, Sum(ticks), d, Life(limits, s, ticks).1)
  {
    var (s', events) := Life(limits, s, ticks);
    LifeBounds(limits, s, ticks, d);
    LifeResendsTheOriginal(limits, s, ticks);
    if s'.waiting {
      assert events == Repeat(Resent(s.id, s.owner, s.dest, s.pdu), s'.retry);
    } else {
      assert events[|events| - 1] == Expired(s.id, s.notify, s.dest, s.pdu);
    }
  }

  /** The whole story of a request, in a run where anything happens to other sessions: from the moment it
      is set, it is resent at most R times, each time the bytes set to the destination set; it expires
      only after R resends, with the same bytes, not before (R+1)*T milliseconds, and by the time
      (R+1)*(max(T,1)+d-1) have passed if no tick exceeds d. */
  lemma SetSessionInRun(limits: Limits, st: Sessions, id: Id, notify: bool, owner: nat, dest: Addr, pdu: seq<byte>,
                        ops: seq<Op>, d: nat)
    requires Consistent(limits, st.slots) && Lookup(st.slots, id).Some?
    requires forall k | 0 <= k < |ops| :: !Names(ops[k], id)
    requires d >= 1 && forall k | 0 <= k < |Ticks(ops)| :: 1 <= Ticks(ops)[k] <= d
    ensures var st' := Apply(limits, st, SetSession(id, notify, owner, dest, pdu));
      Story(limits, Session(id, true, 0, limits.timeout, notify, owner, dest, pdu), Sum(Ticks(ops)), d,
            About(Events(limits, st', ops), id))
  {
    var st' := Apply(limits, st, SetSession(id, notify, owner, dest, pdu));
    var s := Session(id, true, 0, limits.timeout, notify, owner, dest, pdu);
    LookupAfterSet(limits, st, id, notify, owner, dest, pdu);
    LifeWithinRun(limits, st', ops, id);
    LifeStory(limits, s, Ticks(ops), d);
  }

  // ----- delayed reuse

  /** How many ids an operation's allocation looks at, the last of which it hands out. */
  function Stride(st: Sessions, op: Op): nat {
    if op.FreeSession? && Used(st.slots, 0) then Probe(st.slots, st.cursor, 0) + 1 else 0
  }

  ghost predicate Visits(st: Sessions, op: Op, b: Id) {
    exists j :: 0 <= j < Stride(st, op) && Cycle(st.cursor, j) == b
  }

  /** A visited id was either in use or is the one handed out. */
  lemma VisitedIdTakenOrHandedOut(limits: Limits, st: Sessions, op: Op, b: Id)
    requires Visits(st, op, b)
    ensures Used(st.slots, b) || HandsOut(limits, st, op, b)
  {
    ProbeFinds(st.slots, st.cursor);
  }

  predicate HandsOut(limits: Limits, st: Sessions, op: Op, a: Id) {
    op.FreeSession? && Reserve(limits, st).id == a
  }

  /** Some allocation of the run visits b. */
  ghost predicate VisitedDuring(limits: Limits, st: Sessions, ops: seq<Op>, b: Id)
    decreases |ops|
  {
    ops != [] && (Visits(st, ops[0], b) || VisitedDuring(limits, Apply(limits, st, ops[0]), ops[1..], b))
  }

  /** The run's last operation hands out a. */
  ghost predicate EndsHandingOut(limits: Limits, st: Sessions, ops: seq<Op>, a: Id)
    decreases |ops|
  {
    && ops != []
    && if |ops| == 1 then HandsOut(limits, st, ops[0], a)
       else EndsHandingOut(limits, Apply(limits, st, ops[0]), ops[1..], a)
  }

  lemma {:induction false} EndsHandingOutIff(limits: Limits, st: Sessions, ops: seq<Op>, a: Id)
    requires ops != []
    ensures EndsHandingOut(limits, st, ops, a)
       <==> HandsOut(limits, Run(limits, st, ops[..|ops| - 1]), ops[|ops| - 1], a)
    decreases |ops|
  {
    var before := ops[..|ops| - 1];
    if |ops| == 1 {
      assert before == [];
    } else {
      assert before[0] == ops[0] && before[1..] == ops[1..][..|ops| - 2];
      EndsHandingOutIff(limits, Apply(limits, st, ops[0]), ops[1..], a);
    }
  }

  /** From m places past a, an operation moves the cursor by its stride. */
  lemma CursorMoves(limits: Limits, st: Sessions, op: Op, a: Id, m: nat)
    requires st.cursor == Cycle(a, m)
    ensures Apply(limits, st, op).cursor == Cycle(a, m + Stride(st, op))
  {
    var n := Stride(st, op);
    if n > 0 {
      ProbeFinds(st.slots, st.cursor);
      CycleAdds(a, m, n - 1);
      CycleAdds(a, m + n - 1, 1);
    }
  }

  /** It does not hand out a before the cursor has passed the other ids. */
  lemma NotHandedOutYet(limits: Limits, st: Sessions, op: Op, a: Id, m: nat)
    requires st.cursor == Cycle(a, m) && 1 <= m && m + Stride(st, op) <= 254
    ensures !HandsOut(limits, st, op, a)
  {
    var n := Stride(st, op);
    if n > 0 {
      ProbeFinds(st.slots, st.cursor);
      CycleAdds(a, m, n - 1);
      CycleInjective(a, m + n - 1);
    }
  }

  lemma PassedIsVisited(st: Sessions, op: Op, a: Id, m: nat, k: nat)
    requires st.cursor == Cycle(a, m) && m <= k < m + Stride(st, op)
    ensures Visits(st, op, Cycle(a, k))
  {
    CycleAdds(a, m, k - m);
  }

  /** The cursor is m places past a; the id k places past a is still ahead; the run ends handing out a. */
  lemma {:induction false} CursorPassesEveryId(limits: Limits, st: Sessions, ops: seq<Op>, a: Id, m: nat, k: nat)
    requires 1 <= m <= k <= 254 && st.cursor == Cycle(a, m)
    requires EndsHandingOut(limits, st, ops, a)
    ensures VisitedDuring(limits, st, ops, Cycle(a, k))
    decreases |ops|
  {
    var n := Stride(st, ops[0]);
    if k < m + n {
      PassedIsVisited(st, ops[0], a, m, k);
    } else {
      CursorMoves(limits, st, ops[0], a, m);
      NotHandedOutYet(limits, st, ops[0], a, m);
      CursorPassesEveryId(limits, Apply(limits, st, ops[0]), ops[1..], a, m + n, k);
    }
  }

  lemma CycleInjective(a: Id, k: nat)
    requires 1 <= k <= 254
    ensures Cycle(a, k) != a
  {
  }

  lemma CycleBetween(a: Id, b: Id)
    requires a != b
    ensures 1 <= (b - a) % 255 <= 254 && Cycle(a, (b - a) % 255) == b
  {
    CycleReaches(a, b);
  }

  lemma CursorPastHandedOut(limits: Limits, st: Sessions, op: Op, a: Id)
    requires HandsOut(limits, st, op, a)
    ensures Apply(limits, st, op).cursor == Cycle(a, 1)
  {
  }

  /** Delayed reuse: between handing out a and handing it out again, the allocator visits every other
      id, and each was in use or handed out when visited. */
  lemma DelayedReuse(limits: Limits, st: Sessions, ops: seq<Op>, a: Id, b: Id)
    requires a != b && |ops| >= 2
    requires HandsOut(limits, st, ops[0], a)
    requires var last := |ops| - 1;
      HandsOut(limits, Run(limits, st, ops[..last]), ops[last], a)
    ensures VisitedDuring(limits, Apply(limits, st, ops[0]), ops[1..], b)
  {
    CursorPastHandedOut(limits, st, ops[0], a);
    CycleBetween(a, b);
    var rest := ops[1..];
    assert rest[..|rest| - 1] == ops[..|ops| - 1][1..];
    EndsHandingOutIff(limits, Apply(limits, st, ops[0]), rest, a);
    CursorPassesEveryId(limits, Apply(limits, st, ops[0]), rest, a, 1, (b - a) % 255);
  }
}
