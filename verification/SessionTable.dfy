/** core/session.c: the table updated in place, proved against SessionSpec. */
module SessionTables {
  import opened Words
  import opened SessionSpec

  type int32 = x: int | -0x8000_0000 <= x < 0x8000_0000 witness 0

  /** session_id++ and its reset when it reads 0; two's complement at the int limit. */
  function NextCounter(c: int32): int32 {
    var n := if c == 0x7FFF_FFFF then -0x8000_0000 else c + 1;
    if n == 0 then 1 else n
  }

  function Advanced(c: int32, steps: nat): int32 {
    if steps == 0 then c else NextCounter(Advanced(c, steps - 1))
  }

  /** The id a lookup truncates the counter to, and the cursor it amounts to: a truncation to 0
      always finds a free slot and moves on to 1. */
  function Truncated(c: int32): byte { c % 256 }

  function CursorOf(c: int32): Id {
    if Truncated(c) == 0 then 1 else Truncated(c)
  }

  lemma NextCounterMovesCursor(c: int32)
    ensures Truncated(c) == 0 ==> Truncated(NextCounter(c)) == 1
    ensures Truncated(c) != 0 ==> CursorOf(NextCounter(c)) == Cycle(CursorOf(c), 1)
    ensures Truncated(NextCounter(c)) == 0 ==> Truncated(c) == 255
  {
    var r := c % 256;
    assert c == 256 * (c / 256) + r;
    if r == 255 {
      ModUnique(c + 1, c / 256 + 1, 0, 256);
    } else {
      ModUnique(c + 1, c / 256, r + 1, 256);
    }
  }

  /** A search that began at counter value first has passed k non-zero ids and the value 0, modulo
      256, zeros times; it meets 0 again only after a full turn of the cycle. */
  ghost predicate Searching(first: int32, c: int32, k: nat, zeros: nat) {
    && CursorOf(c) == Cycle(CursorOf(first), k)
    && zeros + IsZero(c) <= (CursorOf(first) + k - 1) / 255 + IsZero(first)
  }

  function IsZero(c: int32): nat {
    if Truncated(c) == 0 then 1 else 0
  }

  lemma SearchStep(first: int32, c: int32, k: nat, zeros: nat)
    requires Searching(first, c, k, zeros)
    ensures Truncated(c) == 0 ==> Searching(first, NextCounter(c), k, zeros + 1)
    ensures Truncated(c) != 0 ==> Searching(first, NextCounter(c), k + 1, zeros)
  {
    NextCounterMovesCursor(c);
    CycleAdds(CursorOf(first), k, 1);
    var turn: int := CursorOf(first) + k - 1;
    if Truncated(c) == 255 {
      assert turn % 255 == 254;
      assert (turn + 1) / 255 == turn / 255 + 1;
    }
  }

  lemma SearchBounded(first: int32, c: int32, k: nat, zeros: nat)
    requires Searching(first, c, k, zeros) && k < 255
    ensures k + zeros <= 255
  {
    var turn: int := CursorOf(first) + k - 1;
    assert turn / 255 <= 1 && (turn < 255 ==> turn / 255 == 0);
  }

  ghost predicate AllUsed(t: Table, c: Id, n: nat) {
    forall j | 0 <= j < n :: Used(t, Cycle(c, j))
  }

  /** What the search looks at next, and how it gets there. */
  lemma SearchGoesOn(first: int32, k: nat, zeros: nat)
    requires Searching(first, Advanced(first, k + zeros), k, zeros) && k < 255
    ensures k + zeros <= 255
    ensures var c, next := Advanced(first, k + zeros), Advanced(first, k + zeros + 1);
      if Truncated(c) == 0 then Searching(first, next, k, zeros + 1) && Truncated(next) != 0
      else Searching(first, next, k + 1, zeros) && Truncated(c) == Cycle(CursorOf(first), k)
  {
    var c := Advanced(first, k + zeros);
    SearchStep(first, c, k, zeros);
    SearchBounded(first, c, k, zeros);
    NextCounterMovesCursor(c);
    assert Advanced(first, k + zeros + 1) == NextCounter(c);
  }

  /** The search meets the first unused id, goal places after its cursor, within 255 counter steps. */
  lemma {:induction false} SearchMeets(t: Table, first: int32, goal: nat, k: nat, zeros: nat) returns (m: nat)
    requires Used(t, 0) && k <= goal < 255
    requires AllUsed(t, CursorOf(first), goal) && !Used(t, Cycle(CursorOf(first), goal))
    requires Searching(first, Advanced(first, k + zeros), k, zeros)
    ensures k + zeros <= m <= 255
    ensures Truncated(Advanced(first, m)) == Cycle(CursorOf(first), goal)
    ensures forall j | k + zeros <= j < m :: Used(t, Truncated(Advanced(first, j)))
    decreases goal - k, IsZero(Advanced(first, k + zeros))
  {
    SearchGoesOn(first, k, zeros);
    m := k + zeros;
    var c := Advanced(first, m);
    if Truncated(c) == 0 {
      assert k + (zeros + 1) == m + 1;
      m := SearchMeets(t, first, goal, k, zeros + 1);
    } else if k < goal {
      assert (k + 1) + zeros == m + 1;
      m := SearchMeets(t, first, goal, k + 1, zeros);
    }
  }

  class SessionTable {
    const limits: Limits
    const slots: array<Session>
    var counter: int32

    ghost predicate Valid()
      reads this, slots
    {
      slots.Length == MAX_SESSIONS
    }

    ghost function Slots(): Table
      requires Valid()
      reads this, slots
    {
      slots[..]
    }

    ghost function State(): Sessions
      requires Valid()
      reads this, slots
    {
      Sessions(Slots(), CursorOf(counter))
    }

    constructor (limits: Limits)
      ensures Valid() && fresh(slots)
      ensures State() == Sessions(seq(MAX_SESSIONS, _ => FREE), 1)
      ensures this.limits == limits
    {
      this.limits := limits;
      slots := new Session[MAX_SESSIONS](_ => FREE);
      counter := 1;
      new;
      assert slots[..] == seq(MAX_SESSIONS, _ => FREE);
    }

    method GetIndex(id: byte) returns (idx: byte)
      requires Valid()
      ensures idx == IndexOf(Slots(), id)
    {
      for i := 0 to MAX_SESSIONS
        invariant IndexOf(Slots(), id) == IndexFrom(Slots(), id, i)
      {
        if slots[i].id == id {
          return i;
        }
      }
      idx := MAX_SESSIONS;
    }

    /** The body of the allocator's success branch: the counter's value names the first free slot. */
    method Claim(ghost cursor: Id) returns (id: byte)
      requires Valid() && Used(Slots(), 0) && !Used(Slots(), Truncated(counter))
      requires Truncated(counter) == Cycle(cursor, Probe(Slots(), cursor, 0))
      modifies this`counter, slots
      ensures Valid() && counter == NextCounter(old(counter))
      ensures Reservation(State(), id) == Reserve(limits, Sessions(old(Slots()), cursor))
    {
      ProbeFinds(Slots(), cursor);
      NextCounterMovesCursor(counter);
      id := 0;
      var idx := GetIndex(0);
      if idx != MAX_SESSIONS {
        id := Truncated(counter);
        slots[idx] := slots[idx].(id := id, waiting := false, timer := limits.timeout);
        counter := NextCounter(counter);
      }
    }

    /** The allocator's search loop: at most 255 counter steps to the first unused id. */
    method FindUnused() returns (ghost steps: nat)
      requires Valid() && Used(Slots(), 0)
      modifies `counter
      ensures var c0 := CursorOf(old(counter));
        Truncated(counter) == Cycle(c0, Probe(Slots(), c0, 0)) && !Used(Slots(), Truncated(counter))
      ensures steps <= 255 && counter == Advanced(old(counter), steps)
    {
      ghost var first, c0 := counter, CursorOf(counter);
      ProbeFinds(Slots(), c0);
      ghost var m := SearchMeets(Slots(), first, Probe(Slots(), c0, 0), 0, 0);
      steps := 0;
      var idx := GetIndex(Truncated(counter));
      while idx != MAX_SESSIONS
        invariant counter == Advanced(first, steps) && steps <= m
        invariant idx == IndexOf(Slots(), Truncated(counter))
        decreases m - steps
      {
        counter := NextCounter(counter);
        steps := steps + 1;
        idx := GetIndex(Truncated(counter));
      }
    }

    /** umtp_free_session. It returns within 256 counter steps: of the 255 non-zero ids at most 254 are
        in use. */
    method FreeSession() returns (id: byte, ghost steps: nat)
      requires Valid()
      modifies `counter, slots
      ensures Valid()
      ensures Reservation(State(), id) == Reserve(limits, old(State()))
      ensures steps <= 256 && counter == Advanced(old(counter), steps)
    {
      id, steps := 0, 0;
      var free := GetIndex(0);
      if free == MAX_SESSIONS {
        return;
      }
      ghost var cursor := CursorOf(counter);
      steps := FindUnused();
      id := Claim(cursor);
      steps := steps + 1;
    }

    method Set(id: byte, notify: bool, owner: nat, dest: Addr, pdu: seq<byte>)
      requires Valid() && |pdu| <= MAX_PDU
      modifies slots
      ensures Valid()
      ensures Slots() == SessionSpec.Set(limits, old(Slots()), id, notify, owner, dest, pdu)
    {
      if id == 0 {
        return;
      }
      var idx := GetIndex(id);
      if idx == MAX_SESSIONS {
        return;
      }
      slots[idx] := Armed(slots[idx], limits, notify, owner, dest, pdu);
    }

    /** umtp_get_session and umtp_session_get: the slot an id names, if any. */
    method Get(id: byte) returns (s: Option<Session>)
      requires Valid()
      ensures s == Lookup(Slots(), id)
    {
      if id == 0 {
        return None;
      }
      var idx := GetIndex(id);
      if idx == MAX_SESSIONS {
        return None;
      }
      s := Some(slots[idx]);
    }

    /** The events are the calls of npdu_send and of the timeout callback, in order. */
    method Process(ms: nat) returns (events: seq<Event>)
      requires Valid() && ms < 0x1_0000
      modifies slots
      ensures Valid()
      ensures Slots() == Ticked(limits, old(Slots()), ms)
      ensures events == TickEvents(limits, old(Slots()), ms, MAX_SESSIONS)
    {
      events := [];
      for i := 0 to MAX_SESSIONS
        invariant forall j | 0 <= j < i :: slots[j] == TickSession(limits, old(slots[..])[j], ms).0
        invariant forall j | i <= j < MAX_SESSIONS :: slots[j] == old(slots[..])[j]
        invariant events == TickEvents(limits, old(Slots()), ms, i)
      {
        if !slots[i].waiting {
          assert TickSession(limits, slots[i], ms) == (slots[i], []);
          continue;
        }
        if slots[i].timer > ms {
          slots[i] := slots[i].(timer := slots[i].timer - ms);
        } else {
          slots[i] := slots[i].(timer := 0);
        }
        if slots[i].timer == 0 {
          if slots[i].retry < limits.retries {
            slots[i] := slots[i].(timer := limits.timeout, retry := slots[i].retry + 1);
            events := events + [Resent(slots[i].id, slots[i].owner, slots[i].dest, slots[i].pdu)];
          } else {
            events := events + [Expired(slots[i].id, slots[i].notify, slots[i].dest, slots[i].pdu)];
            slots[i] := Released(slots[i]);
          }
        }
      }
      assert Slots() == Ticked(limits, old(Slots()), ms);
    }

    method Clear(id: byte)
      requires Valid()
      modifies slots
      ensures Valid()
      ensures Slots() == SessionSpec.Clear(old(Slots()), id)
    {
      var idx := GetIndex(id);
      if idx < MAX_SESSIONS {
        slots[idx] := Released(slots[idx]);
      }
    }
  }
}
