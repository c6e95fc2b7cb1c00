/** The session table of core/session.c as values: 255 slots, an 8-bit id allocator, countdown timers. */
module SessionSpec {
  import opened Words

  const MAX_SESSIONS: nat := 255
  /** MAX_APDU + MAX_NPDU, with MAX_NPDU one more than MAX_APDU. */
  const MAX_PDU: nat := 2049

  /** struct umtp_addr: a length byte and seven address bytes. */
  type Addr = a: seq<byte> | |a| == 8 witness [0, 0, 0, 0, 0, 0, 0, 0]

  /** apdu_timeout and apdu_retry, fixed for a run. */
  datatype Limits = Limits(timeout: word, retries: byte)

  /** One slot: free (id 0), reserved (id set, not waiting), or waiting for a reply. */
  datatype Session = Session(id: byte, waiting: bool, retry: byte, timer: word, notify: bool, owner: nat,
                             dest: Addr, pdu: seq<byte>)

  type Table = t: seq<Session> | |t| == 255 witness seq(255, _ => FREE)

  const FREE: Session := Session(0, false, 0, 0, false, 0, [0, 0, 0, 0, 0, 0, 0, 0], [])

  /** What umtp_session_process does to the outside. */
  datatype Event =
    | Resent(id: byte, owner: nat, dest: Addr, pdu: seq<byte>)
    | Expired(id: byte, notify: bool, dest: Addr, pdu: seq<byte>)

  /** The first slot at or after i that holds this id, or the length. */
  function IndexFrom(t: seq<Session>, id: byte, i: nat): (k: nat)
    requires i <= |t|
    ensures i <= k <= |t|
    ensures k < |t| ==> t[k].id == id
    ensures forall j | i <= j < k :: t[j].id != id
    decreases |t| - i
  {
    if i == |t| || t[i].id == id then i else IndexFrom(t, id, i + 1)
  }

  function IndexOf(t: Table, id: byte): (k: nat) {
    IndexFrom(t, id, 0)
  }

  predicate Used(t: Table, id: byte) {
    IndexOf(t, id) < MAX_SESSIONS
  }

  /** The session a non-zero id names. */
  function Lookup(t: Table, id: byte): Option<Session> {
    if id != 0 && Used(t, id) then Some(t[IndexOf(t, id)]) else None
  }

  /** The finite map the table stands for. */
  ghost function Active(t: Table): map<byte, Session> {
    map id: byte | 1 <= id < 256 && Used(t, id) :: t[IndexOf(t, id)]
  }

  ghost predicate DistinctIds(t: Table) {
    forall i, j | 0 <= i < j < |t| && t[i].id != 0 :: t[i].id != t[j].id
  }

  ghost predicate Consistent(limits: Limits, t: Table) {
    && DistinctIds(t)
    && (forall i | 0 <= i < |t| :: (t[i].waiting ==> t[i].id != 0) && t[i].retry <= limits.retries)
  }

  // ----- the operations

  function Armed(s: Session, limits: Limits, notify: bool, owner: nat, dest: Addr, pdu: seq<byte>): Session {
    s.(waiting := true, retry := 0, timer := limits.timeout, notify := notify, owner := owner, dest := dest,
       pdu := pdu)
  }

  function Set(limits: Limits, t: Table, id: byte, notify: bool, owner: nat, dest: Addr, pdu: seq<byte>): Table {
    if id != 0 && Used(t, id) then
      t[IndexOf(t, id) := Armed(t[IndexOf(t, id)], limits, notify, owner, dest, pdu)]
    else t
  }

  function Released(s: Session): Session {
    s.(waiting := false, id := 0)
  }

  function Clear(t: Table, id: byte): Table {
    if Used(t, id) then t[IndexOf(t, id) := Released(t[IndexOf(t, id)])] else t
  }

  /** One slot's share of umtp_session_process. */
  function TickSession(limits: Limits, s: Session, ms: nat): (Session, seq<Event>) {
    if !s.waiting then (s, [])
    else if s.timer > ms then (s.(timer := s.timer - ms), [])
    else if s.retry < limits.retries then
      (s.(timer := limits.timeout, retry := s.retry + 1), [Resent(s.id, s.owner, s.dest, s.pdu)])
    else (Released(s.(timer := 0)), [Expired(s.id, s.notify, s.dest, s.pdu)])
  }

  function Ticked(limits: Limits, t: Table, ms: nat): Table {
    seq(MAX_SESSIONS, i requires 0 <= i < MAX_SESSIONS => TickSession(limits, t[i], ms).0)
  }

  /** The events of the first n slots, in slot order. */
  function TickEvents(limits: Limits, t: Table, ms: nat, n: nat): seq<Event>
    requires n <= MAX_SESSIONS
  {
    if n == 0 then [] else TickEvents(limits, t, ms, n - 1) + TickSession(limits, t[n - 1], ms).1
  }

  // ----- the allocator

  /** A cursor position: the id the allocator tries next. */
  type Id = x: byte | x != 0 witness 1

  /** The id k places after c on the cycle 1, 2, ..., 255, 1, ... */
  function Cycle(c: Id, k: nat): Id {
    (c - 1 + k) % 255 + 1
  }

  /** How many places after c the first unused id is, counting from k; 255 when there is none. */
  function Probe(t: Table, c: Id, k: nat): (n: nat)
    requires k <= 255
    ensures k <= n <= 255
    ensures forall j | k <= j < n :: Used(t, Cycle(c, j))
    ensures n < 255 ==> !Used(t, Cycle(c, n))
    decreases |t| - k
  {
    if k == 255 || !Used(t, Cycle(c, k)) then k else Probe(t, c, k + 1)
  }

  datatype Sessions = Sessions(slots: Table, cursor: Id)

  datatype Reservation = Reservation(next: Sessions, id: byte)

  /** umtp_free_session: the new state and the id, 0 when every slot is taken. */
  function Reserve(limits: Limits, st: Sessions): Reservation {
    var t := st.slots;
    var n := Probe(t, st.cursor, 0);
    if !Used(t, 0) || n == 255 then Reservation(st, 0)
    else
      var id, k := Cycle(st.cursor, n), IndexOf(t, 0);
      var slot := t[k].(id := id, waiting := false, timer := limits.timeout);
      Reservation(Sessions(t[k := slot], Cycle(id, 1)), id)
  }

  // ----- pigeonhole

  ghost function Ids(t: seq<Session>): set<int> {
    set i | 0 <= i < |t| :: t[i].id
  }

  lemma {:induction false} IdsAtMostSlots(t: seq<Session>)
    ensures |Ids(t)| <= |t|
  {
    if t != [] {
      var rest := t[..|t| - 1];
      IdsAtMostSlots(rest);
      assert Ids(t) == Ids(rest) + {t[|t| - 1].id} by {
        forall x | x in Ids(t)
          ensures x in Ids(rest) + {t[|t| - 1].id}
        {
          var i :| 0 <= i < |t| && t[i].id == x;
          assert i < |rest| ==> rest[i].id == x;
        }
        assert forall i | 0 <= i < |rest| :: rest[i] == t[i];
        assert t[|t| - 1].id in Ids(t);
      }
    }
  }

  ghost function UpTo(n: nat): (r: set<int>)
    ensures forall x :: x in r <==> 1 <= x <= n
    ensures |r| == n
  {
    if n == 0 then {} else UpTo(n - 1) + {n}
  }

  lemma SubsetSize(a: set<int>, b: set<int>)
    requires a <= b
    ensures |a| <= |b|
  {
    assert b == a + (b - a);
  }

  /** With a slot to spare, at most 254 of the 255 non-zero ids are in use. */
  lemma SomeIdUnused(t: Table) returns (id: Id)
    requires Used(t, 0)
    ensures !Used(t, id)
  {
    var all, used := UpTo(|t|), Ids(t) - {0};
    IdsAtMostSlots(t);
    assert t[IndexOf(t, 0)].id in Ids(t);
    assert |used| <= 254;
    if all <= used {
      SubsetSize(all, used);
    }
    var x :| x in all && x !in used;
    id := x;
    assert forall i | 0 <= i < |t| :: t[i].id in Ids(t);
  }

  lemma CycleReaches(c: Id, id: Id)
    ensures 0 <= (id - c) % 255 < 255 && Cycle(c, (id - c) % 255) == id
  {
  }

  lemma CycleAdds(c: Id, m: nat, k: nat)
    ensures Cycle(Cycle(c, m), k) == Cycle(c, m + k)
  {
  }

  lemma ProbeFinds(t: Table, c: Id)
    requires Used(t, 0)
    ensures Probe(t, c, 0) < 255
  {
    var id := SomeIdUnused(t);
    CycleReaches(c, id);
  }

  /** The allocator fails exactly when no slot is free, and otherwise returns the first unused id in
      cyclic order from the cursor, leaving the cursor just past it. */
  lemma ReserveFirstUnused(limits: Limits, st: Sessions)
    ensures var Reservation(st', id) := Reserve(limits, st);
      && (id == 0 <==> forall i | 0 <= i < MAX_SESSIONS :: st.slots[i].id != 0)
      && (id == 0 ==> st' == st)
      && (id != 0 ==>
            && !Used(st.slots, id) && st'.cursor == Cycle(id, 1)
            && exists n | 0 <= n < 255 ::
                 id == Cycle(st.cursor, n) && forall j | 0 <= j < n :: Used(st.slots, Cycle(st.cursor, j)))
  {
    if Used(st.slots, 0) {
      ProbeFinds(st.slots, st.cursor);
      assert st.slots[IndexOf(st.slots, 0)].id == 0;
      var n := Probe(st.slots, st.cursor, 0);
      assert 0 <= n < 255 && Reserve(limits, st).id == Cycle(st.cursor, n);
    }
  }
}
