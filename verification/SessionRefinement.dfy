/** The session table refines a finite map from ids to sessions, and every operation keeps it consistent. */
module SessionRefinement {
  import opened Words
  import opened SessionSpec

  lemma LookupAt(t: Table, i: nat)
    requires DistinctIds(t) && i < |t| && t[i].id != 0
    ensures IndexOf(t, t[i].id) == i && Lookup(t, t[i].id) == Some(t[i])
  {
  }

  /** Replacing one slot changes the map at the slot's old and new id only. */
  lemma LookupAfterUpdate(t: Table, i: nat, s: Session, id: Id)
    requires DistinctIds(t) && i < |t|
    requires s.id == 0 || s.id == t[i].id || !Used(t, s.id)
    ensures DistinctIds(t[i := s])
    ensures Lookup(t[i := s], id)
         == if s.id == id then Some(s) else if t[i].id == id then None else Lookup(t, id)
  {
    var t' := t[i := s];
    assert s.id != 0 && s.id != t[i].id ==> forall j | 0 <= j < |t| :: t[j].id != s.id;
    if s.id == id {
      LookupAt(t', i);
    } else if t[i].id != id && Used(t, id) {
      assert t'[IndexOf(t, id)] == t[IndexOf(t, id)];
      LookupAt(t', IndexOf(t, id));
    } else {
      assert forall j | 0 <= j < |t| :: t'[j].id != id;
    }
  }

  lemma ActiveIs(t: Table, m: map<byte, Session>)
    requires 0 !in m
    requires forall id: Id :: Lookup(t, id) == if id in m then Some(m[id]) else None
    ensures Active(t) == m
  {
    forall id: byte
      ensures id in Active(t) <==> id in m
      ensures id in m ==> Active(t)[id] == m[id]
    {
      if id != 0 {
        var i: Id := id;
        assert Lookup(t, i) == if i in m then Some(m[i]) else None;
      }
    }
  }

  lemma ActiveLookup(t: Table, id: Id)
    ensures Lookup(t, id) == if id in Active(t) then Some(Active(t)[id]) else None
  {
  }

  /** Clearing removes one key; clearing 0 or an unknown id changes nothing at all. */
  lemma ClearRefines(limits: Limits, t: Table, id: byte)
    requires Consistent(limits, t)
    ensures Consistent(limits, Clear(t, id))
    ensures Active(Clear(t, id)) == Active(t) - {id}
    ensures id == 0 || id !in Active(t) ==> Clear(t, id) == t
  {
    ClearKeepsConsistent(limits, t, id);
    forall x: Id
      ensures Lookup(Clear(t, id), x) == if x in Active(t) - {id} then Some((Active(t) - {id})[x]) else None
    {
      ActiveLookup(t, x);
      if Used(t, id) {
        LookupAfterUpdate(t, IndexOf(t, id), Released(t[IndexOf(t, id)]), x);
      }
    }
    ActiveIs(Clear(t, id), Active(t) - {id});
    if id == 0 && Used(t, 0) {
      assert !t[IndexOf(t, 0)].waiting;
    }
  }

  lemma ClearKeepsConsistent(limits: Limits, t: Table, id: byte)
    requires Consistent(limits, t)
    ensures Consistent(limits, Clear(t, id))
  {
  }

  /** Set overwrites the entry of a known id and ignores any other. */
  lemma SetRefines(limits: Limits, t: Table, id: byte, notify: bool, owner: nat, dest: Addr, pdu: seq<byte>)
    requires Consistent(limits, t)
    ensures var t' := Set(limits, t, id, notify, owner, dest, pdu);
      && Consistent(limits, t')
      && Active(t') == if id in Active(t) then Active(t)[id := Armed(Active(t)[id], limits, notify, owner, dest, pdu)]
                       else Active(t)
  {
    var t' := Set(limits, t, id, notify, owner, dest, pdu);
    if id in Active(t) {
      var i := IndexOf(t, id);
      var s := Armed(t[i], limits, notify, owner, dest, pdu);
      forall x: Id
        ensures Lookup(t', x) == if x in Active(t)[id := s] then Some(Active(t)[id := s][x]) else None
      {
        ActiveLookup(t, x);
        LookupAfterUpdate(t, i, s, x);
      }
      ActiveIs(t', Active(t)[id := s]);
    }
  }

  /** Reserving adds a fresh key, or fails and changes nothing. */
  lemma ReserveRefines(limits: Limits, st: Sessions)
    requires Consistent(limits, st.slots)
    ensures var Reservation(st', id) := Reserve(limits, st);
      && Consistent(limits, st'.slots)
      && (id == 0 ==> st' == st)
      && (id != 0 ==>
            && id !in Active(st.slots)
            && Lookup(st'.slots, id).Some? && !Lookup(st'.slots, id).value.waiting
            && Active(st'.slots) == Active(st.slots)[id := Lookup(st'.slots, id).value])
  {
    var t := st.slots;
    var Reservation(st', id) := Reserve(limits, st);
    if id != 0 {
      ReserveFirstUnused(limits, st);
      var k := IndexOf(t, 0);
      var s := st'.slots[k];
      assert st'.slots == t[k := s];
      forall x: Id
        ensures Lookup(st'.slots, x) == if x in Active(t)[id := s] then Some(Active(t)[id := s][x]) else None
      {
        ActiveLookup(t, x);
        LookupAfterUpdate(t, k, s, x);
      }
      LookupAfterUpdate(t, k, s, id);
      ActiveIs(st'.slots, Active(t)[id := s]);
    }
  }

  /** What a tick leaves of one session: nothing once it expires. */
  function Survivor(limits: Limits, s: Session, ms: nat): Option<Session> {
    var s' := TickSession(limits, s, ms).0;
    if s'.id == 0 then None else Some(s')
  }

  lemma TickKeepsConsistent(limits: Limits, t: Table, ms: nat)
    requires Consistent(limits, t)
    ensures Consistent(limits, Ticked(limits, t, ms))
  {
    var t' := Ticked(limits, t, ms);
    forall i | 0 <= i < |t|
      ensures t'[i].id == 0 || t'[i].id == t[i].id
      ensures (t'[i].waiting ==> t'[i].id != 0) && t'[i].retry <= limits.retries
    {
    }
  }

  lemma LookupAfterTick(limits: Limits, t: Table, ms: nat, id: Id)
    requires Consistent(limits, t)
    ensures Lookup(Ticked(limits, t, ms), id)
         == match Lookup(t, id) case None => None case Some(s) => Survivor(limits, s, ms)
  {
    var t' := Ticked(limits, t, ms);
    TickKeepsConsistent(limits, t, ms);
    if Used(t', id) {
      var j := IndexOf(t', id);
      assert t'[j] == TickSession(limits, t[j], ms).0;
      LookupAt(t, j);
    } else if Used(t, id) {
      var i := IndexOf(t, id);
      assert t'[i] == TickSession(limits, t[i], ms).0;
    }
  }

  /** A tick acts on each entry of the map by itself. */
  lemma TickRefines(limits: Limits, t: Table, ms: nat)
    requires Consistent(limits, t)
    ensures Consistent(limits, Ticked(limits, t, ms))
    ensures Active(Ticked(limits, t, ms))
         == map id | id in Active(t) && Survivor(limits, Active(t)[id], ms).Some? ::
              Survivor(limits, Active(t)[id], ms).value
  {
    TickKeepsConsistent(limits, t, ms);
    var m := map id | id in Active(t) && Survivor(limits, Active(t)[id], ms).Some? ::
      Survivor(limits, Active(t)[id], ms).value;
    forall id: Id
      ensures Lookup(Ticked(limits, t, ms), id) == if id in m then Some(m[id]) else None
    {
      ActiveLookup(t, id);
      LookupAfterTick(limits, t, ms, id);
    }
    ActiveIs(Ticked(limits, t, ms), m);
  }
}
