/** Where the ring buffer keeps its elements: the abstract queue held by a flat block of bytes and
    two free-running 32-bit counters. Everything the operations need is a fact about Contents. */
module RingLayout {
  import opened Words

  /** element_count and element_size of ringbuf_init. */
  datatype Geometry = Geometry(count: nat, size: nat) {
    ghost predicate Valid() {
      PowerOfTwo(count) && count < WORD && count * size <= WORD
    }

    ghost predicate Fits(buf: seq<byte>) {
      count * size <= |buf|
    }
  }

  lemma OffsetInRange(g: Geometry, slot: nat)
    requires slot < g.count
    ensures 0 <= slot * g.size && slot * g.size + g.size <= g.count * g.size
  {
    assert (slot + 1) * g.size <= g.count * g.size;
  }

  /** The byte offset of the slot a counter points at. */
  function Offset(g: Geometry, c: word): (o: nat)
    requires g.count > 0
    ensures o + g.size <= g.count * g.size
  {
    OffsetInRange(g, c % g.count);
    (c % g.count) * g.size
  }

  function Element(g: Geometry, buf: seq<byte>, c: word): (e: seq<byte>)
    requires g.count > 0 && g.Fits(buf)
    ensures |e| == g.size
  {
    buf[Offset(g, c)..Offset(g, c) + g.size]
  }

  /** The queue: the slots from tail up to head, oldest first. */
  ghost function Contents(g: Geometry, buf: seq<byte>, head: word, tail: word): (s: seq<seq<byte>>)
    requires g.count > 0 && g.Fits(buf)
    ensures |s| == Sub(head, tail)
  {
    seq(Sub(head, tail), i requires 0 <= i < Sub(head, tail) => Element(g, buf, Add(tail, i)))
  }

  /** The bytes in the free slots, from head on. */
  ghost function Vacant(g: Geometry, buf: seq<byte>, head: word, tail: word): (s: seq<seq<byte>>)
    requires g.count > 0 && g.Fits(buf) && Sub(head, tail) <= g.count
    ensures |s| == g.count - Sub(head, tail)
  {
    seq(g.count - Sub(head, tail),
        i requires 0 <= i < g.count - Sub(head, tail) => Element(g, buf, Add(head, i)))
  }

  ghost predicate SameOutsideSlot(g: Geometry, buf: seq<byte>, buf': seq<byte>, c: word)
    requires g.count > 0
  {
    && |buf'| == |buf|
    && forall k | 0 <= k < |buf| && !(Offset(g, c) <= k < Offset(g, c) + g.size) :: buf'[k] == buf[k]
  }

  /** Stepping a counter moves to the neighbouring slot even across the wrap at 2^32, for every
      counter value, exactly when the count is a power of two: the condition ringbuf_init documents. */
  lemma SlotsSurviveWrapIffPowerOfTwo(count: nat)
    requires 0 < count < WORD
    ensures (forall c: word :: Add(c, 1) % count == (c % count + 1) % count) <==> PowerOfTwo(count)
  {
    DividesWordIffPowerOfTwo(count);
    forall c: word {
      StepAcrossWrap(c, count);
    }
    var last: word := WORD - 1;
    assert Add(last, 1) % count == (last % count + 1) % count ==> WORD % count == 0;
  }

  lemma StepAcrossWrap(c: word, count: nat)
    requires count > 0
    ensures WORD % count == 0 || c < WORD - 1 ==> Add(c, 1) % count == (c % count + 1) % count
    ensures c == WORD - 1 ==> Add(c, 1) % count == 0 && (c % count + 1) % count == WORD % count
  {
    ModStep(c, count);
    if WORD % count == 0 {
      ModOfMod(c + 1, WORD, count);
    }
  }

  lemma SlotsDiffer(g: Geometry, t: word, i: nat, j: nat)
    requires g.Valid() && i < j < i + g.count
    ensures Add(t, i) % g.count != Add(t, j) % g.count
  {
    PowerOfTwoDivides(g.count);
    ModOfMod(t + i, WORD, g.count);
    ModOfMod(t + j, WORD, g.count);
    ResiduesDiffer(t + i, t + j, g.count);
  }

  lemma OffsetsDisjoint(g: Geometry, c: word, d: word)
    requires g.count > 0 && c % g.count != d % g.count
    ensures Offset(g, c) + g.size <= Offset(g, d) || Offset(g, d) + g.size <= Offset(g, c)
  {
    var s, t := c % g.count, d % g.count;
    if s < t {
      assert (s + 1) * g.size <= t * g.size;
    } else {
      assert (t + 1) * g.size <= s * g.size;
    }
  }

  lemma OtherSlotKept(g: Geometry, buf: seq<byte>, buf': seq<byte>, c: word, d: word)
    requires g.count > 0 && g.Fits(buf) && SameOutsideSlot(g, buf, buf', c)
    requires c % g.count != d % g.count
    ensures Element(g, buf', d) == Element(g, buf, d)
  {
    OffsetsDisjoint(g, c, d);
  }

  /** Head lies one slot past the last element. */
  lemma HeadOfTail(head: word, tail: word)
    ensures Add(tail, Sub(head, tail)) == head
  {
  }

  /** Writing the slot under head leaves the queue alone as long as it is not full. */
  lemma ReservedSlotInvisible(g: Geometry, buf: seq<byte>, buf': seq<byte>, head: word, tail: word)
    requires g.Valid() && g.Fits(buf) && SameOutsideSlot(g, buf, buf', head)
    requires Sub(head, tail) < g.count
    ensures Contents(g, buf', head, tail) == Contents(g, buf, head, tail)
  {
    var n := Sub(head, tail);
    HeadOfTail(head, tail);
    forall i | 0 <= i < n
      ensures Element(g, buf', Add(tail, i)) == Element(g, buf, Add(tail, i))
    {
      SlotsDiffer(g, tail, i, n);
      OtherSlotKept(g, buf, buf', head, Add(tail, i));
    }
  }

  /** Moving the start of a stretch by one shifts the positions in it by one, also across the wrap. */
  lemma StretchShifts(t: word, i: nat)
    ensures Add(Add(t, 1), i) == Add(t, i + 1) && Add(t, 0) == t
    ensures Add(Add(t, -1), i + 1) == Add(t, i)
  {
    var up, down := Add(t, 1), Add(t, -1);
    if up != t + 1 {
      ModAddMultiple(up + i, 1, WORD);
    }
    if down != t - 1 {
      ModAddMultiple(t + i, 1, WORD);
    }
  }

  lemma SubIs(h: word, t: word)
    ensures Sub(h, t) == if h >= t then h - t else h - t + WORD
  {
    ModUnique(h - t, if h >= t then 0 else -1, if h >= t then h - t else h - t + WORD, WORD);
  }

  lemma NeighbourIs(w: word)
    ensures Add(w, 1) == if w == WORD - 1 then 0 else w + 1
    ensures Add(w, -1) == if w == 0 then WORD - 1 else w - 1
  {
  }

  lemma GapMoves(h: word, t: word)
    ensures Sub(h, t) > 0 ==> Sub(h, Add(t, 1)) == Sub(h, t) - 1
    ensures Sub(h, t) < WORD - 1 ==> Sub(Add(h, 1), t) == Sub(h, t) + 1 && Sub(h, Add(t, -1)) == Sub(h, t) + 1
  {
    NeighbourIs(h);
    NeighbourIs(t);
    SubIs(h, t);
    SubIs(h, Add(t, 1));
    SubIs(h, Add(t, -1));
    SubIs(Add(h, 1), t);
  }

  /** Bumping head appends whatever the head slot holds. */
  lemma HeadBumpAppends(g: Geometry, buf: seq<byte>, head: word, tail: word)
    requires g.Valid() && g.Fits(buf)
    requires Sub(head, tail) < g.count
    ensures Sub(Add(head, 1), tail) == Sub(head, tail) + 1
    ensures Contents(g, buf, Add(head, 1), tail) == Contents(g, buf, head, tail) + [Element(g, buf, head)]
  {
    HeadOfTail(head, tail);
    StretchShifts(tail, 0);
    GapMoves(head, tail);
    var n, h := Sub(head, tail), Add(head, 1);
    var longer, shorter := Contents(g, buf, h, tail), Contents(g, buf, head, tail);
    assert longer[n] == Element(g, buf, head);
    assert longer[..n] == shorter;
  }

  /** Bumping tail drops the oldest element. */
  lemma TailBumpDrops(g: Geometry, buf: seq<byte>, head: word, tail: word)
    requires g.Valid() && g.Fits(buf)
    requires Sub(head, tail) > 0
    ensures Sub(head, Add(tail, 1)) == Sub(head, tail) - 1
    ensures Contents(g, buf, head, tail) == [Element(g, buf, tail)] + Contents(g, buf, head, Add(tail, 1))
  {
    StretchShifts(tail, 0);
    GapMoves(head, tail);
    var whole, rest := Contents(g, buf, head, tail), Contents(g, buf, head, Add(tail, 1));
    assert whole[0] == Element(g, buf, tail);
    forall i | 0 <= i < |rest|
      ensures whole[1..][i] == rest[i]
    {
      StretchShifts(tail, i);
      assert whole[i + 1] == Element(g, buf, Add(tail, i + 1));
    }
    assert whole[1..] == rest;
  }

  /** Stepping tail back, even from 0 to 2^32 - 1, and writing its slot prepends an element. */
  lemma TailRetreatPrepends(g: Geometry, buf: seq<byte>, buf': seq<byte>, head: word, tail: word)
    requires g.Valid() && g.Fits(buf)
    requires Sub(head, tail) < g.count
    requires SameOutsideSlot(g, buf, buf', Add(tail, -1))
    ensures Sub(head, Add(tail, -1)) == Sub(head, tail) + 1
    ensures Contents(g, buf', head, Add(tail, -1))
         == [Element(g, buf', Add(tail, -1))] + Contents(g, buf, head, tail)
  {
    var t, n := Add(tail, -1), Sub(head, tail);
    StretchShifts(tail, 0);
    GapMoves(head, tail);
    var longer, shorter := Contents(g, buf', head, t), Contents(g, buf, head, tail);
    StretchShifts(t, 0);
    assert longer[0] == Element(g, buf', t);
    forall i | 0 <= i < n
      ensures longer[1..][i] == shorter[i]
    {
      StretchShifts(tail, i);
      SlotsDiffer(g, t, 0, i + 1);
      OtherSlotKept(g, buf, buf', t, Add(tail, i));
      assert longer[i + 1] == Element(g, buf', Add(t, i + 1));
    }
    assert longer[1..] == shorter;
  }

  // ----- the free slots

  lemma AddAdd(t: word, a: nat, b: nat)
    ensures Add(Add(t, a), b) == Add(t, a + b)
  {
    var q := (t + a) / WORD;
    assert t + a == q * WORD + Add(t, a);
    ModAddMultiple(Add(t, a) + b, q, WORD);
    assert t + a + b == (Add(t, a) + b) + q * WORD;
  }

  lemma NextSlot(g: Geometry, c: word)
    requires g.Valid()
    ensures Add(c, 1) % g.count == (c % g.count + 1) % g.count
  {
    SlotsSurviveWrapIffPowerOfTwo(g.count);
  }

  /** A full turn from tail ends at tail's slot. */
  lemma FullTurn(g: Geometry, head: word, tail: word)
    requires g.Valid() && Sub(head, tail) <= g.count
    ensures Add(head, g.count - Sub(head, tail)) % g.count == tail % g.count
  {
    HeadOfTail(head, tail);
    AddAdd(tail, Sub(head, tail), g.count - Sub(head, tail));
    PowerOfTwoDivides(g.count);
    ModOfMod(tail + g.count, WORD, g.count);
    ModAddMultiple(tail, 1, g.count);
  }

  lemma SameSlotSameElement(g: Geometry, buf: seq<byte>, c: word, d: word)
    requires g.count > 0 && g.Fits(buf) && c % g.count == d % g.count
    ensures Element(g, buf, c) == Element(g, buf, d)
  {
  }

  /** Writing the slot under head changes the first free slot only. */
  lemma WriteChangesFirstVacant(g: Geometry, buf: seq<byte>, buf': seq<byte>, head: word, tail: word)
    requires g.Valid() && g.Fits(buf) && SameOutsideSlot(g, buf, buf', head)
    requires Sub(head, tail) < g.count
    ensures Vacant(g, buf', head, tail) == Vacant(g, buf, head, tail)[0 := Element(g, buf', head)]
    ensures Vacant(g, buf, head, tail)[0] == Element(g, buf, head)
  {
    assert Add(head, 0) == head;
    forall i | 0 < i < g.count - Sub(head, tail)
      ensures Element(g, buf', Add(head, i)) == Element(g, buf, Add(head, i))
    {
      SlotsDiffer(g, head, 0, i);
      OtherSlotKept(g, buf, buf', head, Add(head, i));
    }
  }

  /** Bumping head uses up the first free slot. */
  lemma HeadBumpUsesVacant(g: Geometry, buf: seq<byte>, head: word, tail: word)
    requires g.Valid() && g.Fits(buf) && Sub(head, tail) < g.count
    ensures Sub(Add(head, 1), tail) == Sub(head, tail) + 1
    ensures Vacant(g, buf, head, tail) == [Element(g, buf, head)] + Vacant(g, buf, Add(head, 1), tail)
  {
    GapMoves(head, tail);
    var more, less := Vacant(g, buf, head, tail), Vacant(g, buf, Add(head, 1), tail);
    StretchShifts(head, 0);
    assert more[0] == Element(g, buf, head);
    forall i | 0 <= i < |less|
      ensures more[1..][i] == less[i]
    {
      StretchShifts(head, i);
      assert more[i + 1] == Element(g, buf, Add(head, i + 1));
    }
    assert more[1..] == less;
  }

  /** Writing the head slot and then bumping head moves one slot from the free ones to the queue. */
  lemma PutAppends(g: Geometry, buf: seq<byte>, buf': seq<byte>, head: word, tail: word)
    requires g.Valid() && g.Fits(buf) && SameOutsideSlot(g, buf, buf', head)
    requires Sub(head, tail) < g.count
    ensures Sub(Add(head, 1), tail) == Sub(head, tail) + 1
    ensures Contents(g, buf', Add(head, 1), tail) == Contents(g, buf, head, tail) + [Element(g, buf', head)]
    ensures Vacant(g, buf, head, tail) == [Element(g, buf, head)] + Vacant(g, buf', Add(head, 1), tail)
  {
    ReservedSlotInvisible(g, buf, buf', head, tail);
    WriteChangesFirstVacant(g, buf, buf', head, tail);
    HeadBumpAppends(g, buf', head, tail);
    HeadBumpUsesVacant(g, buf', head, tail);
    var more, less := Vacant(g, buf, head, tail), Vacant(g, buf', Add(head, 1), tail);
    assert more[0 := Element(g, buf', head)] == [Element(g, buf', head)] + less;
    assert more == [more[0]] + more[0 := Element(g, buf', head)][1..];
  }

  /** Bumping tail turns the oldest element's slot into the last free one. */
  lemma TailBumpFreesSlot(g: Geometry, buf: seq<byte>, head: word, tail: word)
    requires g.Valid() && g.Fits(buf) && 0 < Sub(head, tail) <= g.count
    ensures Sub(head, Add(tail, 1)) == Sub(head, tail) - 1
    ensures Vacant(g, buf, head, Add(tail, 1)) == Vacant(g, buf, head, tail) + [Element(g, buf, tail)]
  {
    GapMoves(head, tail);
    FullTurn(g, head, tail);
    var n := g.count - Sub(head, tail);
    SameSlotSameElement(g, buf, Add(head, n), tail);
    var more, less := Vacant(g, buf, head, Add(tail, 1)), Vacant(g, buf, head, tail);
    assert more[n] == Element(g, buf, tail) && more[..n] == less;
  }

  /** Stepping tail back and writing its slot uses up the last free slot and leaves the others. */
  lemma TailRetreatUsesVacant(g: Geometry, buf: seq<byte>, buf': seq<byte>, head: word, tail: word)
    requires g.Valid() && g.Fits(buf) && Sub(head, tail) < g.count
    requires SameOutsideSlot(g, buf, buf', Add(tail, -1))
    ensures Sub(head, Add(tail, -1)) == Sub(head, tail) + 1
    ensures var free := Vacant(g, buf, head, tail);
      Vacant(g, buf', head, Add(tail, -1)) == free[..|free| - 1]
  {
    var t, n := Add(tail, -1), Sub(head, tail);
    GapMoves(head, tail);
    HeadOfTail(head, t);
    StretchShifts(t, 0);
    forall i | 0 <= i < g.count - n - 1
      ensures Element(g, buf', Add(head, i)) == Element(g, buf, Add(head, i))
    {
      AddAdd(t, n + 1, i);
      SlotsDiffer(g, t, 0, n + 1 + i);
      OtherSlotKept(g, buf, buf', t, Add(head, i));
    }
  }
}
