/** core/ringbuf.c: the ring buffer itself, proved to be the bounded deque of DequeSpec. */
module RingBuffers {
  import opened Words
  import opened RingLayout
  import DequeSpec

  class RingBuffer {
    const buffer: array<byte>
    const geometry: Geometry
    var head: word
    var tail: word

    ghost predicate Valid()
      reads this
    {
      && geometry.Valid()
      && geometry.count * geometry.size <= buffer.Length
      && Sub(head, tail) <= geometry.count
    }

    ghost function Contents(): (s: seq<seq<byte>>)
      requires Valid()
      reads this, buffer
    {
      RingLayout.Contents(geometry, buffer[..], head, tail)
    }

    /** What the free slots hold, the slot under head first: left over from earlier elements, or written
        through a reserved pointer. */
    ghost function Free(): (s: seq<seq<byte>>)
      requires Valid()
      reads this, buffer
      ensures |Contents()| + |s| == geometry.count
    {
      Vacant(geometry, buffer[..], head, tail)
    }

    ghost function Value(): DequeSpec.Deque
      requires Valid()
      reads this, buffer
    {
      DequeSpec.Deque(Contents(), Free(), head % geometry.count)
    }

    /** ringbuf_init; the count must be a power of two. */
    constructor (buffer: array<byte>, elementSize: nat, elementCount: nat)
      requires PowerOfTwo(elementCount) && elementCount < WORD
      requires elementCount * elementSize <= WORD && elementCount * elementSize <= buffer.Length
      ensures Valid() && Contents() == [] && head == tail == 0
      ensures this.buffer == buffer && geometry == Geometry(elementCount, elementSize)
    {
      this.buffer := buffer;
      geometry := Geometry(elementCount, elementSize);
      head, tail := 0, 0;
    }

    function Count(): (n: nat)
      requires Valid()
      reads this, buffer
      ensures n == |Contents()|
    {
      Sub(head, tail)
    }

    predicate Full()
      requires Valid()
      reads this, buffer
      ensures Full() <==> |Contents()| == geometry.count
    {
      Count() == geometry.count
    }

    predicate Empty()
      requires Valid()
      reads this, buffer
      ensures Empty() <==> Contents() == []
    {
      Count() == 0
    }

    /** The bytes at offset o: what a pointer returned by Peek or DataPeek points at. */
    ghost function At(o: nat): (e: seq<byte>)
      requires o + geometry.size <= buffer.Length
      reads buffer
      ensures |e| == geometry.size
    {
      buffer[o..o + geometry.size]
    }

    /** Is o the slot a reservation would hand out now? */
    predicate IsHeadSlot(o: nat)
      requires Valid()
      reads this
      ensures IsHeadSlot(o) ==> o + geometry.size <= buffer.Length
    {
      o == Offset(geometry, head)
    }

    method Peek() returns (front: Option<nat>)
      requires Valid()
      ensures front.None? <==> Contents() == []
      ensures front.Some? ==>
        front.value + geometry.size <= buffer.Length && At(front.value) == Contents()[0]
    {
      if Empty() {
        return None;
      }
      TailBumpDrops(geometry, buffer[..], head, tail);
      front := Some(Offset(geometry, tail));
      assert At(front.value) == Element(geometry, buffer[..], tail);
    }

    /** dst may be null: the caller then only drops the element. */
    method Pop(dst: array?<byte>) returns (ok: bool)
      requires Valid()
      requires dst != null ==> dst != buffer && geometry.size <= dst.Length
      modifies `tail
      modifies if dst == null then {} else {dst}
      ensures Valid()
      ensures ok == (old(Contents()) != [])
      ensures Contents() == if ok then old(Contents())[1..] else old(Contents())
      ensures Free() == old(Free()) + if ok then [old(Contents())[0]] else []
      ensures ok && dst != null ==> dst[..geometry.size] == old(Contents())[0]
      ensures !ok && dst != null ==> dst[..] == old(dst[..])
      ensures dst != null ==> dst[geometry.size..] == old(dst[geometry.size..])
    {
      ok := false;
      if !Empty() {
        var o := Offset(geometry, tail);
        TailBumpDrops(geometry, buffer[..], head, tail);
        TailBumpFreesSlot(geometry, buffer[..], head, tail);
        if dst != null {
          for i := 0 to geometry.size
            invariant tail == old(tail) && buffer[..] == old(buffer[..])
            invariant dst[..i] == buffer[o..o + i]
            invariant dst[geometry.size..] == old(dst[geometry.size..])
          {
            dst[i] := buffer[o + i];
          }
        }
        tail := Add(tail, 1);
        ok := true;
        assert buffer[..] == old(buffer[..]);
      }
    }

    /** The copy loop shared by ringbuf_put and ringbuf_put_front: fills the slot a counter points at. */
    method CopyIn(c: word, data: array<byte>)
      requires Valid()
      requires data != buffer && geometry.size <= data.Length
      modifies buffer
      ensures SameOutsideSlot(geometry, old(buffer[..]), buffer[..], c)
      ensures Element(geometry, buffer[..], c) == data[..geometry.size]
    {
      var o := Offset(geometry, c);
      for i := 0 to geometry.size
        invariant data[..] == old(data[..])
        invariant buffer[o..o + i] == data[..i]
        invariant SameOutsideSlot(geometry, old(buffer[..]), buffer[..], c)
      {
        buffer[o + i] := data[i];
      }
      assert data[..geometry.size] == data[..][..geometry.size];
    }

    method Put(data: array?<byte>) returns (ok: bool)
      requires Valid()
      requires data != null ==> data != buffer && geometry.size <= data.Length
      modifies `head, buffer
      ensures Valid()
      ensures ok == (data != null && |old(Contents())| < geometry.count)
      ensures Contents() == if ok then old(Contents()) + [data[..geometry.size]] else old(Contents())
      ensures Free() == if ok then old(Free())[1..] else old(Free())
      ensures head == if ok then Add(old(head), 1) else old(head)
    {
      ok := false;
      if data != null && !Full() {
        CopyIn(head, data);
        PutAppends(geometry, old(buffer[..]), buffer[..], head, tail);
        head := Add(head, 1);
        ok := true;
      }
    }

    method PutFront(data: array?<byte>) returns (ok: bool)
      requires Valid()
      requires data != null ==> data != buffer && geometry.size <= data.Length
      modifies `tail, buffer
      ensures Valid()
      ensures ok == (data != null && |old(Contents())| < geometry.count)
      ensures Contents() == if ok then [data[..geometry.size]] + old(Contents()) else old(Contents())
      ensures Free() == if ok then old(Free())[..|old(Free())| - 1] else old(Free())
    {
      ok := false;
      if data != null && !Full() {
        tail := Add(tail, -1);
        TailRetreatPrepends(geometry, buffer[..], buffer[..], head, old(tail));
        CopyIn(tail, data);
        TailRetreatPrepends(geometry, old(buffer[..]), buffer[..], head, old(tail));
        TailRetreatUsesVacant(geometry, old(buffer[..]), buffer[..], head, old(tail));
        ok := true;
      }
    }

    /** Hands out the slot under head without adding it. */
    method DataPeek() returns (slot: Option<nat>)
      requires Valid()
      ensures slot.None? <==> |Contents()| == geometry.count
      ensures slot.Some? ==> IsHeadSlot(slot.value) && slot.value == (head % geometry.count) * geometry.size
      ensures slot.Some? ==> At(slot.value) == Free()[0]
    {
      if Full() {
        return None;
      }
      slot := Some(Offset(geometry, head));
      WriteChangesFirstVacant(geometry, buffer[..], buffer[..], head, tail);
      assert At(slot.value) == Element(geometry, buffer[..], head);
    }

    /** Publishes a reserved slot. Nothing the caller wrote into the slot showed in Contents before;
        see WriteReserved for the other half. */
    method DataPut(slot: nat) returns (ok: bool)
      requires Valid()
      modifies `head
      ensures Valid()
      ensures ok == (|old(Contents())| < geometry.count && old(IsHeadSlot(slot)))
      ensures Contents() == if ok then old(Contents()) + [At(slot)] else old(Contents())
      ensures ok ==> At(slot) == old(Free())[0]
      ensures Free() == if ok then old(Free())[1..] else old(Free())
      ensures head == if ok then Add(old(head), 1) else old(head)
    {
      ok := false;
      if !Full() && Offset(geometry, head) == slot {
        HeadBumpAppends(geometry, buffer[..], head, tail);
        HeadBumpUsesVacant(geometry, buffer[..], head, tail);
        assert At(slot) == Element(geometry, buffer[..], head);
        head := Add(head, 1);
        ok := true;
      }
    }

    /** A caller's write through the pointer DataPeek returned. */
    method WriteReserved(slot: nat, i: nat, b: byte)
      requires Valid()
      requires |Contents()| < geometry.count && IsHeadSlot(slot) && i < geometry.size
      modifies buffer
      ensures Contents() == old(Contents())
      ensures At(slot) == old(At(slot))[i := b]
      ensures Free() == old(Free())[0 := At(slot)] && old(Free())[0] == old(At(slot))
    {
      buffer[slot + i] := b;
      assert SameOutsideSlot(geometry, old(buffer[..]), buffer[..], head);
      ReservedSlotInvisible(geometry, old(buffer[..]), buffer[..], head, tail);
      WriteChangesFirstVacant(geometry, old(buffer[..]), buffer[..], head, tail);
      assert At(slot) == Element(geometry, buffer[..], head);
    }

    method Fetch() returns (front: Option<seq<byte>>)
      requires Valid()
      ensures front == DequeSpec.Front(Contents())
    {
      var p := Peek();
      if p.None? {
        return None;
      }
      front := Some(buffer[p.value..p.value + geometry.size]);
    }

    /** A caller's write to the slot it has reserved; there is none while the ring is full. */
    method Fill(i: nat, b: byte) returns (ok: bool)
      requires Valid()
      modifies buffer
      ensures (Value(), DequeSpec.Done(ok)) == DequeSpec.Apply(old(Value()), geometry.size, DequeSpec.Fill(i, b))
    {
      ok := false;
      var slot := DataPeek();
      if slot.Some? && i < geometry.size {
        WriteReserved(slot.value, i, b);
        ok := true;
      }
    }

    method PutBytes(e: seq<byte>) returns (ok: bool)
      requires Valid() && |e| == geometry.size
      modifies `head, buffer
      ensures Valid()
      ensures (Value(), DequeSpec.Done(ok)) == DequeSpec.Apply(old(Value()), geometry.size, DequeSpec.Put(e))
    {
      var data := new byte[|e|](i requires 0 <= i < |e| => e[i]);
      assert data[..geometry.size] == e;
      NextSlot(geometry, head);
      ok := Put(data);
    }

    method PutBytesFront(e: seq<byte>) returns (ok: bool)
      requires Valid() && |e| == geometry.size
      modifies `tail, buffer
      ensures Valid()
      ensures (Value(), DequeSpec.Done(ok)) == DequeSpec.Apply(old(Value()), geometry.size, DequeSpec.PutFront(e))
    {
      var data := new byte[|e|](i requires 0 <= i < |e| => e[i]);
      assert data[..geometry.size] == e;
      ok := PutFront(data);
    }

    method PopBytes() returns (front: Option<seq<byte>>)
      requires Valid()
      modifies `tail
      ensures Valid()
      ensures (Value(), DequeSpec.Got(front)) == DequeSpec.Apply(old(Value()), geometry.size, DequeSpec.Pop)
    {
      var dst := new byte[geometry.size];
      var ok := Pop(dst);
      assert dst[..geometry.size] == dst[..];
      front := if ok then Some(dst[..]) else None;
    }

    method Publish(slot: nat) returns (ok: bool)
      requires Valid()
      modifies `head
      ensures Valid()
      ensures (Value(), DequeSpec.Done(ok)) == DequeSpec.Apply(old(Value()), geometry.size, DequeSpec.DataPut(slot))
    {
      NextSlot(geometry, head);
      ok := DataPut(slot);
    }

    method Apply(op: DequeSpec.Op) returns (reply: DequeSpec.Reply)
      requires Valid() && DequeSpec.Sized(op, geometry.size)
      modifies this, buffer
      ensures Valid()
      ensures (Value(), reply) == DequeSpec.Apply(old(Value()), geometry.size, op)
    {
      match op
      case Put(e) =>
        var ok := PutBytes(e);
        reply := DequeSpec.Done(ok);
      case PutFront(e) =>
        var ok := PutBytesFront(e);
        reply := DequeSpec.Done(ok);
      case Pop =>
        var front := PopBytes();
        reply := DequeSpec.Got(front);
      case Peek =>
        var front := Fetch();
        reply := DequeSpec.Got(front);
      case DataPeek =>
        var slot := DataPeek();
        reply := DequeSpec.Slot(slot);
      case Fill(i, b) =>
        var ok := Fill(i, b);
        reply := DequeSpec.Done(ok);
      case DataPut(slot) =>
        var ok := Publish(slot);
        reply := DequeSpec.Done(ok);
    }

    /** Every script of operations, of any length, gives the state and the replies of the deque:
        also when head overflows or tail underflows at 2^32 on the way, and whatever happens between
        the reservation of a slot and its publication. */
    method Run(ops: seq<DequeSpec.Op>) returns (replies: seq<DequeSpec.Reply>)
      requires Valid()
      requires forall op | op in ops :: DequeSpec.Sized(op, geometry.size)
      modifies this, buffer
      ensures Valid()
      ensures (Value(), replies) == DequeSpec.Run(old(Value()), geometry.size, ops)
    {
      replies := [];
      for n := 0 to |ops|
        invariant Valid()
        invariant (Value(), replies) == DequeSpec.Run(old(Value()), geometry.size, ops[..n])
      {
        var reply := Apply(ops[n]);
        replies := replies + [reply];
        assert ops[..n + 1][..n] == ops[..n];
      }
      assert ops[..|ops|] == ops;
    }
  }
}
