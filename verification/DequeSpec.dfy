/** The bounded double-ended queue of byte strings that the ring buffer stands for, as values: the queue,
    and the free slots with the bytes they happen to hold, the next one to be used first. */
module DequeSpec {
  import opened Words

  /** head numbers the slot free[0], among the |queue| + |free| slots of the block. */
  datatype Deque = Deque(queue: seq<seq<byte>>, free: seq<seq<byte>>, head: nat) {
    function Capacity(): nat {
      |queue| + |free|
    }
  }

  /** Fill is a caller's write through the pointer ringbuf_data_peek returns; slots are byte offsets. */
  datatype Op =
    | Put(element: seq<byte>)
    | PutFront(element: seq<byte>)
    | Pop
    | Peek
    | DataPeek
    | Fill(i: nat, b: byte)
    | DataPut(slot: nat)

  datatype Reply = Done(ok: bool) | Got(front: Option<seq<byte>>) | Slot(offset: Option<nat>)

  predicate Sized(op: Op, size: nat) {
    op.Put? || op.PutFront? ==> |op.element| == size
  }

  function Front(queue: seq<seq<byte>>): Option<seq<byte>> {
    if queue == [] then None else Some(queue[0])
  }

  /** The slot k places on from start, in a ring of n slots. */
  function Onward(start: nat, k: nat, n: nat): nat
    requires n > 0
  {
    (start + k) % n
  }

  function Appended(d: Deque, e: seq<byte>): Deque
    requires d.free != []
  {
    Deque(d.queue + [e], d.free[1..], Onward(d.head, 1, d.Capacity()))
  }

  function Apply(d: Deque, size: nat, op: Op): (Deque, Reply) {
    match op
    case Put(e) => if d.free == [] then (d, Done(false)) else (Appended(d, e), Done(true))
    case PutFront(e) =>
      if d.free == [] then (d, Done(false))
      else (Deque([e] + d.queue, d.free[..|d.free| - 1], d.head), Done(true))
    case Pop =>
      if d.queue == [] then (d, Got(None))
      else (Deque(d.queue[1..], d.free + [d.queue[0]], d.head), Got(Some(d.queue[0])))
    case Peek => (d, Got(Front(d.queue)))
    case DataPeek => (d, Slot(if d.free == [] then None else Some(d.head * size)))
    case Fill(i, b) =>
      if d.free == [] || i >= |d.free[0]| then (d, Done(false))
      else
        var filled: seq<byte> := d.free[0][i := b];
        (d.(free := d.free[0 := filled]), Done(true))
    case DataPut(slot) =>
      if d.free == [] || slot != d.head * size then (d, Done(false))
      else (Appended(d, d.free[0]), Done(true))
  }

  /** The state and the replies of a whole script. */
  function Run(d: Deque, size: nat, ops: seq<Op>): (Deque, seq<Reply>) {
    if ops == [] then (d, [])
    else
      var (d', replies) := Run(d, size, ops[..|ops| - 1]);
      var (d'', reply) := Apply(d', size, ops[|ops| - 1]);
      (d'', replies + [reply])
  }

  // ----- conservation

  /** What one operation puts in, and what it takes out. */
  function Gain(d: Deque, size: nat, op: Op): seq<seq<byte>> {
    if !Apply(d, size, op).1.Done? || !Apply(d, size, op).1.ok then []
    else
      match op
      case Put(e) => [e]
      case PutFront(e) => [e]
      case DataPut(_) => d.free[..1]
      case _ => []
  }

  function Loss(d: Deque, op: Op): seq<seq<byte>> {
    if op.Pop? && d.queue != [] then [d.queue[0]] else []
  }

  /** What a script's accepted additions put in, and what its successful pops took out, in order. */
  function Added(d: Deque, size: nat, ops: seq<Op>): seq<seq<byte>> {
    if ops == [] then []
    else
      var before := ops[..|ops| - 1];
      Added(d, size, before) + Gain(Run(d, size, before).0, size, ops[|ops| - 1])
  }

  function Removed(d: Deque, size: nat, ops: seq<Op>): seq<seq<byte>> {
    if ops == [] then []
    else
      var before := ops[..|ops| - 1];
      Removed(d, size, before) + Loss(Run(d, size, before).0, ops[|ops| - 1])
  }

  lemma ApplyKeepsCapacity(d: Deque, size: nat, op: Op)
    ensures Apply(d, size, op).0.Capacity() == d.Capacity()
  {
  }

  /** In the order of the queue, unless the operation works at its front. */
  lemma ApplyInOrder(d: Deque, size: nat, op: Op)
    requires !op.PutFront?
    ensures d.queue + Gain(d, size, op) == Loss(d, op) + Apply(d, size, op).0.queue
  {
    if op.Pop? && d.queue != [] {
      assert d.queue == [d.queue[0]] + d.queue[1..];
    }
  }

  lemma ApplyBalances(d: Deque, size: nat, op: Op)
    ensures multiset(d.queue) + multiset(Gain(d, size, op))
         == multiset(Loss(d, op)) + multiset(Apply(d, size, op).0.queue)
  {
    var q' := Apply(d, size, op).0.queue;
    if op.PutFront? {
      if d.free != [] {
        assert multiset([op.element] + d.queue) == multiset([op.element]) + multiset(d.queue);
      }
    } else {
      ApplyInOrder(d, size, op);
      assert multiset(d.queue + Gain(d, size, op)) == multiset(d.queue) + multiset(Gain(d, size, op));
      assert multiset(Loss(d, op) + q') == multiset(Loss(d, op)) + multiset(q');
    }
  }

  /** No script changes the number of slots, loses an accepted element, or makes one up. */
  lemma {:induction false} RunConserves(d: Deque, size: nat, ops: seq<Op>)
    ensures Run(d, size, ops).0.Capacity() == d.Capacity()
    ensures multiset(d.queue) + multiset(Added(d, size, ops))
         == multiset(Removed(d, size, ops)) + multiset(Run(d, size, ops).0.queue)
  {
    if ops != [] {
      var before, op := ops[..|ops| - 1], ops[|ops| - 1];
      RunConserves(d, size, before);
      var d' := Run(d, size, before).0;
      ApplyKeepsCapacity(d', size, op);
      ApplyBalances(d', size, op);
      var q, added, removed := multiset(d.queue), Added(d, size, before), Removed(d, size, before);
      var gain, loss, q' := Gain(d', size, op), Loss(d', op), multiset(Apply(d', size, op).0.queue);
      calc {
        q + multiset(added + gain);
        (q + multiset(added)) + multiset(gain);
        multiset(removed) + (multiset(d'.queue) + multiset(gain));
        multiset(removed) + (multiset(loss) + q');
        multiset(removed + loss) + q';
      }
    }
  }

  lemma Chain<T>(q: seq<T>, added: seq<T>, removed: seq<T>, mid: seq<T>, gain: seq<T>, loss: seq<T>, q': seq<T>)
    requires q + added == removed + mid && mid + gain == loss + q'
    ensures q + (added + gain) == (removed + loss) + q'
  {
    assert q + (added + gain) == (removed + mid) + gain;
    assert (removed + loss) + q' == removed + (mid + gain);
  }

  /** Without put_front, elements leave in exactly the order they entered. */
  lemma {:induction false} RunIsFifo(d: Deque, size: nat, ops: seq<Op>)
    requires forall i | 0 <= i < |ops| :: !ops[i].PutFront?
    ensures d.queue + Added(d, size, ops) == Removed(d, size, ops) + Run(d, size, ops).0.queue
  {
    if ops != [] {
      var before, op := ops[..|ops| - 1], ops[|ops| - 1];
      RunIsFifo(d, size, before);
      var d', added, removed := Run(d, size, before).0, Added(d, size, before), Removed(d, size, before);
      ApplyInOrder(d', size, op);
      Chain(d.queue, added, removed, d'.queue, Gain(d', size, op), Loss(d', op), Apply(d', size, op).0.queue);
    }
  }

  // ----- reservations

  predicate IsAppend(d: Deque, size: nat, op: Op) {
    (op.Put? || op.DataPut?) && Apply(d, size, op).1 == Done(true)
  }

  /** How many elements a script appends at the back. */
  function Appends(d: Deque, size: nat, ops: seq<Op>): nat {
    if ops == [] then 0
    else
      var before := ops[..|ops| - 1];
      Appends(d, size, before) + if IsAppend(Run(d, size, before).0, size, ops[|ops| - 1]) then 1 else 0
  }

  lemma ApplyMovesHead(d: Deque, size: nat, op: Op)
    ensures Apply(d, size, op).0.head
         == if IsAppend(d, size, op) then Onward(d.head, 1, d.Capacity()) else d.head
  {
  }

  lemma NextHead(d: Deque, size: nat, ops: seq<Op>)
    requires ops != []
    ensures var before := ops[..|ops| - 1];
      var d' := Run(d, size, before).0;
      && Run(d, size, ops).0.Capacity() == d'.Capacity()
      && (if Appends(d, size, ops) == Appends(d, size, before) then Run(d, size, ops).0.head == d'.head
          else Appends(d, size, ops) == Appends(d, size, before) + 1
               && d'.Capacity() > 0 && Run(d, size, ops).0.head == Onward(d'.head, 1, d'.Capacity()))
  {
    var before, op := ops[..|ops| - 1], ops[|ops| - 1];
    ApplyKeepsCapacity(Run(d, size, before).0, size, op);
    ApplyMovesHead(Run(d, size, before).0, size, op);
  }

  lemma OnwardAdds(start: nat, k: nat, n: nat)
    requires start < n
    ensures Onward(start, 0, n) == start
    ensures Onward(Onward(start, k, n), 1, n) == Onward(start, k + 1, n)
  {
    ModUnique(start, 0, start, n);
    ModStep(start + k, n);
  }

  lemma {:induction false} HeadCountsAppends(d: Deque, size: nat, ops: seq<Op>)
    requires 0 < d.Capacity() && d.head < d.Capacity()
    ensures Run(d, size, ops).0.Capacity() == d.Capacity()
    ensures Run(d, size, ops).0.head == Onward(d.head, Appends(d, size, ops), d.Capacity())
  {
    OnwardAdds(d.head, 0, d.Capacity());
    if ops != [] {
      var before := ops[..|ops| - 1];
      HeadCountsAppends(d, size, before);
      NextHead(d, size, ops);
      OnwardAdds(d.head, Appends(d, size, before), d.Capacity());
    }
  }

  lemma OffsetsDistinct(a: nat, b: nat, size: nat)
    requires size > 0
    ensures a * size == b * size <==> a == b
  {
    if a * size == b * size {
      assert (a - b) * size == 0;
      SmallMultiple(a - b, size);
    }
  }

  lemma SameResidueIff(a: nat, k: nat, n: nat)
    requires a < n
    ensures Onward(a, k, n) == a <==> k % n == 0
  {
    var r := k % n;
    assert k == (k / n) * n + r;
    ModAddMultiple(a + r, k / n, n);
    assert (a + k) % n == (a + r) % n;
    if a + r < n {
      ModUnique(a + r, 0, a + r, n);
    } else {
      ModUnique(a + r, 1, a + r - n, n);
    }
  }

  /** Whatever happened since a slot was handed out, data_put accepts it exactly when there is room and
      the elements appended since then come to a whole number of turns of the ring, none being the usual
      one. */
  lemma ReservedSlotAcceptedIff(d: Deque, size: nat, ops: seq<Op>)
    requires size > 0 && d.free != [] && d.head < d.Capacity()
    ensures var d' := Run(d, size, ops).0;
      Apply(d', size, DataPut(d.head * size)).1 == Done(true)
      <==> d'.free != [] && Appends(d, size, ops) % d.Capacity() == 0
  {
    HeadCountsAppends(d, size, ops);
    OffsetsDistinct(d.head, Run(d, size, ops).0.head, size);
    SameResidueIff(d.head, Appends(d, size, ops), d.Capacity());
  }

  /** A script that leaves a reservation alone, at the back of the queue at least. */
  predicate AtFront(ops: seq<Op>) {
    forall i | 0 <= i < |ops| :: ops[i].PutFront? || ops[i].Pop? || ops[i].Peek? || ops[i].DataPeek?
  }

  function Reserved(d: Deque, e: seq<byte>): Deque
    requires d.free != []
  {
    d.(free := d.free[0 := e])
  }

  /** The queue never fills up on the way. */
  ghost predicate NeverFull(d: Deque, size: nat, ops: seq<Op>) {
    if ops == [] then d.free != []
    else NeverFull(d, size, ops[..|ops| - 1]) && Run(d, size, ops).0.free != []
  }

  /** Until the queue fills up, scripts at the front do not see the reserved bytes; after that they are
      gone. */
  lemma {:induction false} ReservationAfter(d: Deque, size: nat, ops: seq<Op>, e: seq<byte>)
    requires d.free != [] && AtFront(ops)
    ensures var d', plain := Run(Reserved(d, e), size, ops).0, Run(d, size, ops).0;
      if NeverFull(d, size, ops) then plain.free != [] && d' == Reserved(plain, e) else d' == plain
  {
    if ops != [] {
      var before, op := ops[..|ops| - 1], ops[|ops| - 1];
      ReservationAfter(d, size, before, e);
      var plain := Run(d, size, before).0;
      if NeverFull(d, size, before) {
        ReservationStep(plain, size, op, e);
      }
    }
  }

  lemma ReservationStep(d: Deque, size: nat, op: Op, e: seq<byte>)
    requires d.free != [] && AtFront([op])
    ensures var d', plain := Apply(Reserved(d, e), size, op).0, Apply(d, size, op).0;
      if plain.free != [] then d' == Reserved(plain, e) else d' == plain
  {
    assert [op][0] == op;
  }

  /** A reservation keeps its bytes, whatever they are, exactly when the queue never fills up in between:
      put_front may use the last free slot, which is the reserved one. */
  lemma ReservationSurvivesIff(d: Deque, size: nat, ops: seq<Op>)
    requires size > 0 && d.free != [] && AtFront(ops) && Run(d, size, ops).0.free != []
    ensures (forall e | |e| == size ::
               Run(Reserved(d, e), size, ops).0.free != [] && Run(Reserved(d, e), size, ops).0.free[0] == e)
       <==> NeverFull(d, size, ops)
  {
    var plain := Run(d, size, ops).0;
    forall e | |e| == size
      ensures Run(Reserved(d, e), size, ops).0
           == if NeverFull(d, size, ops) then Reserved(plain, e) else plain
    {
      ReservationAfter(d, size, ops, e);
    }
    var zeros: seq<byte>, ones: seq<byte> := seq(size, _ => 0), seq(size, _ => 1);
    assert zeros[0] != ones[0];
    assert |zeros| == size && |ones| == size;
    if NeverFull(d, size, ops) {
      ReservationAfter(d, size, ops, zeros);
    }
  }

  /** The smallest loss: two slots, the reserved one taken by the second put_front. */
  lemma ReservationCanBeLost()
    ensures var d, ops := Deque([], [[0], [0]], 0), [PutFront([1]), PutFront([2]), Pop];
      && AtFront(ops) && !NeverFull(d, 1, ops)
      && var d' := Run(Reserved(d, [7]), 1, ops).0;
      && d'.free == [[2]] && Apply(d', 1, DataPut(0)) == (Deque([[1], [2]], [], 1), Done(true))
  {
    var d, ops := Deque([], [[0], [0]], 0), [PutFront([1]), PutFront([2]), Pop];
    RunThree(d, 1, ops[0], ops[1], ops[2]);
    var r := Deque([], [[7], [0]], 0);
    assert Reserved(d, [7]) == r;
    RunThree(r, 1, ops[0], ops[1], ops[2]);
    assert Apply(r, 1, ops[0]).0 == Deque([[1]], [[7]], 0);
    assert Apply(Deque([[1]], [[7]], 0), 1, ops[1]).0 == Deque([[2], [1]], [], 0);
    var last := Deque([[1]], [[2]], 0);
    assert Apply(Deque([[2], [1]], [], 0), 1, ops[2]).0 == last;
    assert last.queue + [last.free[0]] == [[1], [2]] && last.free[1..] == [] && Onward(0, 1, last.Capacity()) == 1;
    assert Appended(last, last.free[0]) == Deque([[1], [2]], [], 1);
    var two := ops[..2];
    assert two == [ops[0], ops[1]] && ops[..|ops| - 1] == two && Run(d, 1, two).0.free == [];
    assert !NeverFull(d, 1, two);
  }

  lemma RunThree(d: Deque, size: nat, a: Op, b: Op, c: Op)
    ensures var d1 := Apply(d, size, a).0;
      var d2 := Apply(d1, size, b).0;
      && Run(d, size, [a, b]).0 == d2
      && Run(d, size, [a, b, c]).0 == Apply(d2, size, c).0
  {
    assert [a][..0] == [] && [a, b][..1] == [a] && [a, b, c][..2] == [a, b];
    assert Run(d, size, [a]).0 == Apply(d, size, a).0;
  }

  // ----- what the operations amount to

  /** Room decides every addition, and emptiness every removal; peeking sees what popping would take. */
  lemma Replies(d: Deque, size: nat, e: seq<byte>)
    ensures Apply(d, size, Put(e)).1 == Done(|d.queue| < d.Capacity())
    ensures Apply(d, size, PutFront(e)).1 == Done(|d.queue| < d.Capacity())
    ensures |d.queue| < d.Capacity() ==> Apply(d, size, Put(e)).0.queue == d.queue + [e]
    ensures Apply(d, size, Pop).1 == Apply(d, size, Peek).1 == Got(if |d.queue| == 0 then None else Some(d.queue[0]))
    ensures Apply(d, size, Peek).0 == Apply(d, size, DataPeek).0 == d
    ensures Apply(d, size, DataPeek).1 == Slot(if |d.queue| == d.Capacity() then None else Some(d.head * size))
  {
  }

  /** What was put in front is popped first, and the queue is as before. */
  lemma PopUndoesPutFront(d: Deque, size: nat, e: seq<byte>)
    requires |d.queue| < d.Capacity()
    ensures var d' := Apply(d, size, PutFront(e)).0;
      Apply(d', size, Pop).1 == Got(Some(e)) && Apply(d', size, Pop).0.queue == d.queue
  {
  }

  /** Fills of the bytes of e, in order, from byte 0 up to n. */
  function Fills(e: seq<byte>, n: nat): seq<Op>
    requires n <= |e|
  {
    if n == 0 then [] else Fills(e, n - 1) + [Fill(n - 1, e[n - 1])]
  }

  lemma RunNext(d: Deque, size: nat, ops: seq<Op>, op: Op)
    ensures Run(d, size, ops + [op]).0 == Apply(Run(d, size, ops).0, size, op).0
  {
    assert (ops + [op])[..|ops + [op]| - 1] == ops;
  }

  lemma PrefixGrows(a: seq<byte>, e: seq<byte>, i: nat)
    requires |a| == |e| && i < |e| && a[..i] == e[..i]
    ensures a[i := e[i]][..i + 1] == e[..i + 1]
  {
    assert e[..i + 1] == e[..i] + [e[i]];
  }

  lemma {:induction false} FillsWrite(d: Deque, size: nat, e: seq<byte>, n: nat)
    requires d.free != [] && |d.free[0]| == |e| && n <= |e|
    ensures var d' := Run(d, size, Fills(e, n)).0;
      && d' == d.(free := d'.free) && d'.free != [] && |d'.free[0]| == |e|
      && d'.free[1..] == d.free[1..] && d'.free[0][..n] == e[..n]
    decreases n
  {
    if n > 0 {
      FillsWrite(d, size, e, n - 1);
      RunNext(d, size, Fills(e, n - 1), Fill(n - 1, e[n - 1]));
      PrefixGrows(Run(d, size, Fills(e, n - 1)).0.free[0], e, n - 1);
    }
  }

  lemma SameAppend(d: Deque, d': Deque, e: seq<byte>)
    requires d.free != [] && d'.free != [] && d' == d.(free := d'.free) && d'.free[1..] == d.free[1..]
    ensures Appended(d', e) == Appended(d, e)
  {
    assert |d'.free| == 1 + |d'.free[1..]| && |d.free| == 1 + |d.free[1..]|;
  }

  /** Reserving the head slot, filling it byte by byte and publishing it is putting the element. */
  lemma FilledReservationIsPut(d: Deque, size: nat, e: seq<byte>)
    requires d.free != [] && |d.free[0]| == |e|
    ensures Run(d, size, Fills(e, |e|) + [DataPut(d.head * size)]).0 == Apply(d, size, Put(e)).0
  {
    FillsWrite(d, size, e, |e|);
    RunNext(d, size, Fills(e, |e|), DataPut(d.head * size));
    var d' := Run(d, size, Fills(e, |e|)).0;
    assert d'.free[0][..|e|] == d'.free[0] && e[..|e|] == e;
    SameAppend(d, d', e);
  }
}
