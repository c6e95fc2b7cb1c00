/** The ring buffer shared without a lock by one producer and one consumer, as core/mpu.c uses the
    receive queue. Every load of a counter, every byte copied and every store of a counter is a step
    of its own, and a run is any interleaving of such steps. */
module RingSpsc {
  import opened Words
  import opened RingLayout

  /** ringbuf_put copies an element in; a reservation is ringbuf_data_peek, writes through the
      pointer in any order, then ringbuf_data_put. */
  datatype Job = PutJob(element: seq<byte>) | ReserveJob

  /** Where the producer is. c is the counter whose slot its pointer designates; shadow is what
      it has left in that slot; h is a value loaded from head. */
  datatype Producer =
    | Idle
    | Counting(job: Job, h: word)
    | HasSpace(job: Job)
    | Copying(element: seq<byte>, c: word, copied: nat)
    | Writing(c: word, shadow: seq<byte>)
    | Recounting(c: word, shadow: seq<byte>, h: word)
    | Comparing(c: word, shadow: seq<byte>)
    | Publishing(element: seq<byte>, h: word)

  /** Where the consumer is. A peeking consumer reads any bytes it likes through the pointer, in any order
      and as often as it likes, and then either calls ringbuf_pop(NULL) or gives up and leaves the element
      queued, as mpu_msg_handle does when its handler fails; a popping one copies the element out once.
      seen is the number of elements published when head was loaded. */
  datatype Consumer =
    | Waiting
    | Testing(peeking: bool, h: word, seen: nat)
    | HasElement(peeking: bool)
    | Viewing(c: word, viewed: map<nat, byte>)
    | Retesting(h: word, seen: nat)
    | Dropping(t: word)
    | Reading(c: word, got: seq<byte>)
    | Releasing(got: seq<byte>, t: word)

  datatype Action =
    | Begin(job: Job)          // producer starts a job
    | WriteByte(k: nat, b: byte) // producer writes through a reserved pointer
    | Produce                  // producer takes its next step
    | BeginTake(peek: bool)    // consumer starts ringbuf_peek or ringbuf_pop
    | View(k: nat)             // a peeking consumer reads a byte
    | Abandon                  // a peeking consumer gives up
    | Consume                  // consumer takes its next step

  /** The shared memory, both program counters, and the history: what was published, what was taken,
      and how often a data_put after a data_peek, or a pop after a peek, was refused. */
  datatype State = State(buf: seq<byte>, head: word, tail: word, prod: Producer, cons: Consumer,
                         produced: seq<seq<byte>>, consumed: seq<seq<byte>>, refused: nat)

  ghost predicate WellFormed(g: Geometry, s: State) {
    && g.Valid() && g.Fits(s.buf)
    && (s.prod.Copying? ==> |s.prod.element| == g.size)
    && (s.prod.Writing? ==> |s.prod.shadow| == g.size)
  }

  function Initial(buf: seq<byte>): State {
    State(buf, 0, 0, Idle, Waiting, [], [], 0)
  }

  function Step(g: Geometry, s: State, a: Action): State
    requires WellFormed(g, s)
  {
    match a
    case Begin(job) =>
      if s.prod.Idle? && (job.PutJob? ==> |job.element| == g.size) then s.(prod := Counting(job, s.head)) else s
    case WriteByte(k, b) =>
      if s.prod.Writing? && k < g.size then
        s.(buf := s.buf[Offset(g, s.prod.c) + k := b], prod := Writing(s.prod.c, s.prod.shadow[k := b]))
      else s
    case Produce => ProducerStep(g, s)
    case BeginTake(peek) =>
      if s.cons.Waiting? then s.(cons := Testing(peek, s.head, |s.produced|)) else s
    case View(k) =>
      if s.cons.Viewing? && k < g.size then
        s.(cons := Viewing(s.cons.c, s.cons.viewed[k := s.buf[Offset(g, s.cons.c) + k]]))
      else s
    case Abandon => if s.cons.Viewing? then s.(cons := Waiting) else s
    case Consume => ConsumerStep(g, s)
  }

  function ProducerStep(g: Geometry, s: State): State
    requires WellFormed(g, s)
  {
    match s.prod
    case Idle => s
    case Counting(job, h) =>
      s.(prod := if Sub(h, s.tail) == g.count then Idle else HasSpace(job))
    case HasSpace(PutJob(e)) =>
      if |e| == g.size then s.(prod := Copying(e, s.head, 0)) else s
    case HasSpace(ReserveJob) => s.(prod := Writing(s.head, Element(g, s.buf, s.head)))
    case Copying(e, c, n) =>
      if n < g.size then s.(buf := s.buf[Offset(g, c) + n := e[n]], prod := Copying(e, c, n + 1))
      else s.(prod := Publishing(e, s.head))
    case Writing(c, shadow) => s.(prod := Recounting(c, shadow, s.head))
    case Recounting(c, shadow, h) =>
      if Sub(h, s.tail) == g.count then s.(prod := Idle, refused := s.refused + 1)
      else s.(prod := Comparing(c, shadow))
    case Comparing(c, shadow) =>
      if Offset(g, s.head) == Offset(g, c) then s.(prod := Publishing(shadow, s.head))
      else s.(prod := Idle, refused := s.refused + 1)
    case Publishing(e, h) => s.(head := Add(h, 1), prod := Idle, produced := s.produced + [e])
  }

  function ConsumerStep(g: Geometry, s: State): State
    requires WellFormed(g, s)
  {
    match s.cons
    case Waiting => s
    case Testing(peek, h, _) =>
      s.(cons := if Sub(h, s.tail) == 0 then Waiting else HasElement(peek))
    case HasElement(peek) => s.(cons := if peek then Viewing(s.tail, map[]) else Reading(s.tail, []))
    case Viewing(_, _) => s.(cons := Retesting(s.head, |s.produced|))
    case Retesting(h, _) =>
      if Sub(h, s.tail) == 0 then s.(cons := Waiting, refused := s.refused + 1)
      else s.(cons := Dropping(s.tail))
    case Dropping(t) =>
      s.(tail := Add(t, 1), cons := Waiting, consumed := s.consumed + [Element(g, s.buf, t)])
    case Reading(c, got) =>
      if |got| < g.size then s.(cons := Reading(c, got + [s.buf[Offset(g, c) + |got|]]))
      else s.(cons := Releasing(got, s.tail))
    case Releasing(got, t) => s.(tail := Add(t, 1), cons := Waiting, consumed := s.consumed + [got])
  }

  ghost predicate HasRoom(g: Geometry, s: State) {
    |s.produced| - |s.consumed| < g.count
  }

  ghost predicate NonEmpty(s: State) {
    |s.consumed| < |s.produced|
  }

  ghost predicate ProducerInv(g: Geometry, s: State)
    requires g.Valid() && g.Fits(s.buf)
  {
    match s.prod
    case Idle => true
    case Counting(job, h) => h == s.head && (job.PutJob? ==> |job.element| == g.size)
    case HasSpace(job) => HasRoom(g, s) && (job.PutJob? ==> |job.element| == g.size)
    case Copying(e, c, n) =>
      HasRoom(g, s) && c == s.head && |e| == g.size && n <= g.size && Element(g, s.buf, c)[..n] == e[..n]
    case Writing(c, shadow) => HasRoom(g, s) && c == s.head && Element(g, s.buf, c) == shadow
    case Recounting(c, shadow, h) =>
      HasRoom(g, s) && c == h == s.head && Element(g, s.buf, c) == shadow
    case Comparing(c, shadow) => HasRoom(g, s) && c == s.head && Element(g, s.buf, c) == shadow
    case Publishing(e, h) => HasRoom(g, s) && h == s.head && Element(g, s.buf, h) == e
  }

  /** The bytes seen are bytes of e. */
  ghost predicate Agrees(viewed: map<nat, byte>, e: seq<byte>) {
    forall k | k in viewed :: k < |e| && viewed[k] == e[k]
  }

  ghost predicate ConsumerInv(g: Geometry, s: State) {
    match s.cons
    case Waiting => true
    case Testing(_, h, seen) => |s.consumed| <= seen <= |s.produced| && h == seen % WORD
    case HasElement(_) => NonEmpty(s)
    case Viewing(c, viewed) => NonEmpty(s) && c == s.tail && Agrees(viewed, s.produced[|s.consumed|])
    case Retesting(h, seen) => |s.consumed| < seen <= |s.produced| && h == seen % WORD
    case Dropping(t) => NonEmpty(s) && t == s.tail
    case Reading(c, got) =>
      NonEmpty(s) && c == s.tail && |got| <= g.size && got <= s.produced[|s.consumed|]
    case Releasing(got, t) => NonEmpty(s) && t == s.tail && got == s.produced[|s.consumed|]
  }

  /** The counters count what was published and taken, the slots hold what is in between, and what
      was taken is a prefix of what was published. */
  ghost predicate QueueInv(g: Geometry, s: State) {
    && g.Valid() && g.Fits(s.buf)
    && s.consumed <= s.produced
    && |s.produced| - |s.consumed| <= g.count
    && s.head == |s.produced| % WORD && s.tail == |s.consumed| % WORD
    && Contents(g, s.buf, s.head, s.tail) == s.produced[|s.consumed|..]
    && s.refused == 0
  }

  ghost predicate Inv(g: Geometry, s: State) {
    QueueInv(g, s) && ProducerInv(g, s) && ConsumerInv(g, s)
  }

  lemma FrontElement(g: Geometry, s: State)
    requires QueueInv(g, s) && NonEmpty(s)
    ensures Element(g, s.buf, s.tail) == s.produced[|s.consumed|]
  {
    TailBumpDrops(g, s.buf, s.head, s.tail);
    assert s.produced[|s.consumed|..][0] == s.produced[|s.consumed|];
  }

  /** A write into the slot under head is seen by nobody but the producer. */
  lemma WriteKeepsQueue(g: Geometry, s: State, k: nat, b: byte)
    requires QueueInv(g, s) && HasRoom(g, s) && k < g.size
    ensures QueueInv(g, s.(buf := s.buf[Offset(g, s.head) + k := b]))
    ensures Element(g, s.buf[Offset(g, s.head) + k := b], s.head) == Element(g, s.buf, s.head)[k := b]
  {
    ReservedSlotInvisible(g, s.buf, s.buf[Offset(g, s.head) + k := b], s.head, s.tail);
  }

  lemma CopyKeepsInv(g: Geometry, s: State)
    requires Inv(g, s) && s.prod.Copying?
    ensures Inv(g, ProducerStep(g, s))
  {
    var Copying(e, c, n) := s.prod;
    if n < g.size {
      WriteKeepsQueue(g, s, n, e[n]);
      assert Element(g, s.buf, c)[n := e[n]][..n + 1] == Element(g, s.buf, c)[..n] + [e[n]];
    }
  }

  lemma PublishExtendsQueue(g: Geometry, s: State, e: seq<byte>)
    requires QueueInv(g, s) && HasRoom(g, s) && Element(g, s.buf, s.head) == e
    ensures QueueInv(g, s.(head := Add(s.head, 1), produced := s.produced + [e]))
  {
    QueueLength(g, s);
    HeadBumpAppends(g, s.buf, s.head, s.tail);
    CounterNext(|s.produced|);
    assert (s.produced + [e])[|s.consumed|..] == s.produced[|s.consumed|..] + [e];
  }

  lemma PublishKeepsInv(g: Geometry, s: State)
    requires Inv(g, s) && s.prod.Publishing?
    ensures Inv(g, ProducerStep(g, s))
  {
    var e := s.prod.element;
    PublishExtendsQueue(g, s, e);
    PublishKeepsConsumerInv(g, s, s.(head := Add(s.head, 1), produced := s.produced + [e], prod := Idle), e);
  }

  lemma PublishKeepsConsumerInv(g: Geometry, s: State, s': State, e: seq<byte>)
    requires ConsumerInv(g, s)
    requires s'.cons == s.cons && s'.consumed == s.consumed && s'.tail == s.tail
    requires s'.produced == s.produced + [e]
    ensures ConsumerInv(g, s')
  {
  }

  lemma QueueLength(g: Geometry, s: State)
    requires QueueInv(g, s)
    ensures Sub(s.head, s.tail) == |s.produced| - |s.consumed|
  {
    assert |Contents(g, s.buf, s.head, s.tail)| == |s.produced[|s.consumed|..]|;
  }

  /** Steps of the producer that only look at the shared memory. */
  lemma ProducerLooks(g: Geometry, s: State)
    requires Inv(g, s) && !s.prod.Copying? && !s.prod.Publishing?
    ensures ProducerInv(g, ProducerStep(g, s))
    ensures ProducerStep(g, s) == s.(prod := ProducerStep(g, s).prod)
  {
    QueueLength(g, s);
  }

  lemma ProducerKeepsInv(g: Geometry, s: State)
    requires Inv(g, s)
    ensures Inv(g, ProducerStep(g, s))
  {
    if s.prod.Copying? {
      CopyKeepsInv(g, s);
    } else if s.prod.Publishing? {
      PublishKeepsInv(g, s);
    } else {
      ProducerLooks(g, s);
    }
  }

  lemma ReadKeepsInv(g: Geometry, s: State)
    requires Inv(g, s) && s.cons.Reading?
    ensures Inv(g, ConsumerStep(g, s))
  {
    FrontElement(g, s);
    var Reading(c, got) := s.cons;
    if |got| < g.size {
      assert got + [s.buf[Offset(g, c) + |got|]] == Element(g, s.buf, c)[..|got| + 1];
    }
  }

  lemma ViewKeepsInv(g: Geometry, s: State, k: nat)
    requires Inv(g, s)
    ensures Inv(g, Step(g, s, View(k)))
  {
    if s.cons.Viewing? {
      FrontElement(g, s);
      assert k < g.size ==> Element(g, s.buf, s.cons.c)[k] == s.buf[Offset(g, s.cons.c) + k];
    }
  }

  lemma ReleaseShrinksQueue(g: Geometry, s: State)
    requires QueueInv(g, s) && NonEmpty(s)
    ensures QueueInv(g, s.(tail := Add(s.tail, 1), consumed := s.consumed + [s.produced[|s.consumed|]]))
  {
    var n := |s.consumed|;
    QueueLength(g, s);
    TailBumpDrops(g, s.buf, s.head, s.tail);
    CounterNext(n);
    assert s.produced[n..] == [s.produced[n]] + s.produced[n + 1..];
  }

  lemma ReleaseKeepsProducerInv(g: Geometry, s: State, s': State)
    requires g.Valid() && g.Fits(s.buf) && ProducerInv(g, s)
    requires s'.prod == s.prod && s'.buf == s.buf && s'.head == s.head && s'.produced == s.produced
    requires |s'.consumed| >= |s.consumed|
    ensures ProducerInv(g, s')
  {
    assert HasRoom(g, s) ==> HasRoom(g, s');
  }

  lemma ReleaseKeepsInv(g: Geometry, s: State)
    requires Inv(g, s) && (s.cons.Releasing? || s.cons.Dropping?)
    ensures Inv(g, ConsumerStep(g, s))
  {
    FrontElement(g, s);
    ReleaseShrinksQueue(g, s);
    ReleaseKeepsProducerInv(g, s, ConsumerStep(g, s));
  }

  /** An emptiness test on a head loaded earlier errs only towards "empty". */
  lemma TestKeepsInv(g: Geometry, s: State)
    requires Inv(g, s) && (s.cons.Testing? || s.cons.Retesting?)
    ensures Inv(g, ConsumerStep(g, s))
  {
    CounterGap(|s.consumed|, s.cons.seen);
  }

  lemma ConsumerKeepsInv(g: Geometry, s: State)
    requires Inv(g, s)
    ensures Inv(g, ConsumerStep(g, s))
  {
    if s.cons.Reading? {
      ReadKeepsInv(g, s);
    } else if s.cons.Releasing? || s.cons.Dropping? {
      ReleaseKeepsInv(g, s);
    } else if s.cons.Testing? || s.cons.Retesting? {
      TestKeepsInv(g, s);
    }
  }

  lemma StartKeepsInv(g: Geometry, s: State, a: Action)
    requires Inv(g, s) && (a.Begin? || a.BeginTake? || a.Abandon?)
    ensures Inv(g, Step(g, s, a))
  {
  }

  lemma StepKeepsInv(g: Geometry, s: State, a: Action)
    requires Inv(g, s)
    ensures Inv(g, Step(g, s, a))
  {
    match a
    case Produce => ProducerKeepsInv(g, s);
    case Consume => ConsumerKeepsInv(g, s);
    case WriteByte(k, b) =>
      if s.prod.Writing? && k < g.size {
        WriteKeepsQueue(g, s, k, b);
      }
    case View(k) => ViewKeepsInv(g, s, k);
    case _ => StartKeepsInv(g, s, a);
  }

  lemma InitialInv(g: Geometry, buf: seq<byte>)
    requires g.Valid() && g.Fits(buf)
    ensures Inv(g, Initial(buf))
  {
  }

  lemma StepKeepsWellFormed(g: Geometry, s: State, a: Action)
    requires WellFormed(g, s)
    ensures WellFormed(g, Step(g, s, a))
  {
  }

  /** The state after any interleaving. */
  function Run(g: Geometry, buf: seq<byte>, actions: seq<Action>): (s: State)
    requires g.Valid() && g.Fits(buf)
    ensures WellFormed(g, s)
  {
    if actions == [] then Initial(buf)
    else
      var s := Run(g, buf, actions[..|actions| - 1]);
      StepKeepsWellFormed(g, s, actions[|actions| - 1]);
      Step(g, s, actions[|actions| - 1])
  }

  lemma {:induction false} RunKeepsInv(g: Geometry, buf: seq<byte>, actions: seq<Action>)
    requires g.Valid() && g.Fits(buf)
    ensures Inv(g, Run(g, buf, actions))
  {
    if actions == [] {
      InitialInv(g, buf);
    } else {
      RunKeepsInv(g, buf, actions[..|actions| - 1]);
      StepKeepsInv(g, Run(g, buf, actions[..|actions| - 1]), actions[|actions| - 1]);
    }
  }

  /** Safety of every interleaving: what has been taken is a prefix of what was published, the
      32-bit counters never drift past the capacity, and neither a data_put after a data_peek nor a
      pop after a peek is ever refused; whether or not peeks are abandoned on the way. */
  lemma EveryRunIsSafe(g: Geometry, buf: seq<byte>, actions: seq<Action>)
    requires g.Valid() && g.Fits(buf)
    ensures var s := Run(g, buf, actions);
      && s.consumed <= s.produced
      && 0 <= Sub(s.head, s.tail) <= g.count
      && Sub(s.head, s.tail) == |s.produced| - |s.consumed|
      && s.refused == 0
  {
    RunKeepsInv(g, buf, actions);
    QueueLength(g, Run(g, buf, actions));
  }

  /** No torn reads: the bytes a consumer has seen so far, whether copied out or looked at through the
      pointer of a peek, are those of the next element to take, and its slot still holds all of it. */
  lemma NoTornRead(g: Geometry, buf: seq<byte>, actions: seq<Action>)
    requires g.Valid() && g.Fits(buf)
    ensures var s := Run(g, buf, actions);
      s.cons.Reading? || s.cons.Viewing? ==>
        && |s.consumed| < |s.produced|
        && Element(g, s.buf, s.cons.c) == s.produced[|s.consumed|]
        && if s.cons.Reading? then s.cons.got <= s.produced[|s.consumed|]
           else Agrees(s.cons.viewed, s.produced[|s.consumed|])
  {
    var s := Run(g, buf, actions);
    RunKeepsInv(g, buf, actions);
    if s.cons.Reading? || s.cons.Viewing? {
      FrontElement(g, s);
    }
  }

  lemma StepGrows(g: Geometry, s: State, a: Action)
    requires WellFormed(g, s)
    ensures Extends(s, Step(g, s, a))
  {
  }

  lemma RunStep(g: Geometry, buf: seq<byte>, actions: seq<Action>, a: Action)
    requires g.Valid() && g.Fits(buf)
    ensures Run(g, buf, actions + [a]) == Step(g, Run(g, buf, actions), a)
  {
    assert (actions + [a])[..|actions + [a]| - 1] == actions;
  }

  ghost predicate Extends(s: State, s': State) {
    s.produced <= s'.produced && s.consumed <= s'.consumed
  }

  lemma ExtendsTransitive(s: State, s': State, s'': State)
    requires Extends(s, s') && Extends(s', s'')
    ensures Extends(s, s'')
  {
  }

  lemma {:induction false} HistoryGrows(g: Geometry, buf: seq<byte>, actions: seq<Action>, more: seq<Action>)
    requires g.Valid() && g.Fits(buf)
    ensures Extends(Run(g, buf, actions), Run(g, buf, actions + more))
  {
    if more == [] {
      assert actions + more == actions;
    } else {
      var fewer, last := more[..|more| - 1], more[|more| - 1];
      HistoryGrows(g, buf, actions, fewer);
      assert actions + more == (actions + fewer) + [last];
      RunStep(g, buf, actions + fewer, last);
      StepGrows(g, Run(g, buf, actions + fewer), last);
      ExtendsTransitive(Run(g, buf, actions), Run(g, buf, actions + fewer), Run(g, buf, actions + more));
    }
  }

  /** A peeked element stays as it is until it is popped, whatever the producer does meanwhile. */
  lemma PeekedElementIsStable(g: Geometry, buf: seq<byte>, actions: seq<Action>, more: seq<Action>)
    requires g.Valid() && g.Fits(buf)
    ensures var before, after := Run(g, buf, actions), Run(g, buf, actions + more);
      NonEmpty(before) && |after.consumed| == |before.consumed| ==>
        after.tail == before.tail && Element(g, after.buf, after.tail) == Element(g, before.buf, before.tail)
  {
    var before, after := Run(g, buf, actions), Run(g, buf, actions + more);
    HistoryGrows(g, buf, actions, more);
    RunKeepsInv(g, buf, actions);
    RunKeepsInv(g, buf, actions + more);
    if NonEmpty(before) && |after.consumed| == |before.consumed| {
      FrontElement(g, before);
      FrontElement(g, after);
    }
  }
}
