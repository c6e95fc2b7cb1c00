/** What the two sides of the shared ring get done: an operation takes a fixed number of its own steps, whatever
    the other side does in between, and then has had exactly its effect. */
module RingProgress {
  import opened Words
  import opened RingLayout
  import opened RingSpsc

  /** The state after some actions, from any state. */
  function Steps(g: Geometry, s: State, actions: seq<Action>): (s': State)
    requires WellFormed(g, s)
    ensures WellFormed(g, s')
    decreases |actions|
  {
    if |actions| == 0 then s
    else
      var before := Steps(g, s, actions[..|actions| - 1]);
      StepKeepsWellFormed(g, before, actions[|actions| - 1]);
      Step(g, before, actions[|actions| - 1])
  }

  function Count(actions: seq<Action>, a: Action): nat {
    if |actions| == 0 then 0
    else Count(actions[..|actions| - 1], a) + if actions[|actions| - 1] == a then 1 else 0
  }

  // ----- taking

  /** How many steps of its own the consumer still needs. */
  function TakeSteps(g: Geometry, c: Consumer): nat {
    match c
    case Waiting => 0
    case Testing(peek, _, _) => if peek then 5 else g.size + 4
    case HasElement(peek) => if peek then 4 else g.size + 3
    case Viewing(_, _) => 3
    case Retesting(_, _) => 2
    case Dropping(_) => 1
    case Reading(_, got) => if |got| < g.size then g.size - |got| + 2 else 2
    case Releasing(_, _) => 1
  }

  /** The consumer is on its way to an element. */
  ghost predicate Taking(s: State) {
    !s.cons.Waiting? && (s.cons.Testing? ==> |s.consumed| < s.cons.seen)
  }

  /** It has found nothing but does not know yet. */
  ghost predicate Missing(s: State) {
    s.cons.Testing? && s.cons.seen == |s.consumed|
  }

  ghost predicate Taken(s: State, s': State) {
    |s.consumed| < |s.produced| && s'.consumed == s.consumed + [s.produced[|s.consumed|]]
  }

  lemma TakeStep(g: Geometry, s: State)
    requires Inv(g, s) && Taking(s)
    ensures NonEmpty(s)
    ensures var s' := Step(g, s, Consume);
      if TakeSteps(g, s.cons) == 1 then s'.cons.Waiting? && Taken(s, s')
      else Taking(s') && s'.consumed == s.consumed && TakeSteps(g, s'.cons) == TakeSteps(g, s.cons) - 1
  {
    if s.cons.Testing? || s.cons.Retesting? {
      CounterGap(|s.consumed|, s.cons.seen);
    } else {
      FrontElement(g, s);
    }
  }

  /** Steps other than the consumer's own leave it where it is. */
  lemma OtherStep(g: Geometry, s: State, a: Action)
    requires Inv(g, s) && !a.Consume? && !a.BeginTake? && !a.Abandon?
    ensures var s' := Step(g, s, a);
      && s'.consumed == s.consumed && TakeSteps(g, s'.cons) == TakeSteps(g, s.cons)
      && (s'.cons.Waiting? <==> s.cons.Waiting?) && (Taking(s) <==> Taking(s')) && (Missing(s) <==> Missing(s'))
  {
  }

  ghost predicate NoTurnBack(actions: seq<Action>) {
    forall i | 0 <= i < |actions| :: !actions[i].BeginTake? && !actions[i].Abandon?
  }

  /** Where a consumer is after some actions of anyone, given how many of them were its own. */
  ghost predicate TakeProgress(g: Geometry, s: State, own: nat, s': State) {
    if own < TakeSteps(g, s.cons) then
      Taking(s') && s'.consumed == s.consumed && TakeSteps(g, s'.cons) == TakeSteps(g, s.cons) - own
    else s'.cons.Waiting? && Taken(s, s')
  }

  lemma ProgressByStep(g: Geometry, s: State, own: nat, s1: State, a: Action)
    requires Inv(g, s1) && s.produced <= s1.produced && NonEmpty(s)
    requires TakeProgress(g, s, own, s1) && !a.BeginTake? && !a.Abandon?
    ensures TakeProgress(g, s, own + if a == Consume then 1 else 0, Step(g, s1, a))
  {
    if a.Consume? {
      if own < TakeSteps(g, s.cons) {
        TakeStep(g, s1);
      }
    } else {
      OtherStep(g, s1, a);
    }
  }

  lemma {:induction false} StepsKeepInv(g: Geometry, s: State, actions: seq<Action>)
    requires Inv(g, s)
    ensures WellFormed(g, s) && Inv(g, Steps(g, s, actions)) && Extends(s, Steps(g, s, actions))
    decreases |actions|
  {
    if |actions| > 0 {
      var fewer := actions[..|actions| - 1];
      StepsKeepInv(g, s, fewer);
      StepKeepsInv(g, Steps(g, s, fewer), actions[|actions| - 1]);
      StepGrows(g, Steps(g, s, fewer), actions[|actions| - 1]);
    }
  }

  lemma {:induction false} TakingProgress(g: Geometry, s: State, actions: seq<Action>)
    requires Inv(g, s) && Taking(s) && NoTurnBack(actions)
    ensures WellFormed(g, s) && TakeProgress(g, s, Count(actions, Consume), Steps(g, s, actions))
    decreases |actions|
  {
    if |actions| > 0 {
      var fewer := actions[..|actions| - 1];
      TakingProgress(g, s, fewer);
      StepsKeepInv(g, s, fewer);
      TakeStep(g, s);
      ProgressByStep(g, s, Count(fewer, Consume), Steps(g, s, fewer), actions[|actions| - 1]);
    }
  }

  lemma {:induction false} MissingProgress(g: Geometry, s: State, actions: seq<Action>)
    requires Inv(g, s) && Missing(s) && NoTurnBack(actions)
    ensures WellFormed(g, s)
    ensures var s' := Steps(g, s, actions);
      s'.consumed == s.consumed && if Count(actions, Consume) == 0 then Missing(s') else s'.cons.Waiting?
    decreases |actions|
  {
    if |actions| > 0 {
      var fewer, a := actions[..|actions| - 1], actions[|actions| - 1];
      MissingProgress(g, s, fewer);
      StepsKeepInv(g, s, fewer);
      var s1 := Steps(g, s, fewer);
      if !a.Consume? {
        OtherStep(g, s1, a);
      } else if Missing(s1) {
        CounterGap(|s1.consumed|, s1.cons.seen);
      }
    }
  }

  /** A pop, of either kind, is wait-free: if there was an element when it began, it takes exactly the front one
      in 5 steps of its own after a peek and in size + 4 otherwise, and not before, whatever the producer does
      meanwhile; if there was none, it takes nothing, and has found out in one step. */
  lemma TakeIsWaitFree(g: Geometry, s: State, peek: bool, actions: seq<Action>)
    requires Inv(g, s) && s.cons.Waiting? && NoTurnBack(actions)
    ensures WellFormed(g, s) && WellFormed(g, Step(g, s, BeginTake(peek)))
    ensures var s', own := Steps(g, Step(g, s, BeginTake(peek)), actions), Count(actions, Consume);
      && (NonEmpty(s) && own >= (if peek then 5 else g.size + 4) ==>
            s'.cons.Waiting? && s'.consumed == s.consumed + [s.produced[|s.consumed|]])
      && (NonEmpty(s) && own < (if peek then 5 else g.size + 4) ==>
            !s'.cons.Waiting? && s'.consumed == s.consumed)
      && (!NonEmpty(s) ==> s'.consumed == s.consumed && (s'.cons.Waiting? <==> own >= 1))
  {
    StepKeepsInv(g, s, BeginTake(peek));
    if NonEmpty(s) {
      TakingProgress(g, Step(g, s, BeginTake(peek)), actions);
    } else {
      MissingProgress(g, Step(g, s, BeginTake(peek)), actions);
    }
  }

  /** Looking at a byte of a peeked element shows that element's byte. */
  lemma ViewShows(g: Geometry, s: State, k: nat)
    requires Inv(g, s) && s.cons.Viewing? && k < g.size
    ensures NonEmpty(s) && k < |s.produced[|s.consumed|]|
    ensures var s' := Step(g, s, View(k));
      && s'.cons.Viewing? && k in s'.cons.viewed && s'.cons.viewed[k] == s.produced[|s.consumed|][k]
      && s' == s.(cons := s'.cons)
  {
    FrontElement(g, s);
    assert Element(g, s.buf, s.cons.c)[k] == s.buf[Offset(g, s.cons.c) + k];
  }

  lemma {:induction false} ViewsOnlyLook(g: Geometry, s: State, views: seq<Action>)
    requires WellFormed(g, s) && s.cons.Viewing? && forall i | 0 <= i < |views| :: views[i].View?
    ensures var s' := Steps(g, s, views);
      s'.cons.Viewing? && s' == s.(cons := s'.cons)
    decreases |views|
  {
    if |views| > 0 {
      ViewsOnlyLook(g, s, views[..|views| - 1]);
    }
  }

  lemma {:induction false} StepsAppend(g: Geometry, s: State, a: seq<Action>, b: seq<Action>)
    requires WellFormed(g, s)
    ensures Steps(g, s, a + b) == Steps(g, Steps(g, s, a), b)
    decreases |b|
  {
    if b == [] {
      assert a + b == a;
    } else {
      assert (a + b)[..|a + b| - 1] == a + b[..|b| - 1];
      StepsAppend(g, s, a, b[..|b| - 1]);
    }
  }

  lemma StepsOne(g: Geometry, s: State, a: Action)
    requires WellFormed(g, s)
    ensures Steps(g, s, [a]) == Step(g, s, a)
  {
    assert [a][..0] == [];
    assert Steps(g, s, [a][..0]) == s;
  }

  lemma StepsThree(g: Geometry, s: State, a: Action, b: Action, c: Action)
    requires WellFormed(g, s)
    ensures WellFormed(g, Step(g, s, a)) && WellFormed(g, Step(g, Step(g, s, a), b))
    ensures Steps(g, s, [a, b, c]) == Step(g, Step(g, Step(g, s, a), b), c)
  {
    StepKeepsWellFormed(g, s, a);
    StepKeepsWellFormed(g, Step(g, s, a), b);
    assert [a, b, c] == [a] + [b] + [c];
    StepsAppend(g, s, [a] + [b], [c]);
    StepsAppend(g, s, [a], [b]);
    StepsOne(g, s, a);
    StepsOne(g, Step(g, s, a), b);
    StepsOne(g, Step(g, Step(g, s, a), b), c);
  }

  /** Two steps after a peek has begun its caller has the pointer. */
  lemma PeekOpens(g: Geometry, s: State)
    requires Inv(g, s) && s.cons.Waiting? && NonEmpty(s)
    ensures WellFormed(g, s)
    ensures Steps(g, s, [BeginTake(true), Consume, Consume]) == s.(cons := Viewing(s.tail, map[]))
  {
    StepsThree(g, s, BeginTake(true), Consume, Consume);
    CounterGap(|s.consumed|, |s.produced|);
  }

  /** A peek that is given up has changed nothing, whatever it looked at. */
  lemma AbandonedPeekLeavesNoTrace(g: Geometry, s: State, views: seq<Action>)
    requires Inv(g, s) && s.cons.Waiting? && NonEmpty(s) && forall i | 0 <= i < |views| :: views[i].View?
    ensures WellFormed(g, s)
    ensures Steps(g, s, [BeginTake(true), Consume, Consume] + views + [Abandon]) == s
  {
    var begin := [BeginTake(true), Consume, Consume];
    var open := Steps(g, s, begin);
    PeekOpens(g, s);
    ViewsOnlyLook(g, open, views);
    StepsAppend(g, s, begin + views, [Abandon]);
    StepsAppend(g, s, begin, views);
    StepsOne(g, Steps(g, open, views), Abandon);
  }

  // ----- putting

  /** How many steps of its own the producer still needs. */
  function PutSteps(g: Geometry, p: Producer): nat {
    match p
    case Idle => 0
    case Counting(job, _) => if job.PutJob? then g.size + 4 else 6
    case HasSpace(job) => if job.PutJob? then g.size + 3 else 5
    case Copying(_, _, n) => if n < g.size then g.size - n + 2 else 2
    case Writing(_, _) => 4
    case Recounting(_, _, _) => 3
    case Comparing(_, _) => 2
    case Publishing(_, _) => 1
  }

  /** What the producer is about to publish, as things stand. */
  function Draft(g: Geometry, s: State): seq<byte>
    requires WellFormed(g, s)
  {
    match s.prod
    case Idle => []
    case Counting(job, _) => if job.PutJob? then job.element else Element(g, s.buf, s.head)
    case HasSpace(job) => if job.PutJob? then job.element else Element(g, s.buf, s.head)
    case Copying(e, _, _) => e
    case Writing(_, shadow) => shadow
    case Recounting(_, shadow, _) => shadow
    case Comparing(_, shadow) => shadow
    case Publishing(e, _) => e
  }

  ghost predicate Putting(g: Geometry, s: State) {
    !s.prod.Idle? && HasRoom(g, s)
  }

  /** The bytes about to be published after one more action. */
  function Redraft(g: Geometry, s: State, e: seq<byte>, a: Action): seq<byte> {
    if a.WriteByte? && s.prod.Writing? && a.k < g.size && a.k < |e| then e[a.k := a.b] else e
  }

  lemma PutStep(g: Geometry, s: State)
    requires Inv(g, s) && Putting(g, s)
    ensures WellFormed(g, s)
    ensures var s' := Step(g, s, Produce);
      && WellFormed(g, s')
      && if PutSteps(g, s.prod) == 1 then s'.prod.Idle? && s'.produced == s.produced + [Draft(g, s)]
         else Putting(g, s') && s'.produced == s.produced && Draft(g, s') == Draft(g, s)
              && PutSteps(g, s'.prod) == PutSteps(g, s.prod) - 1
  {
    QueueLength(g, s);
  }

  lemma OtherPutStep(g: Geometry, s: State, a: Action)
    requires Inv(g, s) && !a.Produce? && !a.Begin?
    ensures WellFormed(g, s)
    ensures var s' := Step(g, s, a);
      && WellFormed(g, s') && s'.produced == s.produced && PutSteps(g, s'.prod) == PutSteps(g, s.prod)
      && (s.prod.Idle? <==> s'.prod.Idle?) && (Putting(g, s) ==> Putting(g, s'))
      && Draft(g, s') == Redraft(g, s, Draft(g, s), a)
  {
  }

  /** The bytes about to be published after some actions: each write through the reserved pointer counts. */
  function DraftAfter(g: Geometry, s: State, actions: seq<Action>): seq<byte>
    requires WellFormed(g, s)
    decreases |actions|
  {
    if |actions| == 0 then Draft(g, s)
    else
      var fewer := actions[..|actions| - 1];
      Redraft(g, Steps(g, s, fewer), DraftAfter(g, s, fewer), actions[|actions| - 1])
  }

  ghost predicate NoBegin(actions: seq<Action>) {
    forall i | 0 <= i < |actions| :: !actions[i].Begin?
  }

  ghost predicate PutProgress(g: Geometry, s: State, own: nat, e: seq<byte>, s': State)
    requires WellFormed(g, s')
  {
    if own < PutSteps(g, s.prod) then
      Putting(g, s') && s'.produced == s.produced && Draft(g, s') == e
      && PutSteps(g, s'.prod) == PutSteps(g, s.prod) - own
    else s'.prod.Idle? && s'.produced == s.produced + [e]
  }

  lemma PutProgressByStep(g: Geometry, s: State, own: nat, e: seq<byte>, s1: State, a: Action)
    requires Inv(g, s1) && WellFormed(g, s1) && PutProgress(g, s, own, e, s1) && !a.Begin?
    ensures WellFormed(g, Step(g, s1, a))
    ensures PutProgress(g, s, own + if a == Produce then 1 else 0, Redraft(g, s1, e, a), Step(g, s1, a))
  {
    if a.Produce? {
      if own < PutSteps(g, s.prod) {
        PutStep(g, s1);
      }
    } else {
      OtherPutStep(g, s1, a);
    }
  }

  lemma {:induction false} PuttingProgress(g: Geometry, s: State, actions: seq<Action>)
    requires Inv(g, s) && Putting(g, s) && NoBegin(actions)
    ensures WellFormed(g, s)
    ensures PutProgress(g, s, Count(actions, Produce), DraftAfter(g, s, actions), Steps(g, s, actions))
    decreases |actions|
  {
    if |actions| > 0 {
      var fewer := actions[..|actions| - 1];
      PuttingProgress(g, s, fewer);
      StepsKeepInv(g, s, fewer);
      PutProgressByStep(g, s, Count(fewer, Produce), DraftAfter(g, s, fewer), Steps(g, s, fewer),
                        actions[|actions| - 1]);
    }
  }

  /** Every way of adding is wait-free: with room, ringbuf_put publishes in size + 4 steps of its own, and a
      reservation, its data_put included, in 6, whatever the consumer does meanwhile; what is published is
      settled by the element, or by what the slot held and what was then written to it. */
  lemma PutIsWaitFree(g: Geometry, s: State, job: Job, actions: seq<Action>)
    requires Inv(g, s) && s.prod.Idle? && HasRoom(g, s) && NoBegin(actions)
    requires job.PutJob? ==> |job.element| == g.size
    ensures WellFormed(g, s) && WellFormed(g, Step(g, s, Begin(job)))
    ensures var s1, own := Step(g, s, Begin(job)), Count(actions, Produce);
      var s' := Steps(g, s1, actions);
      && Draft(g, s1) == (if job.PutJob? then job.element else Element(g, s.buf, s.head))
      && if own >= (if job.PutJob? then g.size + 4 else 6) then
           s'.prod.Idle? && s'.produced == s.produced + [DraftAfter(g, s1, actions)]
         else !s'.prod.Idle? && s'.produced == s.produced
  {
    StepKeepsInv(g, s, Begin(job));
    PuttingProgress(g, Step(g, s, Begin(job)), actions);
  }

  predicate OnPutPath(p: Producer) {
    match p
    case Counting(job, _) => job.PutJob?
    case HasSpace(job) => job.PutJob?
    case Copying(_, _, _) => true
    case Publishing(_, _) => true
    case Idle => true
    case _ => false
  }

  lemma {:induction false} PutKeepsDraft(g: Geometry, s: State, actions: seq<Action>)
    requires WellFormed(g, s) && OnPutPath(s.prod) && NoBegin(actions)
    ensures OnPutPath(Steps(g, s, actions).prod) && DraftAfter(g, s, actions) == Draft(g, s)
    decreases |actions|
  {
    if |actions| > 0 {
      PutKeepsDraft(g, s, actions[..|actions| - 1]);
    }
  }

  /** ringbuf_put publishes exactly its element. */
  lemma PutPublishesItsElement(g: Geometry, s: State, e: seq<byte>, actions: seq<Action>)
    requires Inv(g, s) && s.prod.Idle? && HasRoom(g, s) && NoBegin(actions) && |e| == g.size
    requires Count(actions, Produce) >= g.size + 4
    ensures WellFormed(g, s) && WellFormed(g, Step(g, s, Begin(PutJob(e))))
    ensures Steps(g, Step(g, s, Begin(PutJob(e))), actions).produced == s.produced + [e]
  {
    PutIsWaitFree(g, s, PutJob(e), actions);
    PutKeepsDraft(g, Step(g, s, Begin(PutJob(e))), actions);
  }

  /** Without room nothing at all changes, and the producer has found out in one step. */
  lemma NoRoomNoPut(g: Geometry, s: State, job: Job)
    requires Inv(g, s) && s.prod.Idle? && !HasRoom(g, s)
    ensures WellFormed(g, s) && WellFormed(g, Step(g, s, Begin(job)))
    ensures Step(g, Step(g, s, Begin(job)), Produce) == s
  {
    QueueLength(g, s);
  }
}
