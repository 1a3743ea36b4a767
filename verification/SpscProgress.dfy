/** How soon a call of the two-thread queue is over: try_push and try_pop never wait, push and pop may. */
module SpscProgress {
  import opened RingArithmetic
  import opened SpscSteps
  import opened SpscInvariant

  // ----- Wait-freedom of the trying calls

  /** Own steps that a call of `try_emplace` has before it at most. */
  function PushStepsLeft<T>(p: Producer<T>): nat {
    match p
    case PIdle => 0
    case PReturn(_) => 1
    case PPublish(_, _) => 2
    case PWriting(_, _) => 3
    case PWrite(_, _) => 4
    case PRecheck(_, _) => 5
    case PRefresh(_, _, _) => 6
    case PCompare(_, _, _) => 7
  }

  function PopStepsLeft<T>(c: Consumer<T>): nat {
    match c
    case CIdle => 0
    case CReturn(_) => 1
    case CPublish(_, _) => 2
    case CRead(_) => 3
    case CRecheck(_) => 4
    case CRefresh(_, _) => 5
    case CCompare(_, _) => 6
  }

  predicate PushBlocks<T>(p: Producer<T>) {
    (p.PCompare? || p.PRefresh?) && p.blocking
  }

  predicate PopBlocks<T>(c: Consumer<T>) {
    (c.CCompare? || c.CRefresh?) && c.blocking
  }

  lemma OwnPushStep<T>(s: Queue<T>, a: Action<T>)
    requires WellFormed(s) && Enabled(s, a) && !a.CallPush? && !PushBlocks(s.producer)
    ensures var t := Step(s, a).0;
            && !PushBlocks(t.producer)
            && PushStepsLeft(t.producer) + (if a.ProducerStep? then 1 else 0) <= PushStepsLeft(s.producer)
  {
  }

  lemma OwnPopStep<T>(s: Queue<T>, a: Action<T>)
    requires WellFormed(s) && Enabled(s, a) && !a.CallPop? && !PopBlocks(s.consumer)
    ensures var t := Step(s, a).0;
            && !PopBlocks(t.consumer)
            && PopStepsLeft(t.consumer) + (if a.ConsumerStep? then 1 else 0) <= PopStepsLeft(s.consumer)
  {
  }

  function ProducerSteps<T>(actions: seq<Action<T>>): nat {
    if actions == [] then 0 else (if actions[0].ProducerStep? then 1 else 0) + ProducerSteps(actions[1..])
  }

  function ConsumerSteps<T>(actions: seq<Action<T>>): nat {
    if actions == [] then 0 else (if actions[0].ConsumerStep? then 1 else 0) + ConsumerSteps(actions[1..])
  }

  lemma {:induction false} PushStepsAreBounded<T>(s: Queue<T>, actions: seq<Action<T>>, sc: bool)
    requires WellFormed(s) && IsRun(s, actions, sc) && !PushBlocks(s.producer)
    requires forall i :: 0 <= i < |actions| ==> !actions[i].CallPush?
    ensures PushStepsLeft(After(s, actions, sc).producer) + ProducerSteps(actions) <= PushStepsLeft(s.producer)
    decreases |actions|
  {
    if actions != [] {
      hide Step, PushStepsLeft, PushBlocks;
      OwnPushStep(s, actions[0]);
      PushStepsAreBounded(Step(s, actions[0]).0, actions[1..], sc);
    }
  }

  lemma {:induction false} PopStepsAreBounded<T>(s: Queue<T>, actions: seq<Action<T>>, sc: bool)
    requires WellFormed(s) && IsRun(s, actions, sc) && !PopBlocks(s.consumer)
    requires forall i :: 0 <= i < |actions| ==> !actions[i].CallPop?
    ensures PopStepsLeft(After(s, actions, sc).consumer) + ConsumerSteps(actions) <= PopStepsLeft(s.consumer)
    decreases |actions|
  {
    if actions != [] {
      hide Step, PopStepsLeft, PopBlocks;
      OwnPopStep(s, actions[0]);
      PopStepsAreBounded(Step(s, actions[0]).0, actions[1..], sc);
    }
  }

  /**
   Whatever the other thread does and however stale the loads are, a `try_push` has returned after
   seven steps of its own, and a `try_pop` after six.
   */
  lemma TryingIsWaitFree<T>(s: Queue<T>, v: T, actions: seq<Action<T>>, sc: bool)
    requires WellFormed(s)
    ensures s.producer.PIdle? && (forall i :: 0 <= i < |actions| ==> !actions[i].CallPush?) ==>
              var t := Step(s, CallPush(v, false)).0;
              IsRun(t, actions, sc) ==>
                && ProducerSteps(actions) <= 7
                && (ProducerSteps(actions) == 7 ==> After(t, actions, sc).producer.PIdle?)
    ensures s.consumer.CIdle? && (forall i :: 0 <= i < |actions| ==> !actions[i].CallPop?) ==>
              var t := Step(s, CallPop(false)).0;
              IsRun(t, actions, sc) ==>
                && ConsumerSteps(actions) <= 6
                && (ConsumerSteps(actions) == 6 ==> After(t, actions, sc).consumer.CIdle?)
  {
    hide IsRun, After, ProducerSteps, ConsumerSteps;
    if s.producer.PIdle? && (forall i :: 0 <= i < |actions| ==> !actions[i].CallPush?) {
      var t := Step(s, CallPush(v, false)).0;
      if IsRun(t, actions, sc) { PushStepsAreBounded(t, actions, sc); }
    }
    if s.consumer.CIdle? && (forall i :: 0 <= i < |actions| ==> !actions[i].CallPop?) {
      var t := Step(s, CallPop(false)).0;
      if IsRun(t, actions, sc) { PopStepsAreBounded(t, actions, sc); }
    }
  }

  // ----- When a call gets through

  /** A push, trying or spinning, leaves its comparison for the slot exactly if it has seen room. */
  lemma PushGoesOnIffRoomSeen<T>(s: Queue<T>, load: nat, residue: T)
    requires Inv(s) && (s.producer.PCompare? || s.producer.PRecheck?)
    ensures ProducerMoves(s, load, residue).0.producer.PWrite? <==> W(s) < s.readSeen + Capacity(s)
  {
    hide Slot, ClocksOk, ConsumerOk;
    FullTest(W(s), s.readSeen, s.ring);
  }

  /** A pop, trying or spinning, leaves its comparison for the slot exactly if it has seen an element. */
  lemma PopGoesOnIffElementSeen<T>(s: Queue<T>, load: nat, residue: T)
    requires Inv(s) && (s.consumer.CCompare? || s.consumer.CRecheck?)
    ensures ConsumerMoves(s, load, residue).0.consumer.CRead? <==> R(s) < s.writeSeen
  {
    hide Slot, ClocksOk, ProducerOk;
    SameSlotSameCounter(R(s), s.writeSeen, s.ring);
  }

  /**
   A spinning push that has seen a full queue refreshes its cache and compares again: once a pop is
   published and its load returns that store, it goes on.
   */
  lemma SpinningPush<T>(s: Queue<T>, load: nat, residue: T)
    requires Inv(s) && s.producer.PRefresh? && s.producer.blocking && Enabled(s, ProducerStep(load, residue))
    ensures var t := ProducerMoves(s, load, residue).0;
            && t.producer == PCompare(s.producer.value, true, s.producer.index) && t.readSeen == load
            && (ProducerMoves(t, load, residue).0.producer.PWrite? <==> W(s) < load + Capacity(s))
  {
    hide Slot, ClocksOk, ConsumerOk, Touched;
    StepKeeps(s, ProducerStep(load, residue));
    PushGoesOnIffRoomSeen(ProducerMoves(s, load, residue).0, load, residue);
  }

  lemma SpinningPop<T>(s: Queue<T>, load: nat, residue: T)
    requires Inv(s) && s.consumer.CRefresh? && s.consumer.blocking && Enabled(s, ConsumerStep(load, residue))
    ensures var t := ConsumerMoves(s, load, residue).0;
            && t.consumer == CCompare(true, s.consumer.index) && t.writeSeen == load
            && (ConsumerMoves(t, load, residue).0.consumer.CRead? <==> R(s) < load)
  {
    hide Slot, ClocksOk, ProducerOk, Touched;
    StepKeeps(s, ConsumerStep(load, residue));
    PopGoesOnIffElementSeen(ConsumerMoves(s, load, residue).0, load, residue);
  }
}
