/** What the two-thread queue guarantees over every interleaving. */
module SpscTheorems {
  import opened Wrappers
  import opened RingArithmetic
  import opened SpscSteps
  import opened SpscInvariant

  // ----- Slot exclusivity and freedom from data races

  predicate AtSlotWrite<T>(p: Producer<T>) { p.PWrite? || p.PWriting? }

  /**
   While the producer is about to touch its slot, the slot is not one the consumer is about to
   read, and not any slot published and not yet consumed.
   */
  lemma SlotExclusive<T>(s: Queue<T>, unread: nat)
    requires Inv(s) && AtSlotWrite(s.producer)
    ensures s.consumer.CRead? ==> s.consumer.index != s.producer.index
    ensures R(s) <= unread < W(s) ==> Slot(unread, s.ring) != s.producer.index
  {
    if s.consumer.CRead? { SameSlotSameCounter(R(s), W(s), s.ring); }
    if R(s) <= unread < W(s) { SameSlotSameCounter(unread, W(s), s.ring); }
  }

  /** The next action touches a slot whose last access by the other thread it has not learnt of. */
  predicate Races<T>(s: Queue<T>, a: Action<T>)
    requires WellFormed(s)
  {
    (a.ProducerStep? && AtSlotWrite(s.producer) && s.clocks.cLast[s.producer.index] > s.clocks.pKnows) ||
    (a.ConsumerStep? && s.consumer.CRead? && s.clocks.pLast[s.consumer.index] > s.clocks.cKnows)
  }

  lemma NoRaceInStep<T>(s: Queue<T>, a: Action<T>)
    requires Inv(s) && Enabled(s, a)
    ensures !Races(s, a)
  {
    if a.ProducerStep? && AtSlotWrite(s.producer) {
      var last := s.clocks.cLast[s.producer.index];
      if last > s.readSeen {
        assert Slot(last - 1, s.ring) == Slot(W(s), s.ring);
        SameSlotLapApart(last - 1, W(s), s.ring);
      }
    } else if a.ConsumerStep? && s.consumer.CRead? {
      var last := s.clocks.pLast[s.consumer.index];
      if last > s.writeSeen {
        assert Slot(last - 1, s.ring) == Slot(R(s), s.ring);
        SameSlotLapApart(R(s), last - 1, s.ring);
      }
    }
  }

  /** No run of the two threads, however stale its acquire loads, ends in a state about to race. */
  lemma RaceFree<T>(ring: nat, slots: seq<T>, actions: seq<Action<T>>, next: Action<T>)
    requires ring > 1 && |slots| == ring
    requires IsRun(Init(ring, slots), actions, false)
    requires Enabled(After(Init(ring, slots), actions, false), next)
    ensures !Races(After(Init(ring, slots), actions, false), next)
  {
    InitInv(ring, slots);
    RunKeeps(Init(ring, slots), actions, false);
    NoRaceInStep(After(Init(ring, slots), actions, false), next);
  }

  // ----- The queue as an atomic bounded FIFO

  /** The element with counter R + j: in its slot, or already moved out by a half-done pop. */
  function Element<T>(s: Queue<T>, j: nat): T
    requires WellFormed(s)
  {
    if j == 0 && s.consumer.CPublish? then s.consumer.value
    else s.slots[Slot(|s.readStores| - 1 + j, s.ring)]
  }

  /** Published and not yet consumed, oldest first. */
  function Contents<T>(s: Queue<T>): (q: seq<T>)
    requires WellFormed(s) && R(s) <= W(s)
    ensures |q| == W(s) - R(s)
  {
    seq(|s.writeStores| - |s.readStores|, j requires 0 <= j => Element(s, j))
  }

  // The bounded FIFO the queue is meant to be: which events it allows, and their effect.

  /** `strict` also holds failing calls to the queue's contents at the moment they take effect. */
  predicate Legal<T(==)>(capacity: int, q: seq<T>, e: Event<T>, strict: bool) {
    match e
    case PushTakesEffect(_, true) => |q| < capacity
    case PushTakesEffect(_, false) => strict ==> |q| == capacity
    case PopTakesEffect(Some(v)) => |q| > 0 && v == q[0]
    case PopTakesEffect(None) => strict ==> q == []
    case _ => true
  }

  predicate Fails<T>(e: Event<T>) {
    match e
    case PushTakesEffect(_, ok) => !ok
    case PopTakesEffect(result) => result.None?
    case _ => false
  }

  function Effect<T>(q: seq<T>, e: Event<T>): seq<T> {
    match e
    case PushTakesEffect(v, true) => q + [v]
    case PopTakesEffect(Some(_)) => if q == [] then [] else q[1..]
    case _ => q
  }

  predicate FifoAllows<T(==)>(capacity: int, q: seq<T>, trace: seq<Event<T>>, strict: bool)
    decreases |trace|
  {
    trace == [] ||
    (Legal(capacity, q, trace[0], strict) && FifoAllows(capacity, Effect(q, trace[0]), trace[1..], strict))
  }

  function FifoAfter<T>(q: seq<T>, trace: seq<Event<T>>): seq<T>
    decreases |trace|
  {
    if trace == [] then q else FifoAfter(Effect(q, trace[0]), trace[1..])
  }

  lemma SameContents<T>(s: Queue<T>, s': Queue<T>)
    requires WellFormed(s) && WellFormed(s') && R(s) <= W(s)
    requires |s'.writeStores| == |s.writeStores| && |s'.readStores| == |s.readStores|
    requires forall j :: 0 <= j < W(s) - R(s) ==> Element(s', j) == Element(s, j)
    ensures Contents(s') == Contents(s)
  {
  }

  lemma SameElements<T>(s: Queue<T>, s': Queue<T>)
    requires WellFormed(s) && WellFormed(s') && R(s) <= W(s)
    requires |s'.writeStores| == |s.writeStores| && |s'.readStores| == |s.readStores|
    requires s'.slots == s.slots && s'.ring == s.ring
    requires s.consumer.CPublish? || s'.consumer.CPublish? ==> s'.consumer == s.consumer
    ensures Contents(s') == Contents(s)
  {
    hide Slot;
    SameContents(s, s');
  }

  lemma SlotWriteInvisible<T>(s: Queue<T>, load: nat, residue: T)
    requires Inv(s) && AtSlotWrite(s.producer)
    ensures Contents(ProducerMoves(s, load, residue).0) == Contents(s)
  {
    hide Contents, Slot, Stored, ClocksOk, ConsumerOk;
    var s' := ProducerMoves(s, load, residue).0;
    forall j | 0 <= j < W(s) - R(s) ensures Element(s', j) == Element(s, j) {
      SlotExclusive(s, R(s) + j);
    }
    SameContents(s, s');
  }

  lemma PublishAppends<T>(s: Queue<T>, load: nat, residue: T)
    requires Inv(s) && s.producer.PPublish?
    ensures W(s) - R(s) < Capacity(s)
    ensures Contents(ProducerMoves(s, load, residue).0) == Contents(s) + [s.producer.value]
  {
    var s' := ProducerMoves(s, load, residue).0;
    assert |s'.writeStores| == |s.writeStores| + 1;
    assert forall j :: 0 <= j < W(s) - R(s) ==> Element(s', j) == Element(s, j);
  }

  lemma ProducerRefines<T>(s: Queue<T>, load: nat, residue: T, strict: bool)
    requires Inv(s) && Enabled(s, ProducerStep(load, residue))
    requires strict ==> SequentiallyConsistent(s, ProducerStep(load, residue))
    ensures var (s', e) := ProducerMoves(s, load, residue);
            && R(s') <= W(s') && Capacity(s') == Capacity(s)
            && Legal(Capacity(s), Contents(s), e, strict) && Contents(s') == Effect(Contents(s), e)
  {
    hide Contents, Element, ClocksOk, ConsumerOk, Slot;
    if AtSlotWrite(s.producer) {
      SlotWriteInvisible(s, load, residue);
    } else if s.producer.PPublish? {
      PublishAppends(s, load, residue);
    } else {
      var s' := ProducerMoves(s, load, residue).0;
      assert Contents(s') == Contents(s) && |Contents(s)| == W(s) - R(s) by { SameElements(s, s'); }
      if s.producer.PRefresh? { FullTest(W(s), load, s.ring); }
    }
  }

  lemma SlotReadInvisible<T>(s: Queue<T>, load: nat, residue: T)
    requires Inv(s) && s.consumer.CRead?
    ensures Contents(ConsumerMoves(s, load, residue).0) == Contents(s)
  {
    hide Contents, Slot, Stored, ClocksOk, ProducerOk;
    var s' := ConsumerMoves(s, load, residue).0;
    forall j | 0 <= j < W(s) - R(s) ensures Element(s', j) == Element(s, j) {
      if j > 0 { SameSlotSameCounter(R(s), R(s) + j, s.ring); }
    }
    SameContents(s, s');
  }

  lemma PublishRemoves<T>(s: Queue<T>, load: nat, residue: T)
    requires Inv(s) && s.consumer.CPublish?
    ensures R(s) < W(s) && Contents(s)[0] == s.consumer.value
    ensures Contents(ConsumerMoves(s, load, residue).0) == Contents(s)[1..]
  {
    var s' := ConsumerMoves(s, load, residue).0;
    assert |s'.readStores| == |s.readStores| + 1;
    assert forall j :: 0 <= j < W(s) - R(s) - 1 ==> Element(s', j) == Element(s, j + 1);
  }

  lemma ConsumerRefines<T>(s: Queue<T>, load: nat, residue: T, strict: bool)
    requires Inv(s) && Enabled(s, ConsumerStep(load, residue))
    requires strict ==> SequentiallyConsistent(s, ConsumerStep(load, residue))
    ensures var (s', e) := ConsumerMoves(s, load, residue);
            && R(s') <= W(s') && Capacity(s') == Capacity(s)
            && Legal(Capacity(s), Contents(s), e, strict) && Contents(s') == Effect(Contents(s), e)
  {
    hide Contents, Element, ClocksOk, ProducerOk, Slot;
    if s.consumer.CRead? {
      SlotReadInvisible(s, load, residue);
    } else if s.consumer.CPublish? {
      PublishRemoves(s, load, residue);
    } else {
      var s' := ConsumerMoves(s, load, residue).0;
      assert Contents(s') == Contents(s) && |Contents(s)| == W(s) - R(s) by { SameElements(s, s'); }
      if s.consumer.CRefresh? { SameSlotSameCounter(R(s), load, s.ring); }
    }
  }

  lemma CallRefines<T>(s: Queue<T>, a: Action<T>, strict: bool)
    requires Inv(s) && Enabled(s, a) && (a.CallPush? || a.CallPop?)
    ensures var (s', e) := Step(s, a);
            && R(s') <= W(s') && Capacity(s') == Capacity(s)
            && Legal(Capacity(s), Contents(s), e, strict) && Contents(s') == Effect(Contents(s), e)
  {
    SameContents(s, Step(s, a).0);
  }

  /** Every step is invisible or is one legal step of the FIFO. */
  lemma StepRefines<T>(s: Queue<T>, a: Action<T>, strict: bool)
    requires Inv(s) && Enabled(s, a)
    requires strict ==> SequentiallyConsistent(s, a)
    ensures var (s', e) := Step(s, a);
            && Inv(s') && Capacity(s') == Capacity(s)
            && Legal(Capacity(s), Contents(s), e, strict) && Contents(s') == Effect(Contents(s), e)
  {
    StepKeeps(s, a);
    hide Inv, Contents, ProducerMoves, ConsumerMoves, Legal, Effect;
    match a
    case ProducerStep(load, residue) => ProducerRefines(s, load, residue, strict);
    case ConsumerStep(load, residue) => ConsumerRefines(s, load, residue, strict);
    case _ => CallRefines(s, a, strict);
  }

  // ----- Whole runs

  lemma {:induction false} RunRefines<T>(s: Queue<T>, actions: seq<Action<T>>, sc: bool)
    requires Inv(s) && IsRun(s, actions, sc)
    ensures Inv(After(s, actions, sc))
    ensures FifoAllows(Capacity(s), Contents(s), Trace(s, actions, sc), sc)
    ensures Contents(After(s, actions, sc)) == FifoAfter(Contents(s), Trace(s, actions, sc))
    decreases |actions|
  {
    if actions != [] {
      hide Step, Inv, Legal, Effect, Contents;
      var (s', e) := Step(s, actions[0]);
      StepRefines(s, actions[0], sc);
      RunRefines(s', actions[1..], sc);
      assert Trace(s, actions, sc)[1..] == Trace(s', actions[1..], sc);
    }
  }

  function PushedBy<T>(e: Event<T>): seq<T> {
    match e case PushTakesEffect(v, true) => [v] case _ => []
  }

  function PoppedBy<T>(e: Event<T>): seq<T> {
    match e case PopTakesEffect(Some(v)) => [v] case _ => []
  }

  function Pushed<T>(trace: seq<Event<T>>): seq<T> {
    if trace == [] then [] else PushedBy(trace[0]) + Pushed(trace[1..])
  }

  function Popped<T>(trace: seq<Event<T>>): seq<T> {
    if trace == [] then [] else PoppedBy(trace[0]) + Popped(trace[1..])
  }

  lemma EventConserves<T>(capacity: int, q: seq<T>, e: Event<T>, strict: bool)
    requires Legal(capacity, q, e, strict)
    ensures q + PushedBy(e) == PoppedBy(e) + Effect(q, e)
    ensures |q| <= capacity ==> |Effect(q, e)| <= capacity
  {
  }

  lemma Reassociate<T>(q: seq<T>, a: seq<T>, b: seq<T>, a': seq<T>, q': seq<T>, b': seq<T>, q'': seq<T>)
    requires q + a == a' + q' && q' + b == b' + q''
    ensures q + (a + b) == (a' + b') + q''
  {
    assert q + (a + b) == (q + a) + b;
    assert (a' + q') + b == a' + (q' + b);
    assert a' + (b' + q'') == (a' + b') + q'';
  }

  lemma {:induction false} FifoConserves<T>(capacity: int, q: seq<T>, trace: seq<Event<T>>, strict: bool)
    requires FifoAllows(capacity, q, trace, strict)
    ensures q + Pushed(trace) == Popped(trace) + FifoAfter(q, trace)
    ensures |q| <= capacity ==> |FifoAfter(q, trace)| <= capacity
    decreases |trace|
  {
    if trace == [] {
      assert q + [] == q && [] + q == q;
    } else {
      var e, rest := trace[0], trace[1..];
      var q' := Effect(q, e);
      EventConserves(capacity, q, e, strict);
      FifoConserves(capacity, q', rest, strict);
      Reassociate(q, PushedBy(e), Pushed(rest), PoppedBy(e), q', Popped(rest), FifoAfter(q', rest));
    }
  }

  // ----- Linearizability of the calls

  /** How far a thread's current call has come, as its own events tell it. */
  datatype Progress<A, R> = Between | Called(argument: A) | Decided(result: R)

  /**
   A thread's events are calls that each take effect exactly once, on the argument they were called
   with, before returning the result of that.
   */
  function PushProgress<T(==)>(p: Progress<T, bool>, e: Event<T>): Option<Progress<T, bool>> {
    match e
    case PushCall(v) => if p.Between? then Some(Called(v)) else None
    case PushTakesEffect(v, ok) => if p == Called(v) then Some(Decided(ok)) else None
    case PushReturn(ok) => if p == Decided(ok) then Some(Between) else None
    case _ => Some(p)
  }

  function PopProgress<T(==)>(p: Progress<(), Option<T>>, e: Event<T>): Option<Progress<(), Option<T>>> {
    match e
    case PopCall => if p.Between? then Some(Called(())) else None
    case PopTakesEffect(result) => if p.Called? then Some(Decided(result)) else None
    case PopReturn(result) => if p == Decided(result) then Some(Between) else None
    case _ => Some(p)
  }

  predicate CallsTakeEffectOnce<T(==)>(push: Progress<T, bool>, pop: Progress<(), Option<T>>, trace: seq<Event<T>>)
    decreases |trace|
  {
    trace == [] ||
    var push', pop' := PushProgress(push, trace[0]), PopProgress(pop, trace[0]);
    push'.Some? && pop'.Some? && CallsTakeEffectOnce(push'.value, pop'.value, trace[1..])
  }

  function ProducerProgress<T>(s: Queue<T>): Progress<T, bool>
    requires s.ring > 0
  {
    match s.producer
    case PIdle => Between
    case PReturn(ok) => Decided(ok)
    case PRecheck(v, i) => if NextIndex(i, s.ring) == s.readCache then Decided(false) else Called(v)
    case PCompare(v, _, _) => Called(v)
    case PRefresh(v, _, _) => Called(v)
    case PWrite(v, _) => Called(v)
    case PWriting(v, _) => Called(v)
    case PPublish(v, _) => Called(v)
  }

  function ConsumerProgress<T>(s: Queue<T>): Progress<(), Option<T>> {
    match s.consumer
    case CIdle => Between
    case CReturn(result) => Decided(result)
    case CRecheck(i) => if i == s.writeCache then Decided(None) else Called(())
    case _ => Called(())
  }

  lemma StepProgress<T>(s: Queue<T>, a: Action<T>)
    requires WellFormed(s) && Enabled(s, a)
    ensures var (s', e) := Step(s, a);
            && PushProgress(ProducerProgress(s), e) == Some(ProducerProgress(s'))
            && PopProgress(ConsumerProgress(s), e) == Some(ConsumerProgress(s'))
            && CallOf(e) == ArgumentOf(a)
  {
  }

  function CallOf<T>(e: Event<T>): seq<T> {
    if e.PushCall? then [e.value] else []
  }

  function ArgumentOf<T>(a: Action<T>): seq<T> {
    if a.CallPush? then [a.value] else []
  }

  /** The pushes called in a trace, and those the producer's client makes. */
  function Calls<T>(trace: seq<Event<T>>): seq<T> {
    if trace == [] then [] else CallOf(trace[0]) + Calls(trace[1..])
  }

  function Arguments<T>(actions: seq<Action<T>>): seq<T> {
    if actions == [] then [] else ArgumentOf(actions[0]) + Arguments(actions[1..])
  }

  lemma {:induction false} RunProgress<T>(s: Queue<T>, actions: seq<Action<T>>, sc: bool)
    requires WellFormed(s) && IsRun(s, actions, sc)
    ensures CallsTakeEffectOnce(ProducerProgress(s), ConsumerProgress(s), Trace(s, actions, sc))
    ensures Calls(Trace(s, actions, sc)) == Arguments(actions)
    decreases |actions|
  {
    if actions != [] {
      var (s', e) := Step(s, actions[0]);
      StepProgress(s, actions[0]);
      RunProgress(s', actions[1..], sc);
      assert Trace(s, actions, sc)[1..] == Trace(s', actions[1..], sc);
    }
  }

  /** The arguments of the pushes that succeeded, taken from their calls. */
  function Delivered<T>(push: Progress<T, bool>, trace: seq<Event<T>>): seq<T>
    decreases |trace|
  {
    if trace == [] then []
    else match trace[0]
      case PushCall(v) => Delivered(Called(v), trace[1..])
      case PushTakesEffect(_, ok) =>
        (if ok && push.Called? then [push.argument] else []) + Delivered(Decided(ok), trace[1..])
      case PushReturn(_) => Delivered(Between, trace[1..])
      case _ => Delivered(push, trace[1..])
  }

  /** What takes effect are the callers' arguments. */
  lemma {:induction false} EffectsAreArguments<T>(push: Progress<T, bool>, pop: Progress<(), Option<T>>,
                                                  trace: seq<Event<T>>)
    requires CallsTakeEffectOnce(push, pop, trace)
    ensures Pushed(trace) == Delivered(push, trace)
    decreases |trace|
  {
    if trace != [] {
      EffectsAreArguments(PushProgress(push, trace[0]).value, PopProgress(pop, trace[0]).value, trace[1..]);
      assert [] + Delivered(push, trace[1..]) == Delivered(push, trace[1..]);
    }
  }

  /** The queue as constructed: the empty FIFO, between calls. */
  lemma InitIs<T>(ring: nat, slots: seq<T>)
    requires ring > 1 && |slots| == ring
    ensures var s := Init(ring, slots);
            && Inv(s) && WellFormed(s) && R(s) <= W(s) && Capacity(s) == ring - 1 && Contents(s) == []
            && ProducerProgress(s) == Between && ConsumerProgress(s) == Between
  {
    InitInv(ring, slots);
    hide Inv;
  }

  lemma InvIsOrdered<T>(s: Queue<T>)
    requires Inv(s)
    ensures WellFormed(s) && R(s) <= W(s)
  {
  }

  /**
   First in, first out, over every interleaving and every staleness of the acquire loads: the
   arguments of the successful pushes are what has been popped, in order, followed by what is still
   in the slots; and there is never more than the capacity in the slots.
   */
  lemma Fifo<T>(ring: nat, slots: seq<T>, actions: seq<Action<T>>, sc: bool)
    requires ring > 1 && |slots| == ring
    requires IsRun(Init(ring, slots), actions, sc)
    ensures var s := After(Init(ring, slots), actions, sc);
            var trace := Trace(Init(ring, slots), actions, sc);
            && R(s) <= W(s)
            && Pushed(trace) == Popped(trace) + Contents(s)
            && Delivered(Between, trace) == Popped(trace) + Contents(s)
            && |Contents(s)| <= ring - 1
  {
    hide *;
    var s0 := Init(ring, slots);
    InitIs(ring, slots);
    RunRefines(s0, actions, sc);
    FifoConserves(ring - 1, Contents(s0), Trace(s0, actions, sc), sc);
    RunProgress(s0, actions, sc);
    EffectsAreArguments(Between, Between, Trace(s0, actions, sc));
    InvIsOrdered(After(s0, actions, sc));
    assert [] + Pushed(Trace(s0, actions, sc)) == Pushed(Trace(s0, actions, sc));
  }

  /**
   Linearizability. With sequentially consistent loads every call takes effect at exactly one
   moment between its call and its return, on the argument it was called with and with the result
   it returns, and the effects in that order are a run of the atomic bounded FIFO: a push fails only
   when `capacity` elements are in the queue at that moment, a pop only when none is.
   */
  lemma Linearizable<T>(ring: nat, slots: seq<T>, actions: seq<Action<T>>)
    requires ring > 1 && |slots| == ring
    requires IsRun(Init(ring, slots), actions, true)
    ensures var trace := Trace(Init(ring, slots), actions, true);
            && CallsTakeEffectOnce(Between, Between, trace) && Calls(trace) == Arguments(actions)
            && FifoAllows(ring - 1, [], trace, true)
  {
    hide *;
    InitIs(ring, slots);
    RunRefines(Init(ring, slots), actions, true);
    RunProgress(Init(ring, slots), actions, true);
  }
}
