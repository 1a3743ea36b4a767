/** The invariant of the two-thread queue: Rc <= R <= Wc <= W <= Rc + capacity, over counters. */
module SpscInvariant {
  import opened RingArithmetic
  import opened SpscSteps

  // The unbounded counters behind the wrapped indices.
  function W<T>(s: Queue<T>): int { |s.writeStores| - 1 }
  function R<T>(s: Queue<T>): int { |s.readStores| - 1 }

  function Capacity<T>(s: Queue<T>): int { s.ring - 1 }

  ghost predicate Ordered<T>(s: Queue<T>) {
    && s.readSeen <= R(s) <= s.writeSeen <= W(s) <= s.readSeen + Capacity(s)
  }

  ghost predicate Stored(stores: seq<nat>, ring: nat)
    requires ring > 0
  {
    forall k :: 0 <= k < |stores| ==> stores[k] == Slot(k, ring)
  }

  /** Every index, stored or cached, is the value of its counter modulo the ring. */
  ghost predicate Wrapped<T>(s: Queue<T>) {
    && s.ring > 1
    && Stored(s.writeStores, s.ring) && Stored(s.readStores, s.ring)
    && s.readCache == Slot(s.readSeen, s.ring)
    && s.writeCache == Slot(s.writeSeen, s.ring)
  }

  ghost predicate ProducerOk<T>(s: Queue<T>)
    requires s.ring > 1 && |s.slots| == s.ring && W(s) >= 0
  {
    match s.producer
    case PIdle => true
    case PReturn(_) => true
    case PCompare(_, _, i) => i == Slot(W(s), s.ring)
    case PRefresh(_, _, i) => i == Slot(W(s), s.ring)
    case PRecheck(_, i) => i == Slot(W(s), s.ring)
    case PWrite(_, i) => i == Slot(W(s), s.ring) && W(s) < s.readSeen + Capacity(s)
    case PWriting(_, i) => i == Slot(W(s), s.ring) && W(s) < s.readSeen + Capacity(s)
    case PPublish(v, i) => i == Slot(W(s), s.ring) && W(s) < s.readSeen + Capacity(s) && s.slots[i] == v
  }

  ghost predicate ConsumerOk<T>(s: Queue<T>)
    requires s.ring > 1 && R(s) >= 0
  {
    match s.consumer
    case CIdle => true
    case CReturn(_) => true
    case CCompare(_, i) => i == Slot(R(s), s.ring)
    case CRefresh(_, i) => i == Slot(R(s), s.ring)
    case CRecheck(i) => i == Slot(R(s), s.ring)
    case CRead(i) => i == Slot(R(s), s.ring) && R(s) < s.writeSeen
    case CPublish(_, i) => i == Slot(R(s), s.ring) && R(s) < s.writeSeen
  }

  /** A slot's last access by a thread happened at a counter of that slot. */
  ghost predicate Touched(last: seq<nat>, clock: nat, ring: nat)
    requires ring > 0
  {
    forall i :: 0 <= i < |last| ==> last[i] <= clock && (last[i] > 0 ==> Slot(last[i] - 1, ring) == i)
  }

  /** The count published with the k-th store is k. */
  ghost predicate CountsUp(released: seq<nat>) {
    forall k :: 0 <= k < |released| ==> released[k] == k
  }

  ghost predicate ClocksOk<T>(s: Queue<T>)
    requires s.ring > 0
  {
    && s.clocks.p == W(s) + (if s.producer.PWriting? || s.producer.PPublish? then 1 else 0)
    && s.clocks.c == R(s) + (if s.consumer.CPublish? then 1 else 0)
    && CountsUp(s.clocks.pReleased) && CountsUp(s.clocks.cReleased)
    && s.clocks.pKnows == s.readSeen && s.clocks.cKnows == s.writeSeen
    && Touched(s.clocks.pLast, s.clocks.p, s.ring)
    && Touched(s.clocks.cLast, s.clocks.c, s.ring)
  }

  ghost predicate Inv<T>(s: Queue<T>) {
    WellFormed(s) && Wrapped(s) && Ordered(s) && ProducerOk(s) && ConsumerOk(s) && ClocksOk(s)
  }

  lemma InitInv<T>(ring: nat, slots: seq<T>)
    requires ring > 1 && |slots| == ring
    ensures Inv(Init(ring, slots))
  {
  }

  lemma ProducerKeepsOrder<T>(s: Queue<T>, load: nat, residue: T)
    requires WellFormed(s) && Ordered(s) && ProducerOk(s) && Enabled(s, ProducerStep(load, residue))
    ensures Ordered(ProducerMoves(s, load, residue).0)
  {
  }

  lemma StoredAt(stores: seq<nat>, ring: nat, k: nat)
    requires ring > 0 && Stored(stores, ring) && k < |stores|
    ensures stores[k] == Slot(k, ring)
  {
    hide Slot;
  }

  lemma StoreNext(stores: seq<nat>, ring: nat)
    requires ring > 0 && stores != [] && Stored(stores, ring)
    ensures Stored(stores + [NextIndex(Slot(|stores| - 1, ring), ring)], ring)
  {
    hide Slot;
    SlotNext(|stores| - 1, ring);
  }

  lemma SlotNext(counter: nat, ring: nat)
    requires ring > 0
    ensures Slot(counter + 1, ring) == NextIndex(Slot(counter, ring), ring)
  {
  }

  lemma ProducerKeepsWrapped<T>(s: Queue<T>, load: nat, residue: T)
    requires WellFormed(s) && Wrapped(s) && ProducerOk(s) && Enabled(s, ProducerStep(load, residue))
    ensures Wrapped(ProducerMoves(s, load, residue).0)
  {
    hide Slot, Stored;
    if s.producer.PRefresh? { StoredAt(s.readStores, s.ring, load); }
    if s.producer.PPublish? { StoreNext(s.writeStores, s.ring); }
  }

  lemma ProducerKeepsSelf<T>(s: Queue<T>, load: nat, residue: T)
    requires WellFormed(s) && Wrapped(s) && Ordered(s) && ProducerOk(s) && Enabled(s, ProducerStep(load, residue))
    ensures ProducerOk(ProducerMoves(s, load, residue).0)
  {
    hide Slot, Stored;
    if s.producer.PCompare? || s.producer.PRecheck? {
      FullTest(W(s), s.readSeen, s.ring);
    }
  }

  lemma ProducerKeepsConsumer<T>(s: Queue<T>, load: nat, residue: T)
    requires WellFormed(s) && Ordered(s) && ConsumerOk(s) && Enabled(s, ProducerStep(load, residue))
    ensures ConsumerOk(ProducerMoves(s, load, residue).0)
  {
    hide Slot;
  }

  lemma TouchedAgain(last: seq<nat>, clock: nat, i: nat, ring: nat)
    requires ring > 0 && i < |last| && Touched(last, clock, ring) && Slot(clock, ring) == i
    ensures Touched(last[i := clock + 1], clock + 1, ring)
  {
  }

  lemma CountIs(released: seq<nat>, k: nat)
    requires CountsUp(released) && k < |released|
    ensures released[k] == k
  {
  }

  lemma OneMoreCount(released: seq<nat>)
    requires CountsUp(released)
    ensures CountsUp(released + [|released|])
  {
  }

  lemma ProducerKeepsClocks<T>(s: Queue<T>, load: nat, residue: T)
    requires WellFormed(s) && Wrapped(s) && Ordered(s) && ProducerOk(s) && ClocksOk(s)
    requires Enabled(s, ProducerStep(load, residue))
    ensures ClocksOk(ProducerMoves(s, load, residue).0)
  {
    hide Slot, Touched, CountsUp;
    if s.producer.PRefresh? { CountIs(s.clocks.cReleased, load); }
    if s.producer.PPublish? { OneMoreCount(s.clocks.pReleased); }
    if s.producer.PWrite? {
      TouchedAgain(s.clocks.pLast, s.clocks.p, s.producer.index, s.ring);
    }
  }

  lemma ConsumerKeepsOrder<T>(s: Queue<T>, load: nat, residue: T)
    requires WellFormed(s) && Ordered(s) && ConsumerOk(s) && Enabled(s, ConsumerStep(load, residue))
    ensures Ordered(ConsumerMoves(s, load, residue).0)
  {
  }

  lemma ConsumerKeepsWrapped<T>(s: Queue<T>, load: nat, residue: T)
    requires WellFormed(s) && Wrapped(s) && ConsumerOk(s) && Enabled(s, ConsumerStep(load, residue))
    ensures Wrapped(ConsumerMoves(s, load, residue).0)
  {
    hide Slot, Stored;
    if s.consumer.CRefresh? { StoredAt(s.writeStores, s.ring, load); }
    if s.consumer.CPublish? { StoreNext(s.readStores, s.ring); }
  }

  lemma ConsumerKeepsSelf<T>(s: Queue<T>, load: nat, residue: T)
    requires WellFormed(s) && Wrapped(s) && Ordered(s) && ConsumerOk(s) && Enabled(s, ConsumerStep(load, residue))
    ensures ConsumerOk(ConsumerMoves(s, load, residue).0)
  {
    hide Slot, Stored;
    if s.consumer.CCompare? || s.consumer.CRecheck? {
      SameSlotSameCounter(R(s), s.writeSeen, s.ring);
    }
  }

  lemma ConsumerKeepsProducer<T>(s: Queue<T>, load: nat, residue: T)
    requires WellFormed(s) && Ordered(s) && ProducerOk(s) && ConsumerOk(s) && Enabled(s, ConsumerStep(load, residue))
    ensures ProducerOk(ConsumerMoves(s, load, residue).0)
  {
    hide Slot;
    if s.consumer.CRead? && s.producer.PPublish? {
      SameSlotSameCounter(R(s), W(s), s.ring);
    }
  }

  lemma ConsumerKeepsClocks<T>(s: Queue<T>, load: nat, residue: T)
    requires WellFormed(s) && Wrapped(s) && Ordered(s) && ConsumerOk(s) && ClocksOk(s)
    requires Enabled(s, ConsumerStep(load, residue))
    ensures ClocksOk(ConsumerMoves(s, load, residue).0)
  {
    hide Slot, Touched, CountsUp;
    if s.consumer.CRefresh? { CountIs(s.clocks.pReleased, load); }
    if s.consumer.CPublish? { OneMoreCount(s.clocks.cReleased); }
    if s.consumer.CRead? {
      TouchedAgain(s.clocks.cLast, s.clocks.c, s.consumer.index, s.ring);
    }
  }

  lemma StepKeeps<T>(s: Queue<T>, a: Action<T>)
    requires Inv(s) && Enabled(s, a)
    ensures Inv(Step(s, a).0)
  {
    hide ProducerMoves, ConsumerMoves, Slot;
    match a
    case ProducerStep(load, residue) =>
      ProducerKeepsOrder(s, load, residue);
      ProducerKeepsWrapped(s, load, residue);
      ProducerKeepsSelf(s, load, residue);
      ProducerKeepsConsumer(s, load, residue);
      ProducerKeepsClocks(s, load, residue);
    case ConsumerStep(load, residue) =>
      ConsumerKeepsOrder(s, load, residue);
      ConsumerKeepsWrapped(s, load, residue);
      ConsumerKeepsSelf(s, load, residue);
      ConsumerKeepsProducer(s, load, residue);
      ConsumerKeepsClocks(s, load, residue);
    case _ =>
  }

  lemma {:induction false} RunKeeps<T>(s: Queue<T>, actions: seq<Action<T>>, sc: bool)
    requires Inv(s) && IsRun(s, actions, sc)
    ensures Inv(After(s, actions, sc))
    decreases |actions|
  {
    if actions != [] {
      StepKeeps(s, actions[0]);
      RunKeeps(Step(s, actions[0]).0, actions[1..], sc);
    }
  }
}
