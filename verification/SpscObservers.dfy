/** What failing calls and `size()` tell their caller, and what they do not. */
module SpscObservers {
  import opened RingArithmetic
  import opened SpscSteps
  import opened SpscInvariant
  import opened SpscTheorems

  /**
   A failing call tells the truth about the queue at the moment of its load exactly when that load
   returned the latest index; an older entry makes it report "full" or "empty" wrongly.
   */
  lemma FailureHonestIffLatest<T>(s: Queue<T>, a: Action<T>)
    requires Inv(s) && Enabled(s, a) && Fails(Step(s, a).1)
    ensures Legal(Capacity(s), Contents(s), Step(s, a).1, true) <==> SequentiallyConsistent(s, a)
  {
    match a
    case ProducerStep(load, _) => FullTest(W(s), load, s.ring);
    case ConsumerStep(load, _) => SameSlotSameCounter(R(s), load, s.ring);
    case _ =>
  }

  /** A push can fail only after `capacity` pushes, whatever entry its load returns. */
  lemma FullNeedsALap<T>(s: Queue<T>, a: Action<T>)
    requires Inv(s) && Enabled(s, a)
    requires var e := Step(s, a).1; e.PushTakesEffect? && !e.ok
    ensures Capacity(s) <= W(s)
  {
    FullTest(W(s), a.load, s.ring);
  }

  // ----- size(): a write index is loaded in state s, a read index in a later state t

  /** The answer from entry `k` of one modification order and entry `l` of the other. */
  function SizeOf<T>(s: Queue<T>, k: nat, t: Queue<T>, l: nat): nat
    requires Wrapped(s) && Wrapped(t) && s.ring == t.ring && k < |s.writeStores| && l < |t.readStores|
  {
    Distance(s.ring, s.writeStores[k], t.readStores[l])
  }

  function Size<T>(s: Queue<T>, t: Queue<T>): nat
    requires WellFormed(s) && WellFormed(t) && s.ring == t.ring
  {
    Distance(s.ring, Last(s.writeStores), Last(t.readStores))
  }

  lemma StepGrows<T>(s: Queue<T>, a: Action<T>)
    requires WellFormed(s) && Enabled(s, a)
    ensures var t := Step(s, a).0; t.ring == s.ring && W(s) <= W(t) && R(s) <= R(t)
  {
  }

  lemma {:induction false} StoresOnlyGrow<T>(s: Queue<T>, actions: seq<Action<T>>, sc: bool)
    requires WellFormed(s) && IsRun(s, actions, sc)
    ensures var t := After(s, actions, sc); t.ring == s.ring && W(s) <= W(t) && R(s) <= R(t)
    decreases |actions|
  {
    if actions != [] {
      hide ProducerMoves, ConsumerMoves;
      StepGrows(s, actions[0]);
      StoresOnlyGrow(Step(s, actions[0]).0, actions[1..], sc);
    }
  }

  lemma {:induction false} OnlyConsumerMoves<T>(s: Queue<T>, actions: seq<Action<T>>, sc: bool)
    requires WellFormed(s) && IsRun(s, actions, sc)
    requires forall a :: a in actions ==> a.CallPop? || a.ConsumerStep?
    ensures After(s, actions, sc).writeStores == s.writeStores
    decreases |actions|
  {
    if actions != [] {
      OnlyConsumerMoves(Step(s, actions[0]).0, actions[1..], sc);
    }
  }

  lemma {:induction false} OnlyProducerMoves<T>(s: Queue<T>, actions: seq<Action<T>>, sc: bool)
    requires WellFormed(s) && IsRun(s, actions, sc)
    requires forall a :: a in actions ==> a.CallPush? || a.ProducerStep?
    ensures After(s, actions, sc).readStores == s.readStores
    decreases |actions|
  {
    if actions != [] {
      OnlyProducerMoves(Step(s, actions[0]).0, actions[1..], sc);
    }
  }

  /** Whoever calls it and whatever entries its loads return, the answer is in 0..capacity. */
  lemma SizeInRange<T>(s: Queue<T>, actions: seq<Action<T>>, k: nat, l: nat, sc: bool)
    requires Inv(s) && IsRun(s, actions, sc)
    requires k < |s.writeStores| && l < |After(s, actions, sc).readStores|
    ensures var t := After(s, actions, sc);
            Wrapped(t) && t.ring == s.ring && SizeOf(s, k, t, l) == (k - l) % s.ring <= Capacity(s)
  {
    hide ProducerOk, ConsumerOk, ClocksOk;
    RunKeeps(s, actions, sc);
    StoresOnlyGrow(s, actions, sc);
    DistanceIsModulo(k, l, s.ring);
  }

  /**
   Called by the producer, which knows its own index: with entry `l` of the read index, no older
   than the one it loaded last, the answer counts what had not been popped then. It is never too
   small, and is the length at that load exactly when the entry was the latest.
   */
  lemma SizeSeenByProducer<T>(s: Queue<T>, actions: seq<Action<T>>, l: nat, sc: bool)
    requires Inv(s) && IsRun(s, actions, sc)
    requires forall a :: a in actions ==> a.CallPop? || a.ConsumerStep?
    requires var t := After(s, actions, sc); t.readSeen <= l <= R(t)
    ensures var t := After(s, actions, sc);
            && Inv(t) && t.ring == s.ring && SizeOf(s, |s.writeStores| - 1, t, l) == W(t) - l
            && |Contents(t)| <= W(t) - l <= Capacity(s) && (|Contents(t)| == W(t) - l <==> l == R(t))
  {
    hide ProducerOk, ConsumerOk, ClocksOk, IsRun, After, Slot, Distance;
    var t := After(s, actions, sc);
    RunKeeps(s, actions, sc);
    StoresOnlyGrow(s, actions, sc);
    OnlyConsumerMoves(s, actions, sc);
    DistanceOfCounters(W(t), l, s.ring);
  }

  /**
   Called by the consumer: with entry `k` of the write index, no older than the one it loaded last,
   the answer counts what had been pushed then. It is never too large, and is the length at that
   load exactly when the entry was the latest.
   */
  lemma SizeSeenByConsumer<T>(s: Queue<T>, actions: seq<Action<T>>, k: nat, sc: bool)
    requires Inv(s) && IsRun(s, actions, sc) && s.writeSeen <= k <= W(s)
    requires forall a :: a in actions ==> a.CallPush? || a.ProducerStep?
    ensures var t := After(s, actions, sc);
            && Inv(t) && t.ring == s.ring && SizeOf(s, k, t, |t.readStores| - 1) == k - R(s)
            && k - R(s) <= |Contents(s)| && (k - R(s) == |Contents(s)| <==> k == W(s))
  {
    hide ProducerOk, ConsumerOk, ClocksOk;
    RunKeeps(s, actions, sc);
    StoresOnlyGrow(s, actions, sc);
    OnlyProducerMoves(s, actions, sc);
    DistanceOfCounters(k, R(s), s.ring);
  }

  /**
   Called by a third thread, whose loads may return any entries `k` and `l`: the answer is the length
   at the first load exactly when the pushes `k` misses there and the pops `l` is ahead of it add up
   to whole laps, and the length at the second load exactly when the same holds there.
   */
  lemma SizeSeenByOthers<T>(s: Queue<T>, actions: seq<Action<T>>, k: nat, l: nat, sc: bool)
    requires Inv(s) && IsRun(s, actions, sc)
    requires k < |s.writeStores| && l < |After(s, actions, sc).readStores|
    ensures var t := After(s, actions, sc);
            && Inv(t) && t.ring == s.ring && SizeOf(s, k, t, l) == (k - l) % s.ring
            && (SizeOf(s, k, t, l) == |Contents(s)| <==> ((W(s) - k) + (l - R(s))) % s.ring == 0)
            && (SizeOf(s, k, t, l) == |Contents(t)| <==> ((W(t) - k) + (l - R(t))) % s.ring == 0)
  {
    hide SizeOf, Contents, IsRun, After, Stored, Ordered, ProducerOk, ConsumerOk, ClocksOk;
    var t := After(s, actions, sc);
    RunKeeps(s, actions, sc);
    SizeInRange(s, actions, k, l, sc);
    LengthOf(s);
    LengthOf(t);
    RemainderIs(W(s) - R(s), k - l, s.ring);
    RemainderIs(W(t) - R(t), k - l, s.ring);
  }

  /**
   The same with the latest entries: the answer is the length at the first load
   exactly when whole laps were popped in between, and the length at the second load exactly when
   whole laps were pushed.
   */
  lemma SizeOfLatest<T>(s: Queue<T>, actions: seq<Action<T>>, sc: bool)
    requires Inv(s) && IsRun(s, actions, sc)
    ensures var t := After(s, actions, sc);
            && Inv(t) && t.ring == s.ring && Size(s, t) == (W(s) - R(t)) % s.ring
            && (Size(s, t) == |Contents(s)| <==> (R(t) - R(s)) % s.ring == 0)
            && (Size(s, t) == |Contents(t)| <==> (W(t) - W(s)) % s.ring == 0)
            && (Size(s, t) == W(s) - R(t) <==> R(t) <= W(s))
  {
    hide Size, Contents, IsRun, After, Wrapped, Ordered, ProducerOk, ConsumerOk, ClocksOk, Slot, Distance;
    var t := After(s, actions, sc);
    RunKeeps(s, actions, sc);
    StoresOnlyGrow(s, actions, sc);
    SizeOfLast(s, t);
    LengthOf(s);
    LengthOf(t);
    LengthIff(W(s), R(s), W(t), R(t), s.ring);
  }

  lemma SizeOfLast<T>(s: Queue<T>, t: Queue<T>)
    requires Inv(s) && Inv(t) && s.ring == t.ring
    ensures Size(s, t) == Distance(s.ring, Slot(W(s), s.ring), Slot(R(t), s.ring))
  {
    hide ProducerOk, ConsumerOk, ClocksOk, Slot, Distance;
  }

  lemma LengthOf<T>(s: Queue<T>)
    requires Inv(s)
    ensures s.ring > 1 && 0 <= R(s) <= W(s) < R(s) + s.ring && |Contents(s)| == W(s) - R(s)
  {
    hide ProducerOk, ConsumerOk, ClocksOk, Wrapped;
  }

  // ----- Runs in which a third thread is told a length the queue never had

  lemma Prepend<T>(s: Queue<T>, a: Action<T>, rest: seq<Action<T>>)
    requires WellFormed(s) && Enabled(s, a) && SequentiallyConsistent(s, a)
    requires IsRun(Step(s, a).0, rest, true)
    ensures IsRun(s, [a] + rest, true)
    ensures After(s, [a] + rest, true) == After(Step(s, a).0, rest, true)
    ensures R(s) < W(s) && NeverEmpty(Step(s, a).0, rest) ==> NeverEmpty(s, [a] + rest)
  {
    assert ([a] + rest)[1..] == rest;
  }

  /** From `s` on and after each of the actions there is an element in the queue. */
  predicate NeverEmpty<T>(s: Queue<T>, actions: seq<Action<T>>)
    requires WellFormed(s) && IsRun(s, actions, true)
    decreases |actions|
  {
    R(s) < W(s) && (actions == [] || NeverEmpty(Step(s, actions[0]).0, actions[1..]))
  }

  lemma {:induction false} Concatenate<T>(s: Queue<T>, a: seq<Action<T>>, b: seq<Action<T>>)
    requires WellFormed(s) && IsRun(s, a, true) && IsRun(After(s, a, true), b, true)
    ensures IsRun(s, a + b, true) && After(s, a + b, true) == After(After(s, a, true), b, true)
    ensures NeverEmpty(s, a) && NeverEmpty(After(s, a, true), b) ==> NeverEmpty(s, a + b)
    decreases |a|
  {
    if a == [] {
      assert a + b == b;
    } else {
      hide Enabled, Step, SequentiallyConsistent;
      assert (a + b)[1..] == a[1..] + b;
      Concatenate(Step(s, a[0]).0, a[1..], b);
    }
  }

  /** The same action taken `n` times in a row, by a thread that is inside a call until the last. */
  function Repeat<T>(a: Action<T>, n: nat): seq<Action<T>> {
    if n == 0 then [] else [a] + Repeat(a, n - 1)
  }

  lemma PrependSame<T>(s: Queue<T>, a: Action<T>, n: nat)
    requires WellFormed(s) && Enabled(s, a) && SequentiallyConsistent(s, a)
    requires IsRun(Step(s, a).0, Repeat(a, n), true)
    ensures IsRun(s, Repeat(a, n + 1), true)
    ensures After(s, Repeat(a, n + 1), true) == After(Step(s, a).0, Repeat(a, n), true)
    ensures R(s) < W(s) && NeverEmpty(Step(s, a).0, Repeat(a, n)) ==> NeverEmpty(s, Repeat(a, n + 1))
  {
    hide Step, IsRun, After, NeverEmpty, WellFormed, Enabled, SequentiallyConsistent;
    Prepend(s, a, Repeat(a, n));
  }

  lemma NoMoreSteps<T>(s: Queue<T>, a: Action<T>)
    requires WellFormed(s)
    ensures IsRun(s, Repeat(a, 0), true) && After(s, Repeat(a, 0), true) == s
    ensures R(s) < W(s) ==> NeverEmpty(s, Repeat(a, 0))
  {
  }

  /** The rest of a push that found room: write, publish, return. */
  lemma WriteSteps<T>(s: Queue<T>, x: T)
    requires WellFormed(s) && s.producer.PWrite?
    ensures var actions := Repeat(ProducerStep(0, x), 4);
            && IsRun(s, actions, true)
            && var t := After(s, actions, true);
            && t.ring == s.ring && W(t) == W(s) + 1 && R(t) == R(s) && t.producer.PIdle?
            && t.consumer == s.consumer && t.readSeen == s.readSeen && t.writeSeen == s.writeSeen
            && (R(s) < W(s) ==> NeverEmpty(s, actions))
  {
    var p := ProducerStep(0, x);
    var s1 := Step(s, p).0;
    var s2 := Step(s1, p).0;
    var s3 := Step(s2, p).0;
    var s4 := Step(s3, p).0;
    hide Step, IsRun, After, NeverEmpty, WellFormed, Repeat;
    NoMoreSteps(s4, p);
    PrependSame(s3, p, 0);
    PrependSame(s2, p, 1);
    PrependSame(s1, p, 2);
    PrependSame(s, p, 3);
  }

  /** The steps of a push that finds room by the producer's own cache. */
  lemma PushSteps<T>(s: Queue<T>, x: T)
    requires WellFormed(s) && s.producer.PIdle? && NextIndex(Last(s.writeStores), s.ring) != s.readCache
    ensures var actions := [CallPush(x, false)] + Repeat(ProducerStep(0, x), 5);
            && IsRun(s, actions, true)
            && var t := After(s, actions, true);
            && t.ring == s.ring && W(t) == W(s) + 1 && R(t) == R(s) && t.producer.PIdle?
            && t.consumer == s.consumer && t.readSeen == s.readSeen && t.writeSeen == s.writeSeen
            && (R(s) < W(s) ==> NeverEmpty(s, actions))
  {
    var p := ProducerStep(0, x);
    var s1 := Step(s, CallPush(x, false)).0;
    var s2 := Step(s1, p).0;
    hide Step, IsRun, After, NeverEmpty, WellFormed, Repeat;
    WriteSteps(s2, x);
    PrependSame(s1, p, 4);
    Prepend(s, CallPush(x, false), Repeat(p, 5));
  }

  /** One push from call to return, with room by the producer's own cache. */
  lemma OnePush<T>(s: Queue<T>, x: T) returns (actions: seq<Action<T>>)
    requires Inv(s) && s.producer.PIdle? && W(s) < s.readSeen + Capacity(s)
    ensures IsRun(s, actions, true)
    ensures var t := After(s, actions, true);
            && Inv(t) && t.ring == s.ring && W(t) == W(s) + 1 && R(t) == R(s) && t.producer.PIdle?
            && t.consumer == s.consumer && t.readSeen == s.readSeen && t.writeSeen == s.writeSeen
    ensures R(s) < W(s) ==> NeverEmpty(s, actions)
  {
    hide IsRun, After, NeverEmpty, Step, Repeat, ProducerOk, ConsumerOk, ClocksOk, Slot;
    FullTest(W(s), s.readSeen, s.ring);
    PushSteps(s, x);
    actions := [CallPush(x, false)] + Repeat(ProducerStep(0, x), 5);
    RunKeeps(s, actions, true);
  }

  /** The rest of a pop that found an element: read, publish, return. */
  lemma ReadSteps<T>(s: Queue<T>, load: nat, residue: T)
    requires WellFormed(s) && s.consumer.CRead?
    ensures var actions := Repeat(ConsumerStep(load, residue), 3);
            && IsRun(s, actions, true)
            && var t := After(s, actions, true);
            && t.ring == s.ring && W(t) == W(s) && R(t) == R(s) + 1 && t.consumer.CIdle? && t.producer == s.producer
            && (R(s) + 1 < W(s) ==> NeverEmpty(s, actions))
  {
    var c := ConsumerStep(load, residue);
    var s1 := Step(s, c).0;
    var s2 := Step(s1, c).0;
    var s3 := Step(s2, c).0;
    hide Step, IsRun, After, NeverEmpty, WellFormed, Repeat;
    NoMoreSteps(s3, c);
    PrependSame(s2, c, 0);
    PrependSame(s1, c, 1);
    PrependSame(s, c, 2);
  }

  /** The steps of a pop that has to load the write index and finds an element. */
  lemma PopSteps<T>(s: Queue<T>, residue: T)
    requires WellFormed(s) && s.consumer.CIdle? && s.writeSeen < |s.writeStores|
    requires Last(s.readStores) == s.writeCache && Last(s.writeStores) != s.writeCache
    ensures var actions := [CallPop(false)] + Repeat(ConsumerStep(|s.writeStores| - 1, residue), 6);
            && IsRun(s, actions, true)
            && var t := After(s, actions, true);
            && t.ring == s.ring && W(t) == W(s) && R(t) == R(s) + 1 && t.consumer.CIdle? && t.producer == s.producer
            && (R(s) + 1 < W(s) ==> NeverEmpty(s, actions))
  {
    var c := ConsumerStep(|s.writeStores| - 1, residue);
    var s1 := Step(s, CallPop(false)).0;
    var s2 := Step(s1, c).0;
    var s3 := Step(s2, c).0;
    var s4 := Step(s3, c).0;
    hide Step, IsRun, After, NeverEmpty, WellFormed, Repeat;
    ReadSteps(s4, |s.writeStores| - 1, residue);
    PrependSame(s3, c, 3);
    PrependSame(s2, c, 4);
    PrependSame(s1, c, 5);
    Prepend(s, CallPop(false), Repeat(c, 6));
  }

  /** One pop from call to return, by a consumer that has to load the write index. */
  lemma OnePop<T>(s: Queue<T>, residue: T) returns (actions: seq<Action<T>>)
    requires Inv(s) && s.consumer.CIdle? && R(s) == s.writeSeen < W(s)
    ensures IsRun(s, actions, true)
    ensures var t := After(s, actions, true);
            && Inv(t) && t.ring == s.ring && W(t) == W(s) && R(t) == R(s) + 1 && t.consumer.CIdle?
            && t.producer == s.producer
    ensures R(s) + 1 < W(s) ==> NeverEmpty(s, actions)
  {
    hide IsRun, After, NeverEmpty, Step, Repeat, ProducerOk, ConsumerOk, ClocksOk, Slot;
    SameSlotSameCounter(R(s), W(s), s.ring);
    PopSteps(s, residue);
    actions := [CallPop(false)] + Repeat(ConsumerStep(|s.writeStores| - 1, residue), 6);
    RunKeeps(s, actions, true);
  }

  /** Between the loads one push and one pop happen, by a consumer that has popped all it has seen. */
  lemma PushAndPop<T>(s: Queue<T>, x: T) returns (actions: seq<Action<T>>)
    requires Inv(s) && s.producer.PIdle? && s.consumer.CIdle?
    requires W(s) < s.readSeen + Capacity(s) && R(s) == s.writeSeen
    ensures IsRun(s, actions, true)
    ensures var t := After(s, actions, true);
            && t.ring == s.ring && W(t) == W(s) + 1 && R(t) == R(s) + 1
            && Size(s, t) == (W(s) - R(s) - 1) % s.ring
    ensures R(s) < W(s) ==> NeverEmpty(s, actions)
  {
    hide IsRun, After, NeverEmpty, Size, Contents, Wrapped, ProducerOk, ConsumerOk, ClocksOk;
    var push := OnePush(s, x);
    var pop := OnePop(After(s, push, true), x);
    Concatenate(s, push, pop);
    actions := push + pop;
    SizeOfLatest(s, actions, true);
  }

  lemma InitIdle<T>(ring: nat, slots: seq<T>)
    requires ring > 1 && |slots| == ring
    ensures var s := Init(ring, slots);
            && Inv(s) && s.ring == ring && W(s) == 0 && R(s) == 0 && s.readSeen == 0 && s.writeSeen == 0
            && s.producer.PIdle? && s.consumer.CIdle?
  {
  }

  /** A push and a pop between the loads: a third thread reads "full" of an empty queue. */
  lemma SizeCanMisreport<T>(ring: nat, slots: seq<T>, x: T) returns (actions: seq<Action<T>>)
    requires ring > 1 && |slots| == ring
    ensures var s := Init(ring, slots);
            && IsRun(s, actions, true)
            && var t := After(s, actions, true);
            && R(s) <= W(s) && Contents(s) == []
            && R(t) <= W(t) && Contents(t) == []
            && t.ring == s.ring && Size(s, t) == Capacity(s)
  {
    hide IsRun, After, Size, Init, Inv;
    InitIdle(ring, slots);
    actions := PushAndPop(Init(ring, slots), x);
    RemainderOf(-1, -1, ring - 1, ring);
  }

  /**
   The condition of SizeOfLatest is not about empty queues: with one element in the queue, a push
   and a pop between the loads, a third thread reads "empty" of a queue that never was.
   */
  lemma SizeCanMissEveryLength<T>(ring: nat, slots: seq<T>, x: T)
    returns (before: seq<Action<T>>, actions: seq<Action<T>>)
    requires ring > 2 && |slots| == ring
    ensures IsRun(Init(ring, slots), before, true)
    ensures var s := After(Init(ring, slots), before, true);
            && IsRun(s, actions, true)
            && var t := After(s, actions, true);
            && R(t) <= W(s) && t.ring == s.ring && Size(s, t) == 0
            && NeverEmpty(s, actions)
  {
    hide IsRun, After, Size, Init, Inv, NeverEmpty;
    InitIdle(ring, slots);
    before := OnePush(Init(ring, slots), x);
    actions := PushAndPop(After(Init(ring, slots), before, true), x);
  }
}
