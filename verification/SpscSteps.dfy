/**
 The queue shared by one producer thread and one consumer thread, as a step system: every
 load, cache comparison, cache refresh, slot access and publishing store is a step of its own.

 Memory model. An atomic index is its modification order, the sequence of all values stored so
 far. A thread reads its own index exactly (it is the only writer). An acquire load of the other
 side's index returns any entry of the modification order that is not older than the last one
 this thread read (coherence), and synchronizes with the release store that wrote that entry.
 `SequentiallyConsistent` restricts an action to the latest entry.

 The slots are plain memory, so the state also carries the vector clocks of a race detector:
 each thread counts its slot accesses, a release store publishes the count, an acquire load
 learns the published count, and a slot access races when the other thread's last access to the
 slot is not known to the accessing thread.
 */
module SpscSteps {
  import opened Wrappers
  import opened RingArithmetic

  /** Where the producer is inside `try_emplace` (or the spinning `emplace`). */
  datatype Producer<T> =
    | PIdle
    | PCompare(value: T, blocking: bool, index: nat)
    | PRefresh(value: T, blocking: bool, index: nat)
    | PRecheck(value: T, index: nat)
    | PWrite(value: T, index: nat)
    | PWriting(value: T, index: nat)
    | PPublish(value: T, index: nat)
    | PReturn(ok: bool)

  /** Where the consumer is inside `try_pop` (or the spinning `pop`). */
  datatype Consumer<T> =
    | CIdle
    | CCompare(blocking: bool, index: nat)
    | CRefresh(blocking: bool, index: nat)
    | CRecheck(index: nat)
    | CRead(index: nat)
    | CPublish(value: T, index: nat)
    | CReturn(result: Option<T>)

  /** Race detector: access counts, counts published with each store, counts learnt, last access. */
  datatype Clocks = Clocks(
    p: nat, c: nat,
    pReleased: seq<nat>, cReleased: seq<nat>,
    pKnows: nat, cKnows: nat,
    pLast: seq<nat>, cLast: seq<nat>)

  datatype Queue<T> = Queue(
    ring: nat,                 // capacity_, one more than the capacity asked for
    slots: seq<T>,
    writeStores: seq<nat>,     // modification order of writeIndex_
    readStores: seq<nat>,      // modification order of readIndex_
    readCache: nat,            // readIndexCache_, private to the producer
    writeCache: nat,           // writeIndexCache_, private to the consumer
    readSeen: nat,             // entry of readStores the producer loaded last
    writeSeen: nat,            // entry of writeStores the consumer loaded last
    producer: Producer<T>,
    consumer: Consumer<T>,
    clocks: Clocks)

  datatype Event<T> =
    | Silent
    | PushCall(value: T)
    | PushTakesEffect(value: T, ok: bool)
    | PushReturn(ok: bool)
    | PopCall
    | PopTakesEffect(result: Option<T>)
    | PopReturn(result: Option<T>)

  /** `load` is the entry an acquire load returns; `residue` is what a half-done slot access leaves. */
  datatype Action<T> =
    | CallPush(value: T, blocking: bool)
    | CallPop(blocking: bool)
    | ProducerStep(load: nat, residue: T)
    | ConsumerStep(load: nat, residue: T)

  function Init<T>(ring: nat, slots: seq<T>): Queue<T>
    requires ring > 1 && |slots| == ring
  {
    Queue(ring, slots, [0], [0], 0, 0, 0, 0, PIdle, CIdle,
          Clocks(0, 0, [0], [0], 0, 0, seq(ring, _ => 0), seq(ring, _ => 0)))
  }

  function Last<T>(s: seq<T>): T
    requires |s| > 0
  {
    s[|s| - 1]
  }

  function Max(a: nat, b: nat): nat {
    if a < b then b else a
  }

  predicate Enabled<T>(s: Queue<T>, a: Action<T>) {
    match a
    case CallPush(_, _) => s.producer.PIdle?
    case CallPop(_) => s.consumer.CIdle?
    case ProducerStep(load, _) =>
      !s.producer.PIdle? && (s.producer.PRefresh? ==> s.readSeen <= load < |s.readStores|)
    case ConsumerStep(load, _) =>
      !s.consumer.CIdle? && (s.consumer.CRefresh? ==> s.writeSeen <= load < |s.writeStores|)
  }

  predicate SequentiallyConsistent<T>(s: Queue<T>, a: Action<T>) {
    match a
    case ProducerStep(load, _) => s.producer.PRefresh? ==> load + 1 == |s.readStores|
    case ConsumerStep(load, _) => s.consumer.CRefresh? ==> load + 1 == |s.writeStores|
    case _ => true
  }

  /** Sizes only: enough for every step to be well defined. */
  predicate WellFormed<T>(s: Queue<T>) {
    && s.ring > 1 && |s.slots| == s.ring
    && |s.writeStores| > 0 && |s.readStores| > 0
    && |s.clocks.pReleased| == |s.writeStores| && |s.clocks.cReleased| == |s.readStores|
    && |s.clocks.pLast| == s.ring && |s.clocks.cLast| == s.ring
    && (s.producer.PWrite? || s.producer.PWriting? || s.producer.PPublish? ==> s.producer.index < s.ring)
    && (s.consumer.CRead? || s.consumer.CPublish? ==> s.consumer.index < s.ring)
    && (s.producer.PCompare? || s.producer.PRefresh? || s.producer.PRecheck? ==> s.producer.index < s.ring)
    && (s.consumer.CCompare? || s.consumer.CRefresh? || s.consumer.CRecheck? ==> s.consumer.index < s.ring)
    && Last(s.writeStores) < s.ring && Last(s.readStores) < s.ring
  }

  function ProducerMoves<T>(s: Queue<T>, load: nat, residue: T): (r: (Queue<T>, Event<T>))
    requires WellFormed(s) && Enabled(s, ProducerStep(load, residue))
    ensures WellFormed(r.0)
  {
    match s.producer
    case PCompare(v, blocking, i) =>
      (if NextIndex(i, s.ring) == s.readCache
       then s.(producer := PRefresh(v, blocking, i))
       else s.(producer := PWrite(v, i)), Silent)
    case PRefresh(v, blocking, i) =>
      var loaded := s.readStores[load];
      (s.(readCache := loaded, readSeen := load,
          clocks := s.clocks.(pKnows := Max(s.clocks.pKnows, s.clocks.cReleased[load])),
          producer := if blocking then PCompare(v, true, i) else PRecheck(v, i)),
       if !blocking && NextIndex(i, s.ring) == loaded then PushTakesEffect(v, false) else Silent)
    case PRecheck(v, i) =>
      if NextIndex(i, s.ring) == s.readCache
      then (s.(producer := PIdle), PushReturn(false))
      else (s.(producer := PWrite(v, i)), Silent)
    case PWrite(v, i) =>
      (s.(producer := PWriting(v, i), slots := s.slots[i := residue],
          clocks := s.clocks.(p := s.clocks.p + 1, pLast := s.clocks.pLast[i := s.clocks.p + 1])), Silent)
    case PWriting(v, i) =>
      (s.(producer := PPublish(v, i), slots := s.slots[i := v]), Silent)
    case PPublish(v, i) =>
      (s.(producer := PReturn(true),
          writeStores := s.writeStores + [NextIndex(i, s.ring)],
          clocks := s.clocks.(pReleased := s.clocks.pReleased + [s.clocks.p])),
       PushTakesEffect(v, true))
    case PReturn(ok) =>
      (s.(producer := PIdle), PushReturn(ok))
  }

  function ConsumerMoves<T>(s: Queue<T>, load: nat, residue: T): (r: (Queue<T>, Event<T>))
    requires WellFormed(s) && Enabled(s, ConsumerStep(load, residue))
    ensures WellFormed(r.0)
  {
    match s.consumer
    case CCompare(blocking, i) =>
      (if i == s.writeCache
       then s.(consumer := CRefresh(blocking, i))
       else s.(consumer := CRead(i)), Silent)
    case CRefresh(blocking, i) =>
      var loaded := s.writeStores[load];
      (s.(writeCache := loaded, writeSeen := load,
          clocks := s.clocks.(cKnows := Max(s.clocks.cKnows, s.clocks.pReleased[load])),
          consumer := if blocking then CCompare(true, i) else CRecheck(i)),
       if !blocking && i == loaded then PopTakesEffect(None) else Silent)
    case CRecheck(i) =>
      if i == s.writeCache
      then (s.(consumer := CIdle), PopReturn(None))
      else (s.(consumer := CRead(i)), Silent)
    case CRead(i) =>
      (s.(consumer := CPublish(s.slots[i], i), slots := s.slots[i := residue],
          clocks := s.clocks.(c := s.clocks.c + 1, cLast := s.clocks.cLast[i := s.clocks.c + 1])), Silent)
    case CPublish(v, i) =>
      (s.(consumer := CReturn(Some(v)),
          readStores := s.readStores + [NextIndex(i, s.ring)],
          clocks := s.clocks.(cReleased := s.clocks.cReleased + [s.clocks.c])),
       PopTakesEffect(Some(v)))
    case CReturn(result) =>
      (s.(consumer := CIdle), PopReturn(result))
  }

  function Step<T>(s: Queue<T>, a: Action<T>): (r: (Queue<T>, Event<T>))
    requires WellFormed(s) && Enabled(s, a)
    ensures WellFormed(r.0)
  {
    match a
    case CallPush(v, blocking) =>
      (s.(producer := PCompare(v, blocking, Last(s.writeStores))), PushCall(v))
    case CallPop(blocking) =>
      (s.(consumer := CCompare(blocking, Last(s.readStores))), PopCall)
    case ProducerStep(load, residue) => ProducerMoves(s, load, residue)
    case ConsumerStep(load, residue) => ConsumerMoves(s, load, residue)
  }

  // ----- Runs

  /** From `s` the actions can be taken in order; `sc` asks every load for the latest entry. */
  predicate IsRun<T>(s: Queue<T>, actions: seq<Action<T>>, sc: bool)
    requires WellFormed(s)
    decreases |actions|
  {
    actions == [] ||
    (&& Enabled(s, actions[0])
     && (sc ==> SequentiallyConsistent(s, actions[0]))
     && IsRun(Step(s, actions[0]).0, actions[1..], sc))
  }

  function After<T>(s: Queue<T>, actions: seq<Action<T>>, sc: bool): (t: Queue<T>)
    requires WellFormed(s) && IsRun(s, actions, sc)
    ensures WellFormed(t)
    decreases |actions|
  {
    if actions == [] then s else After(Step(s, actions[0]).0, actions[1..], sc)
  }

  function Trace<T>(s: Queue<T>, actions: seq<Action<T>>, sc: bool): seq<Event<T>>
    requires WellFormed(s) && IsRun(s, actions, sc)
    decreases |actions|
  {
    if actions == [] then [] else
      var (s', e) := Step(s, actions[0]);
      [e] + Trace(s', actions[1..], sc)
  }
}
