/**
 The streaming thread after `start()`: libusb callbacks on the capture thread, `stop()` on another
 thread, and the process loop on a third, interleaved at every access to the running flag, the
 queue and the counters.

 A callback belongs to a submitted transfer and ends it; `start()` submits one. `rearms` says what a
 callback does after a report: false is the code, which leaves no transfer behind; true is the
 design document, in which every transfer is submitted again.

 The queue is the bounded FIFO that SpscTheorems proves it to be for one producer, with the answers
 SpscObservers leaves to an acquire load of an old index: a stale push fails although there is room,
 which takes at least `capacity` earlier pushes (FullNeedsALap), and a stale pop fails although there
 is an element. One producer means two things here. A state with two threads inside a push is outside
 that contract, so no push step leaves it. And where the pushing thread changes from the capture
 thread to the one in `stop()`, the first one's pushes are taken to be visible to the second; the
 code orders nothing there. StreamingTheorems.HandOffExactly says when that happens.
 */
module StreamingSteps {

  type Report = seq<nat>

  datatype Item = Data(report: Report) | Sentinel

  /** The status of a completed transfer; Completed carries the bytes read, perhaps none. */
  datatype Status = Completed(data: Report) | NoDevice | OtherStatus

  /** Inside `transfer_callback` and `notify_device_lost`. */
  datatype Capture =
    | Idle
    | Pushing(report: Report)
    | Counting(ok: bool)
    | Losing
    | PushingSentinel
    | Resubmitting
    | Submitting

  /** Inside `stop()`. */
  datatype Stopper = NotStopping | StopPushing | Joining

  /** Inside `process_loop`; `draining` tells the second loop from the first. */
  datatype Process =
    | Popping(draining: bool)
    | Sending(report: Report, draining: bool)
    | Sent(draining: bool)
    | Done

  /** The threads that may call `try_push`. */
  datatype Producer = CaptureThread | StoppingThread

  datatype Thread = Thread(
    capacity: nat,
    rearms: bool,
    running: bool,
    inFlight: bool,            // a transfer is submitted and its callback has not come
    queue: seq<Item>,
    capture: Capture,
    stopper: Stopper,
    process: Process,
    eventsRead: nat,
    eventsSent: nat,
    eventsDropped: nat,
    // What happened so far.
    captured: seq<Report>,     // non-empty completions that passed the guard
    accepted: seq<Report>,     // reports pushed
    processed: seq<Report>,    // reports handed to the client
    sentinelsPushed: nat,
    sentinelsLost: nat,        // sentinel pushes that failed
    pushedBy: seq<Producer>)   // who called try_push, in order

  datatype Action =
    | Callback(status: Status)
    | CaptureStep(submitOk: bool, stale: bool)
    | StopCall
    | StopStep(stale: bool)
    | ProcessStep(sendOk: bool, stale: bool)

  function Started(capacity: nat, rearms: bool): Thread {
    Thread(capacity, rearms, true, true, [], Idle, NotStopping, Popping(false), 0, 0, 0, [], [], [], 0, 0, [])
  }

  predicate CapturePushes(s: Thread) {
    s.capture.Pushing? || s.capture.PushingSentinel?
  }

  /** Two threads are inside a push at once. */
  predicate TwoProducers(s: Thread) {
    CapturePushes(s) && s.stopper.StopPushing?
  }

  /** A push may fail for an old read index although there is room. */
  predicate StalePush(s: Thread) {
    |s.queue| < s.capacity <= |s.accepted| + s.sentinelsPushed
  }

  /** A pop may fail for an old write index although there is an element. */
  predicate StalePop(s: Thread) {
    s.process.Popping? && s.queue != []
  }

  predicate Enabled(s: Thread, a: Action) {
    match a
    case Callback(_) => s.capture.Idle? && s.inFlight
    case CaptureStep(_, stale) =>
      !s.capture.Idle? && (CapturePushes(s) ==> !TwoProducers(s)) && (stale ==> CapturePushes(s) && StalePush(s))
    case StopCall => s.stopper.NotStopping?
    case StopStep(stale) =>
      if s.stopper.StopPushing? then !TwoProducers(s) && (stale ==> StalePush(s))
      else s.stopper.Joining? && s.process.Done? && s.capture.Idle? && !stale
    case ProcessStep(_, stale) => !s.process.Done? && (stale ==> StalePop(s))
  }

  /** The queue keeps its bound, and nothing changes what the thread was made as. */
  predicate SameQueue(s: Thread, t: Thread) {
    t.capacity == s.capacity && t.rearms == s.rearms && (|s.queue| <= s.capacity ==> |t.queue| <= t.capacity)
  }

  /** The capture thread leaves alone what belongs to the process loop and to `stop()`. */
  predicate CaptureSideOnly(s: Thread, t: Thread) {
    && t.process == s.process && t.stopper == s.stopper
    && t.processed == s.processed && t.eventsSent == s.eventsSent
  }

  /** The process loop leaves alone what belongs to the threads that push. */
  predicate ProcessSideOnly(s: Thread, t: Thread) {
    && t.capture == s.capture && t.stopper == s.stopper && t.inFlight == s.inFlight
    && t.captured == s.captured && t.accepted == s.accepted && t.pushedBy == s.pushedBy
    && t.sentinelsPushed == s.sentinelsPushed && t.sentinelsLost == s.sentinelsLost
    && t.eventsRead == s.eventsRead && t.eventsDropped == s.eventsDropped
    && (t.running ==> s.running) && |t.queue| <= |s.queue|
  }

  function PushSentinel(s: Thread, producer: Producer, stale: bool): (t: Thread)
    ensures SameQueue(s, t)
  {
    if |s.queue| < s.capacity && !stale
    then s.(queue := s.queue + [Sentinel], sentinelsPushed := s.sentinelsPushed + 1,
            pushedBy := s.pushedBy + [producer])
    else s.(sentinelsLost := s.sentinelsLost + 1, pushedBy := s.pushedBy + [producer])
  }

  function PushData(s: Thread, report: Report, stale: bool): (t: Thread)
    ensures SameQueue(s, t)
  {
    if |s.queue| < s.capacity && !stale
    then s.(capture := Counting(true), queue := s.queue + [Data(report)], accepted := s.accepted + [report],
            pushedBy := s.pushedBy + [CaptureThread])
    else s.(capture := Counting(false), pushedBy := s.pushedBy + [CaptureThread])
  }

  function CaptureMoves(s: Thread, submitOk: bool, stale: bool): (t: Thread)
    ensures SameQueue(s, t) && CaptureSideOnly(s, t)
  {
    match s.capture
    case Idle => s
    case Pushing(report) => PushData(s, report, stale)
    case Counting(ok) =>
      var after := if s.rearms then Resubmitting else Idle;
      if ok then s.(capture := after, eventsRead := s.eventsRead + 1)
      else s.(capture := after, eventsDropped := s.eventsDropped + 1)
    case Losing =>
      if s.running then s.(running := false, capture := PushingSentinel) else s.(capture := Idle)
    case PushingSentinel => PushSentinel(s, CaptureThread, stale).(capture := Idle)
    case Resubmitting => if s.running then s.(capture := Submitting) else s.(capture := Idle)
    case Submitting =>
      if submitOk then s.(capture := Idle, inFlight := true) else s.(capture := Idle, running := false)
  }

  function ProcessMoves(s: Thread, sendOk: bool, stale: bool): (t: Thread)
    ensures SameQueue(s, t) && ProcessSideOnly(s, t)
  {
    match s.process
    case Popping(draining) =>
      if s.queue == [] || stale then s.(process := if draining then Done else Popping(false))
      else
        var popped := s.(queue := s.queue[1..]);
        (match s.queue[0]
         case Sentinel => popped.(process := Popping(true))
         case Data(report) =>
           if draining && report == [] then popped else popped.(process := Sending(report, draining)))
    case Sending(report, draining) =>
      s.(process := Sent(draining), processed := s.processed + [report], running := s.running && sendOk)
    case Sent(draining) => s.(process := Popping(draining), eventsSent := s.eventsSent + 1)
    case Done => s
  }

  function CalledBack(s: Thread, status: Status): (t: Thread)
    ensures SameQueue(s, t)
  {
    var s' := s.(inFlight := false);
    if !s.running then s'
    else
      (match status
       case Completed(data) =>
         if data != [] then s'.(capture := Pushing(data), captured := s.captured + [data])
         else s'.(capture := Resubmitting)
       case NoDevice => s'.(capture := Losing)
       case OtherStatus => s'.(capture := Resubmitting))
  }

  function Step(s: Thread, a: Action): (t: Thread)
    ensures SameQueue(s, t)
  {
    match a
    case Callback(status) => CalledBack(s, status)
    case CaptureStep(submitOk, stale) => CaptureMoves(s, submitOk, stale)
    case StopCall => if s.running then s.(running := false, stopper := StopPushing) else s
    case StopStep(stale) =>
      if s.stopper.StopPushing? then PushSentinel(s, StoppingThread, stale).(stopper := Joining)
      else s.(stopper := NotStopping)
    case ProcessStep(sendOk, stale) => ProcessMoves(s, sendOk, stale)
  }

  predicate IsRun(s: Thread, actions: seq<Action>)
    decreases |actions|
  {
    actions == [] || (Enabled(s, actions[0]) && IsRun(Step(s, actions[0]), actions[1..]))
  }

  function After(s: Thread, actions: seq<Action>): Thread
    decreases |actions|
  {
    if actions == [] then s else After(Step(s, actions[0]), actions[1..])
  }
}
