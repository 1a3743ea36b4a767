/** HIDStreamingThread's methods, each as one thread runs it alone: a run of the step system. */
module HidStreamingThread {
  import opened StreamingSteps
  import opened StreamingTheorems
  import opened Wrappers
  import SpscQueue

  class HidStreamingThread {
    const queue: SpscQueue.SpscQueue<Item>
    var running: bool
    var eventsRead: nat
    var eventsSent: nat
    var eventsDropped: nat

    ghost var begun: bool      // start() has submitted the transfer and created the threads
    ghost var inFlight: bool   // libusb holds the transfer
    ghost var joining: bool    // a stop() waits for the process loop
    ghost var ended: bool      // the process loop has returned
    ghost var captured: seq<Report>
    ghost var accepted: seq<Report>
    ghost var processed: seq<Report>
    ghost var sentinelsPushed: nat
    ghost var sentinelsLost: nat
    ghost var pushedBy: seq<Producer>

    /** As constructed. */
    ghost predicate Untouched()
      requires queue.Valid()
      reads this, queue, queue.buffer
    {
      && !running && !inFlight && !joining && !ended && queue.Contents() == []
      && eventsRead == 0 && eventsSent == 0 && eventsDropped == 0
      && captured == [] && accepted == [] && processed == []
      && sentinelsPushed == 0 && sentinelsLost == 0 && pushedBy == []
    }

    ghost predicate Valid()
      reads this, queue, queue.buffer
    {
      queue.Valid() && (begun || Untouched())
    }

    /** A callback that read a report leaves the transfer as it is: `rearms` is false. */
    ghost function Abs(): Thread
      requires Valid()
      reads this, queue, queue.buffer
    {
      Thread(queue.Capacity(), false, running, inFlight, queue.Contents(), Idle,
             if joining then Joining else NotStopping,
             if ended then Done else Popping(false),
             eventsRead, eventsSent, eventsDropped,
             captured, accepted, processed, sentinelsPushed, sentinelsLost, pushedBy)
    }

    lemma InFlightMeansBegun()
      requires Valid() && inFlight
      ensures begun
    {
    }

    constructor (queue: SpscQueue.SpscQueue<Item>)
      requires queue.Valid() && queue.Contents() == []
      ensures this.queue == queue && Valid() && !begun
    {
      this.queue, running, begun, inFlight := queue, false, false, false;
      eventsRead, eventsSent, eventsDropped := 0, 0, 0;
      joining, ended, captured, accepted, processed := false, false, [], [], [];
      sentinelsPushed, sentinelsLost, pushedBy := 0, 0, [];
    }

    /**
     Nothing happens while running. Otherwise a failing allocation or submission takes the flag back
     and leaves everything else; with all three the thread is the step system's initial state.
     */
    method Start(transferOk: bool, bufferOk: bool, submitOk: bool)
      requires Valid() && (running || !begun)
      modifies this`running, this`begun, this`inFlight
      ensures Valid()
      ensures old(running) || !(transferOk && bufferOk && submitOk) ==> begun == old(begun) && Abs() == old(Abs())
      ensures !old(running) && transferOk && bufferOk && submitOk ==> begun && Abs() == Started(queue.Capacity(), false)
    {
      if running {
        return;
      }
      running := true;
      if !transferOk {
        running := false;
        return;
      }
      if !bufferOk {
        running := false;
        return;
      }
      if !submitOk {
        running := false;
        return;
      }
      begun, inFlight := true, true;
    }

    /** The steps of one callback, taken without interruption. */
    static function CallbackRun(running: bool, status: Status, submitOk: bool): seq<Action> {
      if !running then [Callback(status)]
      else [Callback(status), CaptureStep(submitOk, false), CaptureStep(submitOk, false)]
    }

    method TransferCallback(status: Status, submitOk: bool)
      requires Valid() && inFlight
      modifies this, queue, queue.buffer
      ensures Valid()
      ensures IsRun(old(Abs()), CallbackRun(old(running), status, submitOk))
      ensures Abs() == After(old(Abs()), CallbackRun(old(running), status, submitOk))
      ensures old(running) && status.NoDevice? ==>
                && !running && !inFlight
                && (|old(queue.Contents())| < queue.Capacity() ==>
                      queue.Contents() == old(queue.Contents()) + [Sentinel])
      ensures old(running) && (status == OtherStatus || status == Completed([])) ==>
                running == inFlight == submitOk && queue.Contents() == old(queue.Contents())
      ensures old(running) && status.Completed? && status.data != [] ==>
                && running && !inFlight
                && (|old(queue.Contents())| < queue.Capacity() ==>
                      queue.Contents() == old(queue.Contents()) + [Data(status.data)])
      ensures !old(running) ==> !running && !inFlight && queue.Contents() == old(queue.Contents())
    {
      hide SpscQueue.SpscQueue.Valid, SpscQueue.SpscQueue.Contents, IsRun, After, CallbackRun, Untouched, PushSentinel;
      InFlightMeansBegun();
      CallbackRunIs(Abs(), status, submitOk);
      inFlight := false;
      if !running {
        return;
      }
      match status
      case Completed(data) =>
        if data != [] {
          PushReport(data);
        } else {
          Resubmit(submitOk);
        }
      case NoDevice =>
        NotifyDeviceLost();
      case OtherStatus =>
        Resubmit(submitOk);
    }

    /** Queue one report, or count it dropped when the queue is full. */
    method PushReport(data: Report)
      requires Valid() && begun
      modifies this`captured, this`accepted, this`eventsRead, this`eventsDropped, this`pushedBy, queue, queue.buffer
      ensures Valid()
      ensures captured == old(captured) + [data] && pushedBy == old(pushedBy) + [CaptureThread]
      ensures if |old(queue.Contents())| < queue.Capacity()
              then && queue.Contents() == old(queue.Contents()) + [Data(data)] && accepted == old(accepted) + [data]
                   && eventsRead == old(eventsRead) + 1 && eventsDropped == old(eventsDropped)
              else && queue.Contents() == old(queue.Contents()) && accepted == old(accepted)
                   && eventsRead == old(eventsRead) && eventsDropped == old(eventsDropped) + 1
    {
      hide SpscQueue.SpscQueue.Valid, SpscQueue.SpscQueue.Contents, Untouched;
      captured, pushedBy := captured + [data], pushedBy + [CaptureThread];
      var ok := queue.TryEmplace(Data(data));
      if !ok {
        eventsDropped := eventsDropped + 1;
      } else {
        accepted := accepted + [data];
        eventsRead := eventsRead + 1;
      }
    }

    /** What those steps come to. */
    static function CallbackEffect(s: Thread, status: Status, submitOk: bool): Thread {
      var s' := s.(inFlight := false);
      if !s.running then s'
      else if status.Completed? && status.data != [] then
        var s'' := s'.(captured := s.captured + [status.data], pushedBy := s.pushedBy + [CaptureThread]);
        if |s.queue| < s.capacity
        then s''.(queue := s.queue + [Data(status.data)], accepted := s.accepted + [status.data],
                  eventsRead := s.eventsRead + 1)
        else s''.(eventsDropped := s.eventsDropped + 1)
      else if status.NoDevice? then PushSentinel(s', CaptureThread, false).(running := false)
      else s'.(running := submitOk, inFlight := submitOk)
    }

    static lemma CallbackRunIs(s: Thread, status: Status, submitOk: bool)
      requires s.inFlight && s.capture.Idle? && !s.stopper.StopPushing? && !s.rearms
      ensures var run := CallbackRun(s.running, status, submitOk);
              IsRun(s, run) && After(s, run) == CallbackEffect(s, status, submitOk)
    {
      var a, b := Callback(status), CaptureStep(submitOk, false);
      if !s.running {
        RunOfOne(s, a);
      } else {
        hide CaptureMoves, CallbackEffect;
        ThreeSteps(s, status, submitOk);
        var s1 := Step(s, a);
        assert [a, b, b][1..] == [b, b] && [b, b][1..] == [b];
        RunOfOne(Step(s1, b), b);
      }
    }

    static lemma ThreeSteps(s: Thread, status: Status, submitOk: bool)
      requires s.running && s.capture.Idle? && !s.stopper.StopPushing? && !s.rearms
      ensures var s1 := CalledBack(s, status); var s2 := CaptureMoves(s1, submitOk, false);
              && !s1.capture.Idle? && !s2.capture.Idle? && !s2.stopper.StopPushing?
              && CaptureMoves(s2, submitOk, false) == CallbackEffect(s, status, submitOk)
    {
    }

    method Resubmit(submitOk: bool)
      modifies this`running, this`inFlight
      ensures running == (old(running) && submitOk)
      ensures inFlight == (old(inFlight) || running)
    {
      if running {
        if !submitOk {
          running := false;
        } else {
          inFlight := true;
        }
      }
    }

    /** The sentinel's push, whose result both callers ignore. */
    method PushSentinelOnce(ghost producer: Producer)
      requires Valid() && begun
      modifies this`sentinelsPushed, this`sentinelsLost, this`pushedBy, queue, queue.buffer
      ensures Valid() && Abs() == PushSentinel(old(Abs()), producer, false)
      ensures queue.Contents() == if |old(queue.Contents())| < queue.Capacity()
                                  then old(queue.Contents()) + [Sentinel] else old(queue.Contents())
    {
      hide SpscQueue.SpscQueue.Valid, SpscQueue.SpscQueue.Contents, Untouched;
      pushedBy := pushedBy + [producer];
      var ok := queue.TryEmplace(Sentinel);
      if ok {
        sentinelsPushed := sentinelsPushed + 1;
      } else {
        sentinelsLost := sentinelsLost + 1;
      }
    }

    method NotifyDeviceLost()
      requires Valid()
      modifies this, queue, queue.buffer
      ensures Valid() && begun == old(begun)
      ensures Abs() == if old(running) then PushSentinel(old(Abs()), CaptureThread, false).(running := false)
                       else old(Abs())
      ensures old(running) ==>
                && !running && inFlight == old(inFlight)
                && queue.Contents() == if |old(queue.Contents())| < queue.Capacity()
                                       then old(queue.Contents()) + [Sentinel] else old(queue.Contents())
    {
      if !running {
        return;
      }
      running := false;
      PushSentinelOnce(CaptureThread);
    }

    /** Up to the joins; `returned` tells that there is nothing to join. */
    method Stop() returns (returned: bool)
      requires Valid() && !joining
      modifies this, queue, queue.buffer
      ensures Valid() && returned == !old(running)
      ensures returned ==>
                Abs() == old(Abs()) && IsRun(old(Abs()), [StopCall]) && Abs() == After(old(Abs()), [StopCall])
      ensures !returned ==>
                var run := [StopCall, StopStep(false)]; IsRun(old(Abs()), run) && Abs() == After(old(Abs()), run)
      ensures !returned ==>
                && !running && joining
                && queue.Contents() == if |old(queue.Contents())| < queue.Capacity()
                                       then old(queue.Contents()) + [Sentinel] else old(queue.Contents())
    {
      hide IsRun, After;
      StopRunIs(Abs());
      if !running {
        return true;
      }
      running := false;
      PushSentinelOnce(StoppingThread);
      joining := true;
      return false;
    }

    /** What the steps of `stop()` come to. */
    static lemma StopRunIs(s: Thread)
      requires s.stopper.NotStopping? && s.capture.Idle?
      ensures !s.running ==> IsRun(s, [StopCall]) && After(s, [StopCall]) == s
      ensures s.running ==>
                var run := [StopCall, StopStep(false)];
                && IsRun(s, run)
                && After(s, run) == PushSentinel(s, StoppingThread, false).(running := false, stopper := Joining)
    {
      RunOfOne(s, StopCall);
      if s.running {
        RunOfOne(Step(s, StopCall), StopStep(false));
        assert [StopCall, StopStep(false)][1..] == [StopStep(false)];
      }
    }

    /** Hand one report to the client; a failed send clears the flag. */
    method ProcessHidReport(report: Report, sendOk: bool)
      modifies this`processed, this`running, this`eventsSent
      ensures processed == old(processed) + [report]
      ensures running == (old(running) && sendOk)
      ensures eventsSent == old(eventsSent) + 1
    {
      if !sendOk {
        running := false;
      }
      processed := processed + [report];
      eventsSent := eventsSent + 1;
    }

    /**
     Both loops of the process thread with no other thread running, so that an empty queue before
     the sentinel would be polled for ever. `sends` says which sends succeed.
     */
    method ProcessLoop(sends: nat -> bool)
      requires Valid() && Inv(Abs()) && sentinelsPushed == 1 && !ended
      modifies this, queue, queue.buffer
      ensures Valid() && Inv(Abs()) && ended
      ensures queue.Contents() == [] && accepted == old(accepted) && processed == accepted
      ensures eventsSent == |processed|
    {
      hide SpscQueue.SpscQueue.Valid, SpscQueue.SpscQueue.Contents, Inv, Enabled, Step;
      var more := true;
      while more
        invariant Valid() && begun && sentinelsPushed == 1 && !ended && accepted == old(accepted)
        invariant Inv(if more then Abs() else Abs().(process := Popping(true)))
        decreases more, |queue.Contents()|
      {
        more := PopAndProcess(sends(eventsSent));
      }
      ghost var s := Abs().(process := Popping(true));
      LastStep(s);
      assert Drained(queue.Contents()) == [];
      Drain(sends);
      assert running == s.running;
      assert Abs().(process := Done) == s.(process := Done);
      ended := true;
      AllProcessed(Abs());
    }

    /** One round of the first loop; false when it popped the sentinel. */
    method PopAndProcess(sendOk: bool) returns (more: bool)
      requires Valid() && begun && Inv(Abs()) && sentinelsPushed == 1 && !ended
      modifies this, queue, queue.buffer
      ensures Valid() && begun && sentinelsPushed == 1 && !ended && accepted == old(accepted)
      ensures Inv(if more then Abs() else Abs().(process := Popping(true)))
      ensures |queue.Contents()| < |old(queue.Contents())|
    {
      hide SpscQueue.SpscQueue.Valid, SpscQueue.SpscQueue.Contents, Inv, Untouched;
      ghost var s := Abs();
      OneRound(s, sendOk);
      var event := queue.TryPop();
      if event.value == Sentinel {
        return false;
      }
      ProcessHidReport(event.value.report, sendOk);
      return true;
    }

    /** What the draining loop hands on: every report that is not empty, and no sentinel. */
    static function HandedOn(item: Item): seq<Report> {
      if item.Data? && item.report != [] then [item.report] else []
    }

    static function Drained(q: seq<Item>): seq<Report> {
      if q == [] then [] else HandedOn(q[0]) + Drained(q[1..])
    }

    /** The same with the first element, if any, already popped. */
    static function DrainedFrom(event: Option<Item>, rest: seq<Item>): seq<Report> {
      (if event.Some? then HandedOn(event.value) else []) + Drained(rest)
    }

    /** The reports of the queue in order, without the empty ones. */
    static lemma {:induction false} DrainedIs(a: seq<Item>, b: seq<Item>)
      ensures Drained(a + b) == Drained(a) + Drained(b)
      ensures |a| == 1 ==> Drained(a) == match a[0] case Sentinel => [] case Data(r) => if r == [] then [] else [r]
    {
      if a == [] {
        assert a + b == b;
      } else {
        assert (a + b)[1..] == a[1..] + b && (a + b)[0] == a[0];
        DrainedIs(a[1..], b);
        assert HandedOn(a[0]) + (Drained(a[1..]) + Drained(b)) == (HandedOn(a[0]) + Drained(a[1..])) + Drained(b);
      }
    }

    static lemma DrainedPop(processed: seq<Report>, event: Option<Item>, q: seq<Item>, rest: seq<Item>)
      requires if event.None? then rest == q == [] else q == [event.value] + rest
      ensures processed + Drained(q) == processed + DrainedFrom(event, rest)
    {
      if event.Some? { assert q[1..] == rest; }
    }

    static lemma DrainedOne(processed: seq<Report>, item: Item, rest: seq<Item>)
      ensures (processed + HandedOn(item)) + Drained(rest) == processed + DrainedFrom(Some(item), rest)
    {
    }

    static predicate AllSucceed(sends: nat -> bool, from: nat, to: nat) {
      forall n :: from <= n < to ==> sends(n)
    }

    static lemma NoneToSucceed(sends: nat -> bool, n: nat)
      ensures AllSucceed(sends, n, n)
    {
    }

    static lemma OneMoreSucceeds(sends: nat -> bool, from: nat, to: nat)
      requires from <= to
      ensures AllSucceed(sends, from, to + 1) == (AllSucceed(sends, from, to) && sends(to))
    {
    }

    /** The draining loop, on whatever the queue holds: sentinels and empty reports are skipped. */
    method Drain(sends: nat -> bool)
      requires Valid() && begun
      modifies this`processed, this`running, this`eventsSent, queue, queue.buffer
      ensures Valid() && queue.Contents() == []
      ensures processed == old(processed) + Drained(old(queue.Contents()))
      ensures eventsSent == old(eventsSent) + |Drained(old(queue.Contents()))|
      ensures running == (old(running) && AllSucceed(sends, old(eventsSent), eventsSent))
    {
      hide SpscQueue.SpscQueue.Valid, SpscQueue.SpscQueue.Contents, Untouched, Drained, DrainedFrom, AllSucceed;
      NoneToSucceed(sends, eventsSent);
      var event := queue.TryPop();
      DrainedPop(processed, event, old(queue.Contents()), queue.Contents());
      while event.Some?
        invariant Valid() && (event.None? ==> queue.Contents() == [])
        invariant processed + DrainedFrom(event, queue.Contents()) == old(processed) + Drained(old(queue.Contents()))
        invariant eventsSent - old(eventsSent) == |processed| - |old(processed)| >= 0
        invariant running == (old(running) && AllSucceed(sends, old(eventsSent), eventsSent))
        decreases event.Some?, |queue.Contents()|
      {
        ghost var q := queue.Contents();
        DrainedOne(processed, event.value, q);
        OneMoreSucceeds(sends, old(eventsSent), eventsSent);
        if event.value.Data? && event.value.report != [] {
          ProcessHidReport(event.value.report, sends(eventsSent));
        }
        event := queue.TryPop();
        DrainedPop(processed, event, q, queue.Contents());
      }
      DrainedNothing(processed);
    }

    static lemma DrainedNothing(processed: seq<Report>)
      ensures processed + DrainedFrom(None, []) == processed
    {
    }

    static lemma HoldsSentinel(s: Thread)
      requires Inv(s) && s.sentinelsPushed == 1 && s.process == Popping(false)
      ensures s.queue != []
    {
    }

    /** The steps of one round of the first loop. */
    static lemma OneRound(s: Thread, sendOk: bool)
      requires Inv(s) && s.sentinelsPushed == 1 && s.process == Popping(false)
      ensures s.queue != []
      ensures var popped := s.(queue := s.queue[1..]);
              match s.queue[0]
              case Sentinel => Inv(popped.(process := Popping(true)))
              case Data(report) =>
                Inv(popped.(processed := s.processed + [report], running := s.running && sendOk,
                            eventsSent := s.eventsSent + 1))
    {
      hide Inv;
      HoldsSentinel(s);
      StepKeeps(s, ProcessStep(true, false));
      var s1 := Step(s, ProcessStep(true, false));
      if s.queue[0].Data? {
        StepKeeps(s1, ProcessStep(sendOk, false));
        StepKeeps(Step(s1, ProcessStep(sendOk, false)), ProcessStep(true, false));
      }
    }

    /** The sentinel was the last element, so the draining loop finds the queue empty at once. */
    static lemma LastStep(s: Thread)
      requires Inv(s) && s.process == Popping(true)
      ensures s.queue == [] && Inv(s.(process := Done))
    {
      StepKeeps(s, ProcessStep(true, false));
    }

    static lemma AllProcessed(s: Thread)
      requires Inv(s) && s.process.Done?
      ensures s.queue == [] && s.processed == s.accepted && s.eventsSent == |s.processed|
    {
      assert s.accepted == s.processed + ([] + []);
    }
  }
}
