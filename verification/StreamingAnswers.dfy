/**
 What a callback, `stop()` and a round of the process loop leave behind, by what libusb, the queue and
 the client answer.
 */
module StreamingAnswers {
  import opened StreamingSteps
  import opened StreamingTheorems
  import opened StreamingEnding

  lemma TwoSteps(s: Thread, a: Action, b: Action)
    requires Enabled(s, a) && Enabled(Step(s, a), b)
    ensures IsRun(s, [a, b]) && After(s, [a, b]) == Step(Step(s, a), b)
  {
    hide Enabled, Step;
    assert [a, b][1..] == [b];
    RunOfOne(Step(s, a), b);
  }

  lemma ThreeSteps(s: Thread, a: Action, b: Action, c: Action)
    requires Enabled(s, a) && Enabled(Step(s, a), b) && Enabled(Step(Step(s, a), b), c)
    ensures IsRun(s, [a, b, c]) && After(s, [a, b, c]) == Step(Step(Step(s, a), b), c)
  {
    hide Enabled, Step;
    assert [a, b, c][1..] == [b, c];
    TwoSteps(Step(s, a), b, c);
  }

  /** The callback may begin and no other thread is about to push. */
  predicate CalledAlone(s: Thread) {
    s.capture.Idle? && s.inFlight && !s.stopper.StopPushing?
  }

  // ----- Callbacks

  /** With the flag down a callback does nothing: its transfer is over and not submitted again. */
  lemma LateCallbackDoesNothing(s: Thread, status: Status)
    requires s.capture.Idle? && s.inFlight && !s.running
    ensures IsRun(s, [Callback(status)]) && After(s, [Callback(status)]) == s.(inFlight := false)
  {
    RunOfOne(s, Callback(status));
  }

  /** A completion with data: the report is queued last and counted read, or counted dropped for want of room. */
  lemma ReportIsQueued(s: Thread, data: Report)
    requires CalledAlone(s) && s.running && data != []
    ensures var c := CaptureStep(true, false); var run := [Callback(Completed(data)), c, c];
            && IsRun(s, run)
            && var t := After(s, run);
            && t.running && !t.inFlight && t.captured == s.captured + [data]
            && t.capture == (if s.rearms then Resubmitting else Idle)
            && t.queue == (if |s.queue| < s.capacity then s.queue + [Data(data)] else s.queue)
            && t.eventsRead == s.eventsRead + (if |s.queue| < s.capacity then 1 else 0)
            && t.eventsDropped == s.eventsDropped + if |s.queue| < s.capacity then 0 else 1
  {
    var c := CaptureStep(true, false);
    ThreeSteps(s, Callback(Completed(data)), c, c);
  }

  /** A device that is gone: the flag goes down and the sentinel is pushed. */
  lemma LostDeviceIsNotified(s: Thread, ok: bool)
    requires CalledAlone(s) && s.running
    ensures var c := CaptureStep(ok, false); var run := [Callback(NoDevice), c];
            && IsRun(s, run)
            && var t := After(s, run);
            && !t.running && !t.inFlight && t.queue == s.queue && t.stopper == s.stopper && t.capacity == s.capacity
            && Enabled(t, c) && PushesSentinel(t, c)
            && Step(t, c).capture.Idle?
            && Step(t, c).queue == if |s.queue| < s.capacity then s.queue + [Sentinel] else s.queue
  {
    TwoSteps(s, Callback(NoDevice), CaptureStep(ok, false));
  }

  /** So the process loop can end after it, if the queue has a slot at all. */
  lemma LostDeviceCanEnd(s: Thread, ok: bool)
    requires Inv(s) && CalledAlone(s) && s.running
    ensures CanEnd(After(s, [Callback(NoDevice), CaptureStep(ok, false)])) <==> s.capacity >= 1
  {
    hide Inv, CanEnd, IsRun, After, CalledAlone, Step, Enabled;
    var run := [Callback(NoDevice), CaptureStep(ok, false)];
    LostDeviceIsNotified(s, ok);
    RunKeeps(s, run);
    AtMostOnePushed(s);
    LostDevicePushes(s, ok);
    EndsExactly(After(s, run));
  }

  lemma LostDevicePushes(s: Thread, ok: bool)
    requires CalledAlone(s) && s.running
    ensures var t := After(s, [Callback(NoDevice), CaptureStep(ok, false)]);
            && SentinelPending(t) && !TwoProducers(t) && t.sentinelsPushed == s.sentinelsPushed
  {
    TwoSteps(s, Callback(NoDevice), CaptureStep(ok, false));
  }

  /** Any other completion: the transfer is submitted again, and only a failure of that changes more. */
  lemma OtherCompletionResubmits(s: Thread, status: Status, submitOk: bool)
    requires CalledAlone(s) && s.running && (status == Completed([]) || status == OtherStatus)
    ensures var c := CaptureStep(submitOk, false); var run := [Callback(status), c, c];
            IsRun(s, run) && After(s, run) == s.(inFlight := submitOk, running := submitOk)
  {
    var c := CaptureStep(submitOk, false);
    ThreeSteps(s, Callback(status), c, c);
  }

  /** The flag is read again before that: once it is down the transfer is not submitted. */
  lemma StoppedCallbackDoesNotResubmit(s: Thread, submitOk: bool)
    requires s.capture.Resubmitting? && !s.running
    ensures Enabled(s, CaptureStep(submitOk, false)) && Step(s, CaptureStep(submitOk, false)) == s.(capture := Idle)
  {
  }

  /** And a lost device found after the flag went down is not notified twice. */
  lemma StoppedCallbackDoesNotNotify(s: Thread, submitOk: bool)
    requires s.capture.Losing? && !s.running
    ensures Enabled(s, CaptureStep(submitOk, false)) && Step(s, CaptureStep(submitOk, false)) == s.(capture := Idle)
  {
  }

  // ----- stop()

  /** With the flag up `stop()` takes it down, pushes the sentinel and joins; with it down it does nothing. */
  lemma StopPushesSentinel(s: Thread)
    requires s.stopper.NotStopping? && !CapturePushes(s)
    ensures !s.running ==> IsRun(s, [StopCall]) && After(s, [StopCall]) == s
    ensures s.running ==>
              var run := [StopCall, StopStep(false)];
              && IsRun(s, run)
              && var t := After(s, run);
              && !t.running && t.stopper.Joining? && t.capture == s.capture
              && t.queue == if |s.queue| < s.capacity then s.queue + [Sentinel] else s.queue
  {
    if s.running { TwoSteps(s, StopCall, StopStep(false)); } else { RunOfOne(s, StopCall); }
  }

  /** It returns once the process loop has ended and no callback is under way, and not before. */
  lemma StopReturnsExactly(s: Thread, a: Action)
    requires s.stopper.Joining? && Enabled(s, a)
    ensures Step(s, a).stopper.NotStopping? <==> a.StopStep?
    ensures a.StopStep? ==> s.process.Done? && s.capture.Idle? && Step(s, a) == s.(stopper := NotStopping)
    ensures s.process.Done? && s.capture.Idle? ==> Enabled(s, StopStep(false))
  {
  }

  // ----- The process loop

  /** The oldest report is taken, handed to the client and counted; a failed send takes the flag down. */
  lemma ReportIsSent(s: Thread, draining: bool, sendOk: bool)
    requires s.process == Popping(draining) && s.queue != [] && s.queue[0].Data?
    requires draining ==> s.queue[0].report != []
    ensures var run := [ProcessStep(true, false), ProcessStep(sendOk, false), ProcessStep(true, false)];
            && IsRun(s, run)
            && After(s, run) == s.(queue := s.queue[1..], processed := s.processed + [s.queue[0].report],
                                   running := s.running && sendOk, eventsSent := s.eventsSent + 1)
  {
    ThreeSteps(s, ProcessStep(true, false), ProcessStep(sendOk, false), ProcessStep(true, false));
  }

  /** The sentinel ends the first loop, an empty queue only the second. */
  lemma PopMovesOn(s: Thread, draining: bool, sendOk: bool)
    requires s.process == Popping(draining)
    ensures var t := Step(s, ProcessStep(sendOk, false));
            && (s.queue == [] ==> t == s.(process := if draining then Done else Popping(false)))
            && (s.queue != [] && s.queue[0].Sentinel? ==> t == s.(queue := s.queue[1..], process := Popping(true)))
            && (s.queue != [] && s.queue[0].Data? && draining && s.queue[0].report == [] ==>
                  t == s.(queue := s.queue[1..]))
  {
  }
}
