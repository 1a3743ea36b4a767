/**
 What submitting the transfer again decides. The code submits in `start()` and again only after a
 completion without data; the design document has every transfer submitted again.
 */
module StreamingSubmission {
  import opened StreamingSteps
  import opened StreamingTheorems

  // ----- The code

  /** What the one transfer of a start can still bring, and what it has brought. */
  function Budget(s: Thread): nat {
    |s.captured| + (if s.inFlight then 1 else 0)
    + (if s.capture.Idle? || s.capture.Pushing? || s.capture.Counting? then 0 else 1)
  }

  ghost predicate OneShot(s: Thread) {
    && !s.rearms && Budget(s) <= 1
    && |s.queue| <= |s.accepted| + s.sentinelsPushed
    && (s.capacity >= 1 ==> s.eventsDropped == 0 && s.capture != Counting(false))
    && (s.capacity >= 2 ==> s.sentinelsLost == 0)
  }

  lemma OneShotCapture(s: Thread, submitOk: bool, stale: bool)
    requires Counted(s) && SentinelOk(s) && OneShot(s) && Enabled(s, CaptureStep(submitOk, stale))
    ensures OneShot(CaptureMoves(s, submitOk, stale))
  {
    hide SentinelEnds;
  }

  lemma OneShotProcess(s: Thread, sendOk: bool, stale: bool)
    requires OneShot(s)
    ensures OneShot(ProcessMoves(s, sendOk, stale))
  {
    hide ProcessMoves;
  }

  lemma OneShotElse(s: Thread, a: Action)
    requires Counted(s) && SentinelOk(s) && OneShot(s) && Enabled(s, a) && !a.CaptureStep? && !a.ProcessStep?
    ensures OneShot(Step(s, a))
  {
    hide SentinelEnds;
  }

  lemma OneShotStep(s: Thread, a: Action)
    requires Inv(s) && OneShot(s) && Enabled(s, a)
    ensures OneShot(Step(s, a))
  {
    hide Counted, InOrder, SentinelOk, PushesOk, OneShot, Enabled, CaptureMoves, ProcessMoves;
    match a
    case CaptureStep(submitOk, stale) => OneShotCapture(s, submitOk, stale);
    case ProcessStep(sendOk, stale) => OneShotProcess(s, sendOk, stale);
    case _ => OneShotElse(s, a);
  }

  lemma {:induction false} OneShotRun(s: Thread, actions: seq<Action>)
    requires Inv(s) && OneShot(s) && IsRun(s, actions)
    ensures OneShot(After(s, actions))
    decreases |actions|
  {
    if actions != [] {
      hide Inv, OneShot, Enabled, Step;
      StepKeeps(s, actions[0]);
      OneShotStep(s, actions[0]);
      OneShotRun(Step(s, actions[0]), actions[1..]);
    }
  }

  /**
   As the code is written, one start captures at most one report; with room for it none is dropped,
   and with room for it and the sentinel no sentinel is lost.
   */
  lemma AtMostOneReport(capacity: nat, actions: seq<Action>)
    requires IsRun(Started(capacity, false), actions)
    ensures var s := After(Started(capacity, false), actions);
            && |s.captured| <= 1
            && (s.captured != [] && !s.capture.Pushing? && !s.capture.Counting? ==> !s.inFlight && s.capture.Idle?)
            && (capacity >= 1 ==> s.eventsDropped == 0)
            && (capacity >= 2 ==> s.sentinelsLost == 0)
  {
    StartInv(capacity, false);
    RunKeeps(Started(capacity, false), actions);
    OneShotRun(Started(capacity, false), actions);
  }

  /** So in the code a `stop()` that got the flag always finds its sentinel pushed, and can return. */
  lemma CodeStops(capacity: nat, actions: seq<Action>)
    requires capacity >= 2 && IsRun(Started(capacity, false), actions)
    requires After(Started(capacity, false), actions).stopper.Joining?
    ensures var s := After(Started(capacity, false), actions);
            && s.sentinelsPushed == 1
            && exists rest :: IsRun(s, rest) && After(s, rest).process.Done?
  {
    StartInv(capacity, false);
    RunKeeps(Started(capacity, false), actions);
    AtMostOneReport(capacity, actions);
    var rest := ReachesDone(After(Started(capacity, false), actions));
  }

  // ----- When the sentinel can be lost

  /** One report captured and queued while nothing else happens. */
  lemma OneReport(s: Thread, report: Report) returns (actions: seq<Action>)
    requires s.running && s.inFlight && s.capture.Idle? && s.stopper.NotStopping?
    requires report != [] && |s.queue| < s.capacity
    ensures IsRun(s, actions)
    ensures var t := After(s, actions);
            && t.running && t.capture.Idle? && t.stopper.NotStopping? && t.capacity == s.capacity
            && t.rearms == s.rearms && t.inFlight == s.rearms && |t.queue| == |s.queue| + 1
  {
    var a, c := Callback(Completed(report)), CaptureStep(true, false);
    var s1 := Step(s, a);
    var s2 := Step(s1, c);
    var s3 := Step(s2, c);
    var rest: seq<Action> := [];
    if s.rearms {
      var s4 := Step(s3, c);
      RunOfOne(s4, c);
      Prepend(s3, c, [c]);
      rest := [c] + [c];
    }
    hide Step, Enabled, IsRun, After;
    Prepend(s2, c, rest);
    Prepend(s1, c, [c] + rest);
    Prepend(s, a, [c] + ([c] + rest));
    actions := [a] + ([c] + ([c] + rest));
  }

  /** `n` reports arrive before the process loop runs at all. */
  lemma {:induction false} FillQueue(capacity: nat, rearms: bool, report: Report, n: nat) returns (actions: seq<Action>)
    requires report != [] && n <= capacity && (rearms || n <= 1)
    ensures IsRun(Started(capacity, rearms), actions)
    ensures var s := After(Started(capacity, rearms), actions);
            && s.running && s.capture.Idle? && s.stopper.NotStopping? && s.capacity == capacity
            && s.rearms == rearms && (rearms || n == 0 ==> s.inFlight) && |s.queue| == n
  {
    if n == 0 {
      return [];
    }
    var before := FillQueue(capacity, rearms, report, n - 1);
    hide Step, Enabled, IsRun, After;
    var one := OneReport(After(Started(capacity, rearms), before), report);
    RunsConcatenate(Started(capacity, rearms), before, one);
    actions := before + one;
  }

  lemma StopLosesSentinel(s: Thread)
    requires s.running && s.stopper.NotStopping? && s.capture.Idle? && |s.queue| == s.capacity
    ensures var run := [StopCall] + [StopStep(false)];
            && IsRun(s, run) && After(s, run).stopper.Joining?
            && Quiet(After(s, run)) && After(s, run).sentinelsLost == s.sentinelsLost + 1
  {
    RunOfOne(Step(s, StopCall), StopStep(false));
    Prepend(s, StopCall, [StopStep(false)]);
  }

  lemma LostIsNotPushed(s: Thread)
    requires Inv(s)
    ensures s.sentinelsLost >= 1 ==> s.sentinelsLost == 1 && s.sentinelsPushed == 0
  {
  }

  /**
   A run in which `stop()` loses its sentinel and so never returns: for every capacity when each
   transfer is submitted again, for a capacity of 0 or 1 as the code is.
   */
  lemma SentinelCanBeLost(capacity: nat, rearms: bool, report: Report) returns (actions: seq<Action>)
    requires report != [] && (rearms || capacity <= 1)
    ensures IsRun(Started(capacity, rearms), actions)
    ensures var s := After(Started(capacity, rearms), actions);
            Inv(s) && Quiet(s) && s.sentinelsPushed == 0 && s.sentinelsLost == 1 && s.stopper.Joining?
  {
    var before := FillQueue(capacity, rearms, report, capacity);
    hide *;
    StartInv(capacity, rearms);
    StopLosesSentinel(After(Started(capacity, rearms), before));
    actions := before + ([StopCall] + [StopStep(false)]);
    RunsConcatenate(Started(capacity, rearms), before, [StopCall] + [StopStep(false)]);
    RunKeeps(Started(capacity, rearms), actions);
    LostIsNotPushed(After(Started(capacity, rearms), actions));
  }

  lemma SentinelCanBeLostExactly(capacity: nat, rearms: bool)
    ensures (exists actions ::
               && IsRun(Started(capacity, rearms), actions)
               && After(Started(capacity, rearms), actions).sentinelsLost == 1)
            <==> rearms || capacity <= 1
  {
    hide Step, Enabled, IsRun, After, Inv, Quiet;
    if rearms || capacity <= 1 {
      var actions := SentinelCanBeLost(capacity, rearms, [0]);
    } else {
      forall actions | IsRun(Started(capacity, rearms), actions)
        ensures After(Started(capacity, rearms), actions).sentinelsLost != 1
      {
        AtMostOneReport(capacity, actions);
      }
    }
  }
}
