/** Exactly when the process loop can still end, over all the ways the running flag is cleared. */
module StreamingEnding {
  import opened StreamingSteps
  import opened StreamingTheorems

  ghost predicate CanEnd(s: Thread) {
    exists actions :: IsRun(s, actions) && After(s, actions).process.Done?
  }

  /** A thread is about to push the sentinel. */
  predicate SentinelPending(s: Thread) {
    s.capture.PushingSentinel? || s.stopper.StopPushing?
  }

  lemma StepCanEnd(s: Thread, a: Action)
    requires Enabled(s, a) && CanEnd(Step(s, a))
    ensures CanEnd(s)
  {
    hide Enabled, Step, IsRun, After;
    var rest :| IsRun(Step(s, a), rest) && After(Step(s, a), rest).process.Done?;
    Prepend(s, a, rest);
  }

  lemma ProcessGoesOn(s: Thread)
    requires Inv(s) && SentinelPending(s) && !TwoProducers(s) && s.queue != []
    ensures var a := ProcessStep(true, false); var t := Step(s, a);
            && Enabled(s, a) && SentinelPending(t) && !TwoProducers(t) && t.capacity == s.capacity
            && (|t.queue| < |s.queue| || (t.queue == s.queue && Rank(t.process) < Rank(s.process)))
  {
    hide Counted, InOrder, PushesOk;
  }

  /** The steps left until the next pop. */
  function Rank(p: Process): nat {
    if p.Sending? then 2 else if p.Sent? then 1 else 0
  }

  lemma PushingEnds(s: Thread)
    requires Inv(s) && SentinelPending(s) && !TwoProducers(s) && |s.queue| < s.capacity
    ensures CanEnd(s)
  {
    hide Inv, IsRun, After;
    var a := if s.capture.PushingSentinel? then CaptureStep(true, false) else StopStep(false);
    StepKeeps(s, a);
    SentinelPushed(s, a);
    var rest := ReachesDone(Step(s, a));
    StepCanEnd(s, a);
  }

  /** The process loop makes room for a pending sentinel, if there can be any. */
  lemma {:induction false} PendingEnds(s: Thread)
    requires Inv(s) && SentinelPending(s) && !TwoProducers(s) && s.capacity >= 1
    ensures CanEnd(s)
    decreases |s.queue|, Rank(s.process)
  {
    if |s.queue| < s.capacity {
      PushingEnds(s);
    } else {
      hide Inv, Step, Enabled, CanEnd, SentinelPending, TwoProducers, Rank;
      var a := ProcessStep(true, false);
      ProcessGoesOn(s);
      StepKeeps(s, a);
      PendingEnds(Step(s, a));
      StepCanEnd(s, a);
    }
  }

  /** No sentinel is in the queue, and none can get there. */
  predicate Hopeless(s: Thread) {
    !s.running && s.sentinelsPushed == 0 && (s.capacity == 0 || !SentinelPending(s))
  }

  lemma HopelessStep(s: Thread, a: Action)
    requires Inv(s) && Hopeless(s) && Enabled(s, a)
    ensures Hopeless(Step(s, a))
  {
    hide Counted, InOrder, PushesOk, SentinelEnds;
  }

  lemma {:induction false} HopelessRun(s: Thread, actions: seq<Action>)
    requires Inv(s) && Hopeless(s) && IsRun(s, actions)
    ensures !After(s, actions).process.Done?
    decreases |actions|
  {
    if actions != [] {
      hide Inv, Hopeless, Enabled, Step;
      HopelessStep(s, actions[0]);
      StepKeeps(s, actions[0]);
      HopelessRun(Step(s, actions[0]), actions[1..]);
    }
  }

  /**
   Once the flag is down, the process loop can end exactly when the sentinel is in, or a thread is
   about to push it into a queue that has slots at all. In every other state it polls for ever.
   */
  lemma EndsExactly(s: Thread)
    requires Inv(s) && !s.running && !TwoProducers(s)
    ensures CanEnd(s) <==> s.sentinelsPushed == 1 || (s.capacity >= 1 && SentinelPending(s))
  {
    hide Inv, IsRun, After;
    if s.sentinelsPushed == 1 {
      var rest := ReachesDone(s);
    } else if s.capacity >= 1 && SentinelPending(s) {
      PendingEnds(s);
    } else {
      AtMostOnePushed(s);
      forall actions | IsRun(s, actions) ensures !After(s, actions).process.Done? {
        HopelessRun(s, actions);
      }
    }
  }

  lemma AtMostOnePushed(s: Thread)
    requires Inv(s)
    ensures s.sentinelsPushed <= 1 && (s.running ==> s.sentinelsPushed == 0 && !SentinelPending(s))
  {
    hide Counted, InOrder, PushesOk, SentinelEnds;
  }

  /**
   Over all the steps that clear the flag: the loop can still end exactly if `stop()` or a lost
   device cleared it, whose exchange is followed by a push, and not if a send or a resubmission failed.
   */
  lemma ClearedFlagEndsExactly(s: Thread, a: Action)
    requires Inv(s) && Enabled(s, a) && s.running && !Step(s, a).running && !TwoProducers(Step(s, a))
    ensures CanEnd(Step(s, a)) <==> s.capacity >= 1 && (a.StopCall? || (a.CaptureStep? && s.capture.Losing?))
  {
    hide Inv, CanEnd;
    AtMostOnePushed(s);
    StepKeeps(s, a);
    EndsExactly(Step(s, a));
  }

  /** The four ways. */
  lemma FlagIsClearedBy(s: Thread, a: Action)
    requires Inv(s) && Enabled(s, a) && s.running
    ensures !Step(s, a).running <==>
              || a.StopCall?
              || (a.CaptureStep? && s.capture.Losing?)
              || (a.CaptureStep? && s.capture.Submitting? && !a.submitOk)
              || (a.ProcessStep? && s.process.Sending? && !a.sendOk)
  {
    hide Inv;
  }

  /**
   A failed send clears the flag without any sentinel: a later `stop()` then does nothing and the
   process loop never ends.
   */
  lemma FailedSendLeavesNoSentinel(s: Thread)
    requires Inv(s) && s.running && s.process.Sending?
    ensures var s' := Step(s, ProcessStep(false, false));
            && Inv(s') && s'.sentinelsPushed == 0 && (Quiet(s') <==> !s.capture.Pushing?)
            && Step(s', StopCall) == s' && !CanEnd(s')
  {
    hide Inv, CanEnd;
    var a := ProcessStep(false, false);
    AtMostOnePushed(s);
    StepKeeps(s, a);
    ClearedFlagEndsExactly(s, a);
  }

  /** A failed resubmission does the same. */
  lemma FailedResubmissionLeavesNoSentinel(s: Thread)
    requires Inv(s) && s.running && s.capture.Submitting?
    ensures var s' := Step(s, CaptureStep(false, false));
            && Inv(s') && s'.sentinelsPushed == 0 && Quiet(s')
            && Step(s', StopCall) == s' && !CanEnd(s')
  {
    hide Inv, CanEnd;
    var a := CaptureStep(false, false);
    AtMostOnePushed(s);
    StepKeeps(s, a);
    ClearedFlagEndsExactly(s, a);
  }

  /** The first completion without data is enough to get there. */
  lemma FailedResubmissionReachable(capacity: nat, rearms: bool, status: Status)
    requires status == OtherStatus || status == Completed([])
    ensures var c := CaptureStep(true, false);
            var run := [Callback(status)] + ([c] + [CaptureStep(false, false)]);
            && IsRun(Started(capacity, rearms), run)
            && !After(Started(capacity, rearms), run).running && !CanEnd(After(Started(capacity, rearms), run))
  {
    hide CanEnd;
    var s0, a, c, d := Started(capacity, rearms), Callback(status), CaptureStep(true, false), CaptureStep(false, false);
    var s1 := Step(s0, a);
    var s2 := Step(s1, c);
    StartInv(capacity, rearms);
    StepKeeps(s0, a);
    StepKeeps(s1, c);
    FailedResubmissionLeavesNoSentinel(s2);
    RunOfOne(s2, d);
    Prepend(s1, c, [d]);
    Prepend(s0, a, [c] + [d]);
  }
}
