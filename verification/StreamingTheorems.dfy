/** Conservation, order and shutdown of the streaming thread over every run. */
module StreamingTheorems {
  import opened StreamingSteps

  // ----- The invariant

  function Reports(q: seq<Item>): seq<Report> {
    if q == [] then [] else (match q[0] case Data(r) => [r] case Sentinel => []) + Reports(q[1..])
  }

  lemma {:induction false} ReportsAppend(q: seq<Item>, item: Item)
    ensures Reports(q + [item]) == Reports(q) + Reports([item])
  {
    if q == [] {
      assert q + [item] == [item] && Reports(q) == [];
      assert [] + Reports([item]) == Reports([item]);
    } else {
      var first: seq<Report> := match q[0] case Data(r) => [r] case Sentinel => [];
      assert (q + [item])[1..] == q[1..] + [item] && (q + [item])[0] == q[0];
      ReportsAppend(q[1..], item);
      assert first + (Reports(q[1..]) + Reports([item])) == (first + Reports(q[1..])) + Reports([item]);
    }
  }

  predicate IsSubsequence(a: seq<Report>, b: seq<Report>) {
    if a == [] then true
    else if b == [] then false
    else if a[|a| - 1] == b[|b| - 1] then IsSubsequence(a[..|a| - 1], b[..|b| - 1])
    else IsSubsequence(a, b[..|b| - 1])
  }

  lemma {:induction false} Skipping(a: seq<Report>, b: seq<Report>, x: Report)
    requires IsSubsequence(a, b)
    ensures IsSubsequence(a, b + [x])
    decreases |b|, 1
  {
    assert (b + [x])[..|b|] == b;
    if a != [] && a[|a| - 1] == x {
      Shrinking(a, b);
    }
  }

  lemma {:induction false} Shrinking(a: seq<Report>, b: seq<Report>)
    requires a != [] && IsSubsequence(a, b)
    ensures IsSubsequence(a[..|a| - 1], b)
    decreases |b|, 0
  {
    var a', b' := a[..|a| - 1], b[..|b| - 1];
    assert b == b' + [b[|b| - 1]];
    if a[|a| - 1] == b[|b| - 1] {
      Skipping(a', b', b[|b| - 1]);
    } else {
      Shrinking(a, b');
      Skipping(a', b', b[|b| - 1]);
    }
  }

  lemma Taking(a: seq<Report>, b: seq<Report>, x: Report)
    requires IsSubsequence(a, b)
    ensures IsSubsequence(a + [x], b + [x])
  {
    assert (a + [x])[..|a|] == a && (b + [x])[..|b|] == b;
  }

  /** The report popped and not yet handed to the client. */
  function InHand(p: Process): seq<Report> {
    if p.Sending? then [p.report] else []
  }

  predicate InFirstLoop(p: Process) {
    (p.Popping? || p.Sending? || p.Sent?) && !p.draining
  }

  /** Captured reports whose push has been decided. */
  function Decided(capture: Capture, captured: seq<Report>): seq<Report>
    requires capture.Pushing? ==> captured != []
  {
    if capture.Pushing? then captured[..|captured| - 1] else captured
  }

  /** The captured report that no counter has taken in yet. */
  function Pending(s: Thread): nat {
    if s.capture.Pushing? || s.capture.Counting? then 1 else 0
  }

  ghost predicate Counted(s: Thread) {
    && |s.captured| == s.eventsRead + s.eventsDropped + Pending(s)
    && |s.accepted| == s.eventsRead + (if s.capture == Counting(true) then 1 else 0)
    && |s.processed| == s.eventsSent + (if s.process.Sent? then 1 else 0)
  }

  ghost predicate InOrder(s: Thread) {
    && s.accepted == s.processed + (InHand(s.process) + Reports(s.queue))
    && (s.capture.Pushing? ==> s.captured != [] && s.captured[|s.captured| - 1] == s.capture.report)
    && IsSubsequence(s.accepted, Decided(s.capture, s.captured))
  }

  /** Sentinels pushed, lost, or about to be pushed. */
  function Sentinels(s: Thread): nat {
    s.sentinelsPushed + s.sentinelsLost
    + (if s.capture.PushingSentinel? then 1 else 0) + (if s.stopper.StopPushing? then 1 else 0)
  }

  /** Nothing will ever be queued again: the flag is down and no thread is inside a push. */
  predicate Quiet(s: Thread) {
    !s.running && !CapturePushes(s) && !s.stopper.StopPushing?
  }

  ghost predicate FlagOk(s: Thread) {
    && Sentinels(s) <= 1
    && (s.running ==> Sentinels(s) == 0)
    && (s.sentinelsPushed == 1 ==> Quiet(s))
    && (s.stopper.Joining? ==> s.sentinelsPushed + s.sentinelsLost == 1)
  }

  /** The one sentinel, once pushed, ends the queue until the process loop has popped it. */
  ghost predicate SentinelEnds(p: Process, pushed: nat, q: seq<Item>) {
    if InFirstLoop(p)
    then (if pushed == 1
          then q != [] && q[|q| - 1] == Sentinel && Sentinel !in q[..|q| - 1]
          else Sentinel !in q)
    else pushed == 1 && q == [] && (p == Popping(true) || p.Done?)
  }

  ghost predicate SentinelOk(s: Thread) {
    FlagOk(s) && SentinelEnds(s.process, s.sentinelsPushed, s.queue)
  }

  ghost predicate CaptureFirst(pushes: seq<Producer>) {
    forall i :: 0 <= i < |pushes| - 1 ==> pushes[i] == CaptureThread
  }

  /** Every push, by whom: the capture thread first, `stop()` last if at all. */
  ghost predicate PushesOk(s: Thread) {
    && |s.pushedBy| == |s.captured| - (if s.capture.Pushing? then 1 else 0) + s.sentinelsPushed + s.sentinelsLost
    && CaptureFirst(s.pushedBy)
    && (StoppingThread in s.pushedBy ==> Quiet(s))
  }

  ghost predicate Inv(s: Thread) {
    |s.queue| <= s.capacity && Counted(s) && InOrder(s) && SentinelOk(s) && PushesOk(s)
  }

  lemma StartInv(capacity: nat, rearms: bool)
    ensures Inv(Started(capacity, rearms))
  {
  }

  lemma CaptureKeepsCount(s: Thread, submitOk: bool, stale: bool)
    requires Counted(s)
    ensures Counted(CaptureMoves(s, submitOk, stale))
  {
    hide Reports, PushSentinel;
    if s.capture.PushingSentinel? { SentinelIsNoReport(s, CaptureThread, stale); }
  }

  lemma AcceptKeepsOrder(s: Thread, report: Report)
    requires InOrder(s) && s.capture == Pushing(report) && |s.queue| < s.capacity
    ensures InOrder(PushData(s, report, false))
  {
    hide IsSubsequence;
    ReportsAppend(s.queue, Data(report));
    assert Reports([Data(report)]) == [report];
    assert (s.processed + (InHand(s.process) + Reports(s.queue))) + [report] ==
           s.processed + (InHand(s.process) + (Reports(s.queue) + [report]));
    assert s.captured == Decided(s.capture, s.captured) + [report];
    Taking(s.accepted, Decided(s.capture, s.captured), report);
  }

  lemma DropKeepsOrder(s: Thread, report: Report)
    requires InOrder(s) && s.capture == Pushing(report)
    ensures InOrder(PushData(s, report, true))
  {
    hide IsSubsequence;
    assert s.captured == Decided(s.capture, s.captured) + [report];
    Skipping(s.accepted, Decided(s.capture, s.captured), report);
  }

  lemma CaptureKeepsOrder(s: Thread, submitOk: bool, stale: bool)
    requires InOrder(s)
    ensures InOrder(CaptureMoves(s, submitOk, stale))
  {
    if s.capture.Pushing? {
      hide *;
      PushIs(s, submitOk, stale);
      if |s.queue| < s.capacity && !stale {
        AcceptKeepsOrder(s, s.capture.report);
      } else {
        DropKeepsOrder(s, s.capture.report);
      }
    } else {
      hide *;
      OthersKeepOrder(s, submitOk, stale);
    }
  }

  lemma OthersKeepOrder(s: Thread, submitOk: bool, stale: bool)
    requires InOrder(s) && !s.capture.Pushing?
    ensures InOrder(CaptureMoves(s, submitOk, stale))
  {
    hide IsSubsequence, Reports, PushSentinel, PushData;
    if s.capture.PushingSentinel? { SentinelIsNoReport(s, CaptureThread, stale); }
  }

  lemma PushIs(s: Thread, submitOk: bool, stale: bool)
    requires s.capture.Pushing?
    ensures CaptureMoves(s, submitOk, stale) == PushData(s, s.capture.report, |s.queue| >= s.capacity || stale)
  {
  }

  lemma SentinelIsNoReport(s: Thread, producer: Producer, stale: bool)
    ensures var t := PushSentinel(s, producer, stale);
            && Reports(t.queue) == Reports(s.queue) && t.accepted == s.accepted && t.processed == s.processed
            && t.process == s.process && t.capture == s.capture && t.captured == s.captured
            && t.eventsRead == s.eventsRead && t.eventsSent == s.eventsSent && t.eventsDropped == s.eventsDropped
  {
    ReportsAppend(s.queue, Sentinel);
  }

  lemma AppendKeepsEnd(p: Process, q: seq<Item>, item: Item)
    requires SentinelEnds(p, 0, q)
    ensures SentinelEnds(p, if item.Sentinel? then 1 else 0, q + [item])
  {
    assert (q + [item])[..|q|] == q;
  }

  lemma CaptureKeepsEnd(s: Thread, submitOk: bool, stale: bool)
    requires SentinelOk(s) && Enabled(s, CaptureStep(submitOk, stale))
    ensures var s' := CaptureMoves(s, submitOk, stale); SentinelEnds(s'.process, s'.sentinelsPushed, s'.queue)
  {
    hide SentinelEnds;
    if s.capture.Pushing? && |s.queue| < s.capacity && !stale {
      AppendKeepsEnd(s.process, s.queue, Data(s.capture.report));
    } else if s.capture.PushingSentinel? && |s.queue| < s.capacity && !stale {
      AppendKeepsEnd(s.process, s.queue, Sentinel);
    }
  }

  lemma CaptureKeepsFlag(s: Thread, submitOk: bool, stale: bool)
    requires FlagOk(s) && Enabled(s, CaptureStep(submitOk, stale))
    ensures FlagOk(CaptureMoves(s, submitOk, stale))
  {
  }

  lemma OneMorePush(pushes: seq<Producer>, producer: Producer)
    requires StoppingThread !in pushes
    ensures CaptureFirst(pushes + [producer])
    ensures StoppingThread in pushes + [producer] <==> producer == StoppingThread
  {
  }

  lemma CaptureKeepsPushes(s: Thread, submitOk: bool, stale: bool)
    requires Counted(s) && PushesOk(s) && Enabled(s, CaptureStep(submitOk, stale))
    ensures PushesOk(CaptureMoves(s, submitOk, stale))
  {
    hide CaptureFirst;
    if CapturePushes(s) { OneMorePush(s.pushedBy, CaptureThread); }
  }

  lemma StopKeepsCount(s: Thread, stale: bool)
    requires Counted(s)
    ensures Counted(Step(s, StopStep(stale)))
  {
    hide Reports, PushSentinel, Step;
    StopIs(s, stale);
    SentinelIsNoReport(s, StoppingThread, stale);
  }

  lemma StopIs(s: Thread, stale: bool)
    ensures Step(s, StopStep(stale)) ==
            if s.stopper.StopPushing? then PushSentinel(s, StoppingThread, stale).(stopper := Joining)
            else s.(stopper := NotStopping)
  {
    hide PushSentinel;
  }

  lemma StopKeepsOrder(s: Thread, stale: bool)
    requires InOrder(s)
    ensures InOrder(Step(s, StopStep(stale)))
  {
    hide IsSubsequence, Reports, PushSentinel, Step;
    StopIs(s, stale);
    SentinelIsNoReport(s, StoppingThread, stale);
  }

  lemma StopKeepsSentinel(s: Thread, stale: bool)
    requires SentinelOk(s) && PushesOk(s) && Enabled(s, StopStep(stale))
    ensures SentinelOk(Step(s, StopStep(stale))) && PushesOk(Step(s, StopStep(stale)))
  {
    hide SentinelEnds, CaptureFirst;
    if s.stopper.StopPushing? {
      OneMorePush(s.pushedBy, StoppingThread);
      if |s.queue| < s.capacity && !stale { AppendKeepsEnd(s.process, s.queue, Sentinel); }
    }
  }

  lemma ProcessKeepsOrder(s: Thread, sendOk: bool, stale: bool)
    requires InOrder(s) && SentinelOk(s)
    ensures InOrder(ProcessMoves(s, sendOk, stale))
  {
    hide IsSubsequence, Decided;
    if s.process.Popping? && s.queue != [] {
      assert [] + Reports(s.queue[1..]) == Reports(s.queue[1..]);
    } else if s.process.Sending? {
      assert s.processed + ([s.process.report] + Reports(s.queue)) ==
             (s.processed + [s.process.report]) + ([] + Reports(s.queue));
    }
  }

  lemma PopKeepsEnd(p: Process, pushed: nat, q: seq<Item>)
    requires SentinelEnds(p, pushed, q) && InFirstLoop(p) && q != []
    ensures q[0].Sentinel? ==> SentinelEnds(Popping(true), pushed, q[1..])
    ensures q[0].Data? ==> SentinelEnds(p, pushed, q[1..])
  {
    if |q| > 1 {
      assert q[1..][..|q| - 2] == q[..|q| - 1][1..] && q[1..][|q| - 2] == q[|q| - 1];
      assert q[0] == q[..|q| - 1][0];
    } else {
      assert q[1..] == [];
    }
  }

  lemma ProcessKeepsEnd(s: Thread, sendOk: bool, stale: bool)
    requires SentinelEnds(s.process, s.sentinelsPushed, s.queue)
    ensures var s' := ProcessMoves(s, sendOk, stale); SentinelEnds(s'.process, s'.sentinelsPushed, s'.queue)
  {
    if InFirstLoop(s.process) && s.process.Popping? && s.queue != [] {
      PopKeepsEnd(s.process, s.sentinelsPushed, s.queue);
    }
  }

  lemma ProcessKeepsCount(s: Thread, sendOk: bool, stale: bool)
    requires Counted(s)
    ensures Counted(ProcessMoves(s, sendOk, stale))
  {
  }

  lemma ProcessKeepsPushes(s: Thread, sendOk: bool, stale: bool)
    requires PushesOk(s) && FlagOk(s)
    ensures PushesOk(ProcessMoves(s, sendOk, stale)) && FlagOk(ProcessMoves(s, sendOk, stale))
  {
    hide ProcessMoves, CaptureFirst;
  }

  lemma CallbackKeeps(s: Thread, status: Status)
    requires Counted(s) && InOrder(s) && SentinelOk(s) && PushesOk(s) && Enabled(s, Callback(status))
    ensures var s' := CalledBack(s, status); Counted(s') && InOrder(s') && SentinelOk(s') && PushesOk(s')
  {
    hide IsSubsequence, Reports;
    if status.Completed? {
      assert (s.captured + [status.data])[..|s.captured|] == s.captured;
    }
  }

  lemma StopCallKeeps(s: Thread)
    requires Inv(s) && Enabled(s, StopCall)
    ensures Inv(Step(s, StopCall))
  {
    hide IsSubsequence, Reports;
  }

  lemma StepKeeps(s: Thread, a: Action)
    requires Inv(s) && Enabled(s, a)
    ensures Inv(Step(s, a)) && Step(s, a).capacity == s.capacity
  {
    hide Counted, InOrder, FlagOk, SentinelEnds, PushesOk, Enabled;
    hide CaptureMoves, ProcessMoves, PushSentinel, CalledBack;
    match a
    case Callback(status) => CallbackKeeps(s, status);
    case CaptureStep(submitOk, stale) =>
      CaptureKeepsCount(s, submitOk, stale);
      CaptureKeepsOrder(s, submitOk, stale);
      CaptureKeepsEnd(s, submitOk, stale);
      CaptureKeepsFlag(s, submitOk, stale);
      CaptureKeepsPushes(s, submitOk, stale);
    case StopCall => StopCallKeeps(s);
    case StopStep(stale) =>
      StopKeepsCount(s, stale);
      StopKeepsOrder(s, stale);
      StopKeepsSentinel(s, stale);
    case ProcessStep(sendOk, stale) =>
      ProcessKeepsCount(s, sendOk, stale);
      ProcessKeepsOrder(s, sendOk, stale);
      ProcessKeepsPushes(s, sendOk, stale);
      ProcessKeepsEnd(s, sendOk, stale);
  }

  lemma {:induction false} RunKeeps(s: Thread, actions: seq<Action>)
    requires Inv(s) && IsRun(s, actions)
    ensures Inv(After(s, actions))
    ensures After(s, actions).capacity == s.capacity && After(s, actions).rearms == s.rearms
    decreases |actions|
  {
    if actions != [] {
      hide Inv, Enabled, Step;
      StepKeeps(s, actions[0]);
      RunKeeps(Step(s, actions[0]), actions[1..]);
    }
  }

  lemma RunOfOne(s: Thread, a: Action)
    requires Enabled(s, a)
    ensures IsRun(s, [a]) && After(s, [a]) == Step(s, a)
  {
    hide Enabled, Step;
    assert [a][1..] == [];
  }

  // ----- Conservation and order

  /**
   Over every run: a captured report is counted read or dropped once its callback is through; a
   read one has been sent, is queued, or is in hand; the client sees the accepted reports in order,
   without gaps, and the accepted ones are a subsequence of the captured ones.
   */
  lemma Conservation(capacity: nat, rearms: bool, actions: seq<Action>)
    requires IsRun(Started(capacity, rearms), actions)
    ensures var s := After(Started(capacity, rearms), actions);
            && |s.captured| == s.eventsRead + s.eventsDropped + Pending(s)
            && |s.accepted| == s.eventsRead + (if s.capture == Counting(true) then 1 else 0)
            && |s.processed| == s.eventsSent + (if s.process.Sent? then 1 else 0)
            && s.accepted == s.processed + (InHand(s.process) + Reports(s.queue))
            && |s.queue| <= capacity
            && (s.capture.Pushing? ==> s.captured != [])
            && IsSubsequence(s.accepted, Decided(s.capture, s.captured))
  {
    StartInv(capacity, rearms);
    RunKeeps(Started(capacity, rearms), actions);
  }

  /** Between callbacks and between reports the three counters alone balance. */
  lemma CountersBalance(capacity: nat, rearms: bool, actions: seq<Action>)
    requires IsRun(Started(capacity, rearms), actions)
    requires var s := After(Started(capacity, rearms), actions);
             s.capture.Idle? && (s.process.Popping? || s.process.Done?)
    ensures var s := After(Started(capacity, rearms), actions);
            && |s.captured| == s.eventsRead + s.eventsDropped
            && s.eventsRead == s.eventsSent + |Reports(s.queue)|
  {
    Conservation(capacity, rearms, actions);
  }

  /** What libusb delivers while the flag is up: the data of the completions that are not empty. */
  function Received(s: Thread, actions: seq<Action>): seq<Report>
    decreases |actions|
  {
    if actions == [] then []
    else
      (match actions[0]
       case Callback(Completed(data)) => if s.running && data != [] then [data] else []
       case _ => [])
      + Received(Step(s, actions[0]), actions[1..])
  }

  lemma CapturedInStep(s: Thread, a: Action)
    ensures Step(s, a).captured == s.captured + Received(s, [a])
  {
    assert [a][1..] == [] && Received(Step(s, a), []) == [];
  }

  /** The captured reports are those delivered, in order. */
  lemma {:induction false} CapturedAreReceived(s: Thread, actions: seq<Action>)
    ensures After(s, actions).captured == s.captured + Received(s, actions)
    decreases |actions|
  {
    if actions != [] {
      hide Step;
      CapturedInStep(s, actions[0]);
      assert [actions[0]][1..] == [] && Received(Step(s, actions[0]), []) == [];
      CapturedAreReceived(Step(s, actions[0]), actions[1..]);
    }
  }

  // ----- The sentinel

  /** However `stop()` and a lost device interleave, one start sees at most one sentinel. */
  lemma AtMostOneSentinel(capacity: nat, rearms: bool, actions: seq<Action>)
    requires IsRun(Started(capacity, rearms), actions)
    ensures Sentinels(After(Started(capacity, rearms), actions)) <= 1
  {
    StartInv(capacity, rearms);
    RunKeeps(Started(capacity, rearms), actions);
  }

  /** Two threads come to push at once exactly when `stop()` wins while a report is being pushed. */
  lemma TwoProducersExactly(s: Thread, a: Action)
    requires Inv(s) && Enabled(s, a) && !TwoProducers(s)
    ensures TwoProducers(Step(s, a)) <==> a.StopCall? && s.running && s.capture.Pushing?
  {
    hide Counted, InOrder, PushesOk;
  }

  lemma TwoProducersReachable(capacity: nat, rearms: bool, report: Report)
    requires report != []
    ensures var run := [Callback(Completed(report)), StopCall];
            IsRun(Started(capacity, rearms), run) && TwoProducers(After(Started(capacity, rearms), run))
  {
    var a, b := Callback(Completed(report)), StopCall;
    var s1 := Step(Started(capacity, rearms), a);
    assert [a, b][1..] == [b];
    RunOfOne(s1, b);
  }

  /** The step pushes, and another thread has pushed before. */
  predicate HandsOver(s: Thread, a: Action) {
    var pushes, before := Step(s, a).pushedBy, s.pushedBy;
    |before| < |pushes| && before != [] && pushes[|pushes| - 1] != before[|before| - 1]
  }

  /**
   The producer's side of the queue passes to another thread exactly when `stop()` pushes its
   sentinel after a callback has pushed a report, and then for good: nobody pushes any more.
   */
  lemma HandOffExactly(s: Thread, a: Action)
    requires Inv(s) && Enabled(s, a)
    ensures HandsOver(s, a) <==> a.StopStep? && s.stopper.StopPushing? && s.captured != []
    ensures HandsOver(s, a) ==> Quiet(Step(s, a))
  {
    hide Counted, InOrder;
  }

  lemma QuietStep(s: Thread, a: Action)
    requires Quiet(s) && Enabled(s, a)
    ensures Quiet(Step(s, a))
    ensures Step(s, a).accepted == s.accepted && Step(s, a).sentinelsPushed == s.sentinelsPushed
    ensures Step(s, a).queue == s.queue || (s.queue != [] && Step(s, a).queue == s.queue[1..])
  {
  }

  /** Once quiet, always quiet: the queue only ever loses elements at its front. */
  lemma {:induction false} NothingIsQueuedAgain(s: Thread, actions: seq<Action>)
    requires Quiet(s) && IsRun(s, actions)
    ensures var t := After(s, actions);
            && Quiet(t) && t.accepted == s.accepted && t.sentinelsPushed == s.sentinelsPushed
            && |t.queue| <= |s.queue| && t.queue == s.queue[|s.queue| - |t.queue|..]
    decreases |actions|
  {
    if actions != [] {
      hide Quiet, Enabled, Step;
      QuietStep(s, actions[0]);
      NothingIsQueuedAgain(Step(s, actions[0]), actions[1..]);
    }
  }

  /** The sentinel, once pushed, is the last element ever queued. */
  lemma SentinelIsLast(s: Thread, actions: seq<Action>)
    requires Inv(s) && s.sentinelsPushed == 1 && IsRun(s, actions)
    ensures var t := After(s, actions);
            && t.accepted == s.accepted
            && |t.queue| <= |s.queue| && t.queue == s.queue[|s.queue| - |t.queue|..]
            && (InFirstLoop(t.process) ==> t.queue != [] && t.queue[|t.queue| - 1] == Sentinel)
  {
    NothingIsQueuedAgain(s, actions);
    RunKeeps(s, actions);
  }

  // ----- Shutdown

  /** The pops the process loop still has to try, the last one failing. */
  function PopsLeft(s: Thread): nat {
    if s.process.Done? then 0 else |s.queue| + 1
  }

  /** A try that fails only for an old write index does not count. */
  predicate TriesPop(s: Thread, a: Action) {
    a.ProcessStep? && s.process.Popping? && !a.stale
  }

  function PopsTried(s: Thread, actions: seq<Action>): nat
    decreases |actions|
  {
    if actions == [] then 0
    else (if TriesPop(s, actions[0]) then 1 else 0) + PopsTried(Step(s, actions[0]), actions[1..])
  }

  lemma PopStep(s: Thread, a: Action)
    requires Inv(s) && s.sentinelsPushed == 1 && Enabled(s, a)
    ensures PopsLeft(Step(s, a)) == PopsLeft(s) - if TriesPop(s, a) then 1 else 0
    ensures Step(s, a).sentinelsPushed == 1
  {
    hide Counted, InOrder, PushesOk;
  }

  lemma {:induction false} PopsAreBounded(s: Thread, actions: seq<Action>)
    requires Inv(s) && s.sentinelsPushed == 1 && IsRun(s, actions)
    ensures PopsTried(s, actions) + PopsLeft(After(s, actions)) == PopsLeft(s) <= s.capacity + 1
    decreases |actions|
  {
    if actions != [] {
      hide Inv, Enabled, Step, PopsLeft, TriesPop;
      PopStep(s, actions[0]);
      StepKeeps(s, actions[0]);
      PopsAreBounded(Step(s, actions[0]), actions[1..]);
    } else {
      hide Counted, InOrder, SentinelOk, PushesOk;
    }
  }

  /**
   Shutdown after a sentinel was pushed: the process loop tries at most capacity + 1 more pops in
   any run, and when it is done the queue is empty and every accepted report went to the client.
   */
  lemma ShutdownDrains(s: Thread, actions: seq<Action>)
    requires Inv(s) && s.sentinelsPushed == 1 && IsRun(s, actions)
    ensures PopsTried(s, actions) <= s.capacity + 1
    ensures var t := After(s, actions);
            t.process.Done? ==> t.queue == [] && t.processed == s.accepted
  {
    PopsAreBounded(s, actions);
    NothingIsQueuedAgain(s, actions);
    RunKeeps(s, actions);
    var t := After(s, actions);
    if t.process.Done? {
      assert t.accepted == t.processed + ([] + []);
    }
  }

  /** From a pushed sentinel the process loop reaches its end on its own. */
  lemma {:induction false} ReachesDone(s: Thread) returns (actions: seq<Action>)
    requires Inv(s) && s.sentinelsPushed == 1
    ensures IsRun(s, actions) && After(s, actions).process.Done?
    decreases PopsLeft(s), if s.process.Sending? then 2 else if s.process.Sent? then 1 else 0
  {
    if s.process.Done? {
      return [];
    }
    var a := ProcessStep(true, false);
    PopStep(s, a);
    StepKeeps(s, a);
    hide Inv;
    var rest := ReachesDone(Step(s, a));
    actions := [a] + rest;
    assert actions[1..] == rest;
  }

  lemma {:induction false} NeverLeavesFirstLoop(s: Thread, actions: seq<Action>)
    requires Inv(s) && Quiet(s) && s.sentinelsPushed == 0 && IsRun(s, actions)
    ensures InFirstLoop(After(s, actions).process)
  {
    NothingIsQueuedAgain(s, actions);
    RunKeeps(s, actions);
  }

  lemma EndsIffSentinelPushed(s: Thread)
    requires Inv(s) && Quiet(s)
    ensures (exists actions :: IsRun(s, actions) && After(s, actions).process.Done?) <==> s.sentinelsPushed == 1
  {
    if s.sentinelsPushed == 1 {
      var actions := ReachesDone(s);
    } else {
      forall actions | IsRun(s, actions) ensures !After(s, actions).process.Done? {
        NeverLeavesFirstLoop(s, actions);
      }
    }
  }

  /** The step pushes the sentinel. */
  predicate PushesSentinel(s: Thread, a: Action) {
    (a.CaptureStep? && s.capture.PushingSentinel?) || (a.StopStep? && s.stopper.StopPushing?)
  }

  lemma SentinelPushed(s: Thread, a: Action)
    requires Inv(s) && Enabled(s, a) && PushesSentinel(s, a)
    ensures Quiet(Step(s, a))
    ensures Step(s, a).sentinelsPushed == if |s.queue| < s.capacity && !a.stale then 1 else 0
  {
    hide Counted, InOrder, PushesOk;
  }

  /**
   From the moment the sentinel is about to be pushed, the process loop can still end if and only
   if the queue has room and the push sees it. Otherwise it polls an empty queue for ever.
   */
  lemma EndsIffRoomForSentinel(s: Thread, a: Action)
    requires Inv(s) && Enabled(s, a) && PushesSentinel(s, a)
    ensures (exists actions :: IsRun(Step(s, a), actions) && After(Step(s, a), actions).process.Done?)
            <==> |s.queue| < s.capacity && !a.stale
  {
    hide Inv, Quiet, Enabled, Step, PushesSentinel;
    StepKeeps(s, a);
    SentinelPushed(s, a);
    EndsIffSentinelPushed(Step(s, a));
  }

  lemma JoiningWaits(s: Thread, a: Action)
    requires s.stopper.Joining? && Enabled(s, a)
    ensures Step(s, a).stopper.Joining? || s.process.Done?
  {
  }

  /** A `stop()` whose sentinel was lost never returns. */
  lemma {:induction false} StopNeverReturns(s: Thread, actions: seq<Action>)
    requires Inv(s) && Quiet(s) && s.sentinelsPushed == 0 && s.stopper.Joining? && IsRun(s, actions)
    ensures After(s, actions).stopper.Joining?
    decreases |actions|
  {
    if actions != [] {
      NeverLeavesFirstLoop(s, []);
      hide Inv, Enabled, Step, Quiet;
      JoiningWaits(s, actions[0]);
      QuietStep(s, actions[0]);
      StepKeeps(s, actions[0]);
      StopNeverReturns(Step(s, actions[0]), actions[1..]);
    }
  }

  lemma Prepend(s: Thread, a: Action, rest: seq<Action>)
    requires Enabled(s, a) && IsRun(Step(s, a), rest)
    ensures IsRun(s, [a] + rest) && After(s, [a] + rest) == After(Step(s, a), rest)
  {
    hide Enabled, Step;
    assert ([a] + rest)[1..] == rest;
  }

  lemma {:induction false} RunsConcatenate(s: Thread, a: seq<Action>, b: seq<Action>)
    requires IsRun(s, a) && IsRun(After(s, a), b)
    ensures IsRun(s, a + b) && After(s, a + b) == After(After(s, a), b)
    decreases |a|
  {
    if a == [] {
      assert a + b == b;
    } else {
      assert (a + b)[1..] == a[1..] + b;
      RunsConcatenate(Step(s, a[0]), a[1..], b);
    }
  }
}
