/** The auto-capture outcome protocol of the CLI: a thread that polls and finally saves,
    callbacks that deliver trace results and stage changes, and a signal handler. Every
    access to shared state, and every section under the output mutex, is one step; steps
    interleave freely and the clock never runs backwards. */
module AutoCapture {
  import A = CaptureApi
  import O = AutoCaptureOption
  import opened Stages
  import opened Wrappers

  const POLLING_INTERVAL_MS: nat := 100
  const FAILURE_GRACE_MS: nat := 5000

  // ---------------------------------------------------------------- configuration

  datatype CaptureMode = Profiling | Raytracing | MemoryTrace | CrashAnalysis | Clocks
  datatype Config = Config(mode: CaptureMode, autoCaptureMode: O.AutoCaptureMode, rraEnableAutoCapture: bool)
  {
    predicate IsAutoCaptureMode() {
      autoCaptureMode != O.NoAutoCapture || (mode == Raytracing && rraEnableAutoCapture)
    }
  }

  // ---------------------------------------------------------------- state

  /** Why the waiting thread returned. */
  datatype Exit = StageError | TimedOut | Interrupted | NoAccelerationStructures | WriteFailed | CaptureFailed | Success
  {
    function Code(): int {
      if Success? then 0 else 1
    }
  }

  /** Where the waiting thread is: what it does next. */
  datatype Pc =
    | ReadComplete            // loop condition, first half
    | ReadInterrupted         // loop condition, second half
    | ReadStage
    | ReadFailed(stage: FeatureStage)
    | Arm(stage: FeatureStage)      // failed and idle, no deadline yet
    | Compare(stage: FeatureStage)  // failed and idle, deadline running
    | Claim                   // deadline passed: decide under the mutex
    | Sleep(until: nat)
    | AfterLoop               // loop left: was it the user?
    | Outcome                 // evaluate the result and save
    | Exited(exit: Exit)
  {
    predicate InLoop() {
      !AfterLoop? && !Outcome? && !Exited?
    }
  }

  /** What a completed poll saw, when, and the stage it was told. */
  datatype Observation = Idle | Unsupported | PendingOrFine
  datatype Poll = Poll(time: nat, saw: Observation, stage: FeatureStage)

  /** The variables the threads share. */
  datatype Latches = Latches(complete: bool, interrupted: bool, success: bool, failed: bool, timedOut: bool,
                             traceData: A.Bytes)

  /** The waiting thread's own variables, and two histories that are not part of the program:
      every poll so far, and those since the last one that saw a pending capture or no
      failure, from their first idle failure on. */
  datatype Waiter = Waiter(pc: Pc, deadline: Option<nat>, window: seq<Poll>, log: seq<Poll>)

  datatype State = State(
    config: Config,
    latches: Latches,
    waiter: Waiter,
    clock: nat,
    saved: Option<A.Bytes>   // the trace file, once written
  )

  function Init(config: Config): State {
    State(config, Latches(false, false, false, false, false, []), Waiter(ReadComplete, None, [], []), 0, None)
  }

  // ---------------------------------------------------------------- steps

  datatype Event =
    | TraceFinished(ok: bool, data: A.Bytes)
    | StatusChanged(newStage: DetailedStage)
    | SetInterrupted                 // first store of the signal handler
    | SetComplete                    // second store of the signal handler
    | Tick(ms: nat)
    | WaitStep(stage: FeatureStage, hasAccelerationStructures: bool, fileOpens: bool)

  function OnTraceFinished(config: Config, l: Latches, ok: bool, data: A.Bytes): Latches {
    if l.timedOut then l
    else if ok then l.(success := true, traceData := if data != [] then data else l.traceData, complete := true)
    else if l.success then l
    else if config.IsAutoCaptureMode() then l.(failed := true)
    else l.(failed := true, success := false, complete := true)
  }

  function OnStatusChanged(config: Config, l: Latches, newStage: DetailedStage): Latches {
    if !l.complete && config.IsAutoCaptureMode() && newStage.ReadyForCapture? then l.(failed := false) else l
  }

  function Sleeping(w: Waiter, clock: nat): Waiter {
    w.(pc := Sleep(clock + POLLING_INTERVAL_MS))
  }

  /** Every poll is logged; what it means for the window depends on what it saw. */
  function Observe(w: Waiter, clock: nat, saw: Observation, stage: FeatureStage): Waiter {
    var poll := Poll(clock, saw, stage);
    w.(log := w.log + [poll],
       window := if saw.PendingOrFine? || (saw.Unsupported? && w.window == []) then [] else w.window + [poll])
  }

  /** One step of the waiting thread inside its loop; `stage` is what the feature reports. */
  function LoopStep(w: Waiter, l: Latches, clock: nat, stage: FeatureStage): Waiter {
    match w.pc
    case ReadComplete => w.(pc := if l.complete then AfterLoop else ReadInterrupted)
    case ReadInterrupted => w.(pc := if l.interrupted then AfterLoop else ReadStage)
    case ReadStage =>
      if stage.ApiUnsupported? then Sleeping(Observe(w, clock, Unsupported, stage), clock)
      else w.(pc := if stage.Negative() then Exited(StageError) else ReadFailed(stage))
    case ReadFailed(seen) =>
      if l.failed && !seen.CaptureInProgress() then w.(pc := if w.deadline.None? then Arm(seen) else Compare(seen))
      else Sleeping(Observe(w.(deadline := None), clock, PendingOrFine, seen), clock)
    case Arm(seen) => Sleeping(Observe(w.(deadline := Some(clock + FAILURE_GRACE_MS)), clock, Idle, seen), clock)
    case Compare(seen) =>
      if w.deadline.Some? && clock >= w.deadline.value then Observe(w, clock, Idle, seen).(pc := Claim)
      else Sleeping(Observe(w, clock, Idle, seen), clock)
    case Claim => if l.complete then Sleeping(w, clock) else w.(pc := Exited(TimedOut))
    case Sleep(until) => if clock >= until then w.(pc := ReadComplete) else w
    case _ => w
  }

  /** How the waiting thread ends: with the trace saved, if there is one worth saving. */
  function Verdict(raytracing: bool, l: Latches, hasAccelerationStructures: bool, fileOpens: bool): Exit {
    if l.success && l.traceData != [] then
      if raytracing && !hasAccelerationStructures then NoAccelerationStructures
      else if fileOpens then Success
      else WriteFailed
    else if !l.success then CaptureFailed
    else Success
  }

  /** One step of the waiting thread. The inputs are what it reads from outside: the stage,
      whether the trace holds acceleration structures, whether the file opens. */
  function OnWaitStep(s: State, stage: FeatureStage, hasAccelerationStructures: bool, fileOpens: bool): State {
    var w, l := s.waiter, s.latches;
    match w.pc
    case Exited(_) => s
    case AfterLoop => s.(waiter := w.(pc := if l.interrupted then Exited(Interrupted) else Outcome))
    case Outcome =>
      var exit := Verdict(s.config.mode == Raytracing, l, hasAccelerationStructures, fileOpens);
      s.(waiter := w.(pc := Exited(exit)),
         saved := if exit.Success? && l.traceData != [] then Some(l.traceData) else None)
    case _ =>
      s.(waiter := LoopStep(w, l, s.clock, stage),
         latches := l.(timedOut := l.timedOut || (w.pc.Claim? && !l.complete)))
  }

  function Next(s: State, e: Event): State {
    match e
    case TraceFinished(ok, data) => s.(latches := OnTraceFinished(s.config, s.latches, ok, data))
    case StatusChanged(stage) => s.(latches := OnStatusChanged(s.config, s.latches, stage))
    case SetInterrupted => s.(latches := s.latches.(interrupted := true))
    case SetComplete => if s.latches.interrupted then s.(latches := s.latches.(complete := true)) else s
    case Tick(ms) => s.(clock := s.clock + ms)
    case WaitStep(stage, accel, opens) => OnWaitStep(s, stage, accel, opens)
  }

  function Run(s: State, es: seq<Event>): State {
    if es == [] then s else Next(Run(s, es[..|es| - 1]), es[|es| - 1])
  }

  lemma RunSnoc(s: State, es: seq<Event>, e: Event)
    ensures Run(s, es + [e]) == Next(Run(s, es), e)
  {
    assert (es + [e])[..|es|] == es;
  }

  // ---------------------------------------------------------------- invariant

  /** The window's polls, in order, none less than a polling interval after the one before. */
  ghost predicate WellSpaced(w: seq<Poll>, now: nat) {
    && (forall i :: 0 <= i < |w| ==> w[i].saw != PendingOrFine && w[i].time <= now)
    && (forall i :: 0 <= i < |w| ==> w[i].time >= w[0].time + POLLING_INTERVAL_MS * i)
    && (w != [] ==> w[0].saw == Idle)
  }

  /** No idle poll before position `n` came late enough to end the wait. */
  ghost predicate NoneExpired(w: seq<Poll>, n: nat) {
    forall i :: 0 <= i < n && i < |w| && w[i].saw == Idle ==> w[i].time < w[0].time + FAILURE_GRACE_MS
  }

  ghost predicate LatchInv(l: Latches) {
    && (l.success ==> l.complete)
    && (l.complete ==> l.success || l.interrupted)
    && (l.timedOut ==> !l.success)
    && (!l.success ==> l.traceData == [])
  }

  ghost predicate PcInv(pc: Pc, l: Latches, saved: Option<A.Bytes>) {
    && (l.timedOut <==> pc == Exited(TimedOut))
    && (pc.AfterLoop? ==> l.complete || l.interrupted)
    && (pc.Outcome? ==> l.success)
    && (pc == Exited(Interrupted) ==> l.interrupted)
    && (pc.Exited? ==> match pc.exit
                       case CaptureFailed => false
                       case Success => l.success
                       case WriteFailed => l.success
                       case NoAccelerationStructures => l.success
                       case _ => true)
    && (saved.Some? ==> pc == Exited(Success) && saved.value != [])
  }

  /** The deadline is a function of the poll history. */
  ghost predicate DeadlineInv(pc: Pc, deadline: Option<nat>, window: seq<Poll>) {
    && deadline == (if window == [] then None else Some(window[0].time + FAILURE_GRACE_MS))
    && (pc.Arm? ==> window == [])
    && (pc.Compare? ==> window != [])
  }

  /** The polls of the window are a polling interval apart, and so will be the next one. */
  ghost predicate SpacingInv(pc: Pc, window: seq<Poll>, clock: nat) {
    && WellSpaced(window, clock)
    && (window != [] ==>
          var next := window[0].time + POLLING_INTERVAL_MS * |window|;
          match pc
          case Sleep(until) => until >= next
          case Claim => clock + POLLING_INTERVAL_MS >= next
          case _ => pc.InLoop() ==> clock >= next)
  }

  /** An idle poll behind the deadline is the last of its window and is acted upon; only a
      thread that has found the capture complete, and is about to leave, passes one by. */
  ghost predicate PromptInv(pc: Pc, window: seq<Poll>, complete: bool) {
    if pc.Claim? || pc == Exited(TimedOut) then
      && |window| > 1 && window[|window| - 1].saw == Idle
      && window[|window| - 1].time >= window[0].time + FAILURE_GRACE_MS
      && NoneExpired(window, |window| - 1)
    else pc.InLoop() && !(complete && (pc.Sleep? || pc.ReadComplete?)) ==> NoneExpired(window, |window|)
  }

  /** The stages in which no capture is running and none can start any more. */
  ghost predicate Finished(stage: FeatureStage) {
    stage.Unknown? || stage.Disconnected? || stage.Done? || stage.EncounteredError?
  }

  /** An idle failure is seen in one of those stages only. */
  ghost predicate StageInv(pc: Pc, window: seq<Poll>) {
    && (forall i :: 0 <= i < |window| ==>
          if window[i].saw.Idle? then Finished(window[i].stage) else window[i].stage.ApiUnsupported?)
    && (pc.Arm? || pc.Compare? ==> Finished(pc.stage))
    && (pc.ReadFailed? ==>
          Finished(pc.stage) || pc.stage.ReadyForCapture? || pc.stage.WaitingToBeginCapture? || pc.stage.Capturing?
          || pc.stage.Busy?)
  }

  /** The window is how the log ends. */
  ghost predicate LogInv(window: seq<Poll>, log: seq<Poll>) {
    |window| <= |log| && log[|log| - |window|..] == window
  }

  ghost predicate Inv(s: State) {
    && s.config.IsAutoCaptureMode()
    && LatchInv(s.latches)
    && PcInv(s.waiter.pc, s.latches, s.saved)
    && DeadlineInv(s.waiter.pc, s.waiter.deadline, s.waiter.window)
    && SpacingInv(s.waiter.pc, s.waiter.window, s.clock)
    && PromptInv(s.waiter.pc, s.waiter.window, s.latches.complete)
    && StageInv(s.waiter.pc, s.waiter.window)
    && LogInv(s.waiter.window, s.waiter.log)
  }

  lemma InvInit(config: Config)
    requires config.IsAutoCaptureMode()
    ensures Inv(Init(config))
  {
  }

  lemma CallbackStep(s: State, e: Event)
    requires Inv(s) && !e.WaitStep?
    ensures Inv(Next(s, e))
  {
  }

  lemma WaitKeepsLatches(s: State, e: Event)
    requires LatchInv(s.latches) && PcInv(s.waiter.pc, s.latches, s.saved) && e.WaitStep?
    ensures LatchInv(Next(s, e).latches)
  {
  }

  lemma WaitKeepsPc(s: State, e: Event)
    requires LatchInv(s.latches) && PcInv(s.waiter.pc, s.latches, s.saved) && e.WaitStep?
    ensures PcInv(Next(s, e).waiter.pc, Next(s, e).latches, Next(s, e).saved)
  {
  }

  lemma LoopKeepsDeadline(w: Waiter, l: Latches, clock: nat, stage: FeatureStage)
    requires DeadlineInv(w.pc, w.deadline, w.window)
    ensures var w' := LoopStep(w, l, clock, stage); DeadlineInv(w'.pc, w'.deadline, w'.window)
  {
  }

  /** A poll that is recorded now comes a polling interval after the one before. */
  lemma RecordSpacing(window: seq<Poll>, clock: nat, saw: Observation, stage: FeatureStage)
    requires WellSpaced(window, clock) && saw != PendingOrFine && (window == [] ==> saw == Idle)
    requires window != [] ==> clock >= window[0].time + POLLING_INTERVAL_MS * |window|
    ensures WellSpaced(window + [Poll(clock, saw, stage)], clock)
    ensures var w := window + [Poll(clock, saw, stage)];
            clock + POLLING_INTERVAL_MS >= w[0].time + POLLING_INTERVAL_MS * |w|
  {
  }

  /** Steps that record no poll come no sooner. */
  lemma QuietSpacing(w: Waiter, l: Latches, clock: nat, stage: FeatureStage)
    requires SpacingInv(w.pc, w.window, clock) && !w.pc.Arm? && !w.pc.Compare? && !w.pc.ReadStage?
    ensures var w' := LoopStep(w, l, clock, stage); SpacingInv(w'.pc, w'.window, clock)
  {
  }

  lemma LoopKeepsSpacing(w: Waiter, l: Latches, clock: nat, stage: FeatureStage)
    requires DeadlineInv(w.pc, w.deadline, w.window) && SpacingInv(w.pc, w.window, clock)
    ensures var w' := LoopStep(w, l, clock, stage); SpacingInv(w'.pc, w'.window, clock)
  {
    match w.pc
    case Arm(seen) => RecordSpacing(w.window, clock, Idle, seen);
    case Compare(seen) => RecordSpacing(w.window, clock, Idle, seen);
    case ReadStage => if w.window != [] { RecordSpacing(w.window, clock, Unsupported, stage); }
    case _ => QuietSpacing(w, l, clock, stage);
  }

  lemma ComparePrompt(w: Waiter, l: Latches, clock: nat, stage: FeatureStage)
    requires w.pc.Compare? && DeadlineInv(w.pc, w.deadline, w.window) && PromptInv(w.pc, w.window, l.complete)
    ensures var w' := LoopStep(w, l, clock, stage); PromptInv(w'.pc, w'.window, l.complete)
  {
    var longer := w.window + [Poll(clock, Idle, w.pc.stage)];
    assert forall i :: 0 <= i < |w.window| ==> longer[i] == w.window[i];
  }

  /** Steps that record no poll leave the window as it is. */
  lemma QuietPrompt(w: Waiter, l: Latches, clock: nat, stage: FeatureStage)
    requires DeadlineInv(w.pc, w.deadline, w.window) && PromptInv(w.pc, w.window, l.complete)
    requires !w.pc.Compare? && !w.pc.ReadStage? && !w.pc.Arm? && !w.pc.ReadFailed?
    ensures var w' := LoopStep(w, l, clock, stage); PromptInv(w'.pc, w'.window, l.complete)
  {
    assert LoopStep(w, l, clock, stage).window == w.window;
  }

  lemma LoopKeepsPrompt(w: Waiter, l: Latches, clock: nat, stage: FeatureStage)
    requires DeadlineInv(w.pc, w.deadline, w.window) && PromptInv(w.pc, w.window, l.complete)
    ensures var w' := LoopStep(w, l, clock, stage); PromptInv(w'.pc, w'.window, l.complete)
  {
    match w.pc
    case Compare(_) => ComparePrompt(w, l, clock, stage);
    case ReadFailed(_) =>
    case ReadStage =>
    case Arm(_) =>
    case _ => QuietPrompt(w, l, clock, stage);
  }

  lemma OneMorePoll(window: seq<Poll>, log: seq<Poll>, poll: Poll)
    requires LogInv(window, log)
    ensures LogInv(window + [poll], log + [poll]) && LogInv([], log + [poll])
  {
  }

  lemma LoopKeepsLog(w: Waiter, l: Latches, clock: nat, stage: FeatureStage)
    requires LogInv(w.window, w.log)
    ensures var w' := LoopStep(w, l, clock, stage); LogInv(w'.window, w'.log)
  {
    match w.pc
    case Arm(seen) => OneMorePoll(w.window, w.log, Poll(clock, Idle, seen));
    case Compare(seen) => OneMorePoll(w.window, w.log, Poll(clock, Idle, seen));
    case ReadStage => OneMorePoll(w.window, w.log, Poll(clock, Unsupported, stage));
    case ReadFailed(seen) => OneMorePoll(w.window, w.log, Poll(clock, PendingOrFine, seen));
    case _ =>
  }

  lemma LoopKeepsStages(w: Waiter, l: Latches, clock: nat, stage: FeatureStage)
    requires StageInv(w.pc, w.window)
    ensures var w' := LoopStep(w, l, clock, stage); StageInv(w'.pc, w'.window)
  {
  }

  lemma LoopKeepsInv(s: State, e: Event)
    requires Inv(s) && e.WaitStep? && s.waiter.pc.InLoop()
    ensures Inv(Next(s, e))
  {
    var t := Next(s, e);
    assert t.waiter == LoopStep(s.waiter, s.latches, s.clock, e.stage) && t.latches.complete == s.latches.complete;
    WaitKeepsLatches(s, e);
    WaitKeepsPc(s, e);
    LoopKeepsDeadline(s.waiter, s.latches, s.clock, e.stage);
    LoopKeepsSpacing(s.waiter, s.latches, s.clock, e.stage);
    LoopKeepsPrompt(s.waiter, s.latches, s.clock, e.stage);
    LoopKeepsStages(s.waiter, s.latches, s.clock, e.stage);
    LoopKeepsLog(s.waiter, s.latches, s.clock, e.stage);
  }

  lemma EndKeepsInv(s: State, e: Event)
    requires Inv(s) && e.WaitStep? && !s.waiter.pc.InLoop()
    ensures Inv(Next(s, e))
  {
    WaitKeepsLatches(s, e);
    WaitKeepsPc(s, e);
  }

  /** Every step of every thread keeps the invariant. */
  lemma InvStep(s: State, e: Event)
    requires Inv(s)
    ensures Inv(Next(s, e))
  {
    if !e.WaitStep? {
      CallbackStep(s, e);
    } else if s.waiter.pc.InLoop() {
      LoopKeepsInv(s, e);
    } else {
      EndKeepsInv(s, e);
    }
  }

  lemma {:induction false} InvRun(s: State, es: seq<Event>)
    requires Inv(s)
    ensures Inv(Run(s, es))
  {
    if es != [] {
      InvRun(s, es[..|es| - 1]);
      InvStep(Run(s, es[..|es| - 1]), es[|es| - 1]);
    }
  }

  // ---------------------------------------------------------------- what holds in every run

  function Reached(config: Config, es: seq<Event>): State {
    Run(Init(config), es)
  }

  lemma ReachedInv(config: Config, es: seq<Event>)
    requires config.IsAutoCaptureMode()
    ensures Inv(Reached(config, es))
  {
    InvInit(config);
    InvRun(Init(config), es);
  }

  lemma {:induction false} RunConcat(s: State, a: seq<Event>, b: seq<Event>)
    ensures Run(s, a + b) == Run(Run(s, a), b)
  {
    if b == [] {
      assert a + b == a;
    } else {
      var front := b[..|b| - 1];
      assert (a + b)[..|a + b| - 1] == a + front;
      RunConcat(s, a, front);
    }
  }

  /** "Timed out" and "succeeded" are never both latched, and a timed-out run holds no data. */
  lemma OneOutcome(config: Config, es: seq<Event>)
    requires config.IsAutoCaptureMode()
    ensures var l := Reached(config, es).latches;
            !(l.timedOut && l.success) && (l.timedOut ==> l.traceData == [])
  {
    ReachedInv(config, es);
  }

  /** After a timeout nothing is recorded or saved any more, whatever arrives. */
  lemma {:induction false} TimeoutIsFinal(config: Config, es: seq<Event>, more: seq<Event>)
    requires config.IsAutoCaptureMode() && Reached(config, es).latches.timedOut
    ensures var s := Reached(config, es + more);
            s.latches.timedOut && !s.latches.success && s.latches.traceData == [] && s.saved == None
            && s.waiter.pc == Exited(TimedOut)
    decreases |more|
  {
    if more == [] {
      assert es + more == es;
      ReachedInv(config, es);
    } else {
      var front, last := more[..|more| - 1], more[|more| - 1];
      TimeoutIsFinal(config, es, front);
      assert es + more == (es + front) + [last];
      RunSnoc(Init(config), es + front, last);
      ReachedInv(config, es + more);
    }
  }

  /** Once a success is latched it stays latched: later failures change nothing, and the
      run can no longer end as a timeout or as a failed capture. */
  lemma {:induction false} SuccessIsFinal(config: Config, es: seq<Event>, more: seq<Event>)
    requires config.IsAutoCaptureMode() && Reached(config, es).latches.success
    ensures var s := Reached(config, es + more);
            && s.latches.success && s.latches.complete && !s.latches.timedOut
            && s.waiter.pc !in {Exited(TimedOut), Exited(CaptureFailed)}
            && forall data :: Next(s, TraceFinished(false, data)) == s
    decreases |more|
  {
    if more == [] {
      assert es + more == es;
    } else {
      var front, last := more[..|more| - 1], more[|more| - 1];
      SuccessIsFinal(config, es, front);
      assert es + more == (es + front) + [last];
      RunSnoc(Init(config), es + front, last);
    }
    ReachedInv(config, es + more);
  }

  /** Exit code 0 means a latched success; the final "Capture failed" branch is never taken;
      and code 1 in spite of a success has one of four causes. */
  lemma ExitCode(config: Config, es: seq<Event>)
    requires config.IsAutoCaptureMode() && Reached(config, es).waiter.pc.Exited?
    ensures var s := Reached(config, es);
            var exit := s.waiter.pc.exit;
            && exit.Code() in {0, 1} && (exit.Code() == 0 ==> s.latches.success && !s.latches.timedOut)
            && exit != CaptureFailed
            && (s.latches.success && exit.Code() != 0 ==>
                  exit in {StageError, NoAccelerationStructures, WriteFailed}
                  || (exit.Interrupted? && s.latches.interrupted))
  {
    ReachedInv(config, es);
  }

  /** The last step: with the loop behind it and no interrupt, the thread returns 0 exactly
      when there is no data to save or the data is usable and the file opens. */
  lemma OutcomeDecides(config: Config, es: seq<Event>, e: Event)
    requires config.IsAutoCaptureMode() && Reached(config, es).waiter.pc.Outcome? && e.WaitStep?
    ensures var s, t := Reached(config, es), Reached(config, es + [e]);
            && t.waiter.pc.Exited?
            && (t.waiter.pc.exit.Code() == 0 <==>
                  s.latches.traceData == [] ||
                  (e.fileOpens && (config.mode == Raytracing ==> e.hasAccelerationStructures)))
            && (t.saved.Some? <==> t.waiter.pc.exit.Code() == 0 && s.latches.traceData != [])
  {
    ReachedInv(config, es);
    RunSnoc(Init(config), es, e);
    ConfigKept(Init(config), es);
  }

  lemma {:induction false} ConfigKept(s: State, es: seq<Event>)
    ensures Run(s, es).config == s.config
  {
    if es != [] {
      ConfigKept(s, es[..|es| - 1]);
    }
  }

  function WaitSteps(es: seq<Event>): nat {
    if es == [] then 0 else WaitSteps(es[..|es| - 1]) + if es[|es| - 1].WaitStep? then 1 else 0
  }

  // ---------------------------------------------------------------- the latches, read off the events

  ghost predicate Happened(es: seq<Event>, wanted: Event -> bool) {
    exists i :: 0 <= i < |es| && wanted(es[i])
  }

  lemma HappenedStep(es: seq<Event>, wanted: Event -> bool)
    requires es != []
    ensures Happened(es, wanted) <==> Happened(es[..|es| - 1], wanted) || wanted(es[|es| - 1])
  {
    var front := es[..|es| - 1];
    if i :| 0 <= i < |front| && wanted(front[i]) {
      assert wanted(es[i]);
    }
    if i :| 0 <= i < |es| && wanted(es[i]) {
      assert i < |front| ==> wanted(front[i]);
    }
  }

  /** Unless the wait has timed out, success is latched exactly when some result was good. */
  lemma {:induction false} SuccessIff(config: Config, es: seq<Event>)
    requires !Reached(config, es).latches.timedOut && config.IsAutoCaptureMode()
    ensures Reached(config, es).latches.success <==> Happened(es, (e: Event) => e.TraceFinished? && e.ok)
  {
    if es != [] {
      SuccessIff(config, es[..|es| - 1]);
      HappenedStep(es, (e: Event) => e.TraceFinished? && e.ok);
    }
  }

  /** The user's interrupt is latched exactly when the signal handler has made its first
      store, and the wait is over exactly by its second, or by a success. */
  lemma {:induction false} CompleteIff(config: Config, es: seq<Event>)
    requires config.IsAutoCaptureMode()
    ensures var l := Reached(config, es).latches;
            && (l.interrupted <==> Happened(es, (e: Event) => e.SetInterrupted?))
            && (l.complete <==>
                  l.success || exists i, j :: 0 <= i < j < |es| && es[i].SetInterrupted? && es[j].SetComplete?)
  {
    if es != [] {
      var front, k := es[..|es| - 1], |es| - 1;
      CompleteIff(config, front);
      HappenedStep(es, (e: Event) => e.SetInterrupted?);
      ConfigKept(Init(config), front);
      if es[k].SetComplete? && Reached(config, front).latches.interrupted {
        var i :| 0 <= i < |front| && front[i].SetInterrupted?;
        assert es[i].SetInterrupted?;
      }
      if i, j :| 0 <= i < j < |front| && front[i].SetInterrupted? && front[j].SetComplete? {
        assert es[i].SetInterrupted? && es[j].SetComplete?;
      }
      if i, j :| 0 <= i < j < |es| && es[i].SetInterrupted? && es[j].SetComplete? {
        assert front[i].SetInterrupted? && (j < k ==> front[j].SetComplete?);
      }
    }
  }

  /** A bad result, and no connection has become ready since. */
  predicate Outstanding(es: seq<Event>) {
    es != [] &&
    match es[|es| - 1]
    case TraceFinished(false, _) => true
    case StatusChanged(ReadyForCapture) => false
    case _ => Outstanding(es[..|es| - 1])
  }

  /** While the wait goes on, the failure latch says exactly whether there was a bad result
      since a connection last became ready. */
  lemma {:induction false} FailureIff(config: Config, es: seq<Event>)
    requires config.IsAutoCaptureMode()
    requires !Reached(config, es).latches.complete && !Reached(config, es).latches.timedOut
    ensures Reached(config, es).latches.failed <==> Outstanding(es)
  {
    if es != [] {
      var front := es[..|es| - 1];
      FailureIff(config, front);
      ReachedInv(config, front);
      ConfigKept(Init(config), front);
    }
  }

  /** A first bad result ends the wait exactly when the capture is not an automatic one:
      neither by frame or dispatch, nor by the ray tracing switch. */
  lemma FirstFailureCompletesIff(config: Config, data: A.Bytes)
    ensures var l := Next(Init(config), TraceFinished(false, data)).latches;
            && l == Latches(l.complete, false, false, true, false, [])
            && (l.complete <==> config.autoCaptureMode.NoAutoCapture?
                                && !(config.mode == Raytracing && config.rraEnableAutoCapture))
  {
  }

  lemma {:induction false} SeenSuccessIsSaved(s: State, es: seq<Event>)
    requires Inv(s) && s.waiter.pc.ReadComplete? && s.latches.success && s.latches.traceData != []
    requires !s.latches.interrupted && !Happened(es, (e: Event) => e.SetInterrupted?)
    requires !Happened(es, (e: Event) => e.WaitStep? && !(e.fileOpens && e.hasAccelerationStructures))
    ensures var t, n := Run(s, es), WaitSteps(es);
            && Inv(t) && t.latches.success && t.latches.traceData != [] && !t.latches.interrupted
            && (n == 0 ==> t.waiter.pc.ReadComplete?)
            && (n == 1 ==> t.waiter.pc.AfterLoop?)
            && (n == 2 ==> t.waiter.pc.Outcome?)
            && (n >= 3 ==> t.waiter.pc == Exited(Success) && t.saved.Some?)
  {
    if es != [] {
      var front, last := es[..|es| - 1], es[|es| - 1];
      HappenedStep(es, (e: Event) => e.SetInterrupted?);
      HappenedStep(es, (e: Event) => e.WaitStep? && !(e.fileOpens && e.hasAccelerationStructures));
      SeenSuccessIsSaved(s, front);
      InvStep(Run(s, front), last);
      SavedTrace(Run(s, front), last);
    }
  }

  lemma SavedTrace(s: State, e: Event)
    requires Inv(s) && s.latches.success && s.latches.traceData != [] && !s.latches.interrupted && !e.SetInterrupted?
    requires e.WaitStep? ==> e.fileOpens && e.hasAccelerationStructures
    ensures var t := Next(s, e);
            && t.latches.success && t.latches.traceData != [] && !t.latches.interrupted
            && (s.saved.Some? ==> t.saved.Some?)
            && (!e.WaitStep? || s.waiter.pc.Exited? ==> t.waiter.pc == s.waiter.pc)
            && (e.WaitStep? && s.waiter.pc.ReadComplete? ==> t.waiter.pc.AfterLoop?)
            && (e.WaitStep? && s.waiter.pc.AfterLoop? ==> t.waiter.pc.Outcome?)
            && (e.WaitStep? && s.waiter.pc.Outcome? ==> t.waiter.pc == Exited(Success) && t.saved.Some?)
  {
  }

  /** A success the thread finds at its loop condition is saved by its next three steps,
      whatever the other threads do in between, unless the user interrupts, the file does not
      open or the trace is unusable. */
  lemma SuccessIsSaved(config: Config, es: seq<Event>, more: seq<Event>)
    requires config.IsAutoCaptureMode() && WaitSteps(more) >= 3
    requires var s := Reached(config, es);
             s.waiter.pc.ReadComplete? && s.latches.success && s.latches.traceData != [] && !s.latches.interrupted
    requires !Happened(more, (e: Event) => e.SetInterrupted?)
    requires !Happened(more, (e: Event) => e.WaitStep? && !(e.fileOpens && e.hasAccelerationStructures))
    ensures var t := Reached(config, es + more); t.waiter.pc == Exited(Success) && t.saved.Some?
  {
    ReachedInv(config, es);
    SeenSuccessIsSaved(Reached(config, es), more);
    RunConcat(Init(config), es, more);
  }

  /** An interrupt the thread finds at its loop condition ends the wait without a file. */
  lemma InterruptEnds(s: State, e: Event, e': Event)
    requires s.waiter.pc.ReadComplete? && s.latches.complete && s.latches.interrupted && e.WaitStep? && e'.WaitStep?
    ensures var t := Next(Next(s, e), e'); t.waiter.pc == Exited(Interrupted) && t.saved == s.saved
  {
  }

  /** A sleeping thread wakes once its time has come, and not before. */
  lemma SleepEndsOnTime(s: State, e: Event)
    requires s.waiter.pc.Sleep? && e.WaitStep?
    ensures var t := Next(s, e);
            if s.clock < s.waiter.pc.until then t == s else t == s.(waiter := s.waiter.(pc := ReadComplete))
  {
  }

  /** The payload of the last successful result that carried one. */
  function LastPayload(es: seq<Event>): A.Bytes {
    if es == [] then [] else
      match es[|es| - 1]
      case TraceFinished(true, data) => if data != [] then data else LastPayload(es[..|es| - 1])
      case _ => LastPayload(es[..|es| - 1])
  }

  lemma DataStep(s: State, e: Event)
    requires Inv(s) && Inv(Next(s, e))
    ensures var l, l' := s.latches, Next(s, e).latches;
            l'.traceData == if l'.timedOut then []
                            else if e.TraceFinished? && e.ok && e.data != [] then e.data else l.traceData
  {
  }

  /** The recorded data is the payload of the last successful result. */
  lemma {:induction false} DataIsLastPayload(config: Config, es: seq<Event>)
    requires config.IsAutoCaptureMode()
    ensures var l := Reached(config, es).latches; l.traceData == if l.timedOut then [] else LastPayload(es)
  {
    if es != [] {
      var front, last := es[..|es| - 1], es[|es| - 1];
      DataIsLastPayload(config, front);
      ReachedInv(config, front);
      ReachedInv(config, es);
      DataStep(Reached(config, front), last);
    }
  }

  lemma SaveStep(s: State, e: Event)
    requires s.saved.None? && Next(s, e).saved.Some?
    ensures s.waiter.pc.Outcome? && e.WaitStep? && Next(s, e).saved == Some(s.latches.traceData)
  {
  }

  lemma SavedStays(s: State, e: Event)
    requires Inv(s) && s.saved.Some?
    ensures Next(s, e).saved == s.saved
  {
  }

  /** The file holds, unchanged, what the last success before the step that saved it had
      delivered. */
  lemma {:induction false} FileIsLastPayload(config: Config, es: seq<Event>) returns (k: nat)
    requires config.IsAutoCaptureMode() && Reached(config, es).saved.Some?
    ensures k < |es| && Reached(config, es[..k]).waiter.pc.Outcome? && es[k].WaitStep?
    ensures Reached(config, es[..k]).saved.None? && Reached(config, es).saved.value == LastPayload(es[..k])
  {
    var front := es[..|es| - 1];
    ReachedInv(config, front);
    if Reached(config, front).saved.Some? {
      SavedStays(Reached(config, front), es[|es| - 1]);
      k := FileIsLastPayload(config, front);
      assert front[..k] == es[..k];
    } else {
      k := |front|;
      SaveStep(Reached(config, front), es[k]);
      DataIsLastPayload(config, front);
    }
  }

  /** A timeout is declared only when the log of all polls ends in a stretch, from the poll
      that armed the deadline on, in which no poll was told of a capture that is running or
      can still start; it lasted for the grace period at least, and no poll before its last
      that found an idle failure was that late. */
  lemma TimeoutIsEarned(config: Config, es: seq<Event>) returns (armed: nat)
    requires config.IsAutoCaptureMode() && Reached(config, es).latches.timedOut
    ensures var log := Reached(config, es).waiter.log;
            && armed + 1 < |log| && log[|log| - 1].time - log[armed].time >= 5000
            && (forall i :: armed <= i < |log| ==>
                  log[i].stage in {FeatureStage.Unknown, FeatureStage.Disconnected, FeatureStage.Done,
                                   FeatureStage.EncounteredError, FeatureStage.ApiUnsupported})
            && !log[armed].stage.ApiUnsupported? && !log[|log| - 1].stage.ApiUnsupported?
            && (forall i :: armed <= i < |log| - 1 && !log[i].stage.ApiUnsupported? ==>
                  log[i].time - log[armed].time < 5000)
            && (forall i :: armed <= i < |log| ==> log[i].time >= log[armed].time + 100 * (i - armed))
  {
    ReachedInv(config, es);
    var w := Reached(config, es).waiter;
    armed := |w.log| - |w.window|;
    assert forall i :: armed <= i < |w.log| ==> w.log[i] == w.window[i - armed];
  }

  /** What the feature reported, poll by poll: the stages of the steps taken to read it. */
  ghost function Reported(config: Config, es: seq<Event>): seq<FeatureStage> {
    if es == [] then [] else
      var front, last := es[..|es| - 1], es[|es| - 1];
      Reported(config, front)
      + if Reached(config, front).waiter.pc.ReadStage? && last.WaitStep? then [last.stage] else []
  }

  function StagesOf(log: seq<Poll>): (r: seq<FeatureStage>)
    ensures |r| == |log| && forall i :: 0 <= i < |log| ==> r[i] == log[i].stage
  {
    seq(|log|, i requires 0 <= i < |log| => log[i].stage)
  }

  /** The stage of the poll that is under way, or that ended the wait. */
  ghost predicate UnderWay(pc: Pc, log: seq<Poll>, reported: seq<FeatureStage>) {
    match pc
    case ReadFailed(stage) => reported == StagesOf(log) + [stage]
    case Arm(stage) => reported == StagesOf(log) + [stage]
    case Compare(stage) => reported == StagesOf(log) + [stage]
    case Exited(StageError) => |reported| == |log| + 1 && reported[..|log|] == StagesOf(log)
    case _ => reported == StagesOf(log)
  }

  lemma ReportedStep(s: State, e: Event, reported: seq<FeatureStage>)
    requires UnderWay(s.waiter.pc, s.waiter.log, reported)
    ensures var now := if s.waiter.pc.ReadStage? && e.WaitStep? then [e.stage] else [];
            UnderWay(Next(s, e).waiter.pc, Next(s, e).waiter.log, reported + now)
  {
    var t := Next(s, e);
    if e.WaitStep? && t.waiter.log != s.waiter.log {
      assert t.waiter.log == s.waiter.log + [t.waiter.log[|s.waiter.log|]];
      assert StagesOf(t.waiter.log) == StagesOf(s.waiter.log) + [t.waiter.log[|s.waiter.log|].stage];
    }
    assert reported + [] == reported;
  }

  /** The logged stages are the reported ones, each logged once, in order; only that of a
      poll under way, or of the one that ended the wait, is not in the log. */
  lemma {:induction false} LoggedStagesAreReported(config: Config, es: seq<Event>)
    ensures var s := Reached(config, es); UnderWay(s.waiter.pc, s.waiter.log, Reported(config, es))
  {
    if es != [] {
      var front := es[..|es| - 1];
      LoggedStagesAreReported(config, front);
      ReportedStep(Reached(config, front), es[|es| - 1], Reported(config, front));
    }
  }

  /** What one poll does, stage by stage, given whether a failure is outstanding when it
      looks: it goes on to the deadline, or forgets it, or leaves it as it is, or gives up. */
  lemma StageDecides(s: State, stage: FeatureStage, e: Event)
    requires s.waiter.pc.ReadStage? && e.WaitStep?
    ensures var t := Next(s, Wait(stage));
            var u := Next(t, e);
            && (t.waiter.pc == Exited(StageError) <==>
                  stage in {FeatureStage.Disabled, FeatureStage.DisabledFromError, FeatureStage.HardwareUnsupported,
                            FeatureStage.OsUnsupported, FeatureStage.DriverUnsupported})
            && (t.waiter.pc.Sleep? <==> stage == FeatureStage.ApiUnsupported)
            && (t.waiter.pc.Sleep? ==> t.waiter.pc.until == s.clock + 100 && t.waiter.deadline == s.waiter.deadline)
            && (stage in {FeatureStage.Unknown, FeatureStage.Disconnected, FeatureStage.Done,
                          FeatureStage.EncounteredError} && s.latches.failed ==>
                  u.waiter == s.waiter.(pc := if s.waiter.deadline.None? then Arm(stage) else Compare(stage)))
            && (stage in {FeatureStage.Unknown, FeatureStage.Disconnected, FeatureStage.Done,
                          FeatureStage.EncounteredError} && !s.latches.failed ==>
                  u.waiter.pc == Sleep(s.clock + 100) && u.waiter.deadline.None?)
            && (stage in {FeatureStage.ReadyForCapture, FeatureStage.WaitingToBeginCapture, FeatureStage.Capturing,
                          FeatureStage.Busy} ==>
                  u.waiter.pc == Sleep(s.clock + 100) && u.waiter.deadline.None?)
  {
  }

  /** Conversely: while the thread goes on waiting, every idle poll of the window is among
      its first 50. */
  lemma AtMostFiftyIdlePolls(config: Config, es: seq<Event>, i: nat)
    requires config.IsAutoCaptureMode()
    requires var s := Reached(config, es);
             && s.waiter.pc.InLoop() && !s.waiter.pc.Claim? && !s.latches.complete
             && i < |s.waiter.window| && s.waiter.window[i].saw == Idle
    ensures i < 50
  {
    ReachedInv(config, es);
    var w := Reached(config, es).waiter.window;
    assert w[i].time >= w[0].time + POLLING_INTERVAL_MS * i;
  }

  lemma {:induction false} LateIdlePollDecides(s: State, es: seq<Event>)
    requires Inv(s) && s.waiter.pc.Compare? && |s.waiter.window| >= 50
    ensures var t, n := Run(s, es), WaitSteps(es);
            && (n == 0 ==> t.waiter == s.waiter && t.clock >= s.clock)
            && (n == 1 ==> t.waiter.pc.Claim?)
            && (n >= 2 ==> t.latches.timedOut || t.latches.complete)
  {
    if es != [] {
      LateIdlePollDecides(s, es[..|es| - 1]);
    }
  }

  /** The 51st poll of a window, or any later one, ends the wait if it finds the feature
      idle: whatever the other threads do in between, two further steps of the waiting thread
      time out, or the capture is complete. */
  lemma FiftyFirstIdlePollDecides(config: Config, es: seq<Event>, more: seq<Event>)
    requires config.IsAutoCaptureMode() && WaitSteps(more) >= 2
    requires Reached(config, es).waiter.pc.Compare? && |Reached(config, es).waiter.window| >= 50
    ensures var t := Reached(config, es + more); t.latches.timedOut || t.latches.complete
  {
    ReachedInv(config, es);
    LateIdlePollDecides(Reached(config, es), more);
    RunConcat(Init(config), es, more);
  }

  // ---------------------------------------------------------------- two races

  function Wait(stage: FeatureStage): Event {
    WaitStep(stage, true, true)
  }

  lemma Extend(config: Config, es: seq<Event>, e: Event) returns (longer: seq<Event>)
    ensures longer == es + [e] && Reached(config, longer) == Next(Reached(config, es), e)
  {
    longer := es + [e];
    RunSnoc(Init(config), es, e);
  }

  lemma PollUpToStage(config: Config, es: seq<Event>) returns (longer: seq<Event>)
    requires var s := Reached(config, es); s.waiter.pc.ReadComplete? && !s.latches.complete && !s.latches.interrupted
    ensures var s := Reached(config, es); Reached(config, longer) == s.(waiter := s.waiter.(pc := ReadStage))
  {
    longer := Extend(config, es, Wait(FeatureStage.Done));
    longer := Extend(config, longer, Wait(FeatureStage.Done));
  }

  lemma IdlePoll(config: Config, es: seq<Event>) returns (longer: seq<Event>)
    requires var s := Reached(config, es); s.waiter.pc.ReadStage? && s.latches.failed
    ensures var s := Reached(config, es);
            var pc := if s.waiter.deadline.None? then Arm(FeatureStage.Done) else Compare(FeatureStage.Done);
            Reached(config, longer) == s.(waiter := s.waiter.(pc := pc))
  {
    longer := Extend(config, es, Wait(FeatureStage.Done));
    longer := Extend(config, longer, Wait(FeatureStage.Done));
  }

  /** A run that gets as far as the claim. */
  lemma ClaimIsReachable(config: Config) returns (es: seq<Event>)
    requires config.IsAutoCaptureMode()
    ensures var s := Reached(config, es); s.waiter.pc.Claim? && !s.latches.complete && s.latches.failed
  {
    es := Extend(config, [], TraceFinished(false, []));
    es := PollUpToStage(config, es);
    es := IdlePoll(config, es);
    es := Extend(config, es, Wait(FeatureStage.Done));
    assert Reached(config, es).waiter.deadline == Some(FAILURE_GRACE_MS);
    es := Extend(config, es, Tick(FAILURE_GRACE_MS));
    es := Extend(config, es, Wait(FeatureStage.Done));
    es := PollUpToStage(config, es);
    es := IdlePoll(config, es);
    es := Extend(config, es, Wait(FeatureStage.Done));
  }

  /** The claim does not look at the failure latch again: a fresh connection that becomes
      ready between the last poll and the claim is timed out all the same. */
  lemma ReadyConnectionCanBeTimedOut(config: Config, es: seq<Event>)
    requires config.IsAutoCaptureMode()
    requires Reached(config, es).waiter.pc.Claim? && !Reached(config, es).latches.complete
    ensures var s := Reached(config, es + [StatusChanged(DetailedStage.ReadyForCapture),
                                               Wait(FeatureStage.ReadyForCapture)]);
            s.latches.timedOut && !s.latches.failed
  {
    var e, e' := StatusChanged(DetailedStage.ReadyForCapture), Wait(FeatureStage.ReadyForCapture);
    ConfigKept(Init(config), es);
    RunSnoc(Init(config), es, e);
    RunSnoc(Init(config), es + [e], e');
    assert es + [e, e'] == es + [e] + [e'];
  }

  /** A success that lands between the loop condition and the stage of the same poll is
      lost if that stage is an error: the thread returns 1 and saves nothing. */
  lemma SuccessCanBeLost(config: Config, data: A.Bytes) returns (es: seq<Event>)
    requires config.IsAutoCaptureMode() && data != []
    ensures var s := Reached(config, es);
            s.latches.success && s.latches.traceData == data && s.saved == None && s.waiter.pc == Exited(StageError)
  {
    es := PollUpToStage(config, []);
    es := Extend(config, es, TraceFinished(true, data));
    es := Extend(config, es, Wait(FeatureStage.Disabled));
  }

  /** No failed trace result among the events. */
  ghost predicate NoFailure(es: seq<Event>) {
    forall i :: 0 <= i < |es| && es[i].TraceFinished? ==> es[i].ok
  }

  lemma {:induction false} ReadyStaysSafe(s: State, es: seq<Event>)
    requires !s.latches.failed && !s.latches.timedOut && !s.waiter.pc.Compare? && !s.waiter.pc.Claim? && NoFailure(es)
    ensures var t := Run(s, es);
            !t.latches.failed && !t.latches.timedOut && !t.waiter.pc.Compare? && !t.waiter.pc.Claim?
  {
    if es != [] {
      ReadyStaysSafe(s, es[..|es| - 1]);
    }
  }

  lemma ClaimTimesOut(s: State, stage: FeatureStage)
    requires s.waiter.pc.Claim? && !s.latches.complete
    ensures Next(s, Wait(stage)).latches.timedOut
  {
  }

  lemma LateCompareClaims(s: State, stage: FeatureStage)
    requires Inv(s) && s.waiter.pc.Compare?
    ensures var t := Next(Next(s, Tick(FAILURE_GRACE_MS)), Wait(stage)); t.waiter.pc.Claim? && t.latches == s.latches
  {
    assert s.waiter.deadline == Some(s.waiter.window[0].time + FAILURE_GRACE_MS) && s.waiter.window[0].time <= s.clock;
  }

  lemma LateReadyTimesOut(s: State) returns (es: seq<Event>)
    requires Inv(s) && !s.latches.complete && (s.waiter.pc.Compare? || s.waiter.pc.Claim?)
    ensures NoFailure(es) && Run(s, es).latches.timedOut
  {
    var stage, tick := FeatureStage.ReadyForCapture, Tick(FAILURE_GRACE_MS);
    es := if s.waiter.pc.Claim? then [] else [tick] + [Wait(stage)];
    if s.waiter.pc.Compare? {
      LateCompareClaims(s, stage);
      RunSnoc(s, [], tick);
      assert [] + [tick] == [tick];
      RunSnoc(s, [tick], Wait(stage));
    }
    RunSnoc(s, es, Wait(stage));
    ClaimTimesOut(Run(s, es), stage);
    es := es + [Wait(stage)];
  }

  /** A connection that becomes ready after all can still be timed out, no further failure
      being reported, exactly when the waiting thread has read the failure latch already
      and is about to compare the clock or to claim the timeout. */
  lemma ReadyIsTimedOutIff(s: State)
    requires Inv(s) && !s.latches.complete && !s.latches.timedOut
    ensures var t := Next(s, StatusChanged(DetailedStage.ReadyForCapture));
            (exists es :: NoFailure(es) && Run(t, es).latches.timedOut) <==> s.waiter.pc.Compare? || s.waiter.pc.Claim?
  {
    var e := StatusChanged(DetailedStage.ReadyForCapture);
    var t := Next(s, e);
    InvStep(s, e);
    if s.waiter.pc.Compare? || s.waiter.pc.Claim? {
      var es := LateReadyTimesOut(t);
      assert NoFailure(es) && Run(t, es).latches.timedOut;
    } else {
      forall es | NoFailure(es) ensures !Run(t, es).latches.timedOut {
        ReadyStaysSafe(t, es);
      }
    }
  }

  /** The success is seen at the next loop condition. */
  predicate PastStage(s: State) {
    s.latches.complete && !s.waiter.pc.ReadInterrupted? && !s.waiter.pc.ReadStage? && s.waiter.pc != Exited(StageError)
  }

  lemma {:induction false} SeenSuccessIsKept(s: State, es: seq<Event>)
    requires PastStage(s)
    ensures PastStage(Run(s, es))
  {
    if es != [] {
      SeenSuccessIsKept(s, es[..|es| - 1]);
    }
  }

  lemma StageErrorLoses(s: State) returns (es: seq<Event>)
    requires s.waiter.pc.ReadStage? || (s.waiter.pc.ReadInterrupted? && !s.latches.interrupted)
    ensures Run(s, es).waiter.pc == Exited(StageError)
  {
    var e := Wait(FeatureStage.Disabled);
    es := [e];
    RunSnoc(s, [], e);
    assert [] + [e] == es;
    if s.waiter.pc.ReadInterrupted? {
      RunSnoc(s, es, e);
      es := es + [e];
    }
  }

  lemma {:induction false} InterruptedIsSeen(s: State, es: seq<Event>)
    requires s.latches.complete && s.latches.interrupted && s.waiter.pc.ReadInterrupted?
    ensures var t := Run(s, es);
            t.latches.complete && t.latches.interrupted && (t.waiter.pc.ReadInterrupted? || PastStage(t))
  {
    if es != [] {
      InterruptedIsSeen(s, es[..|es| - 1]);
    }
  }

  /** A latched success can be lost to a stage error exactly while the waiting thread is
      between the first half of its loop condition and the stage of that poll, with no
      interrupt that the second half would still see. */
  lemma SuccessIsLostIff(s: State)
    requires Inv(s) && s.latches.success && !s.waiter.pc.Exited?
    ensures (exists es :: Run(s, es).waiter.pc == Exited(StageError)) <==>
            s.waiter.pc.ReadStage? || (s.waiter.pc.ReadInterrupted? && !s.latches.interrupted)
  {
    if s.waiter.pc.ReadStage? || (s.waiter.pc.ReadInterrupted? && !s.latches.interrupted) {
      var es := StageErrorLoses(s);
      assert Run(s, es).waiter.pc == Exited(StageError);
    } else {
      forall es ensures Run(s, es).waiter.pc != Exited(StageError) {
        if s.waiter.pc.ReadInterrupted? {
          InterruptedIsSeen(s, es);
        } else {
          SeenSuccessIsKept(s, es);
        }
      }
    }
  }

  // ---------------------------------------------------------------- the callbacks

  /** The part of the CLI object the callbacks and the signal handler write. */
  class CaptureCli {
    const config: Config
    var captureComplete: bool
    var interrupted: bool
    var captureSuccess: bool
    var captureFailed: bool
    var autoCaptureTimedOut: bool
    var traceData: A.Bytes

    ghost function Shared(): Latches
      reads this
    {
      Latches(captureComplete, interrupted, captureSuccess, captureFailed, autoCaptureTimedOut, traceData)
    }

    constructor (config: Config)
      ensures this.config == config && Shared() == Init(config).latches
    {
      this.config := config;
      captureComplete, interrupted, autoCaptureTimedOut := false, false, false;
      captureSuccess, captureFailed := false, false;
      traceData := [];
    }

    method TraceFinished(ok: bool, data: A.Bytes)
      modifies this
      ensures Shared() == OnTraceFinished(config, old(Shared()), ok, data)
      ensures old(autoCaptureTimedOut) || (!ok && old(captureSuccess)) ==> Shared() == old(Shared())
      ensures !old(autoCaptureTimedOut) && ok ==>
                && captureSuccess && captureComplete && captureFailed == old(captureFailed)
                && traceData == if data != [] then data else old(traceData)
      ensures !old(autoCaptureTimedOut) && !ok && !old(captureSuccess) ==>
                && captureFailed && !captureSuccess && traceData == old(traceData)
                && captureComplete == (old(captureComplete) || !config.IsAutoCaptureMode())
    {
      if autoCaptureTimedOut {
        return;
      }
      if ok {
        captureSuccess := true;
        if data != [] {
          traceData := data;
        }
        captureComplete := true;
        return;
      }
      if captureSuccess {
        return;
      }
      captureFailed := true;
      if !config.IsAutoCaptureMode() {
        captureSuccess := false;
        captureComplete := true;
      }
    }

    method StatusChanged(newStage: DetailedStage)
      modifies this`captureFailed
      ensures captureFailed == (old(captureFailed) && (captureComplete || !config.IsAutoCaptureMode()
                                                       || newStage != DetailedStage.ReadyForCapture))
      ensures Shared() == OnStatusChanged(config, old(Shared()), newStage)
    {
      if !captureComplete && config.IsAutoCaptureMode() && newStage.ReadyForCapture? {
        captureFailed := false;
      }
    }

    /** The two stores of the signal handler, in their order. */
    method Interrupt()
      modifies this
      ensures Shared() == old(Shared()).(interrupted := true, complete := true)
    {
      interrupted := true;
      captureComplete := true;
    }

    /** The decision under the mutex at the end of the grace period. */
    method ClaimTimeout() returns (timedOut: bool)
      modifies this
      ensures timedOut == !old(captureComplete)
      ensures Shared() == old(Shared()).(timedOut := old(autoCaptureTimedOut) || timedOut)
    {
      timedOut := false;
      if !captureComplete {
        autoCaptureTimedOut := true;
        timedOut := true;
      }
    }
  }
}
