/** The polling loop and the Pause, Resume and SyncNow calls that run beside it, as a
    state machine over every interleaving of their lock-held and channel steps.  */
module RunLoop {
  import opened StatusBoard

  /** The reusable timer: stopped, counting down (a zero delay or an interval), or fired
      with its value waiting in the channel. */
  datatype Timer = Stopped | Running(zero: bool) | Fired

  /** Where the loop is. Both gates read the flag and publish the paused phase in two
      separate steps, between which a Resume may come. */
  datatype Pc =
    | AtSelect
    | StoppingTimer
    | DrainingTimer
    | AtGate
    | PublishingPaused
    | InCycle
    | RecordingCycle(result: CycleResult)
    | AtSecondGate
    | PollingRequests
    | ArmingTimer(zero: bool)
    | Exited

  /** `pausing` and `resuming` count calls that have changed the flag and not yet sent
      their token; the last four fields are the history the bounds speak of. */
  datatype State = State(
    pc: Pc,
    timer: Timer,
    paused: bool,
    status: Status,
    syncNow: bool,
    pauseCh: bool,
    pausing: nat,
    resuming: nat,
    cancelled: bool,
    batchSawPause: bool,
    cycles: nat,
    intervalArms: nat,
    syncAccepted: nat,
    pauseAccepted: nat)

  const INITIAL_STATE: State :=
    State(AtSelect, Running(true), false, INITIAL, false, false, 0, 0, false, false, 0, 0, 0, 0)

  datatype Step =
    // the loop
    | TakeTimer | TakeSyncNow | TakePause | TakeCancel
    | StopTimer | DrainTimer | ReadGate | PublishPaused
    | CycleShows(phase: Phase) | BatchReadsPause | CycleReturns(result: CycleResult)
    | RecordResult | ReadSecondGate | PollSyncNow | ArmTimer
    // time
    | TimerFires
    // callers
    | PauseBegins | PauseSends | ResumeBegins | ResumeSends | SyncNowCalled | Cancel

  predicate Enabled(s: State, step: Step) {
    match step
    case TakeTimer => s.pc.AtSelect? && s.timer.Fired?
    case TakeSyncNow => s.pc.AtSelect? && s.syncNow
    case TakePause => s.pc.AtSelect? && s.pauseCh
    case TakeCancel => s.pc.AtSelect? && s.cancelled
    case StopTimer => s.pc.StoppingTimer?
    case DrainTimer => s.pc.DrainingTimer?
    case ReadGate => s.pc.AtGate?
    case PublishPaused => s.pc.PublishingPaused?
    case CycleShows(phase) => s.pc.InCycle? && (phase.Scanning? || phase.Downloading?)
    case BatchReadsPause => s.pc.InCycle? && s.paused
    case CycleReturns(result) => s.pc.InCycle? && (result.BatchPaused? ==> s.batchSawPause)
    case RecordResult => s.pc.RecordingCycle?
    case ReadSecondGate => s.pc.AtSecondGate?
    case PollSyncNow => s.pc.PollingRequests?
    case ArmTimer => s.pc.ArmingTimer?
    case TimerFires => s.timer.Running?
    case PauseBegins => true
    case PauseSends => s.pausing > 0
    case ResumeBegins => true
    case ResumeSends => s.resuming > 0
    case SyncNowCalled => true
    case Cancel => true
  }

  /** A send on a full channel is dropped. */
  function SendSyncNow(s: State): State {
    if s.syncNow then s else s.(syncNow := true, syncAccepted := s.syncAccepted + 1)
  }

  function SendPause(s: State): State {
    if s.pauseCh then s else s.(pauseCh := true, pauseAccepted := s.pauseAccepted + 1)
  }

  function Do(s: State, step: Step): State
    requires Enabled(s, step)
  {
    match step
    case TakeTimer => s.(timer := Stopped, pc := StoppingTimer)
    case TakeSyncNow => s.(syncNow := false, pc := StoppingTimer)
    case TakePause => s.(pauseCh := false, pc := StoppingTimer)
    case TakeCancel => s.(pc := Exited)
    case StopTimer =>
      if s.timer.Running? then s.(timer := Stopped, pc := AtGate) else s.(pc := DrainingTimer)
    case DrainTimer => s.(timer := if s.timer.Fired? then Stopped else s.timer, pc := AtGate)
    case ReadGate =>
      if s.paused then s.(pc := PublishingPaused)
      else s.(pc := InCycle, batchSawPause := false, cycles := s.cycles + 1)
    case PublishPaused => s.(status := MarkPaused(s.status), pc := AtSelect)
    case CycleShows(phase) => s.(status := s.status.(phase := phase))
    case BatchReadsPause => s.(batchSawPause := true)
    case CycleReturns(result) => s.(pc := RecordingCycle(result))
    case RecordResult => s.(status := RecordCycle(s.status, s.pc.result, s.cancelled), pc := AtSecondGate)
    case ReadSecondGate => s.(pc := if s.paused then PublishingPaused else PollingRequests)
    case PollSyncNow => s.(syncNow := false, pc := ArmingTimer(s.syncNow))
    case ArmTimer =>
      s.(timer := Running(s.pc.zero), pc := AtSelect,
         intervalArms := s.intervalArms + if s.pc.zero then 0 else 1)
    case TimerFires => s.(timer := Fired)
    case PauseBegins =>
      if s.paused then s else s.(paused := true, status := s.status.(paused := true), pausing := s.pausing + 1)
    case PauseSends => SendPause(s.(pausing := s.pausing - 1))
    case ResumeBegins =>
      if !s.paused then s else s.(paused := false, status := s.status.(paused := false), resuming := s.resuming + 1)
    case ResumeSends => SendSyncNow(s.(resuming := s.resuming - 1))
    case SyncNowCalled => SendSyncNow(s)
    case Cancel => s.(cancelled := true)
  }

  /** Step k leads from state k to the next. */
  predicate Goes(states: seq<State>, steps: seq<Step>, k: nat) {
    k < |steps| && k + 1 < |states| && Enabled(states[k], steps[k]) && states[k + 1] == Do(states[k], steps[k])
  }

  /** A run: each state follows from the one before by the step named beside it. */
  ghost predicate IsRun(states: seq<State>, steps: seq<Step>) {
    |states| == |steps| + 1 && forall k :: 0 <= k < |steps| ==> Goes(states, steps, k)
  }

  // ---- The wake-up protocol ----------------------------------------------------

  /** A Resume has cleared the flag and its request has not been served yet. */
  predicate ResumePending(s: State) { s.syncNow || s.resuming > 0 }

  /** A Pause has set the flag and its token has not been served yet. */
  predicate PausePending(s: State) { s.pauseCh || s.pausing > 0 }

  /** Something will end the wait. */
  predicate WillWake(s: State) { !s.timer.Stopped? || s.pauseCh || ResumePending(s) }

  /** The wait ends at once rather than after an interval. */
  predicate WakesNow(s: State) {
    s.timer == Running(true) || s.timer.Fired? || ResumePending(s)
  }

  predicate Settled(phase: Phase) { phase.Idle? || phase.Error? || phase.Paused? }

  /** Past the timer's stop and before it is armed again. */
  predicate TimerIdle(pc: Pc) {
    !pc.AtSelect? && !pc.StoppingTimer? && !pc.DrainingTimer? && !pc.Exited?
  }

  /** The reused timer is never armed twice. */
  predicate TimerInv(s: State) {
    && (TimerIdle(s.pc) ==> s.timer.Stopped?)
    && (s.pc.DrainingTimer? ==> !s.timer.Running?)
  }

  ghost predicate Inv(s: State) {
    && s.status.paused == s.paused
    && TimerInv(s)
    // an active job cannot be asleep
    && (s.pc.AtSelect? && !s.paused ==> WillWake(s))
    && (s.pc.PublishingPaused? && !s.paused ==> ResumePending(s))
    // a batch that stopped for a pause
    && ((s.pc.InCycle? || s.pc == RecordingCycle(BatchPaused)) && s.batchSawPause && !s.paused ==> ResumePending(s))
    && (s.pc == RecordingCycle(BatchPaused) ==> s.batchSawPause)
    // the published phase
    && (s.pc.AtSecondGate? && !s.cancelled && !Settled(s.status.phase) && !s.paused ==> ResumePending(s))
    && (s.pc.PollingRequests? && !s.cancelled && !Settled(s.status.phase) ==> ResumePending(s))
    && (s.pc.ArmingTimer? && !s.cancelled && !Settled(s.status.phase) && !s.pc.zero ==> ResumePending(s))
    && (s.pc.AtSelect? && !s.cancelled && !Settled(s.status.phase) ==> WakesNow(s))
    && ((s.pc.PollingRequests? || s.pc.ArmingTimer?) && s.paused ==> PausePending(s))
    && (s.pc.AtSelect? && s.paused && !s.status.phase.Paused? ==> PausePending(s))
  }

  predicate IsWaiting(step: Step) {
    step.TakeTimer? || step.TakeSyncNow? || step.TakePause? || step.TakeCancel? ||
    step.StopTimer? || step.DrainTimer? || step.ReadGate? || step.PublishPaused?
  }

  predicate IsCycle(step: Step) {
    step.CycleShows? || step.BatchReadsPause? || step.CycleReturns? || step.RecordResult? ||
    step.ReadSecondGate? || step.PollSyncNow? || step.ArmTimer?
  }

  lemma WaitingKeepsInv(s: State, step: Step)
    requires Inv(s) && Enabled(s, step) && IsWaiting(step)
    ensures Inv(Do(s, step))
  {
  }

  lemma CycleKeepsInv(s: State, step: Step)
    requires Inv(s) && Enabled(s, step) && IsCycle(step)
    ensures Inv(Do(s, step))
  {
  }

  lemma PauseKeepsInv(s: State, step: Step)
    requires Inv(s) && Enabled(s, step) && (step.PauseBegins? || step.PauseSends?)
    ensures Inv(Do(s, step))
  {
  }

  lemma ResumeKeepsInv(s: State, step: Step)
    requires Inv(s) && Enabled(s, step) && (step.ResumeBegins? || step.ResumeSends? || step.SyncNowCalled?)
    ensures Inv(Do(s, step))
  {
  }

  lemma WorldKeepsInv(s: State, step: Step)
    requires Inv(s) && Enabled(s, step) && (step.TimerFires? || step.Cancel?)
    ensures Inv(Do(s, step))
  {
  }

  lemma StepKeepsInv(s: State, step: Step)
    requires Inv(s) && Enabled(s, step)
    ensures Inv(Do(s, step))
  {
    if IsWaiting(step) {
      WaitingKeepsInv(s, step);
    } else if IsCycle(step) {
      CycleKeepsInv(s, step);
    } else if step.PauseBegins? || step.PauseSends? {
      PauseKeepsInv(s, step);
    } else if step.TimerFires? || step.Cancel? {
      WorldKeepsInv(s, step);
    } else {
      ResumeKeepsInv(s, step);
    }
  }

  lemma {:induction false} RunKeepsInv(states: seq<State>, steps: seq<Step>, k: nat)
    requires IsRun(states, steps) && Inv(states[0]) && k < |states|
    ensures Inv(states[k])
  {
    if k > 0 {
      RunKeepsInv(states, steps, k - 1);
      assert Goes(states, steps, k - 1);
      StepKeepsInv(states[k - 1], steps[k - 1]);
    }
  }

  /** Whenever the loop of a live job waits: an active job has something that will wake
      it; a job that does not show a settled phase is about to be woken at once; and a
      paused job that does not show it yet still has its token coming. */
  lemma WaitingJobIsWoken(states: seq<State>, steps: seq<Step>, k: nat)
    requires IsRun(states, steps) && states[0] == INITIAL_STATE && k < |states|
    requires states[k].pc.AtSelect? && !states[k].cancelled
    ensures !states[k].paused ==> WillWake(states[k])
    ensures !Settled(states[k].status.phase) ==> WakesNow(states[k])
    ensures states[k].paused && !PausePending(states[k]) ==> states[k].status.phase.Paused?
  {
    RunKeepsInv(states, steps, k);
  }

  // ---- No active job waits for ever ----------------------------------------------

  /** The steps that must happen sooner or later: the loop's own, the timer's, and the
      sends of calls that are half done. How often a cycle shows progress is its affair. */
  predicate Helpful(step: Step) {
    !step.CycleShows? && !step.BatchReadsPause? && !step.TakeCancel? &&
    !step.PauseBegins? && !step.ResumeBegins? && !step.SyncNowCalled? && !step.Cancel?
  }

  function PcRank(pc: Pc): nat {
    match pc
    case AtGate => 1
    case DrainingTimer => 2
    case StoppingTimer => 3
    case AtSelect => 4
    case PublishingPaused => 5
    case ArmingTimer(_) => 5
    case PollingRequests => 6
    case AtSecondGate => 7
    case RecordingCycle(_) => 8
    case InCycle => 9
    case Exited => 0
  }

  /** How many helpful steps an active job can take before its next cycle starts. */
  function Distance(s: State): nat {
    2 * PcRank(s.pc) + s.pausing + s.resuming + if s.timer.Running? then 1 else 0
  }

  function CountHelpful(steps: seq<Step>): nat
    decreases |steps|
  {
    if steps == [] then 0
    else CountHelpful(steps[..|steps| - 1]) + if Helpful(steps[|steps| - 1]) then 1 else 0
  }

  lemma SomethingHelpfulIsEnabled(s: State)
    requires Inv(s) && !s.paused && !s.cancelled && !s.pc.Exited?
    ensures exists step :: Helpful(step) && Enabled(s, step)
  {
    var step := match s.pc
      case AtGate => ReadGate
      case DrainingTimer => DrainTimer
      case StoppingTimer => StopTimer
      case AtSelect =>
        if s.timer.Fired? then TakeTimer else if s.timer.Running? then TimerFires
        else if s.syncNow then TakeSyncNow else if s.pauseCh then TakePause else ResumeSends
      case PublishingPaused => PublishPaused
      case ArmingTimer(_) => ArmTimer
      case PollingRequests => PollSyncNow
      case AtSecondGate => ReadSecondGate
      case RecordingCycle(_) => RecordResult
      case InCycle => CycleReturns(Succeeded)
      case Exited => Cancel;
    assert Helpful(step) && Enabled(s, step);
  }

  lemma WaitingStepsApproach(s: State, step: Step)
    requires TimerInv(s) && Enabled(s, step) && IsWaiting(step)
    requires !s.paused && !s.cancelled && Do(s, step).cycles == s.cycles
    ensures !Do(s, step).pc.Exited?
    ensures Distance(Do(s, step)) + (if Helpful(step) then 1 else 0) <= Distance(s)
  {
  }

  lemma HelpfulStepsApproach(s: State, step: Step)
    requires TimerInv(s) && Enabled(s, step)
    requires !s.paused && !s.cancelled && !s.pc.Exited?
    requires !Do(s, step).paused && !Do(s, step).cancelled && Do(s, step).cycles == s.cycles
    ensures !Do(s, step).pc.Exited?
    ensures Distance(Do(s, step)) + (if Helpful(step) then 1 else 0) <= Distance(s)
  {
    if IsWaiting(step) {
      WaitingStepsApproach(s, step);
    } else {
      OtherStepsApproach(s, step);
    }
  }

  lemma OtherStepsApproach(s: State, step: Step)
    requires TimerInv(s) && Enabled(s, step) && !IsWaiting(step)
    requires !s.paused && !s.cancelled && !s.pc.Exited?
    requires !Do(s, step).paused && !Do(s, step).cancelled && Do(s, step).cycles == s.cycles
    ensures !Do(s, step).pc.Exited?
    ensures Distance(Do(s, step)) + (if Helpful(step) then 1 else 0) <= Distance(s)
  {
  }

  /** A job that stays active and live starts a cycle: a stretch without one has room
      for only so many helpful steps, and at its end another one is possible. No order
      of Pause, Resume and SyncNow calls leaves it asleep. */
  lemma {:induction false} ActiveJobStartsCycle(states: seq<State>, steps: seq<Step>, k: nat)
    requires IsRun(states, steps) && Inv(states[0]) && !states[0].pc.Exited? && k <= |steps|
    requires forall j :: 0 <= j <= k ==> !states[j].paused && !states[j].cancelled
    requires forall j :: 0 <= j <= k ==> states[j].cycles == states[0].cycles
    ensures CountHelpful(steps[..k]) + Distance(states[k]) <= Distance(states[0])
    ensures exists step :: Helpful(step) && Enabled(states[k], step)
    ensures Inv(states[k]) && !states[k].pc.Exited?
  {
    if k > 0 {
      ActiveJobStartsCycle(states, steps, k - 1);
      CountHelpfulStep(steps, k - 1);
      assert Goes(states, steps, k - 1);
      StepKeepsInv(states[k - 1], steps[k - 1]);
      assert states[k].cycles == states[k - 1].cycles;
      HelpfulStepsApproach(states[k - 1], steps[k - 1]);
    }
    SomethingHelpfulIsEnabled(states[k]);
  }

  lemma CountHelpfulStep(steps: seq<Step>, k: nat)
    requires k < |steps|
    ensures CountHelpful(steps[..k + 1]) == CountHelpful(steps[..k]) + if Helpful(steps[k]) then 1 else 0
  {
    assert steps[..k + 1][..k] == steps[..k];
  }

  // ---- How many cycles run -------------------------------------------------------

  /** Wake-ups that exist and have not yet led to a gate: a timer that is armed or has
      fired, the tokens, and the one the loop has taken. */
  function Credits(s: State): nat {
    (if s.timer.Stopped? then 0 else 1) + (if s.syncNow then 1 else 0) + (if s.pauseCh then 1 else 0)
    + if s.pc.StoppingTimer? || s.pc.DrainingTimer? || s.pc.AtGate? || s.pc == ArmingTimer(true) then 1 else 0
  }

  /** Cycles started, and wake-ups that may still start one, beyond the tokens accepted and
      the intervals armed. */
  function Debt(s: State): int {
    s.cycles + Credits(s) - s.intervalArms - s.syncAccepted - s.pauseAccepted
  }

  lemma WaitingAddsNoDebt(s: State, step: Step)
    requires TimerInv(s) && Enabled(s, step) && IsWaiting(step)
    ensures Debt(Do(s, step)) <= Debt(s)
  {
  }

  lemma CycleAddsNoDebt(s: State, step: Step)
    requires TimerInv(s) && Enabled(s, step) && IsCycle(step)
    ensures Debt(Do(s, step)) <= Debt(s)
  {
  }

  lemma CallerAddsNoDebt(s: State, step: Step)
    requires Enabled(s, step) && !IsWaiting(step) && !IsCycle(step)
    ensures Debt(Do(s, step)) <= Debt(s)
  {
  }

  lemma DebtFalls(s: State, step: Step)
    requires TimerInv(s) && Enabled(s, step)
    ensures Debt(Do(s, step)) <= Debt(s)
  {
    if IsWaiting(step) {
      WaitingAddsNoDebt(s, step);
    } else if IsCycle(step) {
      CycleAddsNoDebt(s, step);
    } else {
      CallerAddsNoDebt(s, step);
    }
  }

  /** Every cycle is paid for by the startup timer, an elapsed interval, or a token a
      channel accepted; wake-ups still outstanding are counted too. */
  lemma {:induction false} CyclesArePaidFor(states: seq<State>, steps: seq<Step>, k: nat)
    requires IsRun(states, steps) && states[0] == INITIAL_STATE && k < |states|
    ensures var s := states[k];
      s.cycles <= s.cycles + Credits(s) <= 1 + s.intervalArms + s.syncAccepted + s.pauseAccepted
  {
    if k > 0 {
      CyclesArePaidFor(states, steps, k - 1);
      RunKeepsInv(states, steps, k - 1);
      assert Goes(states, steps, k - 1);
      DebtFalls(states[k - 1], steps[k - 1]);
    }
  }

  /** Until the loop polls the requests again, any number of SyncNow and Resume calls
      leave one token at most, so they add one cycle at most. */
  lemma {:induction false} RequestsDuringCycleCoalesce(states: seq<State>, steps: seq<Step>, k: nat)
    requires IsRun(states, steps) && k < |states|
    requires forall j :: 0 <= j <= k ==> BeforePolling(states[j].pc)
    ensures states[k].syncAccepted <= states[0].syncAccepted + 1
    ensures states[k].syncAccepted == states[0].syncAccepted + 1 ==> states[k].syncNow && !states[0].syncNow
    ensures states[0].syncNow ==> states[k].syncNow
  {
    if k > 0 {
      RequestsDuringCycleCoalesce(states, steps, k - 1);
      assert Goes(states, steps, k - 1);
      RequestStep(states[k - 1], steps[k - 1]);
    }
  }

  predicate BeforePolling(pc: Pc) { pc.InCycle? || pc.RecordingCycle? || pc.AtSecondGate? }

  lemma RequestStep(s: State, step: Step)
    requires Enabled(s, step) && BeforePolling(s.pc)
    ensures s.syncNow ==> Do(s, step).syncNow
    ensures Do(s, step).syncAccepted == s.syncAccepted + if !s.syncNow && Do(s, step).syncNow then 1 else 0
  {
  }

  /** A paused job stays paused and starts no cycle until Resume is called, whatever
      tokens and timers go off. A cycle that is running may finish. */
  lemma {:induction false} PausedJobStaysQuiet(states: seq<State>, steps: seq<Step>, k: nat)
    requires IsRun(states, steps) && states[0].paused && k < |states|
    requires forall j :: 0 <= j < |steps| ==> !steps[j].ResumeBegins?
    ensures states[k].paused && states[k].cycles == states[0].cycles
  {
    if k > 0 {
      PausedJobStaysQuiet(states, steps, k - 1);
      assert Goes(states, steps, k - 1);
      PausedStep(states[k - 1], steps[k - 1]);
    }
  }

  lemma PausedStep(s: State, step: Step)
    requires Enabled(s, step) && s.paused && !step.ResumeBegins?
    ensures Do(s, step).paused && Do(s, step).cycles == s.cycles
  {
  }

  lemma RunWithoutFirst(states: seq<State>, steps: seq<Step>)
    requires IsRun(states, steps) && steps != []
    ensures IsRun(states[1..], steps[1..])
  {
    forall k | 0 <= k < |steps[1..]| ensures Goes(states[1..], steps[1..], k) {
      assert Goes(states, steps, k + 1);
    }
  }

  /** A restored job is paused before its loop starts, so it runs no cycle at all. */
  lemma RestoredPausedJobRunsNothing(states: seq<State>, steps: seq<Step>, k: nat)
    requires IsRun(states, steps) && states[0] == INITIAL_STATE && k < |states|
    requires steps != [] && steps[0] == PauseBegins
    requires forall j :: 0 <= j < |steps| ==> !steps[j].ResumeBegins?
    ensures states[k].cycles == 0
  {
    if k > 0 {
      assert Goes(states, steps, 0);
      RunWithoutFirst(states, steps);
      PausedJobStaysQuiet(states[1..], steps[1..], k - 1);
    }
  }
}
