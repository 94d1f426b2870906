/** What the loop does with a request, with a pause, and with the result of a cycle: each
    followed from the step where it is met to the next wait.  */
module RunLoopRequests {
  import opened StatusBoard
  import opened RunLoop

  /** From the gate that starts a cycle to the poll after it. */
  predicate InSpan(pc: Pc) { pc.InCycle? || pc.RecordingCycle? || pc.AtSecondGate? || pc.PollingRequests? }

  /** State k is the first one from j on in which the loop waits. */
  ghost predicate NextWait(states: seq<State>, j: nat, k: nat) {
    j <= k < |states| && states[k].pc.AtSelect? && forall m :: j <= m < k ==> !states[m].pc.AtSelect?
  }

  lemma TimerIsSound(states: seq<State>, steps: seq<Step>, k: nat)
    requires IsRun(states, steps) && states[0] == INITIAL_STATE && k < |states|
    ensures TimerInv(states[k])
  {
    RunKeepsInv(states, steps, k);
  }

  // ---- A request made during a cycle --------------------------------------------------------

  /** On the way to the next wait a request is in its channel, about to be sent, or has been
      polled and makes the timer fire at once. */
  predicate OnItsWay(s: State) {
    (InSpan(s.pc) || s.pc.ArmingTimer? || s.pc.PublishingPaused?)
    && (s.syncNow || s.resuming > 0 || s.pc == ArmingTimer(true))
  }

  lemma StepCarriesRequest(s: State, step: Step)
    requires Enabled(s, step) && OnItsWay(s)
    ensures var s' := Do(s, step);
      if s'.pc.AtSelect? then s'.syncNow || s'.resuming > 0 || s'.timer == Running(true) else OnItsWay(s')
  {
  }

  lemma {:induction false} RequestIsCarried(states: seq<State>, steps: seq<Step>, j: nat, k: nat)
    requires IsRun(states, steps) && j <= k < |states| && OnItsWay(states[j])
    requires forall m :: j <= m <= k ==> !states[m].pc.AtSelect?
    ensures OnItsWay(states[k])
    decreases k - j
  {
    if j < k {
      RequestIsCarried(states, steps, j, k - 1);
      assert Goes(states, steps, k - 1);
      StepCarriesRequest(states[k - 1], steps[k - 1]);
    }
  }

  /** A request that is there, or a Resume that is about to make one, at any moment of a
      cycle, ends the next wait at once, whatever phase is shown and whether or not a pause
      comes in between. */
  lemma RequestEndsTheWaitAtOnce(states: seq<State>, steps: seq<Step>, j: nat, k: nat)
    requires IsRun(states, steps) && NextWait(states, j, k) && InSpan(states[j].pc)
    requires states[j].syncNow || states[j].resuming > 0
    ensures states[k].syncNow || states[k].resuming > 0 || states[k].timer == Running(true)
  {
    RequestIsCarried(states, steps, j, k - 1);
    assert Goes(states, steps, k - 1);
    StepCarriesRequest(states[k - 1], steps[k - 1]);
  }

  /** Between the request and the cycle it leads to. */
  predicate Serving(s: State) {
    (InSpan(s.pc) && s.syncNow) || s.pc == ArmingTimer(true)
    || s.pc.AtSelect? || s.pc.StoppingTimer? || s.pc.DrainingTimer? || s.pc.AtGate?
  }

  lemma StepServes(s: State, step: Step)
    requires Enabled(s, step) && Serving(s) && !s.paused && !s.cancelled
    ensures var s' := Do(s, step);
      s'.cycles == s.cycles ==> Serving(s') && s'.intervalArms == s.intervalArms
  {
  }

  lemma {:induction false} NoIntervalBefore(states: seq<State>, steps: seq<Step>, j: nat, k: nat)
    requires IsRun(states, steps) && j <= k < |states| && Serving(states[j])
    requires forall m :: j <= m <= k ==>
      !states[m].paused && !states[m].cancelled && states[m].cycles == states[j].cycles
    ensures Serving(states[k]) && states[k].intervalArms == states[j].intervalArms
    decreases k - j
  {
    if j < k {
      NoIntervalBefore(states, steps, j, k - 1);
      assert Goes(states, steps, k - 1);
      StepServes(states[k - 1], steps[k - 1]);
    }
  }

  /** A request made during a cycle of a job that stays active leads to a cycle: until that
      starts no interval is armed, and only so many helpful steps fit before it, another of
      which is always possible. */
  lemma RequestLeadsToCycle(states: seq<State>, steps: seq<Step>, j: nat, k: nat)
    requires IsRun(states, steps) && states[0] == INITIAL_STATE && j <= k < |states|
    requires InSpan(states[j].pc) && states[j].syncNow
    requires forall m :: j <= m <= k ==>
      !states[m].paused && !states[m].cancelled && states[m].cycles == states[j].cycles
    ensures states[k].intervalArms == states[j].intervalArms
    ensures CountHelpful(steps[j..k]) + Distance(states[k]) <= Distance(states[j])
    ensures exists step :: Helpful(step) && Enabled(states[k], step)
  {
    NoIntervalBefore(states, steps, j, k);
    RunKeepsInv(states, steps, j);
    var later, after := states[j..], steps[j..];
    forall m | 0 <= m < |after| ensures Goes(later, after, m) {
      assert Goes(states, steps, j + m);
    }
    assert forall m :: 0 <= m <= k - j ==> later[m] == states[j + m];
    ActiveJobStartsCycle(later, after, k - j);
    assert after[..k - j] == steps[j..k];
  }

  lemma {:induction false} DebtFallsOver(states: seq<State>, steps: seq<Step>, j: nat, k: nat)
    requires IsRun(states, steps) && states[0] == INITIAL_STATE && j <= k < |states|
    ensures Debt(states[k]) <= Debt(states[j])
    decreases k - j
  {
    if j < k {
      DebtFallsOver(states, steps, j, k - 1);
      TimerIsSound(states, steps, k - 1);
      assert Goes(states, steps, k - 1);
      DebtFalls(states[k - 1], steps[k - 1]);
    }
  }

  /** And to one only: as long as no further token is accepted, the cycles beyond it are
      those of elapsed intervals. */
  lemma RequestLeadsToOneCycle(states: seq<State>, steps: seq<Step>, j: nat, k: nat)
    requires IsRun(states, steps) && states[0] == INITIAL_STATE && j <= k < |states|
    requires InSpan(states[j].pc) && !states[j].pauseCh
    requires states[k].syncAccepted == states[j].syncAccepted && states[k].pauseAccepted == states[j].pauseAccepted
    ensures states[k].cycles <=
      states[j].cycles + (if states[j].syncNow then 1 else 0) + (states[k].intervalArms - states[j].intervalArms)
  {
    DebtFallsOver(states, steps, j, k);
    TimerIsSound(states, steps, j);
  }

  // ---- How long the loop waits ----------------------------------------------------------------

  lemma {:induction false} ArmingIsAsPolled(states: seq<State>, steps: seq<Step>, n: nat, k: nat)
    requires IsRun(states, steps) && n < k < |states| && steps[n] == PollSyncNow
    requires forall m :: n < m <= k ==> !states[m].pc.AtSelect?
    ensures states[k].pc == ArmingTimer(states[n].syncNow)
    decreases k
  {
    assert Goes(states, steps, k - 1);
    if n < k - 1 {
      ArmingIsAsPolled(states, steps, n, k - 1);
    }
  }

  /** After a cycle the loop waits for no time when a request was there at the poll, and a
      full interval when none was. */
  lemma WaitIsAsPolled(states: seq<State>, steps: seq<Step>, n: nat, k: nat)
    requires IsRun(states, steps) && n < |steps| && steps[n] == PollSyncNow && NextWait(states, n + 1, k)
    ensures states[k].timer == Running(states[n].syncNow)
  {
    assert Goes(states, steps, n);
    ArmingIsAsPolled(states, steps, n, k - 1);
    assert Goes(states, steps, k - 1);
  }

  // ---- A pause met at a gate --------------------------------------------------------------------

  lemma {:induction false} GateHolds(states: seq<State>, steps: seq<Step>, n: nat, k: nat)
    requires IsRun(states, steps) && states[0] == INITIAL_STATE && n < k < |states|
    requires (steps[n] == ReadGate || steps[n] == ReadSecondGate) && states[n].paused
    requires forall m :: n < m <= k ==> !states[m].pc.AtSelect?
    ensures states[k].pc == PublishingPaused && states[k].timer == Stopped
    ensures states[k].cycles == states[n].cycles && states[k].intervalArms == states[n].intervalArms
    decreases k
  {
    TimerIsSound(states, steps, k - 1);
    assert Goes(states, steps, k - 1);
    if n < k - 1 {
      GateHolds(states, steps, n, k - 1);
    }
  }

  /** A pause that is met at either gate takes effect at once: the next wait shows it, no
      timer is armed for it, and no cycle is started or scheduled. */
  lemma PauseTakesEffectAtGate(states: seq<State>, steps: seq<Step>, n: nat, k: nat)
    requires IsRun(states, steps) && states[0] == INITIAL_STATE && n < |steps| && NextWait(states, n + 1, k)
    requires (steps[n] == ReadGate || steps[n] == ReadSecondGate) && states[n].paused
    ensures states[k].status.phase == Phase.Paused && states[k].timer == Stopped
    ensures states[k].cycles == states[n].cycles && states[k].intervalArms == states[n].intervalArms
  {
    assert Goes(states, steps, n);
    GateHolds(states, steps, n, k - 1);
    assert Goes(states, steps, k - 1);
  }

  // ---- What is shown of a result ----------------------------------------------------------------

  predicate InRun(pc: Pc) { pc.InCycle? || pc.RecordingCycle? }

  lemma StepKeepsError(s: State, step: Step)
    requires Enabled(s, step) && !step.RecordResult?
    ensures Do(s, step).status.hasError == s.status.hasError
  {
    if IsCycle(step) {
      CycleKeepsError(s, step);
    }
  }

  lemma CycleKeepsError(s: State, step: Step)
    requires Enabled(s, step) && IsCycle(step) && !step.RecordResult?
    ensures Do(s, step).status.hasError == s.status.hasError
  {
  }

  lemma StepKeepsPhase(s: State, step: Step)
    requires Enabled(s, step) && !step.RecordResult?
    ensures InRun(s.pc) ==> InRun(Do(s, step).pc)
    ensures !InRun(Do(s, step).pc) && !step.PublishPaused? ==> Do(s, step).status.phase == s.status.phase
  {
  }

  lemma {:induction false} ResultStays(states: seq<State>, steps: seq<Step>, n: nat, k: nat)
    requires IsRun(states, steps) && n < k < |states| && steps[n] == RecordResult
    requires forall m :: n < m < k ==> steps[m] != RecordResult
    ensures states[k].status.hasError == states[n + 1].status.hasError
    ensures (forall m :: n < m < k ==> steps[m] != PublishPaused) ==>
      InRun(states[k].pc) || states[k].status.phase == states[n + 1].status.phase
    decreases k
  {
    if n < k - 1 {
      ResultStays(states, steps, n, k - 1);
      assert Goes(states, steps, k - 1);
      StepKeepsError(states[k - 1], steps[k - 1]);
      StepKeepsPhase(states[k - 1], steps[k - 1]);
    }
  }

  /** Whenever a job waits, what it shows is its last result: no error after a success, the
      error after a failure, and, unless a pause was published since, an idle or a failed
      phase accordingly. A batch that stopped for a pause and a cycle that was interrupted
      by the shutdown leave what was shown before. */
  lemma LastResultIsShown(states: seq<State>, steps: seq<Step>, n: nat, k: nat)
    requires IsRun(states, steps) && n < k < |states| && steps[n] == RecordResult && states[k].pc.AtSelect?
    requires forall m :: n < m < k ==> steps[m] != RecordResult
    ensures states[n].pc.RecordingCycle?
    ensures var result, quiet := states[n].pc.result, forall m :: n < m < k ==> steps[m] != PublishPaused;
      && (result == Succeeded ==> !states[k].status.hasError && (quiet ==> states[k].status.phase == Idle))
      && (result == CycleFailed && !states[n].cancelled ==>
            states[k].status.hasError && (quiet ==> states[k].status.phase == Error))
      && (result == BatchPaused || (result == CycleFailed && states[n].cancelled) ==>
            && states[k].status.hasError == states[n].status.hasError
            && (quiet ==> states[k].status.phase == states[n].status.phase))
  {
    assert Goes(states, steps, n);
    ResultStays(states, steps, n, k);
  }

  // ---- The shutdown -------------------------------------------------------------------------------

  /** A cancelled loop that waits can leave at once. Leaving needs a cancellation and a wait,
      so a running cycle is finished first; and after it no cycle is started any more. */
  lemma {:induction false} CancelledLoopLeaves(states: seq<State>, steps: seq<Step>, j: nat, k: nat)
    requires IsRun(states, steps) && j <= k < |states|
    ensures states[j].pc.AtSelect? && states[j].cancelled ==> Enabled(states[j], TakeCancel)
    ensures j < |steps| && steps[j] == TakeCancel ==>
      states[j].pc.AtSelect? && states[j].cancelled && states[j + 1].pc == Exited
    ensures states[j].pc == Exited ==> states[k].pc == Exited && states[k].cycles == states[j].cycles
    decreases k
  {
    if j < |steps| {
      assert Goes(states, steps, j);
    }
    if j < k {
      CancelledLoopLeaves(states, steps, j, k - 1);
      assert Goes(states, steps, k - 1);
    }
  }
}
