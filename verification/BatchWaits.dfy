/** The wait of a worker between two attempts, inside a batch: it is the wait of the
    source, over what the worker notices of everything that happens meanwhile.  */
module BatchWaits {
  import opened Batch
  import BatchLedger
  import Retry

  /** What a step means to a worker that waits. */
  function Noticed(step: Step, i: nat): seq<Retry.Happening> {
    match step
    case PauseChanges(paused) => [if paused then Retry.PauseSet else Retry.PauseCleared]
    case Cancelled => [Retry.Cancelled]
    case Work(j, TimePasses(time)) => if j == i then [Retry.Elapses(time)] else []
    case _ => []
  }

  /** What worker i notices from step j up to step k. */
  function Timeline(steps: seq<Step>, j: nat, k: nat, i: nat): seq<Retry.Happening>
    requires j <= k <= |steps|
    decreases k
  {
    if j == k then [] else Timeline(steps, j, k - 1, i) + Noticed(steps[k - 1], i)
  }

  predicate HasCancel(timeline: seq<Retry.Happening>)
    decreases |timeline|
  {
    timeline != [] && (timeline[|timeline| - 1].Cancelled? || HasCancel(timeline[..|timeline| - 1]))
  }

  lemma WaitingStep(c: Batch, s: State, step: Step, i: nat)
    requires |s.workers| == |c.localPaths| == |c.files| && Enabled(c, s, step) && i < |s.workers|
    requires step.Submit? ==> s.workers[s.attempted - 1].pc.Unsubmitted?
    requires s.workers[i].pc.Backoff?
    ensures var s' := Do(c, s, step);
      && s'.workers[i].left == s.workers[i].left - (if s'.workers[i].pc.Backoff? then Retry.Elapsed(Noticed(step, i))
                                                      else s.workers[i].left - s'.workers[i].left)
      && (s'.cancelled <==> s.cancelled || HasCancel(Noticed(step, i)))
      && (!s'.workers[i].pc.Backoff? ==> step == Work(i, if s.cancelled then GiveUp else Wake))
  {
    var seen := Noticed(step, i);
    assert |seen| <= 1 && (seen != [] ==> seen[..|seen| - 1] == []);
  }

  ghost predicate WaitsThrough(states: seq<State>, j: nat, k: nat, i: nat) {
    j <= k < |states| && forall n :: j <= n <= k ==> i < |states[n].workers| && states[n].workers[i].pc.Backoff?
  }

  lemma TimelineGrows(timeline: seq<Retry.Happening>, more: seq<Retry.Happening>)
    requires |more| <= 1
    ensures Retry.Elapsed(timeline + more) == Retry.Elapsed(timeline) + Retry.Elapsed(more)
    ensures HasCancel(timeline + more) <==> HasCancel(timeline) || HasCancel(more)
  {
    var all := timeline + more;
    if more == [] {
      assert all == timeline;
    } else {
      assert all[..|all| - 1] == timeline && more[..0] == [];
    }
  }

  /** What a waiting worker does in one step of a run. */
  lemma WaitingStepOfRun(c: Batch, states: seq<State>, steps: seq<Step>, k: nat, i: nat)
    requires IsRun(c, states, steps) && k < |steps| && i < |c.files| && states[k].workers[i].pc.Backoff?
    ensures states[k].workers[i].left > 0
    ensures states[k + 1].cancelled <==> states[k].cancelled || HasCancel(Noticed(steps[k], i))
    ensures if states[k + 1].workers[i].pc.Backoff?
      then states[k + 1].workers[i].left == states[k].workers[i].left - Retry.Elapsed(Noticed(steps[k], i))
      else steps[k] == Work(i, if states[k].cancelled then GiveUp else Wake)
  {
    BatchLedger.RunKeepsInv(c, states, steps, k);
    assert Goes(c, states, steps, k);
    assert BatchLedger.Sane(c, states[k].workers[i]);
    if steps[k].Submit? {
      BatchLedger.LaunchKeepsPool(c, states[k]);
    }
    WaitingStep(c, states[k], steps[k], i);
  }

  lemma DelayIsDrawn(c: Batch, states: seq<State>, steps: seq<Step>, j: nat, i: nat, jitter: Retry.Jitter)
    requires IsRun(c, states, steps) && 1 <= j <= |steps| && steps[j - 1] == Work(i, DiscardAttempt(jitter))
    ensures i < |c.files|
    ensures states[j].workers[i].pc.Backoff? ==>
      states[j].workers[i].left == Retry.Delay(states[j - 1].workers[i].attempt + 1, jitter)
  {
    assert Goes(c, states, steps, j - 1);
  }

  /** Step n of a run is one of a wait that goes on. */
  ghost predicate Ticks(states: seq<State>, steps: seq<Step>, n: nat, i: nat) {
    n < |steps| && n + 1 < |states| &&
    var s, step, s' := states[n], steps[n], states[n + 1];
    && i < |s.workers| && i < |s'.workers|
    && s'.workers[i].left == s.workers[i].left - Retry.Elapsed(Noticed(step, i))
    && (s'.cancelled <==> s.cancelled || HasCancel(Noticed(step, i)))
  }

  /** How far a wait has got, by what the worker has noticed since it began. */
  lemma {:induction false} WaitSoFar(states: seq<State>, steps: seq<Step>, j: nat, k: nat, i: nat)
    requires j <= k < |states| && k <= |steps| && i < |states[j].workers|
    requires forall n :: j <= n < k ==> Ticks(states, steps, n, i)
    ensures var timeline := Timeline(steps, j, k, i);
      && i < |states[k].workers|
      && states[k].workers[i].left == states[j].workers[i].left - Retry.Elapsed(timeline)
      && (states[k].cancelled <==> states[j].cancelled || HasCancel(timeline))
    decreases k - j
  {
    if j < k {
      WaitSoFar(states, steps, j, k - 1, i);
      assert Ticks(states, steps, k - 1, i);
      TimelineGrows(Timeline(steps, j, k - 1, i), Noticed(steps[k - 1], i));
    }
  }

  /** In every run a worker's wait is the source's wait for the delay it drew, over what it
      noticed meanwhile: it tries again exactly when that wait is waited out, and gives the
      file up exactly when a cancellation came before the delay was over. The pauses it
      noticed could as well not have been. */
  lemma RetryWaitIsSleepFor(c: Batch, states: seq<State>, steps: seq<Step>, j: nat, k: nat, i: nat,
                            jitter: Retry.Jitter)
    requires IsRun(c, states, steps) && 1 <= j <= k < |steps| && steps[j - 1] == Work(i, DiscardAttempt(jitter))
    requires i < |c.files| && WaitsThrough(states, j, k, i) && !states[k + 1].workers[i].pc.Backoff?
    ensures var delay, timeline := Retry.Delay(states[j - 1].workers[i].attempt + 1, jitter), Timeline(steps, j, k, i);
      var undisturbed := Retry.SleepFor(delay, states[j].cancelled, Retry.WithoutPauses(timeline));
      && steps[k] == Work(i, if Retry.SleepFor(delay, states[j].cancelled, timeline).woken then Wake else GiveUp)
      && steps[k] == Work(i, if undisturbed.woken then Wake else GiveUp)
      && (steps[k] == Work(i, GiveUp) <==> states[j].cancelled || Retry.CancelledWithin(delay, timeline))
  {
    DelayIsDrawn(c, states, steps, j, i, jitter);
    var delay, timeline := Retry.Delay(states[j - 1].workers[i].attempt + 1, jitter), Timeline(steps, j, k, i);
    forall n | j <= n < k ensures Ticks(states, steps, n, i) {
      WaitingStepOfRun(c, states, steps, n, i);
    }
    WaitSoFar(states, steps, j, k, i);
    WaitingStepOfRun(c, states, steps, k, i);
    Retry.WaitEndsEarlyIff(delay, states[j].cancelled, timeline);
    CancelIsWithin(delay, timeline);
    Retry.PausesAreInvisible(delay, states[j].cancelled, timeline);
  }

  /** Where the whole timeline takes less than the delay, so does any part of it. */
  lemma CancelIsWithin(delay: int, timeline: seq<Retry.Happening>)
    requires Retry.Elapsed(timeline) < delay
    ensures Retry.CancelledWithin(delay, timeline) <==> HasCancel(timeline)
  {
    HasCancelMeans(timeline);
    forall k | 0 <= k < |timeline| ensures Retry.Elapsed(timeline[..k]) < delay {
      PrefixTakesLess(timeline, k);
    }
  }

  lemma {:induction false} HasCancelMeans(timeline: seq<Retry.Happening>)
    ensures HasCancel(timeline) <==> exists k :: 0 <= k < |timeline| && timeline[k].Cancelled?
    decreases |timeline|
  {
    if timeline != [] {
      var shorter := timeline[..|timeline| - 1];
      HasCancelMeans(shorter);
      forall k | 0 <= k < |shorter| ensures shorter[k] == timeline[k] {}
    }
  }

  lemma {:induction false} PrefixTakesLess(timeline: seq<Retry.Happening>, k: nat)
    requires k <= |timeline|
    ensures Retry.Elapsed(timeline[..k]) <= Retry.Elapsed(timeline)
    decreases |timeline|
  {
    if k < |timeline| {
      PrefixTakesLess(timeline[..|timeline| - 1], k);
      assert timeline[..|timeline| - 1][..k] == timeline[..k];
    } else {
      assert timeline[..k] == timeline;
    }
  }
}
