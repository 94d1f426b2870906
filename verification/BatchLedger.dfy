/** What a batch's shared counters say at every step of every interleaving: the slots of
    the pool, the byte counter, the file counters, and the results channel.  */
module BatchLedger {
  import opened Options
  import opened StatusBoard
  import opened Transfer
  import opened Batch

  // ---- One worker ------------------------------------------------------------------

  predicate Settled(w: Worker) { w.pc.Sending? || w.pc.Leaving? || w.pc.Gone? }

  predicate Sent(w: Worker) { w.pc.Leaving? || w.pc.Gone? }

  /** Bytes this file has in the shared counter and has not taken back. */
  function Outstanding(w: Worker): int {
    if Settled(w) && w.outcome.Failed? && !w.turnedAway then 0 else w.reported
  }

  function HoldsSlot(w: Worker): int { if Retired(w) then 0 else 1 }
  function IsSettled(w: Worker): int { if Settled(w) then 1 else 0 }
  function IsSent(w: Worker): int { if Sent(w) then 1 else 0 }
  function SentCompleted(w: Worker): int { if Sent(w) && w.outcome.Completed? then 1 else 0 }
  function SentFailed(w: Worker): int { if Sent(w) && w.outcome.Failed? then 1 else 0 }
  function SentSkipped(w: Worker): int { if Sent(w) && w.outcome.Skipped? then 1 else 0 }
  function IsCompleted(w: Worker): int { if Settled(w) && w.outcome.Completed? then 1 else 0 }
  function IsFailed(w: Worker): int { if Settled(w) && w.outcome.Failed? then 1 else 0 }
  function IsSkipped(w: Worker): int { if Settled(w) && w.outcome.Skipped? then 1 else 0 }

  /** What one worker's progress and outcome look like at each point. */
  predicate Sane(c: Batch, w: Worker) {
    && 0 <= w.reported <= w.copied
    && (w.pc.Unsubmitted? || w.pc.Starting? || w.pc.Backoff? ==> w.copied == 0)
    && (!w.pc.Fetching? ==> w.reported == w.copied)
    && (w.pc.Fetching? || w.pc.Discarding? ==> 1 <= w.attempt <= Budget(c.maxAttempts))
    && (w.pc.Backoff? ==> 1 <= w.attempt < Budget(c.maxAttempts) && w.left > 0)
    && (w.pc.Settling? || Settled(w) <==> !w.outcome.Undecided?)
    && (w.outcome.Completed? ==> !w.turnedAway)
    && (w.outcome.Skipped? ==> w.turnedAway)
    && (w.turnedAway ==> !w.outcome.Undecided?)
  }

  // ---- The shared counters -----------------------------------------------------------

  ghost predicate Workers(c: Batch, s: State) {
    && |s.workers| == |c.files|
    && (forall w :: w in s.workers ==> Sane(c, w))
  }

  ghost predicate Pool(c: Batch, s: State) {
    && s.attempted <= |c.files|
    && (s.main.Submitting? ==> s.attempted >= 1)
    && (forall k :: 0 <= k < |s.workers| ==> (s.workers[k].pc.Unsubmitted? <==> k >= Launched(s)))
    && s.slots == Total(s.workers, HoldsSlot)
    && s.slots <= c.workers
    && (s.main.Draining? || s.main.Finished? ==> s.attempted == |c.files| || s.cancelled || s.sawPause)
    && (s.main.Finished? ==> forall w :: w in s.workers ==> Retired(w))
  }

  ghost predicate BytesExact(st: Status, ws: seq<Worker>) {
    st.bytesCompleted == Total(ws, Outstanding)
  }

  ghost predicate CountersExact(st: Status, ws: seq<Worker>) {
    && st.batchTotal == |ws|
    && st.completed == Total(ws, IsCompleted)
    && st.failed == Total(ws, IsFailed)
    && st.skipped == Total(ws, IsSkipped)
    && st.remaining == |ws| - Total(ws, IsSettled)
    && st.pending == st.remaining
  }

  /** How many reports carry an outcome. */
  function Tally(results: seq<Report>, outcome: Outcome): int
    decreases |results|
  {
    if results == [] then 0
    else Tally(results[..|results| - 1], outcome) + if results[|results| - 1].outcome == outcome then 1 else 0
  }

  /** Every worker that has reported has exactly one report, and it is true. */
  ghost predicate ResultsExact(results: seq<Report>, ws: seq<Worker>) {
    ResultsCounted(results, ws) && ResultsListed(results, ws)
  }

  ghost predicate ResultsCounted(results: seq<Report>, ws: seq<Worker>) {
    && |results| == Total(ws, IsSent)
    && Tally(results, Completed) == Total(ws, SentCompleted)
    && Tally(results, Failed) == Total(ws, SentFailed)
    && Tally(results, Skipped) == Total(ws, SentSkipped)
  }

  ghost predicate ResultsListed(results: seq<Report>, ws: seq<Worker>) {
    && (forall k :: 0 <= k < |results| ==>
          var r := results[k];
          && r.index < |ws| && Sent(ws[r.index])
          && r == Report(r.index, ws[r.index].outcome, ws[r.index].path, ws[r.index].digest))
    && (forall j, k :: 0 <= j < k < |results| ==> results[j].index != results[k].index)
    && (forall i :: 0 <= i < |ws| && Sent(ws[i]) ==> exists k :: 0 <= k < |results| && results[k].index == i)
  }

  ghost predicate Inv(c: Batch, s: State) {
    Workers(c, s) && Pool(c, s) &&
    BytesExact(s.status, s.workers) &&
    CountersExact(s.status, s.workers) && ResultsExact(s.results, s.workers)
  }

  // ---- Every step keeps them -----------------------------------------------------------

  lemma WorkerStaysSane(c: Batch, s: State, i: nat, a: Action)
    requires |s.workers| == |c.localPaths| == |c.files| && CanAct(c, s, i, a) && Sane(c, s.workers[i])
    ensures Sane(c, WorkerAfter(c, s, i, a))
  {
  }

  lemma ActionKeepsSane(c: Batch, s: State, i: nat, a: Action)
    requires ValidBatch(c) && Workers(c, s) && CanAct(c, s, i, a)
    ensures Workers(c, Act(c, s, i, a))
  {
    assert s.workers[i] in s.workers;
    WorkerStaysSane(c, s, i, a);
  }

  /** An acting worker holds a slot, until it leaves. */
  lemma OnlyLeavingFreesSlot(c: Batch, s: State, i: nat, a: Action)
    requires |s.workers| == |c.localPaths| == |c.files| && CanAct(c, s, i, a)
    ensures !Retired(s.workers[i]) && !WorkerAfter(c, s, i, a).pc.Unsubmitted?
    ensures Retired(WorkerAfter(c, s, i, a)) <==> a.Leave?
  {
  }

  /** Replacing a running worker by a later state of it, with the slots to match. */
  lemma PoolFollows(c: Batch, s: State, i: nat, w': Worker, s': State)
    requires Pool(c, s) && i < |s.workers| && !Retired(s.workers[i]) && !w'.pc.Unsubmitted?
    requires s'.workers == s.workers[i := w'] && s'.main == s.main && s'.attempted == s.attempted
    requires s'.cancelled == s.cancelled && s'.sawPause == s.sawPause
    requires s'.slots == (if Retired(w') && s.slots > 0 then s.slots - 1 else s.slots)
    ensures Pool(c, s')
  {
    assert s.workers[i] in s.workers;
    TotalUpdate(s.workers, i, w', HoldsSlot);
    TotalAtLeast(s.workers, i, HoldsSlot);
  }

  lemma ActionKeepsPool(c: Batch, s: State, i: nat, a: Action)
    requires ValidBatch(c) && Workers(c, s) && Pool(c, s) && CanAct(c, s, i, a)
    ensures Pool(c, Act(c, s, i, a))
  {
    OnlyLeavingFreesSlot(c, s, i, a);
    PoolFollows(c, s, i, WorkerAfter(c, s, i, a), Act(c, s, i, a));
  }

  /** Neither clamp of the byte counter ever fires. */
  lemma ActionKeepsBytes(c: Batch, s: State, i: nat, a: Action)
    requires ValidBatch(c) && Workers(c, s) && BytesExact(s.status, s.workers) && CanAct(c, s, i, a)
    ensures BytesExact(Act(c, s, i, a).status, Act(c, s, i, a).workers)
    ensures a.DiscardAttempt? || (a.Settle? && s.workers[i].outcome.Failed? && !s.workers[i].turnedAway) ==>
      s.status.bytesCompleted >= s.workers[i].copied
  {
    var w := s.workers[i];
    assert w in s.workers;
    TotalUpdate(s.workers, i, WorkerAfter(c, s, i, a), Outstanding);
    TotalAtLeast(s.workers, i, Outstanding);
  }

  /** Only settling changes what a worker counts as, and then to exactly one thing. */
  lemma OnlySettlingCounts(c: Batch, s: State, i: nat, a: Action)
    requires ValidBatch(c) && Workers(c, s) && CanAct(c, s, i, a)
    ensures var w, w' := s.workers[i], WorkerAfter(c, s, i, a);
      if a.Settle? then
        && IsSettled(w) == IsCompleted(w) == IsFailed(w) == IsSkipped(w) == 0
        && IsSettled(w') == 1
        && IsCompleted(w') == (if w.outcome.Completed? then 1 else 0)
        && IsSkipped(w') == (if w.outcome.Skipped? then 1 else 0)
        && IsFailed(w') == 1 - IsCompleted(w') - IsSkipped(w')
      else
        && IsSettled(w') == IsSettled(w) && IsCompleted(w') == IsCompleted(w)
        && IsFailed(w') == IsFailed(w) && IsSkipped(w') == IsSkipped(w)
  {
    assert Sane(c, s.workers[i]);
  }

  lemma ActionKeepsCounters(c: Batch, s: State, i: nat, a: Action)
    requires ValidBatch(c) && Workers(c, s) && CountersExact(s.status, s.workers) && CanAct(c, s, i, a)
    ensures CountersExact(Act(c, s, i, a).status, Act(c, s, i, a).workers)
  {
    var w' := WorkerAfter(c, s, i, a);
    OnlySettlingCounts(c, s, i, a);
    TotalUpdate(s.workers, i, w', IsCompleted);
    TotalUpdate(s.workers, i, w', IsFailed);
    TotalUpdate(s.workers, i, w', IsSkipped);
    TotalUpdate(s.workers, i, w', IsSettled);
    TotalBelow(s.workers, i, IsSettled);
    CountersFollow(s.status, s.workers, i, s.workers[i], w', a);
  }

  lemma CountersFollow(st: Status, ws: seq<Worker>, i: nat, w: Worker, w': Worker, a: Action)
    requires CountersExact(st, ws) && i < |ws| && w == ws[i]
    requires Total(ws[i := w'], IsCompleted) == st.completed - IsCompleted(w) + IsCompleted(w')
    requires Total(ws[i := w'], IsFailed) == st.failed - IsFailed(w) + IsFailed(w')
    requires Total(ws[i := w'], IsSkipped) == st.skipped - IsSkipped(w) + IsSkipped(w')
    requires Total(ws[i := w'], IsSettled) == |ws| - st.remaining - IsSettled(w) + IsSettled(w')
    requires if a.Settle? then
        && IsSettled(w) == IsCompleted(w) == IsFailed(w) == IsSkipped(w) == 0
        && IsSettled(w') == 1 && st.remaining > 0
        && IsCompleted(w') == (if w.outcome.Completed? then 1 else 0)
        && IsSkipped(w') == (if w.outcome.Skipped? then 1 else 0)
        && IsFailed(w') == 1 - IsCompleted(w') - IsSkipped(w')
      else
        && IsSettled(w') == IsSettled(w) && IsCompleted(w') == IsCompleted(w)
        && IsFailed(w') == IsFailed(w) && IsSkipped(w') == IsSkipped(w)
    ensures CountersExact(StatusAfter(st, w, a), ws[i := w'])
  {
  }

  /** A worker that has not reported, or changes nothing it reported, disturbs no report. */
  lemma ReportsUndisturbed(results: seq<Report>, ws: seq<Worker>, i: nat, w': Worker)
    requires ResultsExact(results, ws) && i < |ws|
    requires Sent(w') == Sent(ws[i])
    requires Sent(w') ==> w'.outcome == ws[i].outcome && w'.path == ws[i].path && w'.digest == ws[i].digest
    ensures ResultsExact(results, ws[i := w'])
  {
    TotalUpdate(ws, i, w', IsSent);
    TotalUpdate(ws, i, w', SentCompleted);
    TotalUpdate(ws, i, w', SentFailed);
    TotalUpdate(ws, i, w', SentSkipped);
    var ws' := ws[i := w'];
    forall j | 0 <= j < |ws'| && Sent(ws'[j])
      ensures exists k :: 0 <= k < |results| && results[k].index == j
    {
      assert Sent(ws[j]);
    }
  }

  lemma SendKeepsCounts(results: seq<Report>, ws: seq<Worker>, i: nat, w': Worker, r: Report)
    requires ResultsCounted(results, ws) && i < |ws|
    requires !Sent(ws[i]) && Sent(w') && r.outcome == w'.outcome && !w'.outcome.Undecided?
    ensures ResultsCounted(results + [r], ws[i := w'])
  {
    TotalUpdate(ws, i, w', IsSent);
    TotalUpdate(ws, i, w', SentCompleted);
    TotalUpdate(ws, i, w', SentFailed);
    TotalUpdate(ws, i, w', SentSkipped);
    assert (results + [r])[..|results|] == results;
  }

  lemma SendKeepsListing(results: seq<Report>, ws: seq<Worker>, i: nat, w': Worker)
    requires ResultsListed(results, ws) && i < |ws| && !Sent(ws[i]) && Sent(w')
    ensures ResultsListed(results + [Report(i, w'.outcome, w'.path, w'.digest)], ws[i := w'])
  {
    var ws', results' := ws[i := w'], results + [Report(i, w'.outcome, w'.path, w'.digest)];
    assert results'[|results|].index == i;
    forall j | 0 <= j < |ws'| && Sent(ws'[j])
      ensures exists k :: 0 <= k < |results'| && results'[k].index == j
    {
      if j != i {
        var k :| 0 <= k < |results| && results[k].index == j;
        assert results'[k].index == j;
      }
    }
  }

  lemma SendKeepsResults(c: Batch, s: State, i: nat)
    requires ValidBatch(c) && Workers(c, s) && ResultsExact(s.results, s.workers) && CanAct(c, s, i, Send)
    ensures ResultsExact(Act(c, s, i, Send).results, Act(c, s, i, Send).workers)
  {
    var w, w' := s.workers[i], WorkerAfter(c, s, i, Send);
    assert Sane(c, w);
    SendKeepsCounts(s.results, s.workers, i, w', Report(i, w.outcome, w.path, w.digest));
    SendKeepsListing(s.results, s.workers, i, w');
  }

  lemma ActionKeepsResults(c: Batch, s: State, i: nat, a: Action)
    requires ValidBatch(c) && Workers(c, s) && ResultsExact(s.results, s.workers) && CanAct(c, s, i, a)
    ensures ResultsExact(Act(c, s, i, a).results, Act(c, s, i, a).workers)
  {
    if a.Send? {
      SendKeepsResults(c, s, i);
    } else {
      ReportsUndisturbed(s.results, s.workers, i, WorkerAfter(c, s, i, a));
    }
  }

  /** Starting a goroutine changes its own program counter and the pool, nothing else. */
  lemma LaunchKeepsCounters(c: Batch, s: State, i: nat)
    requires Workers(c, s) && i < |s.workers| && s.workers[i].pc.Unsubmitted?
    requires BytesExact(s.status, s.workers) && CountersExact(s.status, s.workers)
    requires ResultsExact(s.results, s.workers)
    ensures var ws := s.workers[i := s.workers[i].(pc := Starting)];
      BytesExact(s.status, ws) && CountersExact(s.status, ws) && ResultsExact(s.results, ws)
  {
    var w' := s.workers[i].(pc := Starting);
    TotalUpdate(s.workers, i, w', Outstanding);
    TotalUpdate(s.workers, i, w', IsCompleted);
    TotalUpdate(s.workers, i, w', IsFailed);
    TotalUpdate(s.workers, i, w', IsSkipped);
    TotalUpdate(s.workers, i, w', IsSettled);
    ReportsUndisturbed(s.results, s.workers, i, w');
  }

  lemma LaunchKeepsPool(c: Batch, s: State)
    requires ValidBatch(c) && Workers(c, s) && Pool(c, s) && Enabled(c, s, Submit)
    ensures s.workers[s.attempted - 1].pc.Unsubmitted?
    ensures Workers(c, Do(c, s, Submit)) && Pool(c, Do(c, s, Submit))
  {
    var i := s.attempted - 1;
    assert s.workers[i] in s.workers;
    TotalUpdate(s.workers, i, s.workers[i].(pc := Starting), HoldsSlot);
  }

  lemma SubmitKeepsInv(c: Batch, s: State)
    requires ValidBatch(c) && Inv(c, s) && Enabled(c, s, Submit)
    ensures Inv(c, Do(c, s, Submit))
  {
    LaunchKeepsPool(c, s);
    LaunchKeepsCounters(c, s, s.attempted - 1);
  }

  lemma StepKeepsInv(c: Batch, s: State, step: Step)
    requires ValidBatch(c) && Inv(c, s) && Enabled(c, s, step)
    ensures Inv(c, Do(c, s, step))
  {
    match step
    case Work(i, a) =>
      ActionKeepsSane(c, s, i, a);
      ActionKeepsPool(c, s, i, a);
      ActionKeepsBytes(c, s, i, a);
      ActionKeepsCounters(c, s, i, a);
      ActionKeepsResults(c, s, i, a);
    case Submit => SubmitKeepsInv(c, s);
    case _ => OtherStepKeepsInv(c, s, step);
  }

  /** The submitting loop's own steps, which touch no worker. */
  lemma LoopKeepsPool(c: Batch, s: State, s': State)
    requires Pool(c, s) && |s.workers| == |c.files|
    requires s'.workers == s.workers && s'.slots == s.slots && Launched(s') == Launched(s)
    requires s'.attempted <= |c.files| && (s'.main.Submitting? ==> s'.attempted >= 1)
    requires s'.main.Draining? || s'.main.Finished? ==> s'.attempted == |c.files| || s'.cancelled || s'.sawPause
    requires s'.main.Finished? ==> forall w :: w in s.workers ==> Retired(w)
    ensures Pool(c, s')
  {
  }

  lemma OtherStepKeepsPool(c: Batch, s: State, step: Step)
    requires ValidBatch(c) && Workers(c, s) && Pool(c, s) && Enabled(c, s, step)
    requires !step.Work? && !step.Submit?
    ensures Workers(c, Do(c, s, step)) && Pool(c, Do(c, s, step))
  {
    LoopKeepsPool(c, s, Do(c, s, step));
  }

  lemma OtherStepKeepsInv(c: Batch, s: State, step: Step)
    requires ValidBatch(c) && Inv(c, s) && Enabled(c, s, step)
    requires !step.Work? && !step.Submit?
    ensures Inv(c, Do(c, s, step))
  {
    OtherStepKeepsPool(c, s, step);
  }

  /** Workers that have not started count for nothing. */
  lemma IdleCountsNothing(ws: seq<Worker>)
    requires forall w :: w in ws ==> w == IDLE
    ensures Total(ws, HoldsSlot) == 0 && Total(ws, Outstanding) == 0
    ensures Total(ws, IsCompleted) == 0 && Total(ws, IsFailed) == 0 && Total(ws, IsSkipped) == 0
    ensures Total(ws, IsSettled) == 0 && Total(ws, IsSent) == 0
    ensures Total(ws, SentCompleted) == 0 && Total(ws, SentFailed) == 0 && Total(ws, SentSkipped) == 0
  {
    TotalZero(ws, HoldsSlot);
    TotalZero(ws, Outstanding);
    TotalZero(ws, IsCompleted);
    TotalZero(ws, IsFailed);
    TotalZero(ws, IsSkipped);
    TotalZero(ws, IsSettled);
    TotalZero(ws, IsSent);
    TotalZero(ws, SentCompleted);
    TotalZero(ws, SentFailed);
    TotalZero(ws, SentSkipped);
  }

  lemma StartInv(c: Batch, st: Status, paused: bool, cancelled: bool)
    requires ValidBatch(c)
    ensures Inv(c, Start(c, st, paused, cancelled))
  {
    IdleCountsNothing(Start(c, st, paused, cancelled).workers);
  }

  lemma {:induction false} RunKeepsInv(c: Batch, states: seq<State>, steps: seq<Step>, k: nat)
    requires IsRun(c, states, steps) && k < |states|
    ensures Inv(c, states[k])
  {
    if k == 0 {
      var st, p, x :| states[0] == Start(c, st, p, x);
      StartInv(c, st, p, x);
    } else {
      RunKeepsInv(c, states, steps, k - 1);
      assert Goes(c, states, steps, k - 1);
      StepKeepsInv(c, states[k - 1], steps[k - 1]);
    }
  }

  // ---- Main results: the counters ------------------------------------------------------

  function CompletedBytes(w: Worker): int { if w.outcome.Completed? then w.copied else 0 }
  function TurnedAwayBytes(w: Worker): int { if w.turnedAway then w.copied else 0 }

  /** At every step the byte counter is the sum of what the files have reported and not
      taken back. When the batch ends, that is the bytes of the completed files and of
      those that were transferred and then turned away by the collision policy. */
  lemma BytesAreConserved(c: Batch, states: seq<State>, steps: seq<Step>, k: nat)
    requires IsRun(c, states, steps) && k < |states|
    ensures var s := states[k];
      && s.status.bytesCompleted == Total(s.workers, Outstanding) >= 0
      && (s.main.Finished? ==>
            s.status.bytesCompleted == Total(s.workers, CompletedBytes) + Total(s.workers, TurnedAwayBytes))
  {
    RunKeepsInv(c, states, steps, k);
    TotalAtLeast(states[k].workers, 0, Outstanding);
    if states[k].main.Finished? {
      TotalAdd(states[k].workers, CompletedBytes, TurnedAwayBytes, Outstanding);
    }
  }

  /** At every step every file is completed, failed, skipped or remaining, once. */
  lemma CountersBalance(c: Batch, states: seq<State>, steps: seq<Step>, k: nat)
    requires IsRun(c, states, steps) && k < |states|
    ensures Balanced(states[k].status) && states[k].status.batchTotal == |c.files|
    ensures 0 <= states[k].status.remaining == states[k].status.pending
  {
    RunKeepsInv(c, states, steps, k);
    var ws := states[k].workers;
    TotalAdd(ws, IsCompleted, IsFailed, w => IsCompleted(w) + IsFailed(w));
    TotalAdd(ws, w => IsCompleted(w) + IsFailed(w), IsSkipped, IsSettled);
    TotalBelow(ws, |ws|, IsSettled);
  }

  /** The published total of the batch is the sum of its files' sizes, throughout, and the
      phase is downloading. */
  lemma {:induction false} TotalsStand(c: Batch, states: seq<State>, steps: seq<Step>, k: nat)
    requires IsRun(c, states, steps) && k < |states|
    ensures states[k].status.bytesTotal == Bytes(c.files) && states[k].status.phase == Downloading
  {
    if k > 0 {
      TotalsStand(c, states, steps, k - 1);
      assert Goes(c, states, steps, k - 1);
      StepKeepsTotals(c, states[k - 1], steps[k - 1]);
    }
  }

  lemma StepKeepsTotals(c: Batch, s: State, step: Step)
    requires |s.workers| == |c.localPaths| == |c.files| && Enabled(c, s, step)
    ensures Do(c, s, step).status.bytesTotal == s.status.bytesTotal && Do(c, s, step).status.phase == s.status.phase
  {
    if step.Work? {
      StatusKeepsTotals(s.status, s.workers[step.index], step.action);
    }
  }

  lemma StatusKeepsTotals(st: Status, w: Worker, a: Action)
    ensures StatusAfter(st, w, a).bytesTotal == st.bytesTotal && StatusAfter(st, w, a).phase == st.phase
  {
  }

  /** A worker that has something to report can always do so: the channel has room for
      every file of the batch, and no worker reports twice. */
  lemma ReportingNeverBlocks(c: Batch, states: seq<State>, steps: seq<Step>, k: nat, i: nat)
    requires IsRun(c, states, steps) && k < |states| && i < |c.files|
    ensures ResultsExact(states[k].results, states[k].workers)
    ensures states[k].workers[i].pc.Sending? ==> CanAct(c, states[k], i, Send)
  {
    RunKeepsInv(c, states, steps, k);
    TotalBelow(states[k].workers, i, IsSent);
  }

  /** At the end each attempted file has been reported exactly once, and the reports tell
      what the counters tell. */
  lemma ReportsMatchCounters(c: Batch, states: seq<State>, steps: seq<Step>, k: nat)
    requires IsRun(c, states, steps) && k < |states| && states[k].main.Finished?
    ensures var s := states[k];
      && |s.results| == s.attempted
      && (forall i :: 0 <= i < |s.workers| ==> (Sent(s.workers[i]) <==> i < s.attempted))
      && s.status.completed == Tally(s.results, Completed)
      && s.status.failed == Tally(s.results, Failed)
      && s.status.skipped == Tally(s.results, Skipped)
      && s.status.remaining == |c.files| - s.attempted
  {
    RunKeepsInv(c, states, steps, k);
    var s := states[k];
    forall i | 0 <= i < |s.workers| ensures Sent(s.workers[i]) <==> i < s.attempted {
      assert s.workers[i] in s.workers;
    }
    SentIsSettled(s.workers);
    PrefixCount(s.workers, s.attempted);
  }

  lemma SentIsSettled(ws: seq<Worker>)
    requires forall w :: w in ws ==> Retired(w)
    ensures Total(ws, IsCompleted) == Total(ws, SentCompleted) && Total(ws, IsFailed) == Total(ws, SentFailed)
    ensures Total(ws, IsSkipped) == Total(ws, SentSkipped) && Total(ws, IsSettled) == Total(ws, IsSent)
  {
    TotalSame(ws, IsCompleted, SentCompleted);
    TotalSame(ws, IsFailed, SentFailed);
    TotalSame(ws, IsSkipped, SentSkipped);
    TotalSame(ws, IsSettled, IsSent);
  }

  lemma {:induction false} PrefixCount(ws: seq<Worker>, n: nat)
    requires n <= |ws|
    requires forall i :: 0 <= i < |ws| ==> (Sent(ws[i]) <==> i < n)
    ensures Total(ws, IsSent) == n
    decreases |ws|
  {
    if ws != [] {
      PrefixCount(ws[..|ws| - 1], if n == |ws| then n - 1 else n);
    }
  }

  function Transferring(w: Worker): int { if w.pc.Fetching? then 1 else 0 }

  /** The pool never runs more transfers than it has workers. */
  lemma PoolIsBounded(c: Batch, states: seq<State>, steps: seq<Step>, k: nat)
    requires IsRun(c, states, steps) && k < |states|
    ensures Total(states[k].workers, Transferring) <= states[k].slots <= c.workers
  {
    RunKeepsInv(c, states, steps, k);
    TotalMonotone(states[k].workers, Transferring, HoldsSlot);
  }

  // ---- Main results: the pool stops ------------------------------------------------------

  /** Everything but a write of a running transfer, time going by, and what happens
      outside the batch. */
  predicate Advances(step: Step) {
    !step.PauseChanges? && !step.Cancelled? && !(step.Work? && (step.action.Write? || step.action.TimePasses?))
  }

  /** Steps a worker still has before it, whatever happens to its attempts. */
  function WorkerRank(c: Batch, w: Worker): int {
    var b := 3 * (Budget(c.maxAttempts) - w.attempt);
    match w.pc
    case Unsubmitted => 12 + 3 * Budget(c.maxAttempts)
    case Starting => 9 + 3 * Budget(c.maxAttempts)
    case Fetching => 8 + b
    case Discarding => 7 + b
    case Backoff => 6 + b
    case Downloaded => 5
    case Destined => 4
    case Settling => 3
    case Sending => 2
    case Leaving => 1
    case Gone => 0
  }

  function RankIn(c: Batch): Worker -> int { w => WorkerRank(c, w) }

  function Rank(c: Batch, s: State): int {
    Total(s.workers, RankIn(c)) +
    match s.main case Checking => 2 case Submitting => 1 case Draining => 1 case Finished => 0
  }

  lemma ActionLowersRank(c: Batch, s: State, i: nat, a: Action)
    requires ValidBatch(c) && Workers(c, s) && CanAct(c, s, i, a)
    ensures WorkerRank(c, WorkerAfter(c, s, i, a)) + (if Advances(Work(i, a)) then 1 else 0)
      <= WorkerRank(c, s.workers[i])
  {
    assert Sane(c, s.workers[i]);
  }

  lemma LaunchLowersRank(c: Batch, s: State)
    requires ValidBatch(c) && Workers(c, s) && Pool(c, s) && Enabled(c, s, Submit)
    ensures Rank(c, Do(c, s, Submit)) < Rank(c, s)
  {
    LaunchKeepsPool(c, s);
    var i := s.attempted - 1;
    TotalUpdate(s.workers, i, s.workers[i].(pc := Starting), RankIn(c));
  }

  lemma WorkLowersRank(c: Batch, s: State, i: nat, a: Action)
    requires ValidBatch(c) && Workers(c, s) && CanAct(c, s, i, a)
    ensures Rank(c, Act(c, s, i, a)) + (if Advances(Work(i, a)) then 1 else 0) <= Rank(c, s)
  {
    ActionLowersRank(c, s, i, a);
    TotalUpdate(s.workers, i, WorkerAfter(c, s, i, a), RankIn(c));
  }

  lemma StepLowersRank(c: Batch, s: State, step: Step)
    requires ValidBatch(c) && Workers(c, s) && Pool(c, s) && Enabled(c, s, step)
    ensures Rank(c, Do(c, s, step)) + (if Advances(step) then 1 else 0) <= Rank(c, s)
  {
    match step
    case Work(i, a) => WorkLowersRank(c, s, i, a);
    case Submit => LaunchLowersRank(c, s);
    case _ =>
  }

  /** Until the batch is over, some goroutine can move without waiting for another. */
  lemma NeverStuck(c: Batch, s: State)
    requires ValidBatch(c) && Inv(c, s) && !s.main.Finished?
    ensures exists step :: Advances(step) && Enabled(c, s, step)
  {
    if w :| w in s.workers && !Retired(w) {
      var i :| 0 <= i < |s.workers| && s.workers[i] == w;
      TotalBelow(s.workers, i, IsSent);
      var a := match w.pc
        case Starting => ResolveEarly
        case Fetching => FetchReturns(Permanent, [], None)
        case Discarding => DiscardAttempt(0.0)
        case Backoff => if s.cancelled then GiveUp else Wake
        case Downloaded => ResolveFinal(c.localPaths[i])
        case Destined => PlacementFails
        case Settling => Settle
        case Sending => Send
        case _ => Leave;
      assert Advances(Work(i, a)) && Enabled(c, s, Work(i, a));
    } else {
      TotalZero(s.workers, HoldsSlot);
      var step := if s.main.Checking? then Check else if s.main.Submitting? then Submit else Finish;
      assert Advances(step) && Enabled(c, s, step);
    }
  }

  function CountAdvances(steps: seq<Step>): nat
    decreases |steps|
  {
    if steps == [] then 0
    else CountAdvances(steps[..|steps| - 1]) + if Advances(steps[|steps| - 1]) then 1 else 0
  }

  lemma {:induction false} RankFalls(c: Batch, states: seq<State>, steps: seq<Step>, k: nat)
    requires IsRun(c, states, steps) && k < |states|
    ensures CountAdvances(steps[..k]) + Rank(c, states[k]) <= Rank(c, states[0])
  {
    if k > 0 {
      RankFalls(c, states, steps, k - 1);
      RunKeepsInv(c, states, steps, k - 1);
      assert Goes(c, states, steps, k - 1);
      StepLowersRank(c, states[k - 1], steps[k - 1]);
      assert steps[..k][..k - 1] == steps[..k - 1];
    }
  }

  /** How many steps a batch can take besides its writes. */
  function Ceiling(c: Batch): int { |c.files| * (12 + 3 * Budget(c.maxAttempts)) + 2 }

  lemma {:induction false} TotalOfIdle(c: Batch, ws: seq<Worker>)
    requires forall i :: 0 <= i < |ws| ==> ws[i] == IDLE
    ensures Total(ws, RankIn(c)) == |ws| * (12 + 3 * Budget(c.maxAttempts))
    decreases |ws|
  {
    if ws != [] {
      TotalOfIdle(c, ws[..|ws| - 1]);
      var each := 12 + 3 * Budget(c.maxAttempts);
      assert |ws| * each == (|ws| - 1) * each + each;
    }
  }

  lemma RankBounds(c: Batch, s: State)
    requires Workers(c, s)
    ensures 0 <= Rank(c, s)
    ensures (forall i :: 0 <= i < |s.workers| ==> s.workers[i] == IDLE) ==> Rank(c, s) <= Ceiling(c)
  {
    TotalAtLeast(s.workers, 0, RankIn(c));
    if forall i :: 0 <= i < |s.workers| ==> s.workers[i] == IDLE {
      TotalOfIdle(c, s.workers);
    }
  }

  /** Given that transfers end, every batch ends: no run has more than a fixed number of
      other steps, and until the end another one is always possible. */
  lemma BatchEnds(c: Batch, states: seq<State>, steps: seq<Step>, k: nat)
    requires IsRun(c, states, steps) && k < |states|
    ensures CountAdvances(steps[..k]) <= Ceiling(c)
    ensures !states[k].main.Finished? ==> exists step :: Advances(step) && Enabled(c, states[k], step)
  {
    RunKeepsInv(c, states, steps, k);
    RunKeepsInv(c, states, steps, 0);
    RankFalls(c, states, steps, k);
    RankBounds(c, states[0]);
    RankBounds(c, states[k]);
    if !states[k].main.Finished? {
      NeverStuck(c, states[k]);
    }
  }

  /** While the job is paused, or once it is cancelled, no further file is decided on. At
      most one more is started: the one the submitting loop had decided on already. */
  lemma {:induction false} PauseStopsSubmission(c: Batch, states: seq<State>, steps: seq<Step>, j: nat, k: nat)
    requires IsRun(c, states, steps) && j <= k < |states|
    requires forall m :: j <= m <= k ==> states[m].paused || states[m].cancelled
    ensures states[k].attempted == states[j].attempted
    ensures Launched(states[j]) <= Launched(states[k]) <= Launched(states[j]) + 1
    decreases k - j
  {
    if j < k {
      PauseStopsSubmission(c, states, steps, j, k - 1);
      assert Goes(c, states, steps, k - 1);
      StoppedStep(c, states[k - 1], steps[k - 1]);
    }
  }

  lemma StoppedStep(c: Batch, s: State, step: Step)
    requires |s.workers| == |c.localPaths| == |c.files| && Enabled(c, s, step) && (s.paused || s.cancelled)
    ensures Do(c, s, step).attempted == s.attempted && Launched(Do(c, s, step)) >= Launched(s)
  {
  }

  /** A batch that starts cancelled attempts no file and reports nothing. */
  lemma {:induction false} CancelledBatchAttemptsNothing(c: Batch, states: seq<State>, steps: seq<Step>, k: nat)
    requires IsRun(c, states, steps) && k < |states| && states[0].cancelled
    ensures states[k].cancelled && states[k].attempted == 0 && !states[k].main.Submitting? && states[k].results == []
  {
    if k > 0 {
      CancelledBatchAttemptsNothing(c, states, steps, k - 1);
      RunKeepsInv(c, states, steps, k - 1);
      assert Goes(c, states, steps, k - 1);
      NothingToWork(c, states[k - 1], steps[k - 1]);
    }
  }

  /** Where nothing was attempted no worker can move. */
  lemma NothingToWork(c: Batch, s: State, step: Step)
    requires ValidBatch(c) && Pool(c, s) && |s.workers| == |c.files| && Enabled(c, s, step)
    requires s.attempted == 0 && s.cancelled && !s.main.Submitting?
    ensures var s' := Do(c, s, step);
      s'.cancelled && s'.attempted == 0 && !s'.main.Submitting? && s'.results == s.results
  {
  }

  datatype BatchError = NoError | StoppedByPause | StoppedByShutdown

  function IncompleteBatchError(attempted: int, total: int, cancelled: bool): BatchError {
    if attempted >= total then NoError
    else if cancelled then StoppedByShutdown
    else StoppedByPause
  }

  /** A finished batch that reports a pause was live throughout, left files unattempted,
      and really saw the pause; one that reports nothing attempted every file. */
  lemma PauseErrorMeansPause(c: Batch, states: seq<State>, steps: seq<Step>, k: nat)
    requires IsRun(c, states, steps) && k < |states| && states[k].main.Finished?
    ensures var s := states[k];
      var error := IncompleteBatchError(s.attempted, |c.files|, s.cancelled);
      && (error == StoppedByPause ==>
        s.sawPause && s.attempted < |c.files| && exists m :: 0 <= m < k && states[m].paused)
      && (error == StoppedByPause <==> s.attempted < |c.files| && !s.cancelled)
      && (error == StoppedByShutdown <==> s.attempted < |c.files| && s.cancelled)
      && (error == NoError <==> forall w :: w in s.workers ==> Sent(w))
  {
    RunKeepsInv(c, states, steps, k);
    var s := states[k];
    if s.sawPause {
      SawPauseIsTrue(c, states, steps, k);
    }
    if s.attempted < |c.files| {
      assert s.workers[s.attempted] in s.workers;
    }
  }

  lemma {:induction false} SawPauseIsTrue(c: Batch, states: seq<State>, steps: seq<Step>, k: nat)
    requires IsRun(c, states, steps) && k < |states| && states[k].sawPause
    ensures exists m :: 0 <= m < k && states[m].paused
  {
    if k > 0 {
      assert Goes(c, states, steps, k - 1);
      if states[k - 1].sawPause {
        SawPauseIsTrue(c, states, steps, k - 1);
      } else {
        assert states[k - 1].paused;
      }
    }
  }
}
