/** What becomes of each file of a batch, told from the steps of the run alone: where its
    bytes come from, how often it is fetched, and which outcome it can end with.  */
module BatchOutcomes {
  import opened Options
  import opened Records
  import opened Destinations
  import opened Transfer
  import opened Batch
  import opened BatchResults
  import BatchLedger
  import BatchPlaces

  /** Step k is one of worker i. */
  predicate IsOwn(steps: seq<Step>, k: nat, i: nat) {
    k < |steps| && steps[k].Work? && steps[k].index == i
  }

  /** A worker moves by its own steps, and by being started. */
  lemma WorkerMoves(c: Batch, states: seq<State>, steps: seq<Step>, k: nat, i: nat)
    requires IsRun(c, states, steps) && k < |steps| && i < |c.files|
    ensures |states[k].workers| == |states[k + 1].workers| == |c.localPaths| == |c.files|
    ensures BatchLedger.Sane(c, states[k].workers[i])
    ensures var w, w' := states[k].workers[i], states[k + 1].workers[i];
      if IsOwn(steps, k, i) then
        CanAct(c, states[k], i, steps[k].action) && w' == WorkerAfter(c, states[k], i, steps[k].action)
      else w' == w || (w.pc.Unsubmitted? && w' == w.(pc := Starting))
  {
    BatchLedger.RunKeepsInv(c, states, steps, k);
    assert Goes(c, states, steps, k);
    assert states[k].workers[i] in states[k].workers;
    if steps[k].Submit? {
      BatchLedger.LaunchKeepsPool(c, states[k]);
    }
  }

  // ---- Where the bytes come from ------------------------------------------------------------

  /** The worker holds a complete file: staged, or in its place. */
  predicate HoldsFile(w: Worker) { w.pc.Downloaded? || w.pc.Destined? || w.outcome.Completed? }

  /** This return of fetch gave these bytes and this digest. In sha256 mode the server's copy
      was read and hashes to the same, or could not be read; only in the first case is there
      a digest. */
  predicate GaveFile(c: Batch, a: Action, content: Content, digest: string) {
    && a.FetchReturns? && a.result == Fetched && a.content == content
    && (c.sha256 && a.serverDigest.Some? ==> a.serverDigest.value == c.hash(content))
    && digest == if c.sha256 && a.serverDigest.Some? then c.hash(content) else ""
  }

  lemma ActionGivesFile(c: Batch, s: State, i: nat, a: Action)
    requires |s.workers| == |c.localPaths| == |c.files| && CanAct(c, s, i, a) && BatchLedger.Sane(c, s.workers[i])
    ensures var w, w' := s.workers[i], WorkerAfter(c, s, i, a);
      HoldsFile(w') ==>
        || GaveFile(c, a, w'.content, w'.digest)
        || (HoldsFile(w) && w'.content == w.content && w'.digest == w.digest)
  {
  }

  /** Whatever a worker holds, or has put in place, a fetch of its own gave it, and in
      sha256 mode no copy of the server contradicts it. */
  lemma {:induction false} FileComesFromFetch(c: Batch, states: seq<State>, steps: seq<Step>, k: nat, i: nat)
    requires IsRun(c, states, steps) && k < |states| && i < |c.files| && HoldsFile(states[k].workers[i])
    ensures exists n ::
      0 <= n < k && IsOwn(steps, n, i) &&
      GaveFile(c, steps[n].action, states[k].workers[i].content, states[k].workers[i].digest)
  {
    if k > 0 {
      WorkerMoves(c, states, steps, k - 1, i);
      if IsOwn(steps, k - 1, i) {
        ActionGivesFile(c, states[k - 1], i, steps[k - 1].action);
      }
      if !(IsOwn(steps, k - 1, i) &&
           GaveFile(c, steps[k - 1].action, states[k].workers[i].content, states[k].workers[i].digest)) {
        FileComesFromFetch(c, states, steps, k - 1, i);
      }
    }
  }

  /** The photo on disk is what a fetch of it gave, and its entry has the file's own time and
      size, its place, and the digest: the verified one, or none exactly when the mode asks
      for none or the server's copy could not be read. */
  lemma CompletedIsAsFetched(c: Batch, states: seq<State>, steps: seq<Step>, i: nat) returns (n: nat)
    requires FinishedRun(c, states, steps) && i < |c.files| && states[|steps|].workers[i].outcome.Completed?
    ensures IsOwn(steps, n, i) && steps[n].action.FetchReturns? && steps[n].action.result == Fetched
    ensures var s, content, server := states[|steps|], steps[n].action.content, steps[n].action.serverDigest;
      && (forall x :: x in s.results ==> x.index < |c.files|)
      && s.workers[i].path in s.disk && s.disk[s.workers[i].path] == content
      && (c.sha256 ==> server == None || server == Some(c.hash(content)))
      && c.files[i].path in ManifestAfter(c, s)
      && ManifestAfter(c, s)[c.files[i].path] ==
           Entry(c.files[i].mtime, c.files[i].size, s.workers[i].path,
                 if c.sha256 && server.Some? then c.hash(content) else "")
  {
    FileComesFromFetch(c, states, steps, |steps|, i);
    n :| 0 <= n < |steps| && IsOwn(steps, n, i) &&
      GaveFile(c, steps[n].action, states[|steps|].workers[i].content, states[|steps|].workers[i].digest);
    CompletedIsRecorded(c, states, steps, i);
    BatchPlaces.NoFileIsOverwrittenOrLost(c, states, steps, |steps|);
    assert BatchPlaces.InPlace(states[|steps|].workers[i]);
  }

  // ---- How often a file is fetched ------------------------------------------------------------

  /** How many calls of fetch have returned to worker i in the first k steps. */
  function Returns(steps: seq<Step>, k: nat, i: nat): nat
    requires k <= |steps|
  {
    if k == 0 then 0
    else Returns(steps, k - 1, i) + if IsOwn(steps, k - 1, i) && steps[k - 1].action.FetchReturns? then 1 else 0
  }

  /** The worker's attempt number is the number of returns, or one more inside fetch. */
  predicate CountFits(c: Batch, w: Worker, r: nat) {
    && (w.pc.Unsubmitted? || w.pc.Starting? ==> r == 0)
    && (w.pc.Fetching? ==> r == w.attempt - 1)
    && (w.pc.Discarding? || w.pc.Backoff? ==> r == w.attempt)
    && r <= if c.maxAttempts < 1 then 1 else c.maxAttempts
  }

  lemma ActionKeepsCount(c: Batch, s: State, i: nat, a: Action, r: nat)
    requires |s.workers| == |c.localPaths| == |c.files| && CanAct(c, s, i, a) && BatchLedger.Sane(c, s.workers[i])
    requires CountFits(c, s.workers[i], r)
    ensures CountFits(c, WorkerAfter(c, s, i, a), r + if a.FetchReturns? then 1 else 0)
  {
  }

  /** In every run, no file is fetched more often than the configuration says, and at most
      once when it says less than one. */
  lemma {:induction false} FetchesAreBounded(c: Batch, states: seq<State>, steps: seq<Step>, k: nat, i: nat)
    requires IsRun(c, states, steps) && k < |states| && i < |c.files|
    ensures CountFits(c, states[k].workers[i], Returns(steps, k, i))
    ensures Returns(steps, k, i) <= if c.maxAttempts < 1 then 1 else c.maxAttempts
  {
    if k > 0 {
      FetchesAreBounded(c, states, steps, k - 1, i);
      WorkerMoves(c, states, steps, k - 1, i);
      if IsOwn(steps, k - 1, i) {
        ActionKeepsCount(c, states[k - 1], i, steps[k - 1].action, Returns(steps, k - 1, i));
      }
    }
  }

  /** A return that is worth another attempt: a transport failure, or bytes that do not hash
      to what the server's copy does. */
  predicate Repeatable(c: Batch, a: Action) {
    a.FetchReturns? &&
    (a.result == Transient ||
     (a.result == Fetched && c.sha256 && a.serverDigest.Some? && a.serverDigest.value != c.hash(a.content)))
  }

  /** How a worker takes each return of fetch. */
  lemma FetchIsJudged(c: Batch, states: seq<State>, steps: seq<Step>, n: nat, i: nat)
    requires IsRun(c, states, steps) && n < |steps| && i < |c.files|
    requires IsOwn(steps, n, i) && steps[n].action.FetchReturns?
    ensures var a, w := steps[n].action, states[n + 1].workers[i];
      && (Repeatable(c, a) ==> w.pc.Discarding? && w.outcome.Undecided?)
      && (a.result == Permanent ==> w.outcome.Failed?)
      && (a.result == Fetched && !Repeatable(c, a) ==> w.pc.Downloaded? && w.content == a.content)
  {
    WorkerMoves(c, states, steps, n, i);
  }

  lemma {:induction false} WorkerStands(c: Batch, states: seq<State>, steps: seq<Step>, n: nat, m: nat, i: nat)
    requires IsRun(c, states, steps) && n <= m < |states| && i < |c.files| && !states[n].workers[i].pc.Unsubmitted?
    requires forall p :: n <= p < m ==> !IsOwn(steps, p, i)
    ensures states[m].workers[i] == states[n].workers[i] && Returns(steps, m, i) == Returns(steps, n, i)
    decreases m
  {
    if n < m {
      WorkerStands(c, states, steps, n, m - 1, i);
      WorkerMoves(c, states, steps, m - 1, i);
    }
  }

  lemma {:induction false} FailedStaysFailed(c: Batch, states: seq<State>, steps: seq<Step>, n: nat, m: nat, i: nat)
    requires IsRun(c, states, steps) && n <= m < |states| && i < |c.files| && states[n].workers[i].outcome.Failed?
    ensures states[m].workers[i].outcome.Failed?
    decreases m
  {
    if n < m {
      FailedStaysFailed(c, states, steps, n, m - 1, i);
      WorkerMoves(c, states, steps, m - 1, i);
    }
  }

  /** After a return worth another attempt, at step n, the worker's next step m takes the
      bytes back. It then waits for another attempt exactly while the number of its returns
      is below what the configuration allows, and otherwise the file has failed for good. */
  lemma RepeatedWhileAttemptsAreLeft(c: Batch, states: seq<State>, steps: seq<Step>, n: nat, m: nat, i: nat)
    requires IsRun(c, states, steps) && n < m < |steps| && i < |c.files|
    requires IsOwn(steps, n, i) && Repeatable(c, steps[n].action)
    requires IsOwn(steps, m, i) && forall p :: n < p < m ==> !IsOwn(steps, p, i)
    ensures steps[m].action.DiscardAttempt?
    ensures if Returns(steps, m, i) < (if c.maxAttempts < 1 then 1 else c.maxAttempts)
      then states[m + 1].workers[i].pc.Backoff? && states[m + 1].workers[i].outcome.Undecided?
      else forall q :: m < q < |states| ==> states[q].workers[i].outcome.Failed?
  {
    FetchIsJudged(c, states, steps, n, i);
    WorkerStands(c, states, steps, n + 1, m, i);
    FetchesAreBounded(c, states, steps, m, i);
    WorkerMoves(c, states, steps, m, i);
    if states[m + 1].workers[i].outcome.Failed? {
      forall q | m < q < |states| ensures states[q].workers[i].outcome.Failed? {
        FailedStaysFailed(c, states, steps, m + 1, q, i);
      }
    }
  }

  /** A worker whose wait is over fetches again; one that gives up has failed. */
  lemma WaitLeadsToFetch(c: Batch, states: seq<State>, steps: seq<Step>, n: nat, i: nat)
    requires IsRun(c, states, steps) && n < |steps| && i < |c.files|
    ensures steps[n] == Work(i, Wake) ==> states[n].workers[i].pc.Backoff? && states[n + 1].workers[i].pc.Fetching?
    ensures steps[n] == Work(i, GiveUp) ==> states[n].workers[i].pc.Backoff? && states[n + 1].workers[i].outcome.Failed?
  {
    WorkerMoves(c, states, steps, n, i);
  }

  // ---- Which outcome a policy gives -------------------------------------------------------------

  /** Only the skip policy skips, and it never fails a file for its destination. */
  predicate OutcomeFits(c: Batch, w: Worker) {
    && (w.outcome.Skipped? ==> c.policy == SkipPolicy && w.turnedAway)
    && (w.turnedAway && c.policy == SkipPolicy ==> w.outcome.Skipped?)
  }

  lemma ActionKeepsOutcome(c: Batch, s: State, i: nat, a: Action)
    requires |s.workers| == |c.localPaths| == |c.files| && CanAct(c, s, i, a) && BatchLedger.Sane(c, s.workers[i])
    requires OutcomeFits(c, s.workers[i])
    ensures OutcomeFits(c, WorkerAfter(c, s, i, a))
  {
  }

  /** In every run: under the error and the rename policy no file is skipped, and under the
      skip policy no file fails because its destination is taken. */
  lemma {:induction false} PolicyDecidesOutcome(c: Batch, states: seq<State>, steps: seq<Step>, k: nat, i: nat)
    requires IsRun(c, states, steps) && k < |states| && i < |c.files|
    ensures OutcomeFits(c, states[k].workers[i])
    ensures var w := states[k].workers[i];
      && (c.policy == ErrorPolicy || c.policy == RenamePolicy ==> !w.outcome.Skipped?)
      && (c.policy == SkipPolicy ==> !(w.outcome.Failed? && w.turnedAway))
  {
    if k > 0 {
      PolicyDecidesOutcome(c, states, steps, k - 1, i);
      WorkerMoves(c, states, steps, k - 1, i);
      if IsOwn(steps, k - 1, i) {
        ActionKeepsOutcome(c, states[k - 1], i, steps[k - 1].action);
      }
    }
  }
}
