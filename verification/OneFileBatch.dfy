/** A batch of one file followed from its start to its end: the smallest runs there are,
    from which concrete examples are built.  */
module OneFileBatch {
  import opened Paths
  import opened Options
  import opened Destinations
  import opened StatusBoard
  import opened Transfer
  import opened Batch

  // ---- States that some run reaches -----------------------------------------------------

  ghost predicate Reaches(c: Batch, s: State) {
    exists states, steps :: IsRun(c, states, steps) && states[|steps|] == s
  }

  lemma ReachesStart(c: Batch, status: Status, paused: bool, cancelled: bool)
    requires ValidBatch(c)
    ensures Reaches(c, Start(c, status, paused, cancelled))
  {
    var states, steps: seq<Step> := [Start(c, status, paused, cancelled)], [];
    assert IsRun(c, states, steps) && states[|steps|] == states[0];
  }

  lemma ReachesNext(c: Batch, s: State, step: Step)
    requires Reaches(c, s) && |s.workers| == |c.localPaths| == |c.files| && Enabled(c, s, step)
    ensures Reaches(c, Do(c, s, step))
  {
    var states, steps :| IsRun(c, states, steps) && states[|steps|] == s;
    var states', steps' := states + [Do(c, s, step)], steps + [step];
    forall k | 0 <= k < |steps'| ensures Goes(c, states', steps', k) {
      if k < |steps| {
        assert Goes(c, states, steps, k) && steps'[k] == steps[k];
        assert states'[k] == states[k] && states'[k + 1] == states[k + 1];
      }
    }
    assert states'[0] == states[0];
    assert IsRun(c, states', steps') && states'[|steps'|] == Do(c, s, step);
  }

  // ---- One file, from its start to the end of its batch -----------------------------------

  /** A batch of one file, started with a live, active job. */
  ghost predicate OneFile(c: Batch) {
    ValidBatch(c) && |c.files| == 1 && !c.sha256
  }

  /** What resolution answers before anything has happened in the batch. */
  function FirstAnswer(c: Batch, desired: Path): Resolution
    requires |c.files| == 1
  {
    Choose(c.table, c.disk.Keys, c.policy, c.files[0].path, desired)
  }

  /** The file may be asked a place at `desired`; in a flat batch it has got one. */
  ghost predicate MayAsk(c: Batch, desired: Path)
    requires |c.files| == |c.localPaths| == 1
  {
    c.flat ==> desired == c.localPaths[0] && FirstAnswer(c, desired).Placed?
  }

  lemma ReachesWork(c: Batch, s: State, a: Action, s': State)
    requires OneFile(c) && Reaches(c, s) && |s.workers| == 1 && CanAct(c, s, 0, a)
    requires s' == Act(c, s, 0, a)
    ensures Reaches(c, s')
  {
    ReachesNext(c, s, Work(0, a));
  }

  /** The file in the hands of its worker, with so many bytes counted. */
  function InHand(c: Batch, w: Worker, t: Table): State
    requires |c.files| == 1
  {
    var s := Start(c, INITIAL, false, false);
    s.(attempted := 1, slots := 1, workers := [w], table := t, status := s.status.(bytesCompleted := w.reported))
  }

  const STARTING: Worker := IDLE.(pc := Starting)
  const FETCHING: Worker := IDLE.(pc := Fetching, attempt := 1)

  lemma FileIsStarting(c: Batch)
    requires OneFile(c)
    ensures Reaches(c, InHand(c, STARTING, c.table))
  {
    var s0 := Start(c, INITIAL, false, false);
    ReachesStart(c, INITIAL, false, false);
    var s1 := s0.(main := Submitting, attempted := 1);
    assert s1 == Do(c, s0, Check);
    ReachesNext(c, s0, Check);
    assert s1.workers[0 := STARTING] == [STARTING];
    assert InHand(c, STARTING, c.table) == Do(c, s1, Submit);
    ReachesNext(c, s1, Submit);
  }

  /** The table while the file is transferred: in a flat batch it holds its claim. */
  function TableThen(c: Batch, desired: Path): Table
    requires |c.files| == 1
  {
    if c.flat then AfterChoose(c.table, c.disk.Keys, c.policy, c.files[0].path, desired) else c.table
  }

  function EarlyThen(c: Batch, desired: Path): Path
    requires |c.files| == |c.localPaths| == 1 && MayAsk(c, desired)
  {
    if c.flat then FirstAnswer(c, desired).path else ""
  }

  lemma FileIsFetching(c: Batch, desired: Path)
    requires OneFile(c) && MayAsk(c, desired)
    ensures Reaches(c, InHand(c, FETCHING.(early := EarlyThen(c, desired)), TableThen(c, desired)))
  {
    FileIsStarting(c);
    var w := FETCHING.(early := EarlyThen(c, desired));
    assert [STARTING][0 := w] == [w];
    ReachesWork(c, InHand(c, STARTING, c.table), ResolveEarly, InHand(c, w, TableThen(c, desired)));
  }

  /** The worker once the file is staged, the server's copy being unread. */
  function StagedWorker(content: Content, early: Path): Worker {
    FETCHING.(pc := Downloaded, copied := |content|, reported := |content|, content := content, early := early)
  }

  function StagedState(c: Batch, content: Content, desired: Path): State
    requires |c.files| == |c.localPaths| == 1 && MayAsk(c, desired)
  {
    InHand(c, StagedWorker(content, EarlyThen(c, desired)), TableThen(c, desired))
  }

  lemma FileIsStaged(c: Batch, content: Content, desired: Path)
    requires OneFile(c) && MayAsk(c, desired)
    ensures Reaches(c, StagedState(c, content, desired))
  {
    var n, t := |content|, TableThen(c, desired);
    FileIsFetching(c, desired);
    var fetching := FETCHING.(early := EarlyThen(c, desired));
    var copied := fetching.(copied := n, reported := n);
    assert [fetching][0 := copied] == [copied];
    ReachesWork(c, InHand(c, fetching, t), Write(n, true), InHand(c, copied, t));
    var staged := StagedWorker(content, EarlyThen(c, desired));
    assert [copied][0 := staged] == [staged];
    ReachesWork(c, InHand(c, copied, t), FetchReturns(Fetched, content, None), InHand(c, staged, t));
  }

  /** The end of a batch of one file whose outcome is decided in `s`. */
  function Ended(s: State): State
    requires |s.workers| == 1
  {
    var w := s.workers[0];
    s.(workers := [w.(pc := Gone)], status := StatusAfter(s.status, w, Settle), slots := 0, main := Finished,
       results := [Report(0, w.outcome, w.path, w.digest)])
  }

  predicate Deciding(s: State) {
    && |s.workers| == 1 && s.workers[0].pc.Settling?
    && s.results == [] && s.attempted == 1 && s.main.Checking? && s.slots == 1
  }

  /** The file's outcome is recorded and sent. */
  function Sent(s: State): State
    requires |s.workers| == 1
  {
    var w := s.workers[0];
    s.(workers := [w.(pc := Leaving)], status := StatusAfter(s.status, w, Settle),
       results := [Report(0, w.outcome, w.path, w.digest)])
  }

  lemma FileIsSent(c: Batch, s: State)
    requires OneFile(c) && Reaches(c, s) && Deciding(s)
    ensures Reaches(c, Sent(s))
  {
    var w := s.workers[0];
    var settled := Sent(s).(workers := [w.(pc := Sending)], results := []);
    assert s.workers[0 := w.(pc := Sending)] == settled.workers;
    ReachesWork(c, s, Settle, settled);
    assert settled.workers[0 := w.(pc := Leaving)] == Sent(s).workers && [] + Sent(s).results == Sent(s).results;
    ReachesWork(c, settled, Send, Sent(s));
  }

  /** From the decision on its outcome, the file is recorded, reported and retired, and
      the batch ends. */
  lemma BatchIsFinished(c: Batch, s: State)
    requires OneFile(c) && Reaches(c, s) && Deciding(s)
    ensures Reaches(c, Ended(s))
  {
    FileIsSent(c, s);
    var gone := Ended(s).(main := Checking);
    assert Sent(s).workers[0 := gone.workers[0]] == gone.workers;
    ReachesWork(c, Sent(s), Leave, gone);
    PoolIsClosed(c, gone);
  }

  lemma PoolIsClosed(c: Batch, s: State)
    requires OneFile(c) && Reaches(c, s) && |s.workers| == 1 && s.workers[0].pc.Gone?
    requires s.attempted == 1 && s.main.Checking?
    ensures Reaches(c, s.(main := Finished))
  {
    ReachesNext(c, s, Check);
    assert Do(c, s, Check) == s.(main := Draining);
    ReachesNext(c, s.(main := Draining), Finish);
  }

  /** What a resolution that hands out nothing makes of a staged file. */
  lemma TurnedAwayIsDeciding(c: Batch, staged: State, desired: Path) returns (w: Worker)
    requires OneFile(c) && !c.flat && |staged.workers| == 1 && staged.workers[0].pc.Downloaded?
    requires !Choose(staged.table, staged.disk.Keys, c.policy, c.files[0].path, desired).Placed?
    ensures Act(c, staged, 0, ResolveFinal(desired)) == staged.(workers := [w])
    ensures w.pc.Settling? && w.turnedAway && (w.outcome.Failed? || w.outcome.Skipped?)
  {
    w := WorkerAfter(c, staged, 0, ResolveFinal(desired));
    assert staged.workers[0 := w] == [w];
  }

  lemma TurnedAwayKeepsBytes(s: State)
    requires |s.workers| == 1 && s.workers[0].turnedAway && s.status.bytesCompleted >= 0
    requires s.workers[0].outcome.Failed? || s.workers[0].outcome.Skipped?
    ensures Ended(s).status.bytesCompleted == s.status.bytesCompleted && Ended(s).status.completed == s.status.completed
  {
  }

  /** A dated file whose destination is refused: its bytes stay in the counter for good. */
  lemma TurnedAwayFileStrandsItsBytes(c: Batch, content: Content, desired: Path) returns (s: State)
    requires OneFile(c) && !c.flat && !FirstAnswer(c, desired).Placed?
    ensures Reaches(c, s) && s.main.Finished? && |s.workers| == 1
    ensures s.status.completed == 0 && s.status.bytesCompleted == |content|
    ensures !s.workers[0].outcome.Completed? && s.disk == c.disk
  {
    FileIsStaged(c, content, desired);
    var staged := StagedState(c, content, desired);
    var w := TurnedAwayIsDeciding(c, staged, desired);
    ReachesWork(c, staged, ResolveFinal(desired), staged.(workers := [w]));
    var decided := staged.(workers := [w]);
    BatchIsFinished(c, decided);
    TurnedAwayKeepsBytes(decided);
    s := Ended(decided);
  }

  /** The second resolution answers what the first would have, or did. */
  lemma LaterAnswerIsFirst(c: Batch, desired: Path)
    requires OneFile(c) && MayAsk(c, desired) && FirstAnswer(c, desired).Placed?
    ensures Choose(TableThen(c, desired), c.disk.Keys, c.policy, c.files[0].path, desired) == FirstAnswer(c, desired)
  {
    if c.flat {
      var t := TableThen(c, desired);
      ResolveAgain(c.table, c.disk.Keys, c.policy, c.files[0].path, desired, t, c.disk.Keys);
    }
  }

  /** A file that is placed: its content is on disk under the path it was given. */
  lemma PlacedFileIsRenamed(c: Batch, content: Content, desired: Path) returns (s: State)
    requires OneFile(c) && MayAsk(c, desired) && FirstAnswer(c, desired).Placed?
    ensures Reaches(c, s) && Deciding(s)
    ensures s.workers[0].outcome.Completed? && s.workers[0].path == FirstAnswer(c, desired).path
    ensures s.workers[0].digest == "" && s.disk == c.disk[FirstAnswer(c, desired).path := content]
  {
    FileIsStaged(c, content, desired);
    LaterAnswerIsFirst(c, desired);
    var staged := StagedState(c, content, desired);
    var destined := Act(c, staged, 0, ResolveFinal(desired));
    ReachesWork(c, staged, ResolveFinal(desired), destined);
    s := Act(c, destined, 0, Rename);
    ReachesWork(c, destined, Rename, s);
  }

  /** And it is reported so when the batch ends. */
  lemma PlacedFileIsReported(c: Batch, content: Content, desired: Path) returns (s: State)
    requires OneFile(c) && MayAsk(c, desired) && FirstAnswer(c, desired).Placed?
    ensures Reaches(c, s) && s.main.Finished?
    ensures s.results == [Report(0, Completed, FirstAnswer(c, desired).path, "")]
    ensures s.disk == c.disk[FirstAnswer(c, desired).path := content]
  {
    var renamed := PlacedFileIsRenamed(c, content, desired);
    BatchIsFinished(c, renamed);
    s := Ended(renamed);
  }
}
