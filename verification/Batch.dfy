/** One download batch: the submitting loop, the workers it starts, and everything they
    share. Each step is what one goroutine does between two points at which another may
    act; a run is any interleaving of such steps.  */
module Batch {
  import opened Paths
  import opened Records
  import opened Destinations
  import opened StatusBoard
  import opened Options
  import opened Transfer
  import Retry

  type Content = seq<bv8>

  /** What a batch starts from. `localPaths[i]` is where file i goes when its capture
      date does not matter; with a flat folder structure it never does. `hash` is the
      content digest, computed only in sha256 mode. */
  datatype Batch = Batch(
    files: seq<RemoteFile>,
    localPaths: seq<Path>,
    flat: bool,
    policy: Policy,
    workers: nat,
    maxAttempts: int,
    sha256: bool,
    hash: Content -> string,
    manifest: Entries,
    table: Table,
    disk: map<Path, Content>)

  ghost predicate ValidBatch(c: Batch) {
    && |c.localPaths| == |c.files|
    && (forall i, j :: 0 <= i < j < |c.files| ==> c.files[i].path != c.files[j].path)
    && c.workers >= 1
    && FreshTable(c.table, c.manifest)
  }

  datatype Pc =
    | Unsubmitted  // not started
    | Starting     // running, nothing resolved
    | Fetching     // inside fetch
    | Discarding   // fetch failed transiently, its bytes still counted
    | Backoff      // waiting for the next attempt
    | Downloaded   // holds a complete staging file
    | Destined     // holds a destination, has not renamed
    | Settling     // outcome decided, not recorded
    | Sending      // recorded, not reported
    | Leaving      // reported, still holds its slot
    | Gone

  datatype Outcome = Undecided | Completed | Skipped | Failed

  /** `left` is what remains of the worker's wait before its next attempt. `copied` and
      `reported` are the file's progress; `early` is what the resolution
      before the transfer answered; `turnedAway` marks an outcome decided by resolution,
      for which no bytes are taken back. */
  datatype Worker = Worker(
    pc: Pc,
    attempt: nat,
    left: int,
    copied: int,
    reported: int,
    early: Path,
    content: Content,
    digest: string,
    path: Path,
    outcome: Outcome,
    turnedAway: bool)

  const IDLE: Worker := Worker(Unsubmitted, 0, 0, 0, 0, "", [], "", "", Undecided, false)

  datatype Main = Checking | Submitting | Draining | Finished

  /** What a worker sends on the results channel. */
  datatype Report = Report(index: nat, outcome: Outcome, path: Path, digest: string)

  /** `written` and `sawPause` are history: who renamed onto a path, and whether the
      submitting loop ever read the flag as set. */
  datatype State = State(
    workers: seq<Worker>,
    status: Status,
    table: Table,
    disk: map<Path, Content>,
    written: map<Path, nat>,
    results: seq<Report>,
    attempted: nat,
    main: Main,
    slots: nat,
    paused: bool,
    cancelled: bool,
    sawPause: bool)

  function Bytes(files: seq<RemoteFile>): int {
    if files == [] then 0 else files[0].size + Bytes(files[1..])
  }

  /** Adding the files up one after another, as a cycle does. */
  lemma {:induction false} BytesAddUp(files: seq<RemoteFile>, f: RemoteFile)
    ensures Bytes([]) == 0 && Bytes(files + [f]) == Bytes(files) + f.size
    decreases |files|
  {
    if files != [] {
      assert (files + [f])[1..] == files[1..] + [f];
      BytesAddUp(files[1..], f);
    }
  }

  function Start(c: Batch, status: Status, paused: bool, cancelled: bool): State {
    State(seq(|c.files|, _ => IDLE), BeginDownload(status, |c.files|, Bytes(c.files)), c.table, c.disk, map[],
          [], 0, Checking, 0, paused, cancelled, false)
  }

  /** `serverDigest` is what the server's copy hashes to, when it can be read again. */
  datatype Action =
    | ResolveEarly
    | Write(bytes: nat, emitted: bool)
    | FetchReturns(result: FetchResult, content: Content, serverDigest: Option<string>)
    | DiscardAttempt(jitter: Retry.Jitter)
    | TimePasses(time: nat)
    | Wake
    | GiveUp
    | ResolveFinal(desired: Path)
    | PlacementFails
    | Rename
    | Settle
    | Send
    | Leave

  datatype Step =
    | Check
    | Submit
    | Finish
    | Work(index: nat, action: Action)
    | PauseChanges(paused: bool)
    | Cancelled

  function RemoteOf(c: Batch, i: nat): Remote
    requires i < |c.files|
  {
    c.files[i].path
  }

  predicate Retired(w: Worker) { w.pc.Unsubmitted? || w.pc.Gone? }

  predicate CanAct(c: Batch, s: State, i: nat, a: Action)
    requires |s.workers| == |c.localPaths| == |c.files|
  {
    i < |s.workers| &&
    var w := s.workers[i];
    match a
    case ResolveEarly => w.pc.Starting?
    case Write(_, _) => w.pc.Fetching?
    case FetchReturns(_, _, _) => w.pc.Fetching?
    case DiscardAttempt(_) => w.pc.Discarding?
    // A wait ends by the timer or by the context, whichever comes first. Waking takes the
    // last stretch of it. Where both have come by the time the worker looks, a wake that
    // wins is a step taken before the cancellation: nothing else sees the difference.
    case TimePasses(time) => w.pc.Backoff? && !s.cancelled && 0 < time < w.left
    case Wake => w.pc.Backoff? && !s.cancelled
    case GiveUp => w.pc.Backoff? && s.cancelled
    case ResolveFinal(desired) => w.pc.Downloaded? && (c.flat ==> desired == c.localPaths[i])
    case PlacementFails => w.pc.Destined?
    case Rename => w.pc.Destined?
    case Settle => w.pc.Settling?
    case Send => w.pc.Sending? && |s.results| < |c.files|
    case Leave => w.pc.Leaving?
  }

  predicate Enabled(c: Batch, s: State, step: Step)
    requires |s.workers| == |c.localPaths| == |c.files|
  {
    match step
    case Check => s.main.Checking?
    case Submit => s.main.Submitting? && s.slots < c.workers && 1 <= s.attempted <= |s.workers|
    case Finish => s.main.Draining? && forall w :: w in s.workers ==> Retired(w)
    case Work(i, a) => CanAct(c, s, i, a)
    case PauseChanges(_) => true
    case Cancelled => true
  }

  function Answer(c: Batch, s: State, i: nat, desired: Path): Resolution
    requires i < |c.files|
  {
    Choose(s.table, s.disk.Keys, c.policy, RemoteOf(c, i), desired)
  }

  function Decide(w: Worker, outcome: Outcome): Worker {
    w.(pc := Settling, outcome := outcome)
  }

  /** The worker's own next state. */
  function WorkerAfter(c: Batch, s: State, i: nat, a: Action): Worker
    requires |s.workers| == |c.localPaths| == |c.files| && CanAct(c, s, i, a)
  {
    var w := s.workers[i];
    match a
    case ResolveEarly =>
      if !c.flat then w.(pc := Fetching, attempt := 1)
      else (match Answer(c, s, i, c.localPaths[i])
            case Placed(path) => w.(pc := Fetching, attempt := 1, early := path)
            case LeftAlone => Decide(w, Skipped).(turnedAway := true)
            case Refused => Decide(w, Failed).(turnedAway := true))
    case Write(n, emitted) =>
      w.(copied := w.copied + n, reported := if emitted then w.copied + n else w.reported)
    case FetchReturns(result, content, serverDigest) =>
      var flushed := w.(reported := w.copied);
      (match result
       case Fetched =>
         if !c.sha256 || serverDigest.None? then flushed.(pc := Downloaded, content := content, digest := "")
         else if c.hash(content) != serverDigest.value then flushed.(pc := Discarding)
         else flushed.(pc := Downloaded, content := content, digest := c.hash(content))
       case Permanent => Decide(flushed, Failed)
       case Transient => flushed.(pc := Discarding))
    case DiscardAttempt(jitter) =>
      var clean := w.(copied := 0, reported := 0);
      if w.attempt < Budget(c.maxAttempts) then clean.(pc := Backoff, left := Retry.Delay(w.attempt + 1, jitter))
      else Decide(clean, Failed)
    case TimePasses(time) => w.(left := w.left - time)
    case Wake => w.(pc := Fetching, attempt := w.attempt + 1, left := 0)
    case GiveUp => Decide(w, Failed)
    case ResolveFinal(desired) =>
      (match Answer(c, s, i, desired)
       case Placed(path) => w.(pc := Destined, path := path)
       case LeftAlone => Decide(w, Skipped).(turnedAway := true)
       case Refused => Decide(w, Failed).(turnedAway := true))
    case PlacementFails => Decide(w, Failed)
    case Rename => Decide(w, Completed)
    case Settle => w.(pc := Sending)
    case Send => w.(pc := Leaving)
    case Leave => w.(pc := Gone)
  }

  /** What the action does to the shared status, under its mutex. */
  function StatusAfter(st: Status, w: Worker, a: Action): Status {
    match a
    case Write(n, emitted) => if emitted then RecordBytes(st, w.copied + n - w.reported) else st
    case FetchReturns(_, _, _) => RecordBytes(st, w.copied - w.reported)
    case DiscardAttempt(_) => DiscardBytes(st, w.copied)
    case Settle =>
      if w.outcome.Completed? then RecordFileResult(st, true, w.copied)
      else if w.outcome.Skipped? then RecordSkipped(st)
      else RecordFileResult(st, false, if w.turnedAway then 0 else w.copied)
    case _ => st
  }

  function TableAfter(c: Batch, s: State, i: nat, a: Action): Table
    requires |s.workers| == |c.localPaths| == |c.files| && i < |c.files|
  {
    match a
    case ResolveEarly =>
      if c.flat then AfterChoose(s.table, s.disk.Keys, c.policy, RemoteOf(c, i), c.localPaths[i]) else s.table
    case ResolveFinal(desired) => AfterChoose(s.table, s.disk.Keys, c.policy, RemoteOf(c, i), desired)
    case _ => s.table
  }

  function Act(c: Batch, s: State, i: nat, a: Action): State
    requires |s.workers| == |c.localPaths| == |c.files| && CanAct(c, s, i, a)
  {
    var w := s.workers[i];
    s.(workers := s.workers[i := WorkerAfter(c, s, i, a)],
       status := StatusAfter(s.status, w, a),
       table := TableAfter(c, s, i, a),
       disk := if a.Rename? then s.disk[w.path := w.content] else s.disk,
       written := if a.Rename? then s.written[w.path := i] else s.written,
       results := if a.Send? then s.results + [Report(i, w.outcome, w.path, w.digest)] else s.results,
       slots := if a.Leave? && s.slots > 0 then s.slots - 1 else s.slots)
  }

  function Do(c: Batch, s: State, step: Step): (s': State)
    requires |s.workers| == |c.localPaths| == |c.files| && Enabled(c, s, step)
    ensures |s'.workers| == |s.workers|
  {
    match step
    case Check =>
      if s.attempted >= |c.files| then s.(main := Draining)
      else if s.cancelled || s.paused then s.(main := Draining, sawPause := s.sawPause || s.paused)
      else s.(main := Submitting, attempted := s.attempted + 1)
    case Submit =>
      var i := s.attempted - 1;
      s.(main := Checking, slots := s.slots + 1, workers := s.workers[i := s.workers[i].(pc := Starting)])
    case Finish => s.(main := Finished)
    case Work(i, a) => Act(c, s, i, a)
    case PauseChanges(paused) => s.(paused := paused)
    case Cancelled => s.(cancelled := true)
  }

  /** Files whose goroutine has been started. */
  function Launched(s: State): int { s.attempted - if s.main.Submitting? then 1 else 0 }

  /** Step k leads from state k to the next. */
  predicate Goes(c: Batch, states: seq<State>, steps: seq<Step>, k: nat) {
    && k < |steps| && k + 1 < |states|
    && |states[k].workers| == |c.localPaths| == |c.files| == |states[k + 1].workers|
    && Enabled(c, states[k], steps[k]) && states[k + 1] == Do(c, states[k], steps[k])
  }

  /** A run of the batch from its start, in any order of steps. */
  ghost predicate IsRun(c: Batch, states: seq<State>, steps: seq<Step>) {
    && ValidBatch(c)
    && |states| == |steps| + 1
    && (exists st, p, x :: states[0] == Start(c, st, p, x))
    && (forall k :: 0 <= k < |states| ==> |states[k].workers| == |c.files|)
    && (forall k :: 0 <= k < |steps| ==> Goes(c, states, steps, k))
  }

  // ---- Sums over the workers -----------------------------------------------------

  function Total(ws: seq<Worker>, f: Worker -> int): int
    decreases |ws|
  {
    if ws == [] then 0 else Total(ws[..|ws| - 1], f) + f(ws[|ws| - 1])
  }

  lemma {:induction false} TotalUpdate(ws: seq<Worker>, i: nat, w: Worker, f: Worker -> int)
    requires i < |ws|
    ensures Total(ws[i := w], f) == Total(ws, f) - f(ws[i]) + f(w)
    decreases |ws|
  {
    var last := |ws| - 1;
    if i == last {
      assert ws[i := w][..last] == ws[..last];
    } else {
      assert ws[i := w][..last] == ws[..last][i := w];
      TotalUpdate(ws[..last], i, w, f);
    }
  }

  /** A sum of non-negative terms is at least any of them. */
  lemma {:induction false} TotalAtLeast(ws: seq<Worker>, i: nat, f: Worker -> int)
    requires forall w :: w in ws ==> 0 <= f(w)
    ensures 0 <= Total(ws, f)
    ensures i < |ws| ==> f(ws[i]) <= Total(ws, f)
    decreases |ws|
  {
    if ws != [] {
      TotalAtLeast(ws[..|ws| - 1], i, f);
    }
  }

  /** A count of some of the workers, at least one of which is not counted. */
  lemma {:induction false} TotalBelow(ws: seq<Worker>, i: nat, f: Worker -> int)
    requires forall w :: w in ws ==> f(w) <= 1
    ensures Total(ws, f) <= |ws|
    ensures i < |ws| && f(ws[i]) <= 0 ==> Total(ws, f) < |ws|
    decreases |ws|
  {
    if ws != [] {
      TotalBelow(ws[..|ws| - 1], i, f);
    }
  }

  lemma {:induction false} TotalZero(ws: seq<Worker>, f: Worker -> int)
    requires forall w :: w in ws ==> f(w) == 0
    ensures Total(ws, f) == 0
    decreases |ws|
  {
    if ws != [] {
      TotalZero(ws[..|ws| - 1], f);
    }
  }

  lemma {:induction false} TotalAdd(ws: seq<Worker>, f: Worker -> int, g: Worker -> int, h: Worker -> int)
    requires forall w :: w in ws ==> h(w) == f(w) + g(w)
    ensures Total(ws, h) == Total(ws, f) + Total(ws, g)
    decreases |ws|
  {
    if ws != [] {
      TotalAdd(ws[..|ws| - 1], f, g, h);
    }
  }

  lemma {:induction false} TotalMonotone(ws: seq<Worker>, f: Worker -> int, g: Worker -> int)
    requires forall w :: w in ws ==> f(w) <= g(w)
    ensures Total(ws, f) <= Total(ws, g)
    decreases |ws|
  {
    if ws != [] {
      TotalMonotone(ws[..|ws| - 1], f, g);
    }
  }

  lemma TotalSame(ws: seq<Worker>, f: Worker -> int, g: Worker -> int)
    requires forall w :: w in ws ==> f(w) == g(w)
    ensures Total(ws, f) == Total(ws, g)
  {
    TotalMonotone(ws, f, g);
    TotalMonotone(ws, g, f);
  }
}
