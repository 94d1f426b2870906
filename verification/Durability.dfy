/** One job with its manifest file, when the process may die between any two steps: a
    destination the file records is one that exists.  */
module Durability {
  import opened Paths
  import opened Records
  import opened Options
  import opened StatusBoard
  import opened Destinations
  import opened Batch
  import opened BatchResults
  import opened Cycles
  import BatchLedger

  /** What a job's configuration fixes for all its cycles. */
  datatype Config = Config(job: Job, flat: bool, policy: Policy, sha256: bool)

  predicate Configured(cfg: Config, c: Batch) {
    && c.flat == cfg.flat && c.policy == cfg.policy && c.sha256 == cfg.sha256
    && |c.localPaths| == |c.files|
    && (forall i :: 0 <= i < |c.files| ==> c.localPaths[i] == cfg.job.localPath(c.files[i].path))
  }

  /** What is at a path; `digest` is what reading it to hash it gives, if it can be read. */
  function Held(disk: map<Path, Content>, p: Path, digest: Option<string>): Local {
    if p in disk then Present(|disk[p]|, digest) else Missing
  }

  /** What the check for adoption says of a file, `server` being the remote digest. */
  function Look(cfg: Config, disk: map<Path, Content>, file: RemoteFile, digest: Option<string>,
                server: Option<string>): Adoption
  {
    Adoptable(Held(disk, cfg.job.localPath(file.path), digest), file.size, cfg.sha256, server)
  }

  datatype Then = ThenDecide(files: seq<RemoteFile>) | ThenRest

  datatype Pc =
    | Down
    | Resting
    | Selecting(todo: seq<RemoteFile>, sel: Selection)
    | Saving(then_: Then)
    | Replacing(then_: Then)
    | Deciding(files: seq<RemoteFile>)
    | InBatch(batch: Batch, state: State)
    | Applying(files: seq<RemoteFile>, reports: seq<Report>)

  /** `stored` is what the manifest file holds, `temp` what is in the file beside it. */
  datatype World = World(
    pc: Pc,
    disk: map<Path, Content>,
    memory: Entries,
    stored: Entries,
    temp: Option<Entries>)

  datatype Event =
    | Boot
    | BeginCycle(files: seq<RemoteFile>)
    | InspectNext(digest: Option<string>, server: Option<string>)
    | StopSelecting
    | WriteTemp(ok: bool, left: Option<Entries>)
    | ReplaceFile(ok: bool)
    | StartBatch(batch: Batch, status: Status, paused: bool, cancelled: bool)
    | SkipBatch
    | BatchStep(step: Step)
    | BatchOver
    | ApplyNext
    | ApplyOver
    | Crash(left: Option<Entries>)
    | OutsideWrites(path: Path, content: Content)

  ghost predicate Possible(cfg: Config, w: World, e: Event) {
    match e
    case Boot => w.pc.Down?
    case BeginCycle(_) => w.pc.Resting?
    case InspectNext(_, _) => w.pc.Selecting? && w.pc.todo != []
    case StopSelecting => w.pc.Selecting?
    case WriteTemp(_, _) => w.pc.Saving?
    case ReplaceFile(_) => w.pc.Replacing?
    case StartBatch(batch, _, _, _) =>
      && w.pc.Deciding? && ValidBatch(batch) && Configured(cfg, batch)
      && batch.files == w.pc.files && batch.manifest == w.memory && batch.disk == w.disk
    case SkipBatch => w.pc.Deciding?
    case BatchStep(step) =>
      w.pc.InBatch? && |w.pc.state.workers| == |w.pc.batch.localPaths| == |w.pc.batch.files| &&
      Enabled(w.pc.batch, w.pc.state, step)
    case BatchOver => w.pc.InBatch? && w.pc.state.main.Finished?
    case ApplyNext => w.pc.Applying? && w.pc.reports != [] && w.pc.reports[0].index < |w.pc.files|
    case ApplyOver => w.pc.Applying? && w.pc.reports == []
    case Crash(_) => true
    case OutsideWrites(_, _) => true
  }

  function After(then_: Then): Pc {
    match then_ case ThenDecide(files) => Deciding(files) case ThenRest => Resting
  }

  ghost function Next(cfg: Config, w: World, e: Event): World
    requires Possible(cfg, w, e)
  {
    match e
    case Boot => w.(pc := Resting, memory := w.stored)
    case BeginCycle(files) => w.(pc := Selecting(files, Selection(w.memory, [], 0)))
    case InspectNext(digest, server) =>
      var sel := Inspect(cfg.job, w.pc.sel, w.pc.todo[0], Look(cfg, w.disk, w.pc.todo[0], digest, server));
      w.(pc := Selecting(w.pc.todo[1..], sel), memory := sel.entries)
    case StopSelecting => w.(pc := Saving(ThenDecide(w.pc.sel.chosen)))
    case WriteTemp(ok, left) =>
      if ok then w.(temp := Some(w.memory), pc := Replacing(w.pc.then_))
      else w.(temp := left, pc := After(w.pc.then_))
    case ReplaceFile(ok) =>
      if ok && w.temp.Some? then w.(stored := w.temp.value, temp := None, pc := After(w.pc.then_))
      else w.(pc := After(w.pc.then_))
    case StartBatch(batch, status, paused, cancelled) =>
      w.(pc := InBatch(batch, Start(batch, status, paused, cancelled)))
    case SkipBatch => w.(pc := Resting)
    case BatchStep(step) =>
      var s := Do(w.pc.batch, w.pc.state, step);
      w.(pc := InBatch(w.pc.batch, s), disk := s.disk)
    case BatchOver => w.(pc := Applying(w.pc.batch.files, w.pc.state.results))
    case ApplyNext =>
      var r := w.pc.reports[0];
      w.(pc := Applying(w.pc.files, w.pc.reports[1..]),
         memory :=
           if r.outcome.Completed?
           then w.memory[w.pc.files[r.index].path := EntryFor(w.pc.files[r.index], r.path, r.digest)]
           else w.memory)
    case ApplyOver => w.(pc := Saving(ThenRest))
    case Crash(left) => w.(pc := Down, memory := map[], temp := left)
    case OutsideWrites(path, content) =>
      var disk := w.disk[path := content];
      w.(disk := disk, pc := if w.pc.InBatch? then InBatch(w.pc.batch, w.pc.state.(disk := disk)) else w.pc)
  }

  /** Every entry that a download or an adoption made names a file on disk. */
  ghost predicate Backed(initial: Entries, entries: Entries, disk: set<Path>) {
    forall r :: r in entries ==> (r in initial && entries[r] == initial[r]) || entries[r].localPath in disk
  }

  predicate InPlace(w: Worker) { w.outcome.Completed? }

  ghost predicate OnDisk(ws: seq<Worker>, disk: map<Path, Content>) {
    forall i :: 0 <= i < |ws| && InPlace(ws[i]) ==> ws[i].path in disk
  }

  ghost predicate Inv(initial: Entries, w: World) {
    && Backed(initial, w.stored, w.disk.Keys)
    && Backed(initial, w.memory, w.disk.Keys)
    && (w.pc.Selecting? ==> w.pc.sel.entries == w.memory)
    && (w.pc.Replacing? ==> w.temp == Some(w.memory))
    && (w.pc.InBatch? ==>
          && ValidBatch(w.pc.batch) && w.pc.state.disk == w.disk
          && BatchLedger.Inv(w.pc.batch, w.pc.state) && OnDisk(w.pc.state.workers, w.disk))
    && (w.pc.Applying? ==> forall r :: r in w.pc.reports && r.outcome.Completed? ==> r.path in w.disk)
  }

  /** Only a rename puts a file in place, and what is in place stays where it is. */
  lemma OnlyRenamePlaces(c: Batch, s: State, i: nat, a: Action)
    requires |s.workers| == |c.localPaths| == |c.files| && CanAct(c, s, i, a)
    requires BatchLedger.Sane(c, s.workers[i]) && !a.Rename?
    ensures var w, w' := s.workers[i], WorkerAfter(c, s, i, a);
      InPlace(w') ==> InPlace(w) && w'.path == w.path
    ensures Act(c, s, i, a).disk == s.disk
  {
  }

  lemma ActionKeepsOnDisk(c: Batch, s: State, i: nat, a: Action)
    requires ValidBatch(c) && BatchLedger.Workers(c, s) && CanAct(c, s, i, a) && OnDisk(s.workers, s.disk)
    ensures OnDisk(Act(c, s, i, a).workers, Act(c, s, i, a).disk)
    ensures s.disk.Keys <= Act(c, s, i, a).disk.Keys
  {
    assert s.workers[i] in s.workers;
    if !a.Rename? {
      OnlyRenamePlaces(c, s, i, a);
    }
  }

  lemma StepKeepsOnDisk(c: Batch, s: State, step: Step)
    requires ValidBatch(c) && BatchLedger.Workers(c, s) && Enabled(c, s, step) && OnDisk(s.workers, s.disk)
    ensures OnDisk(Do(c, s, step).workers, Do(c, s, step).disk)
    ensures s.disk.Keys <= Do(c, s, step).disk.Keys
  {
    if step.Work? {
      ActionKeepsOnDisk(c, s, step.index, step.action);
    }
  }

  lemma BatchEventKeepsInv(cfg: Config, initial: Entries, w: World, step: Step)
    requires Inv(initial, w) && Possible(cfg, w, BatchStep(step))
    ensures Inv(initial, Next(cfg, w, BatchStep(step)))
  {
    BatchLedger.StepKeepsInv(w.pc.batch, w.pc.state, step);
    StepKeepsOnDisk(w.pc.batch, w.pc.state, step);
  }

  /** What a finished batch reports as completed is on disk. */
  lemma ReportsAreOnDisk(c: Batch, s: State)
    requires BatchLedger.Inv(c, s) && OnDisk(s.workers, s.disk)
    ensures forall r :: r in s.results && r.outcome.Completed? ==> r.path in s.disk
  {
    forall r | r in s.results && r.outcome.Completed? ensures r.path in s.disk {
      var k :| 0 <= k < |s.results| && s.results[k] == r;
      assert InPlace(s.workers[r.index]);
    }
  }

  lemma StartKeepsInv(cfg: Config, initial: Entries, w: World, e: Event)
    requires Inv(initial, w) && Possible(cfg, w, e) && e.StartBatch?
    ensures Inv(initial, Next(cfg, w, e))
  {
    BatchLedger.StartInv(e.batch, e.status, e.paused, e.cancelled);
  }

  /** Nothing the batch counts depends on what is on the disk. */
  lemma OutsideKeepsInv(cfg: Config, initial: Entries, w: World, e: Event)
    requires Inv(initial, w) && e.OutsideWrites?
    ensures Inv(initial, Next(cfg, w, e))
  {
    assert w.disk.Keys <= Next(cfg, w, e).disk.Keys;
  }

  lemma ManifestEventKeepsInv(cfg: Config, initial: Entries, w: World, e: Event)
    requires Inv(initial, w) && Possible(cfg, w, e)
    requires e.InspectNext? || e.WriteTemp? || e.ReplaceFile? || e.ApplyNext?
    ensures Inv(initial, Next(cfg, w, e))
  {
    if e.ApplyNext? {
      assert w.pc.reports[0] in w.pc.reports;
    }
  }

  lemma EventKeepsInv(cfg: Config, initial: Entries, w: World, e: Event)
    requires Inv(initial, w) && Possible(cfg, w, e)
    ensures Inv(initial, Next(cfg, w, e))
  {
    match e
    case BatchStep(step) => BatchEventKeepsInv(cfg, initial, w, step);
    case StartBatch(_, _, _, _) => StartKeepsInv(cfg, initial, w, e);
    case OutsideWrites(_, _) => OutsideKeepsInv(cfg, initial, w, e);
    case BatchOver => ReportsAreOnDisk(w.pc.batch, w.pc.state);
    case InspectNext(_, _) => ManifestEventKeepsInv(cfg, initial, w, e);
    case WriteTemp(_, _) => ManifestEventKeepsInv(cfg, initial, w, e);
    case ReplaceFile(_) => ManifestEventKeepsInv(cfg, initial, w, e);
    case ApplyNext => ManifestEventKeepsInv(cfg, initial, w, e);
    case _ =>
  }

  /** Event k leads from world k to the next. */
  ghost predicate Comes(cfg: Config, worlds: seq<World>, events: seq<Event>, k: nat) {
    && k < |events| && k + 1 < |worlds|
    && Possible(cfg, worlds[k], events[k]) && worlds[k + 1] == Next(cfg, worlds[k], events[k])
  }

  /** Any sequence of events, with a crash and a restart wherever they may come, and with
      files added or replaced from outside. */
  ghost predicate IsLife(cfg: Config, worlds: seq<World>, events: seq<Event>) {
    && |worlds| == |events| + 1
    && worlds[0].pc.Down?
    && worlds[0].memory == map[]
    && (forall k :: 0 <= k < |events| ==> Comes(cfg, worlds, events, k))
  }

  /** With no deletions from outside, but any files written there, at every moment each destination that the manifest
      file, or the memory of the running process, holds from a download or an adoption
      names a file that exists: a rename comes before the entry, and the entry before the
      atomic replacement of the file. */
  lemma {:induction false} RecordedFilesExist(cfg: Config, worlds: seq<World>, events: seq<Event>, k: nat)
    requires IsLife(cfg, worlds, events) && k < |worlds|
    ensures Inv(worlds[0].stored, worlds[k])
    ensures forall r :: r in worlds[k].stored ==>
      || (r in worlds[0].stored && worlds[k].stored[r] == worlds[0].stored[r])
      || worlds[k].stored[r].localPath in worlds[k].disk
  {
    if k > 0 {
      RecordedFilesExist(cfg, worlds, events, k - 1);
      assert Comes(cfg, worlds, events, k - 1);
      EventKeepsInv(cfg, worlds[0].stored, worlds[k - 1], events[k - 1]);
    }
  }

  // ---- What is saved after a batch ------------------------------------------------------------

  /** The process goes on and no write fails. */
  predicate GoesWell(e: Event) {
    !e.Crash? && (e.WriteTemp? ==> e.ok) && (e.ReplaceFile? ==> e.ok)
  }

  /** How far the results of a batch have got into the memory and into the file. */
  ghost predicate Recording(w: World, before: Entries, files: seq<RemoteFile>, results: seq<Report>)
    requires forall r :: r in results ==> r.index < |files|
  {
    match w.pc
    case Applying(fs, rs) =>
      fs == files && |rs| <= |results| && rs == results[|results| - |rs|..] &&
      w.memory == Applied(before, files, results[..|results| - |rs|])
    case Saving(then_) => then_ == ThenRest && w.memory == Applied(before, files, results)
    case Replacing(then_) => then_ == ThenRest && w.memory == Applied(before, files, results)
      && w.temp == Some(w.memory)
    case Resting => w.stored == w.memory == Applied(before, files, results)
    case _ => false
  }

  lemma EventRecords(cfg: Config, w: World, e: Event, before: Entries, files: seq<RemoteFile>, results: seq<Report>)
    requires forall r :: r in results ==> r.index < |files|
    requires Recording(w, before, files, results) && !w.pc.Resting? && Possible(cfg, w, e) && GoesWell(e)
    ensures Recording(Next(cfg, w, e), before, files, results)
  {
    if e.ApplyNext? {
      var done := |results| - |w.pc.reports|;
      assert results[..done + 1][..done] == results[..done] && results[done] == w.pc.reports[0];
    } else if e.ApplyOver? {
      assert results[..|results|] == results;
    }
  }

  lemma ReportsAreIndexed(cfg: Config, worlds: seq<World>, events: seq<Event>, n: nat)
    requires IsLife(cfg, worlds, events) && n < |events| && events[n] == BatchOver
    ensures worlds[n].pc.InBatch? && forall r :: r in worlds[n].pc.state.results ==>
      r.index < |worlds[n].pc.batch.files|
    ensures worlds[n + 1] ==
      worlds[n].(pc := Applying(worlds[n].pc.batch.files, worlds[n].pc.state.results))
  {
    RecordedFilesExist(cfg, worlds, events, n);
    assert Comes(cfg, worlds, events, n);
  }

  lemma {:induction false} ResultsAreRecorded(cfg: Config, worlds: seq<World>, events: seq<Event>, n: nat, k: nat)
    requires IsLife(cfg, worlds, events) && n < k < |worlds| && events[n] == BatchOver
    requires forall m :: n < m < k ==> GoesWell(events[m]) && !worlds[m].pc.Resting?
    ensures worlds[n].pc.InBatch? && forall r :: r in worlds[n].pc.state.results ==>
      r.index < |worlds[n].pc.batch.files|
    ensures Recording(worlds[k], worlds[n].memory, worlds[n].pc.batch.files, worlds[n].pc.state.results)
    decreases k
  {
    ReportsAreIndexed(cfg, worlds, events, n);
    var files, results := worlds[n].pc.batch.files, worlds[n].pc.state.results;
    if k == n + 1 {
      assert results[0..] == results && results[..0] == [];
    } else {
      ResultsAreRecorded(cfg, worlds, events, n, k - 1);
      assert Comes(cfg, worlds, events, k - 1);
      EventRecords(cfg, worlds[k - 1], events[k - 1], worlds[n].memory, files, results);
    }
  }

  /** When a batch is over and no write fails, the next time the job rests the manifest file
      holds exactly what the batch's reports make of the manifest before it. */
  lemma BatchIsSaved(cfg: Config, worlds: seq<World>, events: seq<Event>, n: nat, k: nat)
    requires IsLife(cfg, worlds, events) && n < k < |worlds| && events[n] == BatchOver && worlds[k].pc.Resting?
    requires forall m :: n < m < k ==> GoesWell(events[m]) && !worlds[m].pc.Resting?
    ensures worlds[n].pc.InBatch? && forall r :: r in worlds[n].pc.state.results ==>
      r.index < |worlds[n].pc.batch.files|
    ensures worlds[k].stored == Applied(worlds[n].memory, worlds[n].pc.batch.files, worlds[n].pc.state.results)
  {
    ResultsAreRecorded(cfg, worlds, events, n, k);
  }
}
