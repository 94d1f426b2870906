/** What finished batches leave in the manifest, one after another. */
module BatchResults {
  import opened Paths
  import opened Records
  import opened Destinations
  import opened Batch
  import BatchLedger
  import BatchPlaces

  // ---- The outcomes of a batch ------------------------------------------------------

  /** The manifest after the reports of a batch, taken in the order they arrived. */
  function Applied(entries: Entries, files: seq<RemoteFile>, reports: seq<Report>): Entries
    requires forall r :: r in reports ==> r.index < |files|
    decreases |reports|
  {
    if reports == [] then entries
    else
      var last := reports[|reports| - 1];
      var before := Applied(entries, files, reports[..|reports| - 1]);
      if last.outcome.Completed?
      then before[files[last.index].path := EntryFor(files[last.index], last.path, last.digest)]
      else before
  }

  datatype BatchResult = BatchResult(attempted: int, total: int, completed: int, skipped: int, failures: seq<Remote>)

  /** The failed files in the order their reports arrived; a summary names the first. */
  function FailedPaths(files: seq<RemoteFile>, reports: seq<Report>): seq<Remote>
    requires forall r :: r in reports ==> r.index < |files|
    decreases |reports|
  {
    if reports == [] then []
    else
      var last := reports[|reports| - 1];
      FailedPaths(files, reports[..|reports| - 1]) + if last.outcome.Failed? then [files[last.index].path] else []
  }

  method ApplyDownloadOutcomes(manifest: Manifest, files: seq<RemoteFile>, reports: seq<Report>, attempted: int,
                               total: int)
    returns (result: BatchResult)
    requires forall r :: r in reports ==> r.index < |files| && !r.outcome.Undecided?
    modifies manifest`entries
    ensures manifest.entries == Applied(old(manifest.entries), files, reports)
    ensures result.attempted == attempted && result.total == total
    ensures result.completed == BatchLedger.Tally(reports, Completed)
    ensures result.skipped == BatchLedger.Tally(reports, Skipped)
    ensures |result.failures| == BatchLedger.Tally(reports, Failed)
    ensures result.failures == FailedPaths(files, reports)
  {
    result := BatchResult(attempted, total, 0, 0, []);
    for k := 0 to |reports|
      invariant manifest.entries == Applied(old(manifest.entries), files, reports[..k])
      invariant result.attempted == attempted && result.total == total
      invariant result.completed == BatchLedger.Tally(reports[..k], Completed)
      invariant result.skipped == BatchLedger.Tally(reports[..k], Skipped)
      invariant |result.failures| == BatchLedger.Tally(reports[..k], Failed)
      invariant result.failures == FailedPaths(files, reports[..k])
    {
      assert reports[..k + 1][..k] == reports[..k];
      var r := reports[k];
      assert r in reports;
      if r.outcome.Failed? {
        result := result.(failures := result.failures + [files[r.index].path]);
      } else if r.outcome.Skipped? {
        result := result.(skipped := result.skipped + 1);
      } else {
        result := result.(completed := result.completed + 1);
        manifest.Set(files[r.index].path, EntryFor(files[r.index], r.path, r.digest));
      }
    }
    assert reports[..|reports|] == reports;
  }

  /** The failure that a summary names is the first one reported. */
  lemma {:induction false} FirstFailureIsNamed(files: seq<RemoteFile>, reports: seq<Report>, k: nat)
    requires forall r :: r in reports ==> r.index < |files|
    requires k < |reports| && reports[k].outcome.Failed? && forall j :: 0 <= j < k ==> !reports[j].outcome.Failed?
    ensures FailedPaths(files, reports) != [] && FailedPaths(files, reports)[0] == files[reports[k].index].path
    decreases |reports|
  {
    var last := |reports| - 1;
    if k < last {
      FirstFailureIsNamed(files, reports[..last], k);
    } else {
      NoFailureNoPath(files, reports[..last]);
    }
  }

  lemma {:induction false} NoFailureNoPath(files: seq<RemoteFile>, reports: seq<Report>)
    requires forall r :: r in reports ==> r.index < |files|
    requires forall j :: 0 <= j < |reports| ==> !reports[j].outcome.Failed?
    ensures FailedPaths(files, reports) == []
    decreases |reports|
  {
    if reports != [] {
      NoFailureNoPath(files, reports[..|reports| - 1]);
    }
  }

  /** A remote path no completed report speaks of keeps its entry. */
  lemma {:induction false} AppliedLeavesOthers(entries: Entries, files: seq<RemoteFile>, reports: seq<Report>,
                                               r: Remote)
    requires forall x :: x in reports ==> x.index < |files|
    requires forall x :: x in reports && x.outcome.Completed? ==> files[x.index].path != r
    ensures var m := Applied(entries, files, reports);
      (r in m <==> r in entries) && (r in m ==> m[r] == entries[r])
    decreases |reports|
  {
    if reports != [] {
      assert reports[|reports| - 1] in reports;
      AppliedLeavesOthers(entries, files, reports[..|reports| - 1], r);
    }
  }

  /** The last completed report of a remote path makes its entry. */
  lemma {:induction false} AppliedRecords(entries: Entries, files: seq<RemoteFile>, reports: seq<Report>, k: nat)
    requires forall x :: x in reports ==> x.index < |files|
    requires k < |reports| && reports[k].outcome.Completed?
    requires forall j :: k < j < |reports| ==> files[reports[j].index].path != files[reports[k].index].path
    ensures var m := Applied(entries, files, reports);
      var file := files[reports[k].index];
      file.path in m && m[file.path] == EntryFor(file, reports[k].path, reports[k].digest)
    decreases |reports|
  {
    var last := |reports| - 1;
    if k < last {
      assert files[reports[last].index].path != files[reports[k].index].path;
      AppliedRecords(entries, files, reports[..last], k);
    }
  }

  /** The manifest once a finished batch has been applied. */
  function ManifestAfter(c: Batch, s: State): Entries
    requires forall r :: r in s.results ==> r.index < |c.files|
  {
    Applied(c.manifest, c.files, s.results)
  }

  /** A run of a batch that came to its end. */
  ghost predicate FinishedRun(c: Batch, states: seq<State>, steps: seq<Step>) {
    IsRun(c, states, steps) && states[|steps|].main.Finished?
  }

  ghost predicate CompletedHere(c: Batch, s: State, r: Remote)
    requires |s.workers| == |c.files|
  {
    exists i :: 0 <= i < |c.files| && s.workers[i].outcome.Completed? && RemoteOf(c, i) == r
  }

  /** Whatever order the reports arrived in, each completed file has its own entry, with
      the path and the verified digest of what is now on disk. */
  lemma CompletedIsRecorded(c: Batch, states: seq<State>, steps: seq<Step>, i: nat)
    requires FinishedRun(c, states, steps) && i < |c.files| && states[|steps|].workers[i].outcome.Completed?
    ensures var s := states[|steps|];
      var w := s.workers[i];
      && (forall x :: x in s.results ==> x.index < |c.files|)
      && RemoteOf(c, i) in ManifestAfter(c, s)
      && ManifestAfter(c, s)[RemoteOf(c, i)] == EntryFor(c.files[i], w.path, w.digest)
      && w.path in s.disk && (w.digest != "" ==> w.digest == c.hash(s.disk[w.path]))
  {
    var s := states[|steps|];
    ReportsAreSound(c, states, steps);
    StoredAsDownloaded(c, states, steps, i);
    var k :| 0 <= k < |s.results| && s.results[k].index == i;
    assert s.results[k] in s.results;
    AppliedRecords(c.manifest, c.files, s.results, k);
  }

  lemma StoredAsDownloaded(c: Batch, states: seq<State>, steps: seq<Step>, i: nat)
    requires IsRun(c, states, steps) && i < |c.files| && states[|steps|].workers[i].outcome.Completed?
    ensures var s := states[|steps|];
      var w := s.workers[i];
      w.path in s.disk && (w.digest != "" ==> w.digest == c.hash(s.disk[w.path]))
  {
    BatchPlaces.NoFileIsOverwrittenOrLost(c, states, steps, |steps|);
    BatchPlaces.RunKeepsInv(c, states, steps, |steps|);
    assert BatchPlaces.DigestTrue(c, states[|steps|].workers[i]);
  }

  /** And every other entry is what it was. */
  lemma OthersKeepTheirEntry(c: Batch, states: seq<State>, steps: seq<Step>, r: Remote)
    requires FinishedRun(c, states, steps) && !CompletedHere(c, states[|steps|], r)
    ensures forall x :: x in states[|steps|].results ==> x.index < |c.files|
    ensures var m := ManifestAfter(c, states[|steps|]);
      (r in m <==> r in c.manifest) && (r in c.manifest ==> m[r] == c.manifest[r])
  {
    ReportsAreSound(c, states, steps);
    AppliedLeavesOthers(c.manifest, c.files, states[|steps|].results, r);
  }

  lemma ReportsAreSound(c: Batch, states: seq<State>, steps: seq<Step>)
    requires FinishedRun(c, states, steps)
    ensures var s := states[|steps|];
      && (forall x :: x in s.results ==> x.index < |c.files| && x.outcome == s.workers[x.index].outcome)
      && (forall k :: 0 <= k < |s.results| ==>
            s.results[k].path == s.workers[s.results[k].index].path
              && s.results[k].digest == s.workers[s.results[k].index].digest)
      && (forall j, k :: 0 <= j < k < |s.results| ==>
        RemoteOf(c, s.results[j].index) != RemoteOf(c, s.results[k].index))
      && (forall i :: 0 <= i < |c.files| && s.workers[i].outcome.Completed? ==>
            exists k :: 0 <= k < |s.results| && s.results[k].index == i)
  {
    BatchLedger.RunKeepsInv(c, states, steps, |steps|);
    var s := states[|steps|];
    forall i | 0 <= i < |c.files| && s.workers[i].outcome.Completed?
      ensures exists k :: 0 <= k < |s.results| && s.results[k].index == i
    {
      assert s.workers[i] in s.workers && BatchLedger.Sent(s.workers[i]);
    }
  }

  // ---- Recorded destinations over many batches -------------------------------------------

  /** A batch takes a manifest without shared destinations to another one. */
  lemma DestinationsStayDistinct(c: Batch, states: seq<State>, steps: seq<Step>)
    requires FinishedRun(c, states, steps) && DistinctDestinations(c.manifest)
    ensures forall x :: x in states[|steps|].results ==> x.index < |c.files|
    ensures DistinctDestinations(ManifestAfter(c, states[|steps|]))
  {
    var s := states[|steps|];
    ReportsAreSound(c, states, steps);
    var m := ManifestAfter(c, s);
    forall r, q | r in m && q in m && r != q && m[r].localPath != "" ensures m[r].localPath != m[q].localPath {
      if CompletedHere(c, s, r) {
        if CompletedHere(c, s, q) {
          TwoCompleted(c, states, steps, r, q);
        } else {
          CompletedAndKept(c, states, steps, r, q);
        }
      } else if CompletedHere(c, s, q) {
        CompletedAndKept(c, states, steps, q, r);
      } else {
        OthersKeepTheirEntry(c, states, steps, r);
        OthersKeepTheirEntry(c, states, steps, q);
      }
    }
  }

  lemma CompletedPathsDiffer(c: Batch, states: seq<State>, steps: seq<Step>, i: nat, j: nat)
    requires IsRun(c, states, steps) && i < |c.files| && j < |c.files| && i != j
    requires states[|steps|].workers[i].outcome.Completed? && states[|steps|].workers[j].outcome.Completed?
    ensures states[|steps|].workers[i].path != states[|steps|].workers[j].path
  {
    BatchPlaces.NoFileIsOverwrittenOrLost(c, states, steps, |steps|);
    var s := states[|steps|];
    assert BatchPlaces.InPlace(s.workers[i]) && BatchPlaces.InPlace(s.workers[j]);
  }

  lemma TwoCompleted(c: Batch, states: seq<State>, steps: seq<Step>, r: Remote, q: Remote)
    requires FinishedRun(c, states, steps) && r != q
    requires CompletedHere(c, states[|steps|], r) && CompletedHere(c, states[|steps|], q)
    ensures forall x :: x in states[|steps|].results ==> x.index < |c.files|
    ensures var m := ManifestAfter(c, states[|steps|]);
      r in m && q in m && m[r].localPath != m[q].localPath
  {
    var s := states[|steps|];
    var i :| 0 <= i < |c.files| && s.workers[i].outcome.Completed? && RemoteOf(c, i) == r;
    var j :| 0 <= j < |c.files| && s.workers[j].outcome.Completed? && RemoteOf(c, j) == q;
    CompletedIsRecorded(c, states, steps, i);
    CompletedIsRecorded(c, states, steps, j);
    CompletedPathsDiffer(c, states, steps, i, j);
  }

  lemma CompletedAndKept(c: Batch, states: seq<State>, steps: seq<Step>, r: Remote, q: Remote)
    requires FinishedRun(c, states, steps) && DistinctDestinations(c.manifest) && r != q
    requires CompletedHere(c, states[|steps|], r) && !CompletedHere(c, states[|steps|], q)
    ensures forall x :: x in states[|steps|].results ==> x.index < |c.files|
    ensures var m := ManifestAfter(c, states[|steps|]);
      && r in m
      && (q in m && m[q].localPath != "" ==> m[r].localPath != m[q].localPath)
  {
    var s := states[|steps|];
    var i :| 0 <= i < |c.files| && s.workers[i].outcome.Completed? && RemoteOf(c, i) == r;
    CompletedIsRecorded(c, states, steps, i);
    OthersKeepTheirEntry(c, states, steps, q);
    BatchPlaces.RunKeepsInv(c, states, steps, |steps|);
    assert BatchPlaces.HasDestination(s.workers[i]);
    if q in c.manifest && c.manifest[q].localPath != "" {
      BatchPlaces.RecordedPathIsReserved(c, s, q);
    }
  }

  /** Batches one after another, nothing but their outcomes changing the manifest. */
  datatype Finished = Finished(batch: Batch, states: seq<State>, steps: seq<Step>)

  function Last(run: Finished): State
    requires run.states != []
  {
    run.states[|run.states| - 1]
  }

  ghost predicate Done(run: Finished) { FinishedRun(run.batch, run.states, run.steps) }

  ghost predicate Follows(run: Finished, next: Finished)
    requires run.states != []
  {
    && (forall x :: x in Last(run).results ==> x.index < |run.batch.files|)
    && next.batch.manifest == ManifestAfter(run.batch, Last(run))
  }

  ghost predicate Chain(runs: seq<Finished>) {
    && (forall k :: 0 <= k < |runs| ==> Done(runs[k]))
    && (forall j, k :: 0 <= j < k < |runs| && k == j + 1 ==> Follows(runs[j], runs[k]))
  }

  lemma LinkHolds(runs: seq<Finished>, k: nat)
    requires Chain(runs) && k + 1 < |runs|
    ensures Done(runs[k]) && Follows(runs[k], runs[k + 1])
  {
  }

  lemma NextStaysDistinct(run: Finished, next: Finished)
    requires Done(run) && Follows(run, next) && DistinctDestinations(run.batch.manifest)
    ensures DistinctDestinations(next.batch.manifest)
  {
    DestinationsStayDistinct(run.batch, run.states, run.steps);
  }

  /** Over any sequence of batches no two remote files come to share a destination. */
  lemma {:induction false} DestinationsStayDistinctOverBatches(runs: seq<Finished>, k: nat)
    requires Chain(runs) && k < |runs| && DistinctDestinations(runs[0].batch.manifest)
    ensures DistinctDestinations(runs[k].batch.manifest)
  {
    if k > 0 {
      DestinationsStayDistinctOverBatches(runs, k - 1);
      LinkHolds(runs, k - 1);
      NextStaysDistinct(runs[k - 1], runs[k]);
    }
  }

  ghost predicate RecordedAt(entries: Entries, r: Remote, home: Path) {
    r in entries && entries[r].localPath == home != ""
  }

  /** A batch leaves a recorded file recorded where it was, whatever becomes of it. */
  lemma BatchKeepsHome(c: Batch, states: seq<State>, steps: seq<Step>, r: Remote, home: Path)
    requires FinishedRun(c, states, steps) && DistinctDestinations(c.manifest) && RecordedAt(c.manifest, r, home)
    ensures forall x :: x in states[|steps|].results ==> x.index < |c.files|
    ensures RecordedAt(ManifestAfter(c, states[|steps|]), r, home)
  {
    var s := states[|steps|];
    if CompletedHere(c, s, r) {
      var i :| 0 <= i < |c.files| && s.workers[i].outcome.Completed? && RemoteOf(c, i) == r;
      CompletedIsRecorded(c, states, steps, i);
      BatchPlaces.RecordedFilesKeepTheirPlace(c, states, steps, |steps|, i);
    } else {
      OthersKeepTheirEntry(c, states, steps, r);
    }
  }

  lemma NextKeepsHome(run: Finished, next: Finished, r: Remote, home: Path)
    requires Done(run) && Follows(run, next) && DistinctDestinations(run.batch.manifest)
    requires RecordedAt(run.batch.manifest, r, home)
    ensures RecordedAt(next.batch.manifest, r, home)
  {
    BatchKeepsHome(run.batch, run.states, run.steps, r, home);
  }

  lemma HomeIsKept(runs: seq<Finished>, j: nat, k: nat, r: Remote, home: Path)
    requires Chain(runs) && j <= k < |runs| && DistinctDestinations(runs[0].batch.manifest)
    requires RecordedAt(runs[j].batch.manifest, r, home)
    ensures RecordedAt(runs[k].batch.manifest, r, home)
  {
    for n := j to k
      invariant RecordedAt(runs[n].batch.manifest, r, home)
    {
      HomeIsKeptOnce(runs, n, r, home);
    }
  }

  lemma HomeIsKeptOnce(runs: seq<Finished>, k: nat, r: Remote, home: Path)
    requires Chain(runs) && k + 1 < |runs| && DistinctDestinations(runs[0].batch.manifest)
    requires RecordedAt(runs[k].batch.manifest, r, home)
    ensures RecordedAt(runs[k + 1].batch.manifest, r, home)
  {
    LinkHolds(runs, k);
    DestinationsStayDistinctOverBatches(runs, k);
    NextKeepsHome(runs[k], runs[k + 1], r, home);
  }

  /** A file written by one batch is updated in place by every later one: each of its
      resolutions answers the path it was given first, under every policy and in every
      order of workers, and it is never skipped, refused or renamed again. */
  lemma UpdatesGoToTheSamePlace(runs: seq<Finished>, j: nat, i: nat, k: nat, m: nat, n: nat)
    requires Chain(runs) && j < k < |runs| && DistinctDestinations(runs[0].batch.manifest)
    requires Done(runs[j]) && Done(runs[k])
    requires i < |runs[j].batch.files| && Last(runs[j]).workers[i].outcome.Completed?
    requires Last(runs[j]).workers[i].path != ""
    requires m < |runs[k].batch.files| && RemoteOf(runs[k].batch, m) == RemoteOf(runs[j].batch, i)
    requires n < |runs[k].states|
    ensures var home := Last(runs[j]).workers[i].path;
      && (forall desired :: Answer(runs[k].batch, runs[k].states[n], m, desired) == Placed(home))
      && BatchPlaces.AtHome(runs[k].states[n].workers[m], home)
  {
    var home, r := Last(runs[j]).workers[i].path, RemoteOf(runs[j].batch, i);
    assert Done(runs[j]) && Done(runs[k]) && Follows(runs[j], runs[j + 1]);
    CompletedIsRecorded(runs[j].batch, runs[j].states, runs[j].steps, i);
    assert RecordedAt(runs[j + 1].batch.manifest, r, home);
    HomeIsKept(runs, j + 1, k, r, home);
    DestinationsStayDistinctOverBatches(runs, k);
    BatchPlaces.RecordedFilesKeepTheirPlace(runs[k].batch, runs[k].states, runs[k].steps, n, m);
  }

  // ---- What the places hold --------------------------------------------------------------

  /** A batch that does not complete a recorded file leaves what is at its place alone. */
  lemma BatchKeepsPhoto(c: Batch, states: seq<State>, steps: seq<Step>, r: Remote, home: Path)
    requires FinishedRun(c, states, steps) && DistinctDestinations(c.manifest) && RecordedAt(c.manifest, r, home)
    requires home in c.disk && !CompletedHere(c, states[|steps|], r)
    ensures home in states[|steps|].disk && states[|steps|].disk[home] == c.disk[home]
  {
    BatchPlaces.NoFileIsOverwrittenOrLost(c, states, steps, |steps|);
    var s := states[|steps|];
    forall i | 0 <= i < |c.files| && RemoteOf(c, i) != r ensures RecordedFor(c.table, RemoteOf(c, i)) != home {
      assert RemoteOf(c, i) in c.table.byRemote ==> c.manifest[RemoteOf(c, i)].localPath != c.manifest[r].localPath;
    }
    assert !BatchPlaces.Updated(c, s, home);
  }

  /** Batches one after another on one disk. */
  ghost predicate OnOneDisk(runs: seq<Finished>) {
    Chain(runs) &&
    forall j, k :: 0 <= j < k < |runs| && k == j + 1 ==>
      runs[j].states != [] && runs[k].batch.disk == Last(runs[j]).disk
  }

  lemma DiskFollows(runs: seq<Finished>, k: nat)
    requires OnOneDisk(runs) && k + 1 < |runs|
    ensures Done(runs[k]) && Done(runs[k + 1]) && Follows(runs[k], runs[k + 1])
    ensures runs[k + 1].batch.disk == Last(runs[k]).disk
  {
  }

  ghost predicate Holds(disk: map<Path, Content>, home: Path, content: Content) {
    home in disk && disk[home] == content
  }

  /** A photo stays as the last batch that completed it wrote it, through any batches that
      do not, and in the place where it was written. */
  lemma PhotoStaysAsWritten(runs: seq<Finished>, j: nat, k: nat, i: nat)
    requires OnOneDisk(runs) && j <= k < |runs| && DistinctDestinations(runs[0].batch.manifest)
    requires Done(runs[j]) && i < |runs[j].batch.files| && Last(runs[j]).workers[i].outcome.Completed?
    requires Last(runs[j]).workers[i].path != ""
    requires forall n :: j < n <= k ==>
      Done(runs[n]) && !CompletedHere(runs[n].batch, Last(runs[n]), RemoteOf(runs[j].batch, i))
    ensures Done(runs[k])
    ensures var w := Last(runs[j]).workers[i]; Holds(Last(runs[k]).disk, w.path, w.content)
  {
    var w, r := Last(runs[j]).workers[i], RemoteOf(runs[j].batch, i);
    BatchPlaces.NoFileIsOverwrittenOrLost(runs[j].batch, runs[j].states, runs[j].steps, |runs[j].steps|);
    assert BatchPlaces.InPlace(w);
    for n := j to k
      invariant Done(runs[n]) && Holds(Last(runs[n]).disk, w.path, w.content)
    {
      DiskFollows(runs, n);
      StillRecorded(runs, j, n + 1, i);
      DestinationsStayDistinctOverBatches(runs, n + 1);
      BatchKeepsPhoto(runs[n + 1].batch, runs[n + 1].states, runs[n + 1].steps, r, w.path);
    }
  }

  lemma StillRecorded(runs: seq<Finished>, j: nat, k: nat, i: nat)
    requires Chain(runs) && j < k < |runs| && DistinctDestinations(runs[0].batch.manifest)
    requires Done(runs[j]) && i < |runs[j].batch.files| && Last(runs[j]).workers[i].outcome.Completed?
    requires Last(runs[j]).workers[i].path != ""
    ensures RecordedAt(runs[k].batch.manifest, RemoteOf(runs[j].batch, i), Last(runs[j]).workers[i].path)
  {
    var home, r := Last(runs[j]).workers[i].path, RemoteOf(runs[j].batch, i);
    LinkHolds(runs, j);
    CompletedIsRecorded(runs[j].batch, runs[j].states, runs[j].steps, i);
    assert RecordedAt(runs[j + 1].batch.manifest, r, home);
    HomeIsKept(runs, j + 1, k, r, home);
  }

  /** Adoption does not look for other files recorded at the path it records, so it keeps
      destinations distinct exactly when there is none. */
  lemma AdoptionKeepsDistinctIff(entries: Entries, file: RemoteFile, path: Path, digest: string)
    requires DistinctDestinations(entries) && file.path !in entries && path != ""
    ensures DistinctDestinations(entries[file.path := EntryFor(file, path, digest)]) <==>
      forall q :: q in entries ==> entries[q].localPath != path
  {
    var m := entries[file.path := EntryFor(file, path, digest)];
    if DistinctDestinations(m) {
      forall q | q in entries ensures entries[q].localPath != path {
        assert q in m && file.path in m && m[file.path].localPath != m[q].localPath;
      }
    }
  }
}
