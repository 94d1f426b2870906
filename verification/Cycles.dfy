/** Whole sync cycles of one job over a listing of the server: which files a cycle
    selects, how it ends, and what it leaves for the cycles after it.  */
module Cycles {
  import opened Options
  import opened Paths
  import opened Records
  import opened StatusBoard
  import opened Batch
  import opened BatchResults
  import BatchLedger

  // ---- Adoption ------------------------------------------------------------------------

  /** What is at a local path. The digest is missing when the file could not be read. */
  datatype Local = Missing | Unreadable | Directory | Present(size: int, digest: Option<string>)

  datatype Adoption = Adopted(digest: string) | NotAdopted | CheckFailed

  /** The size agrees and, in sha256 mode, both sides were read and agree. */
  predicate ShownToBeSame(local: Local, remoteSize: int, sha256: bool, serverDigest: Option<string>) {
    && local.Present? && local.size == remoteSize
    && (sha256 ==> serverDigest.Some? && local.digest == serverDigest)
  }

  /** Whether a local file is taken as the synced copy of a remote one. */
  function Adoptable(local: Local, remoteSize: int, sha256: bool, serverDigest: Option<string>): (a: Adoption)
    ensures a.Adopted? <==>
      local.Present? && local.size == remoteSize
      && (sha256 ==> serverDigest.Some? && local.digest.Some? && local.digest.value == serverDigest.value)
    ensures a.Adopted? <==> ShownToBeSame(local, remoteSize, sha256, serverDigest)
    ensures a.Adopted? ==> a.digest == if sha256 then serverDigest.value else ""
  {
    match local
    case Missing => NotAdopted
    case Unreadable => CheckFailed
    case Directory => NotAdopted
    case Present(size, digest) =>
      if size != remoteSize then NotAdopted
      else if !sha256 then Adopted("")
      else if serverDigest.None? || digest.None? then CheckFailed
      else if digest.value != serverDigest.value then NotAdopted
      else Adopted(digest.value)
  }

  // ---- Selection -----------------------------------------------------------------------

  /** A job's filter on remote paths and where it would put a file without a date. */
  datatype Job = Job(matches: Remote -> bool, localPath: Remote -> Path)

  datatype Selection = Selection(entries: Entries, chosen: seq<RemoteFile>, eligible: nat)

  function Inspect(job: Job, sel: Selection, file: RemoteFile, adoption: Adoption): Selection {
    if !job.matches(file.path) then sel
    else
      var seen := sel.(eligible := sel.eligible + 1);
      if Current(sel.entries, file) then seen
      else if file.path !in sel.entries && adoption.Adopted?
      then seen.(entries := sel.entries[file.path := EntryFor(file, job.localPath(file.path), adoption.digest)])
      else seen.(chosen := sel.chosen + [file])
  }

  function Select(job: Job, entries: Entries, files: seq<RemoteFile>, look: RemoteFile -> Adoption): Selection
    decreases |files|
  {
    if files == [] then Selection(entries, [], 0)
    else
      var last := files[|files| - 1];
      Inspect(job, Select(job, entries, files[..|files| - 1], look), last, look(last))
  }

  /** `inspected` is how many files are looked at before a cancellation is noticed. */
  method SelectForDownload(job: Job, manifest: Manifest, files: seq<RemoteFile>, look: RemoteFile -> Adoption,
                           inspected: nat)
    returns (eligible: nat, chosen: seq<RemoteFile>)
    requires inspected <= |files|
    modifies manifest`entries
    ensures Selection(manifest.entries, chosen, eligible) ==
      Select(job, old(manifest.entries), files[..inspected], look)
  {
    eligible, chosen := 0, [];
    for k := 0 to |files|
      invariant var n := if k < inspected then k else inspected;
        Selection(manifest.entries, chosen, eligible) == Select(job, old(manifest.entries), files[..n], look)
    {
      if k >= inspected { break; }
      assert files[..k + 1][..k] == files[..k];
      var file := files[k];
      if !job.matches(file.path) { continue; }
      eligible := eligible + 1;
      var entry, found := manifest.Get(file.path);
      if found && entry.mtime == file.mtime && entry.size == file.size { continue; }
      if !found {
        var adoption := look(file);
        if adoption.Adopted? {
          manifest.Set(file.path, EntryFor(file, job.localPath(file.path), adoption.digest));
          continue;
        }
      }
      chosen := chosen + [file];
    }
  }

  /** The walk lists each remote path once. */
  ghost predicate Listing(files: seq<RemoteFile>) {
    forall i, j :: 0 <= i < j < |files| ==> files[i].path != files[j].path
  }

  ghost predicate Selected(job: Job, entries: Entries, files: seq<RemoteFile>, sel: Selection) {
    && (forall f :: f in sel.chosen ==> f in files && job.matches(f.path) && !Current(sel.entries, f))
    && (forall f :: f in files && job.matches(f.path) ==> f in sel.chosen || Current(sel.entries, f))
    && (forall r :: r in entries ==> r in sel.entries && sel.entries[r] == entries[r])
    && (forall r :: r in sel.entries && r !in entries ==>
          exists f :: f in files && f.path == r && Current(sel.entries, f)
            && sel.entries[r].localPath == job.localPath(r))
  }

  /** Selection sorts the files it sees into current ones and chosen ones, and only adds
      entries, for files it adopted. */
  lemma {:induction false} SelectionIsExact(job: Job, entries: Entries, files: seq<RemoteFile>,
                                            look: RemoteFile -> Adoption)
    requires Listing(files)
    ensures Selected(job, entries, files, Select(job, entries, files, look))
    decreases |files|
  {
    if files != [] {
      var shorter, last := files[..|files| - 1], files[|files| - 1];
      SelectionIsExact(job, entries, shorter, look);
      forall f | f in shorter ensures f.path != last.path {
        var i :| 0 <= i < |shorter| && shorter[i] == f;
      }
      assert files == shorter + [last];
      InspectionIsExact(job, entries, shorter, Select(job, entries, shorter, look), last, look(last));
    }
  }

  /** The file is not current, and no local copy of it is adopted. */
  predicate Needed(entries: Entries, file: RemoteFile, adoption: Adoption) {
    !Current(entries, file) && !(file.path !in entries && adoption.Adopted?)
  }

  /** What is not listed is neither added, changed nor chosen. */
  lemma {:induction false} UnlistedKeepsEntry(job: Job, entries: Entries, files: seq<RemoteFile>,
                                              look: RemoteFile -> Adoption, r: Remote)
    requires forall g :: g in files ==> g.path != r
    ensures var sel := Select(job, entries, files, look);
      && (r in sel.entries <==> r in entries) && (r in entries ==> sel.entries[r] == entries[r])
      && (forall g :: g in sel.chosen ==> g.path != r)
    decreases |files|
  {
    if files != [] {
      assert files[|files| - 1] in files;
      UnlistedKeepsEntry(job, entries, files[..|files| - 1], look, r);
    }
  }

  /** A file is chosen if and only if it matches and is needed: no other file of the
      listing has a say in it. */
  lemma {:induction false} ChosenIff(job: Job, entries: Entries, files: seq<RemoteFile>,
                                     look: RemoteFile -> Adoption, f: RemoteFile)
    requires Listing(files)
    ensures f in Select(job, entries, files, look).chosen <==>
      f in files && job.matches(f.path) && Needed(entries, f, look(f))
    ensures f in Select(job, entries, files, look).chosen <==>
      f in files && job.matches(f.path) &&
      if f.path in entries then entries[f.path].mtime != f.mtime || entries[f.path].size != f.size
      else !look(f).Adopted?
    decreases |files|
  {
    if files != [] {
      var shorter, last := files[..|files| - 1], files[|files| - 1];
      assert files == shorter + [last];
      forall g | g in shorter ensures g.path != last.path {
        var i :| 0 <= i < |shorter| && shorter[i] == g;
      }
      UnlistedKeepsEntry(job, entries, shorter, look, last.path);
      if f != last {
        ChosenIff(job, entries, shorter, look, f);
      }
    }
  }

  /** What selection records of a file it adopts. */
  lemma {:induction false} AdoptedIsRecorded(job: Job, entries: Entries, files: seq<RemoteFile>,
                                             look: RemoteFile -> Adoption, f: RemoteFile)
    requires Listing(files) && f in files && job.matches(f.path) && f.path !in entries && look(f).Adopted?
    ensures var now := Select(job, entries, files, look).entries;
      f.path in now && now[f.path] == Entry(f.mtime, f.size, job.localPath(f.path), look(f).digest)
    decreases |files|
  {
    var shorter, last := files[..|files| - 1], files[|files| - 1];
    assert files == shorter + [last];
    forall g | g in shorter ensures g.path != last.path {
      var i :| 0 <= i < |shorter| && shorter[i] == g;
    }
    if f in shorter {
      AdoptedIsRecorded(job, entries, shorter, look, f);
    } else {
      UnlistedKeepsEntry(job, entries, shorter, look, f.path);
    }
  }

  function Matching(job: Job, files: seq<RemoteFile>): set<RemoteFile> {
    set f | f in files && job.matches(f.path)
  }

  /** Every matching file is counted, once. */
  lemma {:induction false} EligibleAreMatching(job: Job, entries: Entries, files: seq<RemoteFile>,
                                               look: RemoteFile -> Adoption)
    requires Listing(files)
    ensures Select(job, entries, files, look).eligible == |Matching(job, files)|
    decreases |files|
  {
    if files != [] {
      var shorter, last := files[..|files| - 1], files[|files| - 1];
      EligibleAreMatching(job, entries, shorter, look);
      MatchingGrows(job, shorter, last);
      assert files == shorter + [last];
    }
  }

  lemma MatchingGrows(job: Job, files: seq<RemoteFile>, last: RemoteFile)
    requires Listing(files + [last])
    ensures |Matching(job, files + [last])| == |Matching(job, files)| + if job.matches(last.path) then 1 else 0
  {
    var all := files + [last];
    forall g | g in files ensures g.path != last.path {
      var i :| 0 <= i < |files| && files[i] == g;
      assert all[i].path != all[|files|].path;
    }
    assert last !in Matching(job, files);
    assert Matching(job, all) == Matching(job, files) + if job.matches(last.path) then {last} else {};
  }

  /** A file is chosen once at most. */
  lemma {:induction false} ChosenIsListing(job: Job, entries: Entries, files: seq<RemoteFile>,
                                           look: RemoteFile -> Adoption)
    requires Listing(files)
    ensures Listing(Select(job, entries, files, look).chosen)
    decreases |files|
  {
    if files != [] {
      var shorter, last := files[..|files| - 1], files[|files| - 1];
      ChosenIsListing(job, entries, shorter, look);
      forall g | g in shorter ensures g.path != last.path {
        var i :| 0 <= i < |shorter| && shorter[i] == g;
      }
      UnlistedKeepsEntry(job, entries, shorter, look, last.path);
    }
  }

  lemma InspectionIsExact(job: Job, entries: Entries, files: seq<RemoteFile>, sel: Selection, file: RemoteFile,
                          adoption: Adoption)
    requires Selected(job, entries, files, sel)
    requires forall f :: f in files ==> f.path != file.path
    ensures Selected(job, entries, files + [file], Inspect(job, sel, file, adoption))
  {
    var all, sel' := files + [file], Inspect(job, sel, file, adoption);
    assert file in all;
    forall f | f in files ensures f in all && (Current(sel'.entries, f) == Current(sel.entries, f)) {}
    forall r | r in sel'.entries && r !in entries
      ensures exists f ::
        f in all && f.path == r && Current(sel'.entries, f) && sel'.entries[r].localPath == job.localPath(r)
    {
      if r in sel.entries {
        var f :| f in files && f.path == r && Current(sel.entries, f) && sel.entries[r].localPath == job.localPath(r);
        assert f in all;
      } else {
        assert file.path == r;
      }
    }
  }

  // ---- Cycles ----------------------------------------------------------------------------

  /** One cycle after its walk: what selection saw, and the batch it led to, if any. */
  datatype Cycle = Cycle(
    before: Entries,
    look: RemoteFile -> Adoption,
    inspected: nat,
    partialWalk: bool,
    spaceOk: bool,
    run: Finished,
    cancelled: bool)

  function Seen(listing: seq<RemoteFile>, cy: Cycle): seq<RemoteFile> {
    if cy.inspected <= |listing| then listing[..cy.inspected] else listing
  }

  function SelectionOf(job: Job, listing: seq<RemoteFile>, cy: Cycle): Selection {
    Select(job, cy.before, Seen(listing, cy), cy.look)
  }

  predicate RunsBatch(job: Job, listing: seq<RemoteFile>, cy: Cycle) {
    SelectionOf(job, listing, cy).chosen != [] && cy.spaceOk
  }

  /** Only a cancellation cuts the selection short. It is not undone, so the batch, if there
      is one, starts with it. */
  ghost predicate IsCycle(job: Job, listing: seq<RemoteFile>, cy: Cycle) {
    && Listing(listing)
    && (cy.inspected < |listing| ==> cy.cancelled)
    && (RunsBatch(job, listing, cy) ==>
          && Done(cy.run)
          && cy.run.batch.files == SelectionOf(job, listing, cy).chosen
          && cy.run.batch.manifest == SelectionOf(job, listing, cy).entries
          && (cy.inspected < |listing| ==> cy.run.states[0].cancelled)
          && (Last(cy.run).cancelled ==> cy.cancelled)
          && (forall x :: x in Last(cy.run).results ==> x.index < |cy.run.batch.files|))
  }

  function AfterCycle(job: Job, listing: seq<RemoteFile>, cy: Cycle): Entries
    requires IsCycle(job, listing, cy)
  {
    if RunsBatch(job, listing, cy) then ManifestAfter(cy.run.batch, Last(cy.run))
    else SelectionOf(job, listing, cy).entries
  }

  /** What the cycle returns to the run loop. */
  function ResultOf(job: Job, listing: seq<RemoteFile>, cy: Cycle): CycleResult
    requires IsCycle(job, listing, cy)
  {
    var partial := if cy.partialWalk && !cy.cancelled then CycleFailed else Succeeded;
    if SelectionOf(job, listing, cy).chosen == [] then partial
    else if !cy.spaceOk then CycleFailed
    else
      var s := Last(cy.run);
      if BatchLedger.Tally(s.results, Failed) > 0 then CycleFailed
      else match BatchLedger.IncompleteBatchError(s.attempted, |cy.run.batch.files|, s.cancelled)
        case StoppedByPause => BatchPaused
        case StoppedByShutdown => CycleFailed
        case NoError => partial
  }

  /** The batch of this cycle completed, or skipped, this file. */
  ghost predicate Ended(job: Job, listing: seq<RemoteFile>, cy: Cycle, file: RemoteFile, outcome: Outcome)
    requires IsCycle(job, listing, cy)
  {
    RunsBatch(job, listing, cy) &&
    exists i :: 0 <= i < |cy.run.batch.files| && cy.run.batch.files[i] == file
      && Last(cy.run).workers[i].outcome == outcome
  }

  lemma CycleSelection(job: Job, listing: seq<RemoteFile>, cy: Cycle)
    requires IsCycle(job, listing, cy)
    ensures Selected(job, cy.before, Seen(listing, cy), SelectionOf(job, listing, cy))
    ensures forall f :: f in Seen(listing, cy) ==> f in listing
  {
    SelectionIsExact(job, cy.before, Seen(listing, cy), cy.look);
  }

  lemma SameFile(listing: seq<RemoteFile>, f: RemoteFile, g: RemoteFile)
    requires Listing(listing) && f in listing && g in listing && f.path == g.path
    ensures f == g
  {
    var i :| 0 <= i < |listing| && listing[i] == f;
    var j :| 0 <= j < |listing| && listing[j] == g;
  }

  /** Wherever the listing has this file's path, it has the file as it is. */
  ghost predicate Unchanged(listing: seq<RemoteFile>, f: RemoteFile) {
    forall g :: g in listing && g.path == f.path ==> g == f
  }

  lemma ListedIsUnchanged(listing: seq<RemoteFile>, f: RemoteFile)
    requires Listing(listing) && f in listing
    ensures Unchanged(listing, f)
  {
    forall g | g in listing && g.path == f.path ensures g == f {
      SameFile(listing, f, g);
    }
  }

  /** A file that did not change and that selection did not choose is as current at the end
      of the cycle as selection left it. */
  lemma UnchosenKeepsEntry(job: Job, listing: seq<RemoteFile>, cy: Cycle, f: RemoteFile)
    requires IsCycle(job, listing, cy) && Unchanged(listing, f) && f !in SelectionOf(job, listing, cy).chosen
    ensures Current(AfterCycle(job, listing, cy), f) == Current(SelectionOf(job, listing, cy).entries, f)
  {
    CycleSelection(job, listing, cy);
    if RunsBatch(job, listing, cy) {
      var run := cy.run;
      forall g | g in run.batch.files ensures g.path != f.path {
        assert g in SelectionOf(job, listing, cy).chosen && g in listing;
      }
      OthersKeepTheirEntry(run.batch, run.states, run.steps, f.path);
    }
  }

  /** An unchanged file that is current once selection is done stays current. */
  lemma BatchKeepsCurrent(job: Job, listing: seq<RemoteFile>, cy: Cycle, f: RemoteFile)
    requires IsCycle(job, listing, cy) && Unchanged(listing, f) && Current(SelectionOf(job, listing, cy).entries, f)
    ensures Current(AfterCycle(job, listing, cy), f)
  {
    CycleSelection(job, listing, cy);
    UnchosenKeepsEntry(job, listing, cy, f);
  }

  /** An unchanged file that is current before a cycle is not chosen and stays current. */
  lemma CurrentStaysCurrent(job: Job, listing: seq<RemoteFile>, cy: Cycle, f: RemoteFile)
    requires IsCycle(job, listing, cy) && Unchanged(listing, f) && Current(cy.before, f)
    ensures f !in SelectionOf(job, listing, cy).chosen && Current(AfterCycle(job, listing, cy), f)
  {
    CycleSelection(job, listing, cy);
    assert Current(SelectionOf(job, listing, cy).entries, f);
    BatchKeepsCurrent(job, listing, cy, f);
  }

  lemma CompletedIsCurrent(job: Job, listing: seq<RemoteFile>, cy: Cycle, f: RemoteFile)
    requires IsCycle(job, listing, cy) && Ended(job, listing, cy, f, Completed)
    ensures Current(AfterCycle(job, listing, cy), f) && f in listing
  {
    CycleSelection(job, listing, cy);
    var run := cy.run;
    var i :| 0 <= i < |run.batch.files| && run.batch.files[i] == f && Last(run).workers[i].outcome == Completed;
    CompletedIsRecorded(run.batch, run.states, run.steps, i);
    assert f in run.batch.files;
  }

  /** A completed file is recorded with the time and the size it has in the listing. */
  lemma CompletedHasItsTimeAndSize(job: Job, listing: seq<RemoteFile>, cy: Cycle, f: RemoteFile)
    requires IsCycle(job, listing, cy) && Ended(job, listing, cy, f, Completed)
    ensures var now := AfterCycle(job, listing, cy);
      f.path in now && now[f.path].mtime == f.mtime && now[f.path].size == f.size
  {
    CompletedIsCurrent(job, listing, cy, f);
  }

  /** While the listing does not change, a cycle chooses only what the one before chose
      and did not complete, if that one saw the whole listing. */
  lemma NextCycleChoosesLess(job: Job, listing: seq<RemoteFile>, cy: Cycle, next: Cycle, f: RemoteFile)
    requires IsCycle(job, listing, cy) && IsCycle(job, listing, next)
    requires next.before == AfterCycle(job, listing, cy) && cy.inspected >= |listing|
    requires f in SelectionOf(job, listing, next).chosen
    ensures f in SelectionOf(job, listing, cy).chosen && !Ended(job, listing, cy, f, Completed)
  {
    CycleSelection(job, listing, cy);
    CycleSelection(job, listing, next);
    assert f in listing && !Current(next.before, f) by {
      if Current(next.before, f) {
        CurrentStaysCurrent(job, listing, next, f);
      }
    }
    if Ended(job, listing, cy, f, Completed) {
      CompletedIsCurrent(job, listing, cy, f);
    }
    if Current(SelectionOf(job, listing, cy).entries, f) {
      BatchKeepsCurrent(job, listing, cy, f);
    }
  }

  /** An uncompleted file is as current after the cycle as selection left it. */
  lemma UncompletedKeepsEntry(job: Job, listing: seq<RemoteFile>, cy: Cycle, f: RemoteFile)
    requires IsCycle(job, listing, cy) && f in listing && !Ended(job, listing, cy, f, Completed)
    ensures Current(AfterCycle(job, listing, cy), f) == Current(SelectionOf(job, listing, cy).entries, f)
  {
    CycleSelection(job, listing, cy);
    if RunsBatch(job, listing, cy) {
      var run := cy.run;
      forall i | 0 <= i < |run.batch.files| && Last(run).workers[i].outcome.Completed?
        ensures RemoteOf(run.batch, i) != f.path
      {
        var g := run.batch.files[i];
        assert g in SelectionOf(job, listing, cy).chosen && Ended(job, listing, cy, g, Completed);
        if g.path == f.path {
          SameFile(listing, f, g);
        }
      }
      OthersKeepTheirEntry(run.batch, run.states, run.steps, f.path);
    }
  }

  /** Over an unchanged listing that both cycles see whole, the second chooses exactly what
      the first chose and did not complete, less what it finds to adopt. Nothing is given
      up: a file that failed, was skipped or was not reached is tried again. */
  lemma NextCycleChoosesExactly(job: Job, listing: seq<RemoteFile>, cy: Cycle, next: Cycle, f: RemoteFile)
    requires IsCycle(job, listing, cy) && IsCycle(job, listing, next) && f in listing
    requires next.before == AfterCycle(job, listing, cy)
    requires cy.inspected >= |listing| && next.inspected >= |listing|
    ensures f in SelectionOf(job, listing, next).chosen <==>
      && f in SelectionOf(job, listing, cy).chosen && !Ended(job, listing, cy, f, Completed)
      && !(f.path !in next.before && next.look(f).Adopted?)
  {
    assert Seen(listing, cy) == listing && Seen(listing, next) == listing;
    CycleSelection(job, listing, cy);
    ChosenIff(job, next.before, listing, next.look, f);
    if f in SelectionOf(job, listing, next).chosen {
      NextCycleChoosesLess(job, listing, cy, next, f);
    } else if f in SelectionOf(job, listing, cy).chosen && !Ended(job, listing, cy, f, Completed) {
      UncompletedKeepsEntry(job, listing, cy, f);
    }
  }

  /** A cycle reports a pause to the run loop only when its batch really read one, which is
      what `RunLoop.CycleReturns` takes for granted. */
  lemma PausedCycleSawPause(job: Job, listing: seq<RemoteFile>, cy: Cycle)
    requires IsCycle(job, listing, cy) && ResultOf(job, listing, cy) == BatchPaused
    ensures RunsBatch(job, listing, cy) && Last(cy.run).sawPause
    ensures exists m :: 0 <= m < |cy.run.steps| && cy.run.states[m].paused
  {
    BatchLedger.PauseErrorMeansPause(cy.run.batch, cy.run.states, cy.run.steps, |cy.run.steps|);
  }

  /** A cycle with what its walk listed: the server may change between one and the next. */
  datatype Poll = Poll(listing: seq<RemoteFile>, cycle: Cycle)

  ghost predicate History(job: Job, polls: seq<Poll>) {
    && (forall k :: 0 <= k < |polls| ==> IsCycle(job, polls[k].listing, polls[k].cycle))
    && (forall j, k :: 0 <= j < k < |polls| && k == j + 1 ==>
          polls[k].cycle.before == AfterCycle(job, polls[j].listing, polls[j].cycle))
  }

  lemma PollFollows(job: Job, polls: seq<Poll>, k: nat)
    requires History(job, polls) && k + 1 < |polls|
    ensures IsCycle(job, polls[k].listing, polls[k].cycle)
    ensures IsCycle(job, polls[k + 1].listing, polls[k + 1].cycle)
    ensures polls[k + 1].cycle.before == AfterCycle(job, polls[k].listing, polls[k].cycle)
  {
  }

  /** A completed file is not transferred again until it changes on the server: no later
      cycle chooses it, cancelled or not, whatever else comes, goes and changes there. */
  lemma CompletedAtMostOnce(job: Job, polls: seq<Poll>, j: nat, k: nat, f: RemoteFile)
    requires History(job, polls) && j < k < |polls|
    requires forall n :: j < n <= k ==> Unchanged(polls[n].listing, f)
    requires Ended(job, polls[j].listing, polls[j].cycle, f, Completed)
    ensures f !in SelectionOf(job, polls[k].listing, polls[k].cycle).chosen
    ensures !Ended(job, polls[k].listing, polls[k].cycle, f, Completed)
  {
    CompletedIsCurrent(job, polls[j].listing, polls[j].cycle, f);
    PollFollows(job, polls, j);
    for n := j + 1 to k
      invariant Current(polls[n].cycle.before, f)
    {
      PollFollows(job, polls, n);
      CurrentStaysCurrent(job, polls[n].listing, polls[n].cycle, f);
    }
    CurrentStaysCurrent(job, polls[k].listing, polls[k].cycle, f);
  }

  /** A batch that neither failed nor stopped early completed or skipped each file. */
  lemma CleanBatch(run: Finished, i: nat)
    requires Done(run) && i < |run.batch.files|
    requires BatchLedger.Tally(Last(run).results, Failed) <= 0
    requires Last(run).attempted >= |run.batch.files|
    ensures Last(run).workers[i].outcome.Completed? || Last(run).workers[i].outcome.Skipped?
  {
    var s, n := Last(run), |run.steps|;
    BatchLedger.ReportsMatchCounters(run.batch, run.states, run.steps, n);
    BatchLedger.RunKeepsInv(run.batch, run.states, run.steps, n);
    TotalAtLeast(s.workers, i, BatchLedger.IsFailed);
    assert BatchLedger.Sane(run.batch, s.workers[i]);
  }

  /** A cycle recorded as a success has every matching file it looked at current in the
      manifest or skipped by the collision policy; with a live context that is every
      matching file of the listing, and the walk saw the whole server. */
  lemma SuccessMeansSynced(job: Job, listing: seq<RemoteFile>, cy: Cycle, f: RemoteFile)
    requires IsCycle(job, listing, cy) && ResultOf(job, listing, cy) == Succeeded
    requires f in listing && job.matches(f.path)
    ensures f in Seen(listing, cy) ==> Current(AfterCycle(job, listing, cy), f) || Ended(job, listing, cy, f, Skipped)
    ensures !cy.cancelled ==> Seen(listing, cy) == listing && !cy.partialWalk
  {
    if f in Seen(listing, cy) {
      CycleSelection(job, listing, cy);
      ListedIsUnchanged(listing, f);
      if Current(SelectionOf(job, listing, cy).entries, f) {
        BatchKeepsCurrent(job, listing, cy, f);
      } else {
        var run := cy.run;
        var i :| 0 <= i < |run.batch.files| && run.batch.files[i] == f;
        CleanBatch(run, i);
        if Last(run).workers[i].outcome.Completed? {
          CompletedIsCurrent(job, listing, cy, f);
        }
      }
    }
  }

  /** A file the cut-off selection never reached: the cycle does nothing for it. */
  lemma UnseenIsUntouched(job: Job, listing: seq<RemoteFile>, cy: Cycle, f: RemoteFile)
    requires IsCycle(job, listing, cy) && f in listing && f !in Seen(listing, cy)
    ensures Current(AfterCycle(job, listing, cy), f) == Current(cy.before, f)
    ensures !Ended(job, listing, cy, f, Completed) && !Ended(job, listing, cy, f, Skipped)
  {
    CycleSelection(job, listing, cy);
    UnchosenKeepsEntry(job, listing, cy, f);
    forall g | g in Seen(listing, cy) ensures g.path != f.path {
      if g.path == f.path {
        SameFile(listing, f, g);
      }
    }
  }

  /** The success of a cycle is true of the whole listing exactly when every matching
      file its selection did not reach was current already; that is always so when the
      selection was not cut short. */
  lemma SuccessIsTrueIff(job: Job, listing: seq<RemoteFile>, cy: Cycle)
    requires IsCycle(job, listing, cy) && ResultOf(job, listing, cy) == Succeeded
    ensures
      (forall f :: f in listing && job.matches(f.path) ==>
        Current(AfterCycle(job, listing, cy), f) || Ended(job, listing, cy, f, Skipped))
      <==>
      (forall f :: f in listing && job.matches(f.path) && f !in Seen(listing, cy) ==> Current(cy.before, f))
  {
    forall f | f in listing && job.matches(f.path)
      ensures f in Seen(listing, cy) ==> Current(AfterCycle(job, listing, cy), f) || Ended(job, listing, cy, f, Skipped)
      ensures f !in Seen(listing, cy) ==>
        (Current(AfterCycle(job, listing, cy), f) || Ended(job, listing, cy, f, Skipped) <==> Current(cy.before, f))
    {
      SuccessMeansSynced(job, listing, cy, f);
      if f !in Seen(listing, cy) {
        UnseenIsUntouched(job, listing, cy, f);
      }
    }
  }

  /** Exactly when a cycle ends how: a failed download is reported ahead of everything, a
      batch that stopped ahead of a partial walk, and a pause only from a live batch. */
  lemma ResultIsExact(job: Job, listing: seq<RemoteFile>, cy: Cycle)
    requires IsCycle(job, listing, cy)
    ensures var idle, ran := SelectionOf(job, listing, cy).chosen == [], RunsBatch(job, listing, cy);
      var failed := ran && exists r :: r in Last(cy.run).results && r.outcome.Failed?;
      var stopped := ran && !failed && Last(cy.run).attempted < |cy.run.batch.files|;
      && (ResultOf(job, listing, cy) == BatchPaused <==> stopped && !Last(cy.run).cancelled)
      && (ResultOf(job, listing, cy) == CycleFailed <==>
            || (!idle && !ran) || failed || (stopped && Last(cy.run).cancelled)
            || (!stopped && cy.partialWalk && !cy.cancelled))
  {
    if RunsBatch(job, listing, cy) {
      TallyIsPresence(Last(cy.run).results, Failed);
    }
  }

  lemma {:induction false} TallyIsPresence(results: seq<Report>, outcome: Outcome)
    ensures BatchLedger.Tally(results, outcome) >= 0
    ensures BatchLedger.Tally(results, outcome) > 0 <==> exists r :: r in results && r.outcome == outcome
    decreases |results|
  {
    if results != [] {
      var shorter, last := results[..|results| - 1], results[|results| - 1];
      assert results == shorter + [last];
      TallyIsPresence(shorter, outcome);
    }
  }

  /** A cycle whose selection was cut short attempts no file. It is recorded as a success
      exactly when what it had reached by then left nothing to download. */
  lemma CutShortCycleSucceedsIff(job: Job, listing: seq<RemoteFile>, cy: Cycle)
    requires IsCycle(job, listing, cy) && cy.inspected < |listing|
    ensures ResultOf(job, listing, cy) == Succeeded <==> SelectionOf(job, listing, cy).chosen == []
    ensures AfterCycle(job, listing, cy) == SelectionOf(job, listing, cy).entries
  {
    if RunsBatch(job, listing, cy) {
      BatchLedger.CancelledBatchAttemptsNothing(cy.run.batch, cy.run.states, cy.run.steps, |cy.run.steps|);
    }
  }

  /** The downloads of the cycle, if there were any to do, all ended and none failed. */
  predicate NothingFailed(job: Job, listing: seq<RemoteFile>, cy: Cycle)
    requires RunsBatch(job, listing, cy) ==> cy.run.states != []
  {
    SelectionOf(job, listing, cy).chosen == [] ||
    (cy.spaceOk && BatchLedger.Tally(Last(cy.run).results, Failed) <= 0 &&
     Last(cy.run).attempted >= |cy.run.batch.files|)
  }

  /** A walk that missed part of the server, with nothing else wrong, is reported exactly
      when the context is still live at the end; otherwise the cycle passes for a success,
      even when selection went through the whole listing. */
  lemma PartialWalkIsReportedIff(job: Job, listing: seq<RemoteFile>, cy: Cycle)
    requires IsCycle(job, listing, cy) && cy.partialWalk && NothingFailed(job, listing, cy)
    ensures ResultOf(job, listing, cy) == CycleFailed <==> !cy.cancelled
    ensures ResultOf(job, listing, cy) == Succeeded <==> cy.cancelled
  {
  }

  /** One file, listed by a partial walk and current already, and a cancellation at the end. */
  lemma CancelledPartialWalkIsRecordedAsSuccess(run: Finished)
    ensures var job := Job(_ => true, p => p);
      var f := RemoteFile("/photos/a.jpg", 1, 10);
      var cy := Cycle(map[f.path := EntryFor(f, f.path, "")], _ => NotAdopted, 1, true, true, run, true);
      && IsCycle(job, [f], cy) && Seen([f], cy) == [f]
      && ResultOf(job, [f], cy) == Succeeded && cy.partialWalk
  {
    var job := Job(_ => true, p => p);
    var f := RemoteFile("/photos/a.jpg", 1, 10);
    var cy := Cycle(map[f.path := EntryFor(f, f.path, "")], _ => NotAdopted, 1, true, true, run, true);
    assert Seen([f], cy) == [f];
    ChosenNone(job, cy.before, f);
  }

  lemma ChosenNone(job: Job, entries: Entries, f: RemoteFile)
    requires Current(entries, f)
    ensures Select(job, entries, [f], _ => NotAdopted).chosen == []
  {
    assert [f][..0] == [];
    assert Select(job, entries, [f][..0], _ => NotAdopted).chosen == [];
  }

  /** Without a live context it need not: a cancellation noticed before the first file
      leaves nothing to download, and the cycle is recorded as a success. */
  lemma CancelledSelectionIsRecordedAsSuccess(run: Finished)
    ensures var job := Job(_ => true, p => p);
      var f := RemoteFile("/photos/a.jpg", 1, 10);
      var cy := Cycle(map[], _ => NotAdopted, 0, false, true, run, true);
      && IsCycle(job, [f], cy)
      && ResultOf(job, [f], cy) == Succeeded
      && !Current(AfterCycle(job, [f], cy), f) && !Ended(job, [f], cy, f, Skipped)
  {
    var job := Job(_ => true, p => p);
    var f := RemoteFile("/photos/a.jpg", 1, 10);
    var cy := Cycle(map[], _ => NotAdopted, 0, false, true, run, true);
    assert Seen([f], cy) == [];
  }
}
