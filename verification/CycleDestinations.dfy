/** Recorded destinations over whole cycles, which adopt files as well as download them. */
module CycleDestinations {
  import opened Options
  import opened Paths
  import opened Records
  import opened Destinations
  import opened Batch
  import opened OneFileBatch
  import opened BatchResults
  import opened Cycles
  import BatchPlaces

  /** No file that this cycle adopts is found at a path recorded for another. */
  ghost predicate AdoptsFresh(job: Job, listing: seq<RemoteFile>, cy: Cycle) {
    forall f, q :: f in Seen(listing, cy) && Adopts(job, cy, f) && q in cy.before
      ==> cy.before[q].localPath != job.localPath(f.path)
  }

  predicate Adopts(job: Job, cy: Cycle, f: RemoteFile) {
    job.matches(f.path) && f.path !in cy.before && cy.look(f).Adopted?
  }

  /** Different files of the listing have different local places, and none has no place. */
  ghost predicate PlacesDiffer(job: Job, listing: seq<RemoteFile>) {
    && (forall f :: f in listing ==> job.localPath(f.path) != "")
    && (forall f, g :: f in listing && g in listing && f.path != g.path ==>
      job.localPath(f.path) != job.localPath(g.path))
  }

  /** Files below the remote root have different places under the local one. */
  lemma PlacesUnderRootsDiffer(roots: Roots, matches: Remote -> bool, listing: seq<RemoteFile>)
    requires forall f :: f in listing ==> Below(roots.remote, f.path)
    ensures PlacesDiffer(Job(matches, (p: Remote) => LocalPath(roots, p)), listing)
  {
    forall f, g | f in listing && g in listing && f.path != g.path
      ensures LocalPath(roots, f.path) != LocalPath(roots, g.path)
    {
      if LocalPath(roots, f.path) == LocalPath(roots, g.path) {
        LocalPathInjective(roots, f.path, g.path);
      }
    }
  }

  /** The entries that selection adds are those of the files it adopts. */
  lemma {:induction false} AdoptedIff(job: Job, entries: Entries, files: seq<RemoteFile>, look: RemoteFile -> Adoption,
                                      f: RemoteFile)
    requires Listing(files) && f in files && f.path !in entries
    ensures f.path in Select(job, entries, files, look).entries <==> job.matches(f.path) && look(f).Adopted?
    decreases |files|
  {
    var shorter, last := files[..|files| - 1], files[|files| - 1];
    assert files == shorter + [last];
    forall g | g in shorter ensures g.path != last.path {
      var i :| 0 <= i < |shorter| && shorter[i] == g;
    }
    if f in shorter {
      AdoptedIff(job, entries, shorter, look, f);
    } else {
      UnlistedKeepsEntry(job, entries, shorter, look, f.path);
    }
  }

  /** Selection keeps recorded destinations distinct if and only if it adopts no file at a
      path that was recorded already. */
  lemma SelectionKeepsDistinctIff(job: Job, listing: seq<RemoteFile>, cy: Cycle)
    requires IsCycle(job, listing, cy) && PlacesDiffer(job, listing) && DistinctDestinations(cy.before)
    ensures DistinctDestinations(SelectionOf(job, listing, cy).entries) <==> AdoptsFresh(job, listing, cy)
  {
    var m, seen := SelectionOf(job, listing, cy).entries, Seen(listing, cy);
    CycleSelection(job, listing, cy);
    if DistinctDestinations(m) {
      forall f, q | f in seen && Adopts(job, cy, f) && q in cy.before
        ensures cy.before[q].localPath != job.localPath(f.path)
      {
        AdoptedIff(job, cy.before, seen, cy.look, f);
        assert f.path in m && q in m && m[f.path].localPath != m[q].localPath;
      }
    } else {
      var r, q :| r in m && q in m && r != q && m[r].localPath != "" && m[r].localPath == m[q].localPath;
      if r in cy.before {
        OneOfThemIsNew(job, listing, cy, q, r);
      } else if q in cy.before {
        OneOfThemIsNew(job, listing, cy, r, q);
      } else {
        NewPlacesDiffer(job, listing, cy, r, q);
      }
    }
  }

  lemma NewPlacesDiffer(job: Job, listing: seq<RemoteFile>, cy: Cycle, r: Remote, q: Remote)
    requires IsCycle(job, listing, cy) && PlacesDiffer(job, listing) && r != q
    requires var m := SelectionOf(job, listing, cy).entries;
      r in m && q in m && r !in cy.before && q !in cy.before
    ensures var m := SelectionOf(job, listing, cy).entries;
      m[r].localPath != m[q].localPath
  {
    var m, seen := SelectionOf(job, listing, cy).entries, Seen(listing, cy);
    CycleSelection(job, listing, cy);
    var f :| f in seen && f.path == r && m[r].localPath == job.localPath(r);
    var g :| g in seen && g.path == q && m[q].localPath == job.localPath(q);
    assert f in listing && g in listing;
  }

  lemma OneOfThemIsNew(job: Job, listing: seq<RemoteFile>, cy: Cycle, r: Remote, q: Remote)
    requires IsCycle(job, listing, cy) && PlacesDiffer(job, listing)
    requires var m := SelectionOf(job, listing, cy).entries;
      r in m && q in m && r !in cy.before && q in cy.before && m[r].localPath == m[q].localPath
    ensures !AdoptsFresh(job, listing, cy)
  {
    var m, seen := SelectionOf(job, listing, cy).entries, Seen(listing, cy);
    CycleSelection(job, listing, cy);
    var f :| f in seen && f.path == r && m[r].localPath == job.localPath(r);
    AdoptedIff(job, cy.before, seen, cy.look, f);
    assert Adopts(job, cy, f) && q in cy.before;
  }

  lemma CycleKeepsDistinct(job: Job, listing: seq<RemoteFile>, cy: Cycle)
    requires IsCycle(job, listing, cy) && DistinctDestinations(SelectionOf(job, listing, cy).entries)
    ensures DistinctDestinations(AfterCycle(job, listing, cy))
  {
    if RunsBatch(job, listing, cy) {
      DestinationsStayDistinct(cy.run.batch, cy.run.states, cy.run.steps);
    }
  }

  /** The cycle began, and selected, with distinct destinations. */
  ghost predicate DistinctAt(job: Job, poll: Poll) {
    DistinctDestinations(poll.cycle.before) && DistinctDestinations(SelectionOf(job, poll.listing, poll.cycle).entries)
  }

  ghost predicate AllPlacesDiffer(job: Job, polls: seq<Poll>) {
    forall k :: 0 <= k < |polls| ==> PlacesDiffer(job, polls[k].listing)
  }

  lemma NextIsDistinctIff(job: Job, polls: seq<Poll>, k: nat)
    requires History(job, polls) && AllPlacesDiffer(job, polls) && k < |polls|
    requires if k == 0 then DistinctDestinations(polls[0].cycle.before) else DistinctAt(job, polls[k - 1])
    ensures DistinctAt(job, polls[k]) <==> AdoptsFresh(job, polls[k].listing, polls[k].cycle)
  {
    if k > 0 {
      PollFollows(job, polls, k - 1);
      CycleKeepsDistinct(job, polls[k - 1].listing, polls[k - 1].cycle);
    }
    SelectionKeepsDistinctIff(job, polls[k].listing, polls[k].cycle);
  }

  /** The first n cycles all began and selected with distinct destinations. */
  ghost predicate DistinctBefore(job: Job, polls: seq<Poll>, n: nat)
    requires n <= |polls|
  {
    n == 0 || (DistinctBefore(job, polls, n - 1) && DistinctAt(job, polls[n - 1]))
  }

  /** The first n cycles all adopted at fresh paths only. */
  ghost predicate FreshBefore(job: Job, polls: seq<Poll>, n: nat)
    requires n <= |polls|
  {
    n == 0 || (FreshBefore(job, polls, n - 1) && AdoptsFresh(job, polls[n - 1].listing, polls[n - 1].cycle))
  }

  /** Over any number of cycles, adopting and downloading under any policy, with any
      cancellations and any changes on the server in between, destinations are distinct
      throughout if and only if no cycle adopts a file at a path recorded for another. */
  lemma {:induction false} HistoryStaysDistinctIff(job: Job, polls: seq<Poll>, n: nat)
    requires History(job, polls) && AllPlacesDiffer(job, polls) && n <= |polls|
    requires polls != [] && DistinctDestinations(polls[0].cycle.before)
    ensures DistinctBefore(job, polls, n) <==> FreshBefore(job, polls, n)
  {
    if n > 0 {
      HistoryStaysDistinctIff(job, polls, n - 1);
      if DistinctBefore(job, polls, n - 1) {
        NextIsDistinctIff(job, polls, n - 1);
      }
    }
  }

  // ---- A recorded file over cycles that adopt at fresh paths ---------------------------------

  /** Selection leaves every recorded file recorded where it was, and so does the cycle. */
  lemma CycleKeepsHome(job: Job, poll: Poll, r: Remote, home: Path)
    requires IsCycle(job, poll.listing, poll.cycle) && DistinctAt(job, poll)
    requires RecordedAt(poll.cycle.before, r, home)
    ensures RecordedAt(SelectionOf(job, poll.listing, poll.cycle).entries, r, home)
    ensures RecordedAt(AfterCycle(job, poll.listing, poll.cycle), r, home)
  {
    CycleSelection(job, poll.listing, poll.cycle);
    if RunsBatch(job, poll.listing, poll.cycle) {
      var run := poll.cycle.run;
      BatchKeepsHome(run.batch, run.states, run.steps, r, home);
    }
  }

  lemma {:induction false} HomeIsKeptOverPolls(job: Job, polls: seq<Poll>, j: nat, k: nat, r: Remote, home: Path)
    requires History(job, polls) && j <= k < |polls| && DistinctBefore(job, polls, k + 1)
    requires RecordedAt(polls[j].cycle.before, r, home)
    ensures IsCycle(job, polls[k].listing, polls[k].cycle)
    ensures RecordedAt(SelectionOf(job, polls[k].listing, polls[k].cycle).entries, r, home)
    ensures RecordedAt(AfterCycle(job, polls[k].listing, polls[k].cycle), r, home)
    decreases k
  {
    if j < k {
      HomeIsKeptOverPolls(job, polls, j, k - 1, r, home);
      PollFollows(job, polls, k - 1);
    }
    CycleKeepsHome(job, polls[k], r, home);
  }

  /** In one such cycle the file is given its recorded place, whatever is asked for. */
  lemma CycleUpdatesInPlace(job: Job, poll: Poll, r: Remote, home: Path, m: nat, n: nat)
    requires IsCycle(job, poll.listing, poll.cycle) && RunsBatch(job, poll.listing, poll.cycle)
    requires DistinctAt(job, poll) && RecordedAt(SelectionOf(job, poll.listing, poll.cycle).entries, r, home)
    requires var run := poll.cycle.run;
      m < |run.batch.files| && RemoteOf(run.batch, m) == r && n < |run.states|
    ensures var run := poll.cycle.run;
      && (forall desired :: Answer(run.batch, run.states[n], m, desired) == Placed(home))
      && BatchPlaces.AtHome(run.states[n].workers[m], home)
  {
    var run := poll.cycle.run;
    BatchPlaces.RecordedFilesKeepTheirPlace(run.batch, run.states, run.steps, n, m);
  }

  /** A file recorded before some cycle, by a download or an adoption, is updated in place by
      every later one, as long as cycles adopt at fresh paths: each resolution in each state
      answers the recorded path, and the file is never skipped, refused or renamed. */
  lemma UpdatesStayInPlaceOverCycles(job: Job, polls: seq<Poll>, j: nat, k: nat, r: Remote, home: Path, m: nat, n: nat)
    requires History(job, polls) && AllPlacesDiffer(job, polls) && j <= k < |polls|
    requires DistinctDestinations(polls[0].cycle.before) && FreshBefore(job, polls, k + 1)
    requires RecordedAt(polls[j].cycle.before, r, home) && RunsBatch(job, polls[k].listing, polls[k].cycle)
    requires var run := polls[k].cycle.run;
      m < |run.batch.files| && RemoteOf(run.batch, m) == r && n < |run.states|
    ensures var run := polls[k].cycle.run;
      && Done(run) && |run.states[n].workers| == |run.batch.files|
      && (forall desired :: Answer(run.batch, run.states[n], m, desired) == Placed(home))
      && BatchPlaces.AtHome(run.states[n].workers[m], home)
  {
    HistoryStaysDistinctIff(job, polls, k + 1);
    HomeIsKeptOverPolls(job, polls, j, k, r, home);
    CycleUpdatesInPlace(job, polls[k], r, home, m, n);
  }

  // ---- One job that shares a destination ----------------------------------------------------

  const ROOTS: Roots := Roots("/photos", "/local")
  const CAMERA: RemoteFile := RemoteFile(InDirectory(ROOTS, "cam", "a.jpg"), 1, 5)
  const SORTED: RemoteFile := RemoteFile(InDirectory(ROOTS, "2024", "a.jpg"), 2, 5)

  function InDirectory(roots: Roots, dir: Path, base: Path): Path { roots.remote + "/" + (dir + "/" + base) }

  /** A dated photo goes to the local place of the file of that name in the remote directory
      that is called after its year. */
  lemma DatedPlaceIsAnothersPlace(roots: Roots, dir: Path, base: Path, year: string)
    requires '/' !in base
    ensures YearPath(roots, InDirectory(roots, dir, base), year) == LocalPath(roots, InDirectory(roots, year, base))
  {
    LocalPathBelow(roots, year + "/" + base);
    var whole := roots.remote + "/" + (dir + "/");
    assert InDirectory(roots, dir, base) == whole + base;
    BaseFollowsDir(whole, base);
    assert roots.local + "/" + year + "/" + base == roots.local + "/" + (year + "/" + base);
  }

  /** The job sorts by year; its first batch downloads the camera's photo, taken in 2024. */
  function CameraBatch(policy: Policy): Batch {
    Batch([CAMERA], [LocalPath(ROOTS, CAMERA.path)], false, policy, 1, 3, false, _ => "", map[],
          Table(map[], map[], map[], MAX_RENAME_ATTEMPTS), map[])
  }

  lemma CameraBatchPlaces(policy: Policy, content: Content, desired: Path) returns (s: State)
    requires desired != ""
    ensures Reaches(CameraBatch(policy), s) && s.main.Finished?
    ensures s.results == [Report(0, Completed, desired, "")] && s.disk == map[desired := content]
  {
    var c := CameraBatch(policy);
    assert OneFile(c);
    assert Suffixed(desired, 1) == desired;
    assert FirstFree(c.table, c.disk.Keys, CAMERA.path, desired, 1) == 1;
    s := PlacedFileIsReported(c, content, desired);
    assert c.disk[desired := content] == map[desired := content];
  }

  /** What a cycle finds at a file's local place, without comparing contents. */
  function LookOn(disk: map<Path, Content>): RemoteFile -> Adoption {
    (f: RemoteFile) =>
      var p := LocalPath(ROOTS, f.path);
      Adoptable(if p in disk then Present(|disk[p]|, None) else Missing, f.size, false, None)
  }

  function YearJob(): Job { Job(_ => true, (p: Remote) => LocalPath(ROOTS, p)) }

  /** Both photos recorded at one place. */
  function SharedEntries(place: Path): Entries {
    map[CAMERA.path := EntryFor(CAMERA, place, ""), SORTED.path := EntryFor(SORTED, place, "")]
  }

  /** Under any policy: the camera's photo is placed under its year, which is the local
      place of another photo of equal size; the next selection adopts it for that one, and
      two remote files are recorded at one destination. */
  lemma AdoptionCanShareDestination(policy: Policy, content: Content) returns (s: State)
    requires |content| == 5
    ensures Reaches(CameraBatch(policy), s) && s.main.Finished?
    ensures s.results == [Report(0, Completed, YearPath(ROOTS, CAMERA.path, "2024"), "")]
    ensures s.disk == map[YearPath(ROOTS, CAMERA.path, "2024") := content]
    ensures var before := ManifestAfter(CameraBatch(policy), s);
      var after := Select(YearJob(), before, [CAMERA, SORTED], LookOn(s.disk)).entries;
      && DistinctDestinations(before) && !DistinctDestinations(after)
      && after == SharedEntries(YearPath(ROOTS, CAMERA.path, "2024"))
  {
    var desired := LocalPath(ROOTS, SORTED.path);
    DatedPlaceIsAnothersPlace(ROOTS, "cam", "a.jpg", "2024");
    s := CameraBatchPlaces(policy, content, desired);
    CameraManifest(policy, s, desired);
    SharedByAdoption(ManifestAfter(CameraBatch(policy), s), s.disk, desired);
  }

  lemma CameraManifest(policy: Policy, s: State, desired: Path)
    requires s.results == [Report(0, Completed, desired, "")]
    ensures ManifestAfter(CameraBatch(policy), s) == map[CAMERA.path := EntryFor(CAMERA, desired, "")]
  {
    assert s.results[..0] == [];
    assert Applied(map[], [CAMERA], s.results[..0]) == map[];
  }

  lemma TheTwoDiffer()
    ensures CAMERA.path != SORTED.path
  {
    assert CAMERA.path[8] != SORTED.path[8];
  }

  lemma SharedByAdoption(before: Entries, disk: map<Path, Content>, place: Path)
    requires place == LocalPath(ROOTS, SORTED.path) != "" && place in disk && |disk[place]| == 5
    requires before == map[CAMERA.path := EntryFor(CAMERA, place, "")]
    ensures var after := Select(YearJob(), before, [CAMERA, SORTED], LookOn(disk)).entries;
      DistinctDestinations(before) && !DistinctDestinations(after) && after == SharedEntries(place)
  {
    var look, files := LookOn(disk), [CAMERA, SORTED];
    TheTwoDiffer();
    var one := Select(YearJob(), before, files[..1], look);
    assert files[..1] == [CAMERA] && files[..1][..0] == [];
    assert Select(YearJob(), before, files[..1][..0], look) == Selection(before, [], 0);
    assert one == Inspect(YearJob(), Selection(before, [], 0), CAMERA, look(CAMERA));
    assert one.entries == before;
    var after := Select(YearJob(), before, files, look).entries;
    assert after == Inspect(YearJob(), one, SORTED, look(SORTED)).entries;
    assert CAMERA.path in after && SORTED.path in after && after[SORTED.path].localPath == after[CAMERA.path].localPath;
  }

  /** The second photo once it has changed on the server. */
  const CHANGED: RemoteFile := SORTED.(mtime := 3)

  /** A batch that updates it, started from the shared record. */
  function UpdateBatch(policy: Policy, place: Path, recorded: map<Path, Remote>, disk: map<Path, Content>): Batch {
    Batch([CHANGED], [LocalPath(ROOTS, SORTED.path)], false, policy, 1, 3, false, _ => "", SharedEntries(place),
          Table(map[], recorded, map[CAMERA.path := place, SORTED.path := place], MAX_RENAME_ATTEMPTS), disk)
  }

  lemma UpdateBatchIsValid(policy: Policy, place: Path, owner: Remote, disk: map<Path, Content>, desired: Path)
    requires place != "" && owner in {CAMERA.path, SORTED.path}
    ensures var c := UpdateBatch(policy, place, map[place := owner], disk);
      OneFile(c) && FirstAnswer(c, desired) == Placed(place)
  {
    TheTwoDiffer();
    var c := UpdateBatch(policy, place, map[place := owner], disk);
    assert FreshTable(c.table, c.manifest);
  }

  /** What sharing costs: an update of the second photo, under any policy and whichever of
      the two the index names, is needed and is written over the first. The manifest still
      calls the first one current, so it is not fetched again. */
  lemma SharedDestinationLosesPhoto(policy: Policy, place: Path, owner: Remote, old_: Content, new_: Content,
                                    desired: Path)
    returns (s: State)
    requires place != "" && owner in {CAMERA.path, SORTED.path}
    ensures forall a :: Needed(SharedEntries(place), CHANGED, a) && !Needed(SharedEntries(place), CAMERA, a)
    ensures var c := UpdateBatch(policy, place, map[place := owner], map[place := old_]);
      && ValidBatch(c) && Reaches(c, s) && s.main.Finished? && s.disk == map[place := new_]
      && s.results == [Report(0, Completed, place, "")]
      && Current(ManifestAfter(c, s), CAMERA) && ManifestAfter(c, s)[CAMERA.path].localPath == place
  {
    TheTwoDiffer();
    var c := UpdateBatch(policy, place, map[place := owner], map[place := old_]);
    UpdateBatchIsValid(policy, place, owner, map[place := old_], desired);
    s := PlacedFileIsReported(c, new_, desired);
    assert c.disk[place := new_] == map[place := new_];
    UpdateLeavesFirstCurrent(c, s, place);
  }

  lemma UpdateLeavesFirstCurrent(c: Batch, s: State, place: Path)
    requires c.manifest == SharedEntries(place) && c.files == [CHANGED]
    requires s.results == [Report(0, Completed, place, "")]
    ensures Current(ManifestAfter(c, s), CAMERA) && ManifestAfter(c, s)[CAMERA.path].localPath == place
  {
    TheTwoDiffer();
    assert s.results[..0] == [] && Applied(c.manifest, c.files, s.results[..0]) == c.manifest;
  }
}
