/** A photo that is in its place when the process dies, but not yet in the saved manifest:
    what the next start makes of it.  */
module CrashRecovery {
  import opened Options
  import opened Paths
  import opened Records
  import opened Destinations
  import opened Batch
  import opened OneFileBatch
  import opened Cycles
  import opened CycleDestinations
  import opened Durability

  // ---- When the photo is recognised ---------------------------------------------------------

  /** A new photo has been renamed to its place, and the process dies before the manifest is
      saved. After the restart it is left alone if and only if what the disk holds at its
      undated local place can be shown to be the photo; its real place does not matter. */
  lemma CrashedFileIsRecognisedIff(cfg: Config, w: World, left: Option<Entries>, i: nat,
                                   listing: seq<RemoteFile>, look: RemoteFile -> Adoption,
                                   digest: Option<string>, server: Option<string>)
    requires w.pc.InBatch? && i < |w.pc.state.workers| == |w.pc.batch.files| && InPlace(w.pc.state.workers[i])
    requires var file := w.pc.batch.files[i];
      && cfg.job.matches(file.path) && file.path !in w.stored
      && Listing(listing) && file in listing && look(file) == Look(cfg, w.disk, file, digest, server)
    ensures var file := w.pc.batch.files[i];
      var up := Next(cfg, Next(cfg, w, Crash(left)), Boot);
      && up.disk == w.disk && up.memory == w.stored
      && (file !in Select(cfg.job, up.memory, listing, look).chosen <==>
            ShownToBeSame(Held(w.disk, cfg.job.localPath(file.path), digest), file.size, cfg.sha256, server))
  {
    ChosenIff(cfg.job, w.stored, listing, look, w.pc.batch.files[i]);
  }

  /** A photo that was sorted by its date is not at its undated place, so it is chosen again
      unless another file is there that looks like it. */
  lemma DatedFileIsChosenAgain(cfg: Config, w: World, left: Option<Entries>, i: nat,
                               listing: seq<RemoteFile>, look: RemoteFile -> Adoption,
                               digest: Option<string>, server: Option<string>)
    requires w.pc.InBatch? && i < |w.pc.state.workers| == |w.pc.batch.files| && InPlace(w.pc.state.workers[i])
    requires var file := w.pc.batch.files[i];
      && cfg.job.matches(file.path) && file.path !in w.stored
      && Listing(listing) && file in listing && look(file) == Look(cfg, w.disk, file, digest, server)
      && cfg.job.localPath(file.path) !in w.disk
    ensures w.pc.batch.files[i] in Select(cfg.job, Next(cfg, Next(cfg, w, Crash(left)), Boot).memory, listing,
      look).chosen
  {
    CrashedFileIsRecognisedIff(cfg, w, left, i, listing, look, digest, server);
  }

  /** So is one that was renamed because a file of another size has its undated place. */
  lemma RenamedFileIsChosenAgain(cfg: Config, w: World, left: Option<Entries>, i: nat,
                                 listing: seq<RemoteFile>, look: RemoteFile -> Adoption,
                                 digest: Option<string>, server: Option<string>)
    requires w.pc.InBatch? && i < |w.pc.state.workers| == |w.pc.batch.files| && InPlace(w.pc.state.workers[i])
    requires var file := w.pc.batch.files[i];
      && cfg.job.matches(file.path) && file.path !in w.stored
      && Listing(listing) && file in listing && look(file) == Look(cfg, w.disk, file, digest, server)
      && cfg.job.localPath(file.path) in w.disk && |w.disk[cfg.job.localPath(file.path)]| != file.size
    ensures w.pc.batch.files[i] in Select(cfg.job, Next(cfg, Next(cfg, w, Crash(left)), Boot).memory, listing,
      look).chosen
  {
    CrashedFileIsRecognisedIff(cfg, w, left, i, listing, look, digest, server);
  }

  /** Where a photo that is chosen again goes: never to a path that is occupied, so not to
      the place it has; and under the rename policy beyond every candidate that is. */
  lemma SecondPlaceIsAnother(t: Table, disk: set<Path>, policy: Policy, r: Remote, desired: Path, m: nat)
    requires RecordedFor(t, r) == ""
    ensures var answer := Choose(t, disk, policy, r, desired);
      && (answer.Placed? ==> answer.path !in disk)
      && (policy == RenamePolicy && (forall j :: 1 <= j <= m ==> Suffixed(desired, j) in disk) ==>
            answer == Refused || exists k :: m < k <= Limit(t) && answer == Placed(Suffixed(desired, k)))
  {
    if policy == RenamePolicy && forall j :: 1 <= j <= m ==> Suffixed(desired, j) in disk {
      var k := FirstFree(t, disk, r, desired, 1);
      if 1 <= k <= m {
        assert Suffixed(desired, k) in disk;
      }
    }
  }

  // ---- Lives ----------------------------------------------------------------------------------

  ghost predicate Lives(cfg: Config, start: World, w: World) {
    exists worlds, events :: IsLife(cfg, worlds, events) && worlds[0] == start && worlds[|events|] == w
  }

  lemma LivesAtFirst(cfg: Config, start: World)
    requires start.pc.Down? && start.memory == map[]
    ensures Lives(cfg, start, start)
  {
    var worlds, events: seq<Event> := [start], [];
    assert IsLife(cfg, worlds, events) && worlds[|events|] == start;
  }

  lemma LivesOn(cfg: Config, start: World, w: World, e: Event, w': World)
    requires Lives(cfg, start, w) && Possible(cfg, w, e) && w' == Next(cfg, w, e)
    ensures Lives(cfg, start, w')
  {
    var worlds, events :| IsLife(cfg, worlds, events) && worlds[0] == start && worlds[|events|] == w;
    var worlds', events' := worlds + [w'], events + [e];
    forall k | 0 <= k < |events'| ensures Comes(cfg, worlds', events', k) {
      if k < |events| {
        assert Comes(cfg, worlds, events, k) && events'[k] == events[k];
        assert worlds'[k] == worlds[k] && worlds'[k + 1] == worlds[k + 1];
      }
    }
    assert IsLife(cfg, worlds', events') && worlds'[0] == start && worlds'[|events'|] == w';
  }

  /** A run of a batch is lived through step by step. */
  lemma {:induction false} LivesThroughRun(cfg: Config, start: World, w: World, c: Batch,
                                           states: seq<State>, steps: seq<Step>, k: nat)
    requires IsRun(c, states, steps) && k < |states|
    requires Lives(cfg, start, w) && w.pc == InBatch(c, states[0]) && w.disk == states[0].disk
    ensures Lives(cfg, start, w.(pc := InBatch(c, states[k]), disk := states[k].disk))
  {
    if k == 0 {
      assert w.(pc := InBatch(c, states[0]), disk := states[0].disk) == w;
    } else {
      LivesThroughRun(cfg, start, w, c, states, steps, k - 1);
      assert Goes(c, states, steps, k - 1);
      LivesOn(cfg, start, w.(pc := InBatch(c, states[k - 1]), disk := states[k - 1].disk), BatchStep(steps[k - 1]),
              w.(pc := InBatch(c, states[k]), disk := states[k].disk));
    }
  }

  lemma LivesThroughBatch(cfg: Config, start: World, w: World, c: Batch, s: State)
    requires Lives(cfg, start, w) && w.pc == Durability.Deciding(c.files) && ValidBatch(c) && Configured(cfg, c)
    requires c.manifest == w.memory && c.disk == w.disk && Reaches(c, s)
    ensures Lives(cfg, start, w.(pc := InBatch(c, s), disk := s.disk))
  {
    var states, steps :| IsRun(c, states, steps) && states[|steps|] == s;
    var st, p, x :| states[0] == Start(c, st, p, x);
    var started := w.(pc := InBatch(c, states[0]));
    LivesOn(cfg, start, w, StartBatch(c, st, p, x), started);
    LivesThroughRun(cfg, start, started, c, states, steps, |steps|);
  }

  /** A cycle that lists one file and chooses it, up to its batch. */
  lemma LivesToBatch(cfg: Config, start: World, w: World, f: RemoteFile)
    requires Lives(cfg, start, w) && w.pc.Resting? && cfg.job.matches(f.path) && f.path !in w.memory
    requires !Look(cfg, w.disk, f, None, None).Adopted?
    ensures Lives(cfg, start, w.(pc := Durability.Deciding([f]), stored := w.memory, temp := None))
  {
    var w1 := w.(pc := Selecting([f], Selection(w.memory, [], 0)));
    LivesOn(cfg, start, w, BeginCycle([f]), w1);
    var sel := Selection(w.memory, [f], 1);
    assert [] + [f] == [f] && [f][1..] == [];
    var w2 := w.(pc := Selecting([], sel));
    LivesOn(cfg, start, w1, InspectNext(None, None), w2);
    var w3 := w.(pc := Saving(ThenDecide([f])));
    LivesOn(cfg, start, w2, StopSelecting, w3);
    var w4 := w.(pc := Replacing(ThenDecide([f])), temp := Some(w.memory));
    LivesOn(cfg, start, w3, WriteTemp(true, None), w4);
    LivesOn(cfg, start, w4, ReplaceFile(true), w.(pc := Durability.Deciding([f]), stored := w.memory, temp := None));
  }

  // ---- A photo stored twice -------------------------------------------------------------------

  const NEW_TABLE: Table := Table(map[], map[], map[], MAX_RENAME_ATTEMPTS)

  /** The first batch of a job, for one file. */
  function FirstBatch(cfg: Config, f: RemoteFile, disk: map<Path, Content>): Batch {
    Batch([f], [cfg.job.localPath(f.path)], cfg.flat, cfg.policy, 1, 3, cfg.sha256, _ => "", map[], NEW_TABLE, disk)
  }

  lemma FirstBatchIsValid(cfg: Config, f: RemoteFile, disk: map<Path, Content>)
    requires !cfg.sha256
    ensures OneFile(FirstBatch(cfg, f, disk)) && Configured(cfg, FirstBatch(cfg, f, disk))
  {
  }

  function FreshWorld(disk: map<Path, Content>): World { World(Down, disk, map[], map[], None) }

  /** Nothing on this disk is taken for the file. */
  predicate Unrecognised(cfg: Config, disk: map<Path, Content>, f: RemoteFile) {
    !Look(cfg, disk, f, None, None).Adopted?
  }

  /** A life from an empty manifest through a crash right after the rename of the first
      photo, as far as the next start. */
  lemma LivesThroughCrash(cfg: Config, f: RemoteFile, content: Content, desired: Path, disk: map<Path, Content>)
    requires !cfg.sha256 && cfg.job.matches(f.path) && Unrecognised(cfg, disk, f)
    requires var c := FirstBatch(cfg, f, disk); MayAsk(c, desired) && FirstAnswer(c, desired).Placed?
    ensures var place := FirstAnswer(FirstBatch(cfg, f, disk), desired).path;
      Lives(cfg, FreshWorld(disk), FreshWorld(disk[place := content]).(pc := Resting))
  {
    var start, c := FreshWorld(disk), FirstBatch(cfg, f, disk);
    LivesAtFirst(cfg, start);
    LivesOn(cfg, start, start, Boot, start.(pc := Resting));
    LivesToBatch(cfg, start, start.(pc := Resting), f);
    FirstBatchIsValid(cfg, f, disk);
    var s := PlacedFileIsRenamed(c, content, desired);
    var deciding := start.(pc := Durability.Deciding([f]));
    LivesThroughBatch(cfg, start, deciding, c, s);
    var renamed := deciding.(pc := InBatch(c, s), disk := s.disk);
    var down := FreshWorld(s.disk);
    LivesOn(cfg, start, renamed, Crash(None), down);
    LivesOn(cfg, start, down, Boot, down.(pc := Resting));
  }

  /** After it the same photo is downloaded once more, and at the end of that batch it is
      on disk twice, under two names. */
  lemma CrashedFileIsStoredTwice(cfg: Config, f: RemoteFile, content: Content, desired: Path,
                                 disk: map<Path, Content>, first: Path, second: Path) returns (w: World)
    requires !cfg.sha256 && cfg.job.matches(f.path) && (cfg.flat ==> desired == cfg.job.localPath(f.path))
    requires FirstAnswer(FirstBatch(cfg, f, disk), desired) == Placed(first)
    requires FirstAnswer(FirstBatch(cfg, f, disk[first := content]), desired) == Placed(second)
    requires Unrecognised(cfg, disk, f) && Unrecognised(cfg, disk[first := content], f)
    ensures Lives(cfg, FreshWorld(disk), w) && w.pc.InBatch? && w.pc.state.main.Finished?
    ensures first != second && w.disk == disk[first := content][second := content]
  {
    var disk1 := disk[first := content];
    var start, c := FreshWorld(disk), FirstBatch(cfg, f, disk1);
    LivesThroughCrash(cfg, f, content, desired, disk);
    var up := FreshWorld(disk1).(pc := Resting);
    LivesToBatch(cfg, start, up, f);
    FirstBatchIsValid(cfg, f, disk1);
    var s := PlacedFileIsReported(c, content, desired);
    var deciding := up.(pc := Durability.Deciding([f]));
    LivesThroughBatch(cfg, start, deciding, c, s);
    w := deciding.(pc := InBatch(c, s), disk := s.disk);
    SecondPlaceIsAnother(NEW_TABLE, disk1.Keys, cfg.policy, f.path, desired, 0);
  }

  /** The first answer of the rename policy to a job without records. */
  lemma FirstAnswerIs(cfg: Config, f: RemoteFile, disk: map<Path, Content>, desired: Path, k: nat)
    requires cfg.policy == RenamePolicy && 1 <= k <= 3
    requires Suffixed(desired, k) !in disk && forall j: nat :: 1 <= j < k ==> Suffixed(desired, j) in disk
    ensures FirstAnswer(FirstBatch(cfg, f, disk), desired) == Placed(Suffixed(desired, k))
  {
    FirstFreeIs(NEW_TABLE, disk.Keys, f.path, desired, k);
  }

  function CameraJob(flat: bool): Config {
    Config(Job(_ => true, (p: Remote) => LocalPath(ROOTS, p)), flat, RenamePolicy, false)
  }

  /** A dated photo: stored under its date, and again under its date with a suffix. */
  lemma DatedPhotoIsStoredTwice(content: Content, desired: Path) returns (w: World)
    requires |content| == CAMERA.size && desired == YearPath(ROOTS, CAMERA.path, "2024")
    ensures Lives(CameraJob(false), FreshWorld(map[]), w) && w.pc.InBatch? && w.pc.state.main.Finished?
    ensures w.disk == map[desired := content, Suffixed(desired, 2) := content] && desired != Suffixed(desired, 2)
  {
    var cfg, disk: map<Path, Content> := CameraJob(false), map[];
    DatedPlaceIsAnothersPlace(ROOTS, "cam", "a.jpg", "2024");
    PlacesOfTheTwoDiffer();
    TwoSuffixesDiffer(desired, 1, 2);
    FirstAnswerIs(cfg, CAMERA, disk, desired, 1);
    FirstAnswerIs(cfg, CAMERA, disk[desired := content], desired, 2);
    w := CrashedFileIsStoredTwice(cfg, CAMERA, content, desired, disk, desired, Suffixed(desired, 2));
  }

  /** A photo of a flat job whose place a file of another size has: stored under the second
      name, and again under the third. */
  lemma RenamedPhotoIsStoredTwice(content: Content, other: Content, place: Path) returns (w: World)
    requires |content| == CAMERA.size != |other| && place == LocalPath(ROOTS, CAMERA.path)
    ensures Lives(CameraJob(true), FreshWorld(map[place := other]), w) && w.pc.InBatch? && w.pc.state.main.Finished?
    ensures w.disk == map[place := other][Suffixed(place, 2) := content][Suffixed(place, 3) := content]
    ensures Suffixed(place, 2) != Suffixed(place, 3)
  {
    var cfg, disk := CameraJob(true), map[place := other];
    TwoSuffixesDiffer(place, 1, 2);
    TwoSuffixesDiffer(place, 1, 3);
    TwoSuffixesDiffer(place, 2, 3);
    FirstAnswerIs(cfg, CAMERA, disk, place, 2);
    FirstAnswerIs(cfg, CAMERA, disk[Suffixed(place, 2) := content], place, 3);
    w := CrashedFileIsStoredTwice(cfg, CAMERA, content, place, disk, Suffixed(place, 2), Suffixed(place, 3));
  }

  lemma TwoSuffixesDiffer(p: Path, a: nat, b: nat)
    requires 1 <= a < b
    ensures Suffixed(p, a) != Suffixed(p, b) && Suffixed(p, 1) == p
  {
    if Suffixed(p, a) == Suffixed(p, b) {
      SuffixedInjective(p, a, b);
    }
  }

  lemma PlacesOfTheTwoDiffer()
    ensures LocalPath(ROOTS, CAMERA.path) != LocalPath(ROOTS, SORTED.path)
  {
    LocalPathBelow(ROOTS, "cam/a.jpg");
    LocalPathBelow(ROOTS, "2024/a.jpg");
    assert (ROOTS.local + "/" + "cam/a.jpg")[7] == 'c' && (ROOTS.local + "/" + "2024/a.jpg")[7] == '2';
  }
}
