/** Where a batch puts its files: no photo is overwritten or lost in any interleaving,
    under any collision policy, as long as only the batch's workers touch the disk.  */
module BatchPlaces {
  import opened Paths
  import opened Records
  import opened Destinations
  import opened StatusBoard
  import opened Batch
  import BatchLedger

  /** The worker has renamed its file into place. */
  predicate InPlace(w: Worker) { w.outcome.Completed? }

  predicate HasDestination(w: Worker) { w.pc.Destined? || InPlace(w) }

  /** A claim resolution may have handed out: the file's own recorded destination, or a
      path that was free when the batch started. */
  ghost predicate Lawful(c: Batch, path: Path, remote: Remote) {
    || path == RecordedFor(c.table, remote) != ""
    || (path !in c.disk && !RecordedByOther(c.table, path, remote))
  }

  ghost predicate TableKept(c: Batch, t: Table) {
    && t.recorded == c.table.recorded && t.byRemote == c.table.byRemote && t.maxAttempts == c.table.maxAttempts
    && (forall p :: p in t.claimed ==> Lawful(c, p, t.claimed[p]))
  }

  /** A worker with a destination holds the claim on it. */
  ghost predicate ClaimsHeld(c: Batch, ws: seq<Worker>, claimed: map<Path, Remote>)
    requires |ws| == |c.files|
  {
    forall i :: 0 <= i < |ws| && HasDestination(ws[i]) ==>
      ws[i].path in claimed && claimed[ws[i].path] == RemoteOf(c, i)
  }

  /** `written` is exactly who renamed onto which path. */
  ghost predicate HistoryExact(ws: seq<Worker>, written: map<Path, nat>) {
    && (forall p :: p in written ==>
          written[p] < |ws| && InPlace(ws[written[p]]) && ws[written[p]].path == p)
    && (forall i :: 0 <= i < |ws| && InPlace(ws[i]) ==> ws[i].path in written && written[ws[i].path] == i)
  }

  /** The disk is what it was, with each written path holding its writer's content. */
  ghost predicate DiskExact(c: Batch, ws: seq<Worker>, written: map<Path, nat>, disk: map<Path, Content>) {
    && disk.Keys == c.disk.Keys + written.Keys
    && (forall p :: p in written ==> written[p] < |ws| && disk[p] == ws[written[p]].content)
    && (forall p :: p in c.disk && p !in written ==> disk[p] == c.disk[p])
  }

  /** The outcome is decided exactly from the settling on. */
  predicate Decided(w: Worker) {
    w.outcome.Undecided? <==> !w.pc.Settling? && !w.pc.Sending? && !w.pc.Leaving? && !w.pc.Gone?
  }

  /** A recorded digest is the digest of what the worker downloaded. */
  predicate DigestTrue(c: Batch, w: Worker) {
    w.digest != "" ==> c.sha256 && w.digest == c.hash(w.content)
  }

  ghost predicate Inv(c: Batch, s: State) {
    && |s.workers| == |c.files|
    && (forall i :: 0 <= i < |s.workers| ==> Decided(s.workers[i]) && DigestTrue(c, s.workers[i]))
    && TableKept(c, s.table)
    && ClaimsHeld(c, s.workers, s.table.claimed)
    && HistoryExact(s.workers, s.written)
    && DiskExact(c, s.workers, s.written, s.disk)
  }

  // ---- Every step keeps it -------------------------------------------------------------

  /** Claims are never taken away, and new ones are made for one remote file. */
  ghost predicate ClaimsGrow(claimed: map<Path, Remote>, later: map<Path, Remote>, remote: Remote) {
    && (forall p :: p in claimed ==> p in later && later[p] == claimed[p])
    && (forall p :: p in later && p !in claimed ==> later[p] == remote)
  }

  lemma ChoiceKeepsTable(c: Batch, s: State, i: nat, desired: Path)
    requires TableKept(c, s.table) && i < |c.files|
    ensures var t := AfterChoose(s.table, s.disk.Keys, c.policy, RemoteOf(c, i), desired);
      ClaimsGrow(s.table.claimed, t.claimed, RemoteOf(c, i)) && t == s.table.(claimed := t.claimed)
    ensures c.disk.Keys <= s.disk.Keys ==>
      TableKept(c, AfterChoose(s.table, s.disk.Keys, c.policy, RemoteOf(c, i), desired))
    ensures Answer(c, s, i, desired).Placed? ==>
      var t := AfterChoose(s.table, s.disk.Keys, c.policy, RemoteOf(c, i), desired);
      Answer(c, s, i, desired).path in t.claimed && t.claimed[Answer(c, s, i, desired).path] == RemoteOf(c, i)
  {
    ResolveIsSafe(s.table, s.disk.Keys, c.policy, RemoteOf(c, i), desired);
  }

  lemma TableStaysKept(c: Batch, s: State, i: nat, a: Action)
    requires ValidBatch(c) && Inv(c, s) && CanAct(c, s, i, a)
    ensures TableKept(c, TableAfter(c, s, i, a))
    ensures ClaimsGrow(s.table.claimed, TableAfter(c, s, i, a).claimed, RemoteOf(c, i))
    ensures var w' := WorkerAfter(c, s, i, a);
      var t := TableAfter(c, s, i, a);
      HasDestination(w') ==> w'.path in t.claimed && t.claimed[w'.path] == RemoteOf(c, i)
  {
    match a
    case ResolveEarly => ChoiceKeepsTable(c, s, i, c.localPaths[i]);
    case ResolveFinal(desired) => ChoiceKeepsTable(c, s, i, desired);
    case _ =>
  }

  lemma ClaimsStayHeld(c: Batch, ws: seq<Worker>, claimed: map<Path, Remote>, i: nat, w': Worker,
                       later: map<Path, Remote>)
    requires |ws| == |c.files| && i < |ws| && ClaimsHeld(c, ws, claimed)
    requires forall p :: p in claimed ==> p in later && later[p] == claimed[p]
    requires HasDestination(w') ==> w'.path in later && later[w'.path] == RemoteOf(c, i)
    ensures ClaimsHeld(c, ws[i := w'], later)
  {
  }

  lemma HistoryUndisturbed(c: Batch, ws: seq<Worker>, written: map<Path, nat>, disk: map<Path, Content>, i: nat,
                           w': Worker)
    requires i < |ws| && HistoryExact(ws, written) && DiskExact(c, ws, written, disk)
    requires InPlace(w') == InPlace(ws[i])
    requires InPlace(w') ==> w'.path == ws[i].path && w'.content == ws[i].content
    ensures HistoryExact(ws[i := w'], written) && DiskExact(c, ws[i := w'], written, disk)
  {
  }

  lemma HistoryExtended(c: Batch, ws: seq<Worker>, written: map<Path, nat>, disk: map<Path, Content>, i: nat,
                        w': Worker)
    requires i < |ws| && HistoryExact(ws, written) && DiskExact(c, ws, written, disk)
    requires !InPlace(ws[i]) && InPlace(w') && w'.path !in written
    ensures HistoryExact(ws[i := w'], written[w'.path := i])
    ensures DiskExact(c, ws[i := w'], written[w'.path := i], disk[w'.path := w'.content])
  {
  }

  /** A rename lands on a path that nobody else has written in this batch. */
  lemma RenameIsFirst(c: Batch, s: State, i: nat)
    requires ValidBatch(c) && Inv(c, s) && i < |s.workers| && s.workers[i].pc.Destined?
    ensures !InPlace(s.workers[i]) && s.workers[i].path !in s.written
  {
    assert Decided(s.workers[i]);
  }

  /** What an action does to its own worker. */
  lemma ActionOnItself(c: Batch, s: State, i: nat, a: Action)
    requires ValidBatch(c) && |s.workers| == |c.files| && CanAct(c, s, i, a)
    requires Decided(s.workers[i]) && DigestTrue(c, s.workers[i])
    ensures var w, w' := s.workers[i], WorkerAfter(c, s, i, a);
      && Decided(w') && DigestTrue(c, w')
      && (a.Rename? ==> InPlace(w') && w'.path == w.path && w'.content == w.content)
      && (!a.Rename? ==> InPlace(w') == InPlace(w) && (InPlace(w) ==> w'.path == w.path && w'.content == w.content))
  {
  }

  /** A rename enters one path into the history and onto the disk; nothing else does. */
  lemma ActionOnDisk(c: Batch, s: State, i: nat, a: Action)
    requires |s.workers| == |c.localPaths| == |c.files| && CanAct(c, s, i, a)
    ensures var w, s' := s.workers[i], Act(c, s, i, a);
      && s'.workers == s.workers[i := WorkerAfter(c, s, i, a)]
      && s'.written == (if a.Rename? then s.written[w.path := i] else s.written)
      && s'.disk == (if a.Rename? then s.disk[w.path := w.content] else s.disk)
  {
  }

  lemma ActionKeepsHistory(c: Batch, s: State, i: nat, a: Action, w': Worker, s': State)
    requires ValidBatch(c) && Inv(c, s) && CanAct(c, s, i, a)
    requires w' == WorkerAfter(c, s, i, a) && s' == Act(c, s, i, a)
    ensures Decided(w') && DigestTrue(c, w')
    ensures HistoryExact(s'.workers, s'.written) && DiskExact(c, s'.workers, s'.written, s'.disk)
  {
    assert Decided(s.workers[i]) && DigestTrue(c, s.workers[i]);
    ActionOnItself(c, s, i, a);
    ActionOnDisk(c, s, i, a);
    if a.Rename? {
      RenameIsFirst(c, s, i);
      HistoryExtended(c, s.workers, s.written, s.disk, i, w');
    } else {
      HistoryUndisturbed(c, s.workers, s.written, s.disk, i, w');
    }
  }

  lemma ActionKeepsInv(c: Batch, s: State, i: nat, a: Action)
    requires ValidBatch(c) && Inv(c, s) && CanAct(c, s, i, a)
    ensures Inv(c, Act(c, s, i, a))
  {
    var w', t := WorkerAfter(c, s, i, a), TableAfter(c, s, i, a);
    TableStaysKept(c, s, i, a);
    ClaimsStayHeld(c, s.workers, s.table.claimed, i, w', t.claimed);
    ActionKeepsHistory(c, s, i, a, w', Act(c, s, i, a));
  }

  lemma LaunchKeepsInv(c: Batch, s: State, i: nat, s': State)
    requires Inv(c, s) && i < |s.workers| && s.workers[i].pc.Unsubmitted?
    requires s'.workers == s.workers[i := s.workers[i].(pc := Starting)]
    requires s'.table == s.table && s'.written == s.written && s'.disk == s.disk
    ensures Inv(c, s')
  {
    assert Decided(s.workers[i]) && DigestTrue(c, s.workers[i]);
    ClaimsStayHeld(c, s.workers, s.table.claimed, i, s'.workers[i], s.table.claimed);
    HistoryUndisturbed(c, s.workers, s.written, s.disk, i, s'.workers[i]);
  }

  lemma StepKeepsInv(c: Batch, s: State, step: Step)
    requires ValidBatch(c) && Inv(c, s) && Enabled(c, s, step)
    requires step.Submit? ==> s.workers[s.attempted - 1].pc.Unsubmitted?
    ensures Inv(c, Do(c, s, step))
  {
    if step.Work? {
      ActionKeepsInv(c, s, step.index, step.action);
    } else if step.Submit? {
      LaunchKeepsInv(c, s, s.attempted - 1, Do(c, s, step));
    }
  }

  lemma StartInv(c: Batch, st: Status, paused: bool, cancelled: bool)
    requires ValidBatch(c)
    ensures Inv(c, Start(c, st, paused, cancelled))
  {
  }

  lemma {:induction false} RunKeepsInv(c: Batch, states: seq<State>, steps: seq<Step>, k: nat)
    requires IsRun(c, states, steps) && k < |states|
    ensures Inv(c, states[k])
  {
    if k > 0 {
      RunKeepsInv(c, states, steps, k - 1);
      BatchLedger.RunKeepsInv(c, states, steps, k - 1);
      assert Goes(c, states, steps, k - 1);
      if steps[k - 1].Submit? {
        BatchLedger.LaunchKeepsPool(c, states[k - 1]);
      }
      StepKeepsInv(c, states[k - 1], steps[k - 1]);
    } else {
      var st, p, x :| states[0] == Start(c, st, p, x);
      StartInv(c, st, p, x);
    }
  }

  // ---- Main results: nothing is overwritten or lost -----------------------------------

  /** The file recorded at this path has been updated in place by this batch. */
  ghost predicate Updated(c: Batch, s: State, p: Path)
    requires |s.workers| == |c.files|
  {
    exists i :: 0 <= i < |c.files| && InPlace(s.workers[i]) && s.workers[i].path == p
                && RecordedFor(c.table, RemoteOf(c, i)) == p != ""
  }

  /** In every interleaving and under every policy: completed files have different paths,
      each of which holds its own file's content from the rename on; and every file that
      was there before is still there, unchanged until the completed update of the very
      file recorded at it. An update that fails, is skipped or is cut off leaves the old
      photo alone. Nothing else appears. */
  lemma NoFileIsOverwrittenOrLost(c: Batch, states: seq<State>, steps: seq<Step>, k: nat)
    requires IsRun(c, states, steps) && k < |states|
    ensures var s := states[k];
      && (forall i, j :: 0 <= i < j < |s.workers| && InPlace(s.workers[i]) && InPlace(s.workers[j]) ==>
            s.workers[i].path != s.workers[j].path)
      && (forall i :: 0 <= i < |s.workers| && InPlace(s.workers[i]) ==>
            s.workers[i].path in s.disk && s.disk[s.workers[i].path] == s.workers[i].content)
      && (forall p :: p in c.disk ==> p in s.disk)
      && |s.workers| == |c.files|
      && (forall p :: p in c.disk ==> s.disk[p] == c.disk[p] || Updated(c, s, p))
      && (forall p :: p in s.disk && p !in c.disk ==>
            exists i :: 0 <= i < |s.workers| && InPlace(s.workers[i]) && s.workers[i].path == p)
  {
    RunKeepsInv(c, states, steps, k);
    var s := states[k];
    forall p | p in c.disk && p in s.written ensures Updated(c, s, p) {
      assert RecordedFor(c.table, RemoteOf(c, s.written[p])) == p && InPlace(s.workers[s.written[p]]);
    }
  }

  // ---- Main results: the second resolution ----------------------------------------------

  /** A worker of a flat batch between its two resolutions. */
  predicate BetweenResolutions(w: Worker) {
    w.pc.Fetching? || w.pc.Discarding? || w.pc.Backoff? || w.pc.Downloaded?
  }

  /** Resolving again now would give the same answer and change nothing. */
  ghost predicate EarlyStands(c: Batch, s: State, i: nat)
    requires |c.localPaths| == |c.files| && i < |s.workers| == |c.files|
  {
    && Answer(c, s, i, c.localPaths[i]) == Placed(s.workers[i].early)
    && AfterChoose(s.table, s.disk.Keys, c.policy, RemoteOf(c, i), c.localPaths[i]) == s.table
  }

  ghost predicate EarlyAllStand(c: Batch, s: State)
    requires |c.localPaths| == |c.files| == |s.workers|
  {
    forall i :: 0 <= i < |s.workers| && BetweenResolutions(s.workers[i]) ==> EarlyStands(c, s, i)
  }

  /** Whatever another worker does cannot change what resolution answers this one. */
  lemma OtherWorkersDoNotDisturb(c: Batch, s: State, i: nat, j: nat, a: Action)
    requires ValidBatch(c) && Inv(c, s) && CanAct(c, s, j, a)
    requires i < |s.workers| && i != j && EarlyStands(c, s, i)
    ensures EarlyStands(c, Act(c, s, j, a), i)
  {
    var s' := Act(c, s, j, a);
    TableStaysKept(c, s, j, a);
    assert OthersMoved(s.table, s.disk.Keys, s'.table, s'.disk.Keys, RemoteOf(c, i));
    ResolveAgain(s.table, s.disk.Keys, c.policy, RemoteOf(c, i), c.localPaths[i], s'.table, s'.disk.Keys);
  }

  /** Nor, for any path it may ask for, can a rename that another worker completes while
      this one is looking at the disk: resolution may be taken as one step. */
  lemma RenameIsInvisibleToResolution(c: Batch, s: State, i: nat, j: nat, desired: Path)
    requires ValidBatch(c) && Inv(c, s) && CanAct(c, s, j, Rename) && i < |s.workers| && i != j
    ensures Answer(c, Act(c, s, j, Rename), i, desired) == Answer(c, s, i, desired)
  {
    var s', r := Act(c, s, j, Rename), RemoteOf(c, i);
    assert s.table.claimed[s.workers[j].path] == RemoteOf(c, j) != r;
    var disks := seq(Limit(s.table) + 1, _ => s'.disk.Keys);
    RenamesDuringSearchAreInvisible(s.table, s.disk.Keys, disks, r, desired, 1);
    RenamesDuringSearchAreInvisible(s.table, s'.disk.Keys, disks, r, desired, 1);
  }

  lemma OwnActionKeepsEarly(c: Batch, s: State, i: nat, a: Action)
    requires ValidBatch(c) && Inv(c, s) && CanAct(c, s, i, a) && c.flat
    requires BetweenResolutions(s.workers[i]) ==> EarlyStands(c, s, i)
    ensures BetweenResolutions(WorkerAfter(c, s, i, a)) ==> EarlyStands(c, Act(c, s, i, a), i)
  {
    if a.ResolveEarly? && Answer(c, s, i, c.localPaths[i]).Placed? {
      var s' := Act(c, s, i, a);
      ResolveAgain(s.table, s.disk.Keys, c.policy, RemoteOf(c, i), c.localPaths[i], s'.table, s'.disk.Keys);
    }
  }

  lemma ActionKeepsEarly(c: Batch, s: State, i: nat, a: Action)
    requires ValidBatch(c) && Inv(c, s) && CanAct(c, s, i, a) && c.flat && EarlyAllStand(c, s)
    ensures EarlyAllStand(c, Act(c, s, i, a))
  {
    var s' := Act(c, s, i, a);
    OwnActionKeepsEarly(c, s, i, a);
    forall m | 0 <= m < |s'.workers| && m != i && BetweenResolutions(s'.workers[m]) ensures EarlyStands(c, s', m) {
      OtherWorkersDoNotDisturb(c, s, m, i, a);
    }
  }

  lemma StepKeepsEarly(c: Batch, s: State, step: Step)
    requires ValidBatch(c) && Inv(c, s) && Enabled(c, s, step) && c.flat && EarlyAllStand(c, s)
    ensures EarlyAllStand(c, Do(c, s, step))
  {
    if step.Work? {
      ActionKeepsEarly(c, s, step.index, step.action);
    } else {
      var s' := Do(c, s, step);
      forall i | 0 <= i < |s'.workers| && BetweenResolutions(s'.workers[i]) ensures EarlyStands(c, s', i) {
        assert EarlyStands(c, s, i);
      }
    }
  }

  /** With a flat structure the resolution before the transfer is binding: in every
      interleaving, resolving again later gives the same destination. */
  lemma {:induction false} EarlyResolutionIsBinding(c: Batch, states: seq<State>, steps: seq<Step>, k: nat)
    requires IsRun(c, states, steps) && k < |states| && c.flat
    ensures EarlyAllStand(c, states[k])
  {
    if k > 0 {
      EarlyResolutionIsBinding(c, states, steps, k - 1);
      RunKeepsInv(c, states, steps, k - 1);
      assert Goes(c, states, steps, k - 1);
      StepKeepsEarly(c, states[k - 1], steps[k - 1]);
    }
  }

  predicate Wasted(w: Worker) { w.turnedAway && w.copied != 0 }

  lemma ActionWastesNothing(c: Batch, s: State, i: nat, a: Action)
    requires ValidBatch(c) && |s.workers| == |c.files| && CanAct(c, s, i, a) && c.flat
    requires BatchLedger.Sane(c, s.workers[i]) && !Wasted(s.workers[i])
    requires s.workers[i].pc.Downloaded? ==> EarlyStands(c, s, i)
    ensures !Wasted(WorkerAfter(c, s, i, a))
  {
  }

  lemma StepWastesNothing(c: Batch, s: State, step: Step, i: nat)
    requires ValidBatch(c) && BatchLedger.Workers(c, s) && Enabled(c, s, step) && i < |s.workers|
    requires s.workers[i].pc.Downloaded? ==> EarlyStands(c, s, i)
    requires c.flat && !Wasted(s.workers[i])
    ensures !Wasted(Do(c, s, step).workers[i])
  {
    assert BatchLedger.Sane(c, s.workers[i]);
    if step.Work? && step.index == i {
      ActionWastesNothing(c, s, i, step.action);
    }
  }

  /** So no file of a flat batch is turned away once it has been transferred. */
  lemma {:induction false} FlatBatchWastesNoTransfer(c: Batch, states: seq<State>, steps: seq<Step>, k: nat, i: nat)
    requires IsRun(c, states, steps) && k < |states| && c.flat && i < |c.files|
    ensures !Wasted(states[k].workers[i])
  {
    if k > 0 {
      FlatBatchWastesNoTransfer(c, states, steps, k - 1, i);
      EarlyResolutionIsBinding(c, states, steps, k - 1);
      BatchLedger.RunKeepsInv(c, states, steps, k - 1);
      assert Goes(c, states, steps, k - 1);
      StepWastesNothing(c, states[k - 1], steps[k - 1], i);
    }
  }

  // ---- Main results: recorded destinations ------------------------------------------------

  /** When no two remote files share a recorded destination, nobody else can claim one. */
  lemma RecordedPathIsReserved(c: Batch, s: State, r: Remote)
    requires ValidBatch(c) && DistinctDestinations(c.manifest) && TableKept(c, s.table)
    requires RecordedFor(c.table, r) != ""
    ensures RecordedApplies(s.table, r)
  {
    var p := RecordedFor(c.table, r);
    assert p in s.table.claimed ==> Lawful(c, p, s.table.claimed[p]);
  }

  /** The file was neither turned away nor sent anywhere but its recorded place. */
  predicate AtHome(w: Worker, home: Path) {
    !w.turnedAway && (HasDestination(w) ==> w.path == home)
  }

  lemma ActionKeepsHome(c: Batch, s: State, i: nat, a: Action, home: Path)
    requires ValidBatch(c) && |s.workers| == |c.files| && CanAct(c, s, i, a)
    requires Decided(s.workers[i]) && AtHome(s.workers[i], home)
    requires forall desired :: Answer(c, s, i, desired) == Placed(home)
    ensures AtHome(WorkerAfter(c, s, i, a), home)
  {
    var desired := if a.ResolveFinal? then a.desired else c.localPaths[i];
    assert Answer(c, s, i, desired) == Placed(home);
  }

  lemma StepKeepsHome(c: Batch, s: State, step: Step, i: nat, home: Path)
    requires ValidBatch(c) && |s.workers| == |c.files| && Enabled(c, s, step) && i < |s.workers|
    requires Decided(s.workers[i]) && AtHome(s.workers[i], home)
    requires forall desired :: Answer(c, s, i, desired) == Placed(home)
    ensures AtHome(Do(c, s, step).workers[i], home)
  {
    if step.Work? && step.index == i {
      ActionKeepsHome(c, s, i, step.action, home);
    }
  }

  /** Then every recorded file is given its recorded destination, in every interleaving
      and under every policy, and is never skipped or refused by resolution. */
  lemma {:induction false} RecordedFilesKeepTheirPlace(c: Batch, states: seq<State>, steps: seq<Step>, k: nat, i: nat)
    requires IsRun(c, states, steps) && k < |states| && i < |c.files|
    requires DistinctDestinations(c.manifest) && RecordedFor(c.table, RemoteOf(c, i)) != ""
    ensures forall desired :: Answer(c, states[k], i, desired) == Placed(RecordedFor(c.table, RemoteOf(c, i)))
    ensures AtHome(states[k].workers[i], RecordedFor(c.table, RemoteOf(c, i)))
  {
    RunKeepsInv(c, states, steps, k);
    RecordedPathIsReserved(c, states[k], RemoteOf(c, i));
    if k > 0 {
      RecordedFilesKeepTheirPlace(c, states, steps, k - 1, i);
      RunKeepsInv(c, states, steps, k - 1);
      assert Goes(c, states, steps, k - 1);
      StepKeepsHome(c, states[k - 1], steps[k - 1], i, RecordedFor(c.table, RemoteOf(c, i)));
    }
  }
}
