/** The daemon's jobs and the registry file that brings them back after a restart. */
module Daemon {
  import opened Options
  import opened Syncer
  import RunLoop

  // ---- The order of jobs -----------------------------------------------------------------

  /** Byte order of IDs. */
  predicate Less(a: string, b: string)
    decreases |a|
  {
    if b == "" then false
    else if a == "" then true
    else a[0] < b[0] || (a[0] == b[0] && Less(a[1..], b[1..]))
  }

  datatype Id = Id(text: string)

  datatype Key = Key(addedAt: int, id: string)

  predicate Before(a: Key, b: Key) {
    a.addedAt < b.addedAt || (a.addedAt == b.addedAt && Less(a.id, b.id))
  }

  lemma {:induction false} LessIsStrictOrder(a: string, b: string, c: string)
    ensures !Less(a, a)
    ensures a == b || Less(a, b) || Less(b, a)
    ensures Less(a, b) && Less(b, c) ==> Less(a, c)
    decreases |a| + |b| + |c|
  {
    if a != "" {
      LessIsStrictOrder(a[1..], if b == "" then b else b[1..], if c == "" then c else c[1..]);
      if b != "" {
        assert a == [a[0]] + a[1..] && b == [b[0]] + b[1..];
      }
    }
  }

  lemma BeforeIsStrict(a: Key, b: Key)
    ensures !(Before(a, b) && Before(b, a)) && !Before(a, a)
  {
    LessIsStrictOrder(a.id, b.id, a.id);
  }

  // ---- What requests do ------------------------------------------------------------------

  datatype JobState = JobState(paused: bool, syncNow: bool, pauseCh: bool)

  /** `stored` is the paused flag of each job in the registry file. */
  datatype View = View(jobs: map<Id, JobState>, stored: map<Id, bool>)

  datatype Action = SyncAction | PauseAction | ResumeAction | Unsupported

  datatype Request = Request(id: Id, action: Action, saves: bool)

  datatype Response = Accepted | NotFound | ServerError

  function Paused(j: JobState): JobState {
    if j.paused then j else j.(paused := true, pauseCh := true)
  }

  function Resumed(j: JobState): JobState {
    if j.paused then j.(paused := false, syncNow := true) else j
  }

  function Applied(j: JobState, action: Action): JobState {
    match action
    case SyncAction => j.(syncNow := true)
    case PauseAction => Paused(j)
    case ResumeAction => Resumed(j)
    case Unsupported => j
  }

  /** What undoing a change of the flag leaves. */
  function Back(j: JobState, prevPaused: bool): JobState {
    if prevPaused then Paused(j) else Resumed(j)
  }

  function Flags(jobs: map<Id, JobState>): map<Id, bool> {
    map id | id in jobs :: jobs[id].paused
  }

  function Handle(v: View, r: Request): View {
    if r.id !in v.jobs then v
    else
      var j := v.jobs[r.id];
      var changed := Applied(j, r.action);
      if changed.paused == j.paused then v.(jobs := v.jobs[r.id := changed])
      else if r.saves then View(v.jobs[r.id := changed], Flags(v.jobs[r.id := changed]))
      else v.(jobs := v.jobs[r.id := Back(changed, j.paused)])
  }

  function Answer(v: View, r: Request): Response {
    if r.id !in v.jobs then NotFound
    else if r.action.Unsupported? then ServerError
    else if Applied(v.jobs[r.id], r.action).paused != v.jobs[r.id].paused && !r.saves then ServerError
    else Accepted
  }

  /** The four ways a request for a known job can go. */
  lemma HandleByCases(v: View, r: Request)
    requires r.id in v.jobs
    ensures var j, changed := v.jobs[r.id], Applied(v.jobs[r.id], r.action);
      && (r.action.Unsupported? ==> Handle(v, r) == v && Answer(v, r) == ServerError)
      && (!r.action.Unsupported? && changed.paused == j.paused ==>
            Handle(v, r) == View(v.jobs[r.id := changed], v.stored) && Answer(v, r) == Accepted)
      && (changed.paused != j.paused && r.saves ==>
            Handle(v, r) == View(v.jobs[r.id := changed], Flags(v.jobs[r.id := changed])) && Answer(v, r) == Accepted)
      && (changed.paused != j.paused && !r.saves ==>
            Handle(v, r) == View(v.jobs[r.id := changed][r.id := Back(changed, j.paused)], v.stored)
              && Answer(v, r) == ServerError)
  {
    var changed := Applied(v.jobs[r.id], r.action);
    var back := Back(changed, v.jobs[r.id].paused);
    assert v.jobs[r.id := v.jobs[r.id]] == v.jobs;
    assert v.jobs[r.id := changed][r.id := back] == v.jobs[r.id := back];
  }

  /** Every job at hand is stored with the flag it has. The file may know more jobs: those
      whose configuration did not load when the daemon was last started. */
  predicate Agrees(v: View) {
    forall id :: id in v.jobs ==> id in v.stored && v.stored[id] == v.jobs[id].paused
  }

  lemma HandleKeepsAgreement(v: View, r: Request)
    requires Agrees(v)
    ensures Agrees(Handle(v, r))
  {
    if r.id in v.jobs {
      HandleByCases(v, r);
    }
  }

  /** A request touches no other job; one that reports an error leaves every flag, and
      the file, as they were; one that is accepted has done what was asked. A failed
      pause does leave a request for a cycle behind: rolling back is a Resume. */
  lemma RequestsAreExact(v: View, r: Request)
    ensures var after := Handle(v, r);
      && after.jobs.Keys == v.jobs.Keys
      && (forall id :: id in v.jobs && id != r.id ==> after.jobs[id] == v.jobs[id])
      && (Answer(v, r) != Accepted ==> after.stored == v.stored && Flags(after.jobs) == Flags(v.jobs))
      && (Answer(v, r) == Accepted && r.action.PauseAction? ==> after.jobs[r.id].paused)
      && (Answer(v, r) == Accepted && r.action.ResumeAction? ==> !after.jobs[r.id].paused)
      && (Answer(v, r) == ServerError && r.action.PauseAction? ==> after.jobs[r.id].syncNow)
      && (Answer(v, r) == Accepted && r.action.SyncAction? ==> after.jobs[r.id] == v.jobs[r.id].(syncNow := true))
  {
  }

  /** Which answer a request gets: an unknown job is not found, whatever is asked; an unknown
      action, or a change of the flag that could not be saved, is an error; and everything
      else is accepted. The file is written exactly when the flag changed, with the flags of
      all jobs. */
  lemma AnswersAreExact(v: View, r: Request)
    ensures Answer(v, r) == NotFound <==> r.id !in v.jobs
    ensures Answer(v, r) == ServerError <==>
      r.id in v.jobs &&
      (r.action.Unsupported? || (!r.saves && ((r.action.PauseAction? && !v.jobs[r.id].paused) ||
                                              (r.action.ResumeAction? && v.jobs[r.id].paused))))
    ensures var after := Handle(v, r);
      if r.id in v.jobs && r.saves && after.jobs[r.id].paused != v.jobs[r.id].paused
      then after.stored == (map id | id in after.jobs :: after.jobs[id].paused)
      else after.stored == v.stored
  {
  }

  /** Rolling back is one more Pause or Resume, which leaves its own token: a request
      whose save failed is without effect exactly when both tokens were there before. */
  lemma RollbackIsInvisibleIff(v: View, r: Request)
    requires r.id in v.jobs && Applied(v.jobs[r.id], r.action).paused != v.jobs[r.id].paused && !r.saves
    ensures Handle(v, r) == v <==> v.jobs[r.id].syncNow && v.jobs[r.id].pauseCh
  {
    var j := v.jobs[r.id];
    var back := Back(Applied(j, r.action), j.paused);
    assert Handle(v, r).jobs[r.id] == back;
    if back == j {
      assert v.jobs[r.id := j] == v.jobs;
    }
  }

  /** A pause that could not be saved makes the job scan at once. */
  lemma FailedPauseLeavesRequest()
    ensures var id, j := Id("3f2a9c01"), JobState(false, false, false);
      var v := View(map[id := j], map[id := false]);
      Agrees(v) && Handle(v, Request(id, PauseAction, false)).jobs[id] == JobState(false, true, true)
  {
  }

  // ---- The registry file -------------------------------------------------------------------

  datatype RegistryEntry = RegistryEntry(id: Id, configPath: string, addedAt: int, paused: bool)

  function FlagsOf(entries: seq<RegistryEntry>): map<Id, bool>
    decreases |entries|
  {
    if entries == [] then map[]
    else
      var last := entries[|entries| - 1];
      FlagsOf(entries[..|entries| - 1])[last.id := last.paused]
  }

  /** The jobs a restart brings back: those whose configuration loads, each paused before
      its loop starts if its entry says so. */
  function Restored(entries: seq<RegistryEntry>, loads: RegistryEntry -> bool): map<Id, JobState>
    decreases |entries|
  {
    if entries == [] then map[]
    else
      var last := entries[|entries| - 1];
      var before := Restored(entries[..|entries| - 1], loads);
      if loads(last) then before[last.id := JobState(last.paused, false, last.paused)] else before
  }

  ghost predicate DistinctIds(entries: seq<RegistryEntry>) {
    forall i, j :: 0 <= i < j < |entries| ==> entries[i].id != entries[j].id
  }

  lemma {:induction false} FlagsOfMeans(entries: seq<RegistryEntry>)
    requires DistinctIds(entries)
    ensures forall e :: e in entries ==> e.id in FlagsOf(entries) && FlagsOf(entries)[e.id] == e.paused
    ensures forall id :: id in FlagsOf(entries) ==> exists e :: e in entries && e.id == id
    decreases |entries|
  {
    if entries != [] {
      var shorter, last := entries[..|entries| - 1], entries[|entries| - 1];
      assert entries == shorter + [last];
      FlagsOfMeans(shorter);
      forall e | e in shorter ensures e.id != last.id {
        var i :| 0 <= i < |shorter| && shorter[i] == e;
      }
    }
  }

  lemma FlagsOfListing(entries: seq<RegistryEntry>, flags: map<Id, bool>)
    requires DistinctIds(entries)
    requires forall e :: e in entries ==> e.id in flags && flags[e.id] == e.paused
    requires forall id :: id in flags ==> exists e :: e in entries && e.id == id
    ensures FlagsOf(entries) == flags
  {
    FlagsOfMeans(entries);
  }

  lemma {:induction false} RestoredMeans(entries: seq<RegistryEntry>, loads: RegistryEntry -> bool)
    requires DistinctIds(entries)
    ensures var jobs := Restored(entries, loads);
      && (forall e :: e in entries && loads(e) ==> e.id in jobs && jobs[e.id] == JobState(e.paused, false, e.paused))
      && (forall id :: id in jobs ==> exists e :: e in entries && loads(e) && e.id == id)
    decreases |entries|
  {
    if entries != [] {
      var shorter, last := entries[..|entries| - 1], entries[|entries| - 1];
      assert entries == shorter + [last];
      RestoredMeans(shorter, loads);
      forall e | e in shorter ensures e.id != last.id {
        var i :| 0 <= i < |shorter| && shorter[i] == e;
      }
    }
  }

  /** Each job whose configuration loads comes back with the flag the file has for it, and
      no other job comes back. */
  lemma RestartKeepsFlags(entries: seq<RegistryEntry>, loads: RegistryEntry -> bool)
    requires DistinctIds(entries)
    ensures var jobs, stored := Restored(entries, loads), FlagsOf(entries);
      && (forall e :: e in entries && loads(e) ==> e.id in jobs)
      && (forall id :: id in jobs ==> id in stored && jobs[id].paused == stored[id])
  {
    RestoredMeans(entries, loads);
    FlagsOfMeans(entries);
  }

  // ---- Requests and restarts ---------------------------------------------------------------

  /** `loads` are the jobs whose configuration loads at that restart. */
  datatype Op = Serve(request: Request) | Restart(loads: set<Id>)

  function Restarted(stored: map<Id, bool>, loads: set<Id>): map<Id, JobState> {
    map id | id in stored && id in loads :: JobState(stored[id], false, stored[id])
  }

  function After(v: View, op: Op): View {
    match op
    case Serve(r) => Handle(v, r)
    case Restart(loads) => View(Restarted(v.stored, loads), v.stored)
  }

  function AfterAll(v: View, ops: seq<Op>): View
    decreases |ops|
  {
    if ops == [] then v else After(AfterAll(v, ops[..|ops| - 1]), ops[|ops| - 1])
  }

  /** A restart of this kind is what loading the file does. */
  lemma RestoredIsRestarted(entries: seq<RegistryEntry>, loads: set<Id>)
    requires DistinctIds(entries)
    ensures Restored(entries, (e: RegistryEntry) => e.id in loads) == Restarted(FlagsOf(entries), loads)
  {
    RestoredMeans(entries, (e: RegistryEntry) => e.id in loads);
    FlagsOfMeans(entries);
  }

  /** Over any sequence of requests and restarts, with saves failing wherever they may and
      any configurations not loading, every job's runtime flag is its stored flag. */
  lemma {:induction false} FlagsStayStored(v: View, ops: seq<Op>)
    requires Agrees(v)
    ensures Agrees(AfterAll(v, ops))
    decreases |ops|
  {
    if ops != [] {
      var before, last := AfterAll(v, ops[..|ops| - 1]), ops[|ops| - 1];
      FlagsStayStored(v, ops[..|ops| - 1]);
      if last.Serve? {
        HandleKeepsAgreement(before, last.request);
      }
    }
  }

  /** After any requests and restarts, one more brings back exactly the stored jobs whose
      entry loads, each with its stored flag, which for a job that was running is the flag
      it had. */
  lemma RestartRestoresFlags(v: View, ops: seq<Op>, entries: seq<RegistryEntry>, loads: RegistryEntry -> bool)
    requires Agrees(v) && DistinctIds(entries) && FlagsOf(entries) == AfterAll(v, ops).stored
    ensures var now, later := AfterAll(v, ops), Restored(entries, loads);
      && (forall e :: e in entries ==> (e.id in later <==> loads(e)))
      && (forall id :: id in later ==> id in now.stored && later[id].paused == now.stored[id])
      && (forall id :: id in later && id in now.jobs ==> later[id].paused == now.jobs[id].paused)
      && (forall id :: id in now.jobs ==> exists e :: e in entries && e.id == id)
  {
    FlagsStayStored(v, ops);
    RestartKeepsFlags(entries, loads);
    RestoredMeans(entries, loads);
    FlagsOfMeans(entries);
    forall e, f | e in entries && f in entries && e.id == f.id ensures e == f {
      SameEntry(entries, e, f);
    }
  }

  lemma SameEntry(entries: seq<RegistryEntry>, e: RegistryEntry, f: RegistryEntry)
    requires DistinctIds(entries) && e in entries && f in entries && e.id == f.id
    ensures e == f
  {
    var i :| 0 <= i < |entries| && entries[i] == e;
    var j :| 0 <= j < |entries| && entries[j] == f;
  }

  // ---- What is forgotten -------------------------------------------------------------------

  /** The request changes the file. */
  predicate Saves(v: View, r: Request) {
    r.id in v.jobs && Applied(v.jobs[r.id], r.action).paused != v.jobs[r.id].paused && r.saves
  }

  /** The job was at hand at first, and its configuration has loaded at the last restart. */
  predicate Loaded(v: View, ops: seq<Op>, id: Id)
    decreases |ops|
  {
    if ops == [] then id in v.jobs
    else match ops[|ops| - 1]
      case Restart(loads) => id in loads
      case Serve(_) => Loaded(v, ops[..|ops| - 1], id)
  }

  /** A save succeeded at a time when the job was not loaded. */
  predicate SavedWithout(v: View, ops: seq<Op>, id: Id)
    decreases |ops|
  {
    ops != [] &&
    var earlier, last := ops[..|ops| - 1], ops[|ops| - 1];
    SavedWithout(v, earlier, id)
    || (last.Serve? && Saves(AfterAll(v, earlier), last.request) && !Loaded(v, earlier, id))
  }

  lemma StepForgetsIff(v: View, op: Op, id: Id)
    requires Agrees(v)
    ensures id in After(v, op).stored <==>
      id in v.stored && !(op.Serve? && Saves(v, op.request) && id !in v.jobs)
    ensures id in After(v, op).jobs <==> if op.Serve? then id in v.jobs else id in v.stored && id in op.loads
    ensures id in After(v, op).stored && !(op.Serve? && op.request.id == id) ==> After(v, op).stored[id] == v.stored[id]
  {
    if op.Serve? && op.request.id in v.jobs {
      HandleByCases(v, op.request);
    }
  }

  /** A save writes the jobs at hand and no others. So a stored job outlives any requests
      and restarts if and only if no save succeeded while its configuration was not loaded;
      and until a request is made of it, it is stored with the flag it had. */
  lemma {:induction false} StoredJobSurvivesIff(v: View, ops: seq<Op>, id: Id)
    requires Agrees(v) && id in v.stored
    ensures var now := AfterAll(v, ops);
      && (id in now.stored <==> !SavedWithout(v, ops, id))
      && (id in now.stored ==> (id in now.jobs <==> Loaded(v, ops, id)))
      && (id in now.stored && (forall op :: op in ops && op.Serve? ==> op.request.id != id) ==>
        now.stored[id] == v.stored[id])
    decreases |ops|
  {
    if ops != [] {
      var earlier, last := ops[..|ops| - 1], ops[|ops| - 1];
      assert last in ops;
      StoredJobSurvivesIff(v, earlier, id);
      FlagsStayStored(v, earlier);
      StepForgetsIff(AfterAll(v, earlier), last, id);
    }
  }

  /** A paused job x and an active job y, both stored. */
  function TwoJobs(x: Id, y: Id): View {
    View(map[x := JobState(true, false, false), y := JobState(false, false, false)], map[x := true, y := false])
  }

  /** A paused job whose configuration does not load once, while another job is paused, is
      gone for good, whether or not its configuration loads the next time. */
  lemma UnloadedJobIsForgotten(x: Id, y: Id)
    requires x != y
    ensures var ops := [Restart({y}), Serve(Request(y, PauseAction, true)), Restart({x, y})];
      var now := AfterAll(TwoJobs(x, y), ops);
      Agrees(TwoJobs(x, y)) && x !in now.stored && x !in now.jobs
  {
    var v, ops := TwoJobs(x, y), [Restart({y}), Serve(Request(y, PauseAction, true)), Restart({x, y})];
    var second := ops[..2];
    assert second[..1] == [ops[0]] && ops[..1][..0] == [];
    assert AfterAll(v, second[..1]) == After(v, ops[0]);
    assert Saves(After(v, ops[0]), ops[1].request);
    assert SavedWithout(v, second, x) && SavedWithout(v, ops, x);
    StoredJobSurvivesIff(v, ops, x);
    FlagsStayStored(v, ops);
  }

  // ---- The daemon itself -------------------------------------------------------------------

  class Job {
    const id: Id
    const configPath: string
    const addedAt: int
    const syncer: Syncer

    constructor (id: Id, configPath: string, addedAt: int, syncer: Syncer)
      ensures this.id == id && this.configPath == configPath && this.addedAt == addedAt && this.syncer == syncer
    {
      this.id, this.configPath, this.addedAt, this.syncer := id, configPath, addedAt, syncer;
    }
  }

  function KeyOf(job: Job): Key { Key(job.addedAt, job.id.text) }

  /** The first k bytes agree, and then a ends or has the smaller byte. */
  predicate SmallerAt(a: string, b: string, k: int) {
    0 <= k <= |a| && k < |b| && a[..k] == b[..k] && (k == |a| || a[k] < b[k])
  }

  lemma SmallerFurtherOn(a: string, b: string, k: nat)
    requires a != "" && b != ""
    ensures SmallerAt(a, b, k + 1) <==> a[0] == b[0] && SmallerAt(a[1..], b[1..], k)
  {
    if k + 1 <= |a| && k + 1 < |b| {
      assert a[..k + 1] == [a[0]] + a[1..][..k] && b[..k + 1] == [b[0]] + b[1..][..k];
      if a[..k + 1] == b[..k + 1] {
        assert a[0] == a[..k + 1][0] == b[..k + 1][0] == b[0];
        assert a[1..][..k] == a[..k + 1][1..] == b[..k + 1][1..] == b[1..][..k];
      }
    }
  }

  /** The order is that of bytes: at the first place where they differ, the one that ends or
      has the smaller byte comes first. */
  lemma {:induction false} LessMeans(a: string, b: string)
    ensures Less(a, b) <==> exists k :: SmallerAt(a, b, k)
    decreases |a|
  {
    if a == "" || b == "" || a[0] < b[0] {
      assert SmallerAt(a, b, 0) <==> b != "" && (a == "" || a[0] < b[0]);
    } else {
      LessMeans(a[1..], b[1..]);
      forall k: nat ensures SmallerAt(a, b, k + 1) <==> a[0] == b[0] && SmallerAt(a[1..], b[1..], k) {
        SmallerFurtherOn(a, b, k);
      }
      if k :| SmallerAt(a, b, k) {
        assert SmallerAt(a, b, (k - 1) + 1) <==> a[0] == b[0] && SmallerAt(a[1..], b[1..], k - 1);
      }
      if a[0] == b[0] && Less(a[1..], b[1..]) {
        var k :| SmallerAt(a[1..], b[1..], k);
        assert SmallerAt(a, b, k + 1);
      }
    }
  }

  ghost predicate InOrder(jobs: seq<Job>) {
    forall i, j :: 0 <= i < j < |jobs| ==> Before(KeyOf(jobs[i]), KeyOf(jobs[j]))
  }

  /** Jobs come out of a map in no order at all, yet every client sees them in the same
      one: there is only one sorted arrangement of a set of jobs. */
  lemma {:induction false} SortedOnce(s: seq<Job>, t: seq<Job>)
    requires InOrder(s) && InOrder(t)
    requires forall x :: x in s <==> x in t
    ensures s == t
    decreases |s|
  {
    assert (s != [] ==> s[0] in s) && (t != [] ==> t[0] in t);
    if s != [] && t != [] {
      SameFirst(s, t);
      forall x ensures x in s[1..] <==> x in t[1..] {
        TailMembers(s, x);
        TailMembers(t, x);
      }
      SortedOnce(s[1..], t[1..]);
      assert s == [s[0]] + s[1..] && t == [t[0]] + t[1..];
    }
  }

  lemma SameFirst(s: seq<Job>, t: seq<Job>)
    requires InOrder(s) && InOrder(t) && s != [] && t != []
    requires forall x :: x in s <==> x in t
    ensures s[0] == t[0]
  {
    assert s[0] in s && t[0] in t;
    var i :| 0 <= i < |t| && t[i] == s[0];
    var j :| 0 <= j < |s| && s[j] == t[0];
    BeforeIsStrict(KeyOf(s[0]), KeyOf(t[0]));
  }

  lemma TailMembers(s: seq<Job>, x: Job)
    requires InOrder(s) && s != []
    ensures x in s[1..] <==> x in s && x != s[0]
  {
    BeforeIsStrict(KeyOf(s[0]), KeyOf(s[0]));
    assert s == [s[0]] + s[1..];
  }

  lemma BeforeIsTotal(a: Key, b: Key, c: Key)
    ensures a == b || Before(a, b) || Before(b, a)
    ensures Before(a, b) && Before(b, c) ==> Before(a, c)
  {
    LessIsStrictOrder(a.id, b.id, c.id);
  }

  function Insert(job: Job, sorted: seq<Job>): seq<Job>
    decreases |sorted|
  {
    if sorted == [] || Before(KeyOf(job), KeyOf(sorted[0])) then [job] + sorted
    else [sorted[0]] + Insert(job, sorted[1..])
  }

  lemma {:induction false} InsertKeepsOrder(job: Job, sorted: seq<Job>)
    requires InOrder(sorted) && forall x :: x in sorted ==> KeyOf(x) != KeyOf(job)
    ensures InOrder(Insert(job, sorted)) && |Insert(job, sorted)| == |sorted| + 1
    ensures forall x :: x in Insert(job, sorted) ==> x == job || x in sorted
    ensures job in Insert(job, sorted) && forall x :: x in sorted ==> x in Insert(job, sorted)
    decreases |sorted|
  {
    if sorted != [] {
      var first, rest := sorted[0], sorted[1..];
      assert sorted == [first] + rest && first in sorted;
      if Before(KeyOf(job), KeyOf(first)) {
        forall k | 0 <= k < |sorted| ensures Before(KeyOf(job), KeyOf(sorted[k])) {
          BeforeIsTotal(KeyOf(job), KeyOf(first), KeyOf(sorted[k]));
        }
      } else {
        InsertKeepsOrder(job, rest);
        BeforeIsTotal(KeyOf(job), KeyOf(first), KeyOf(first));
        forall x | x in Insert(job, rest) ensures Before(KeyOf(first), KeyOf(x)) {
          if x != job {
            var k :| 0 <= k < |rest| && rest[k] == x;
            assert sorted[k + 1] == x;
          }
        }
      }
    }
  }

  /** Stands for the library's sort. How that works does not matter: there is one result. */
  method SortJobs(jobs: seq<Job>) returns (sorted: seq<Job>)
    requires forall i, j :: 0 <= i < j < |jobs| ==> jobs[i].id != jobs[j].id
    ensures InOrder(sorted) && |sorted| == |jobs|
    ensures forall x :: x in sorted <==> x in jobs
  {
    sorted := [];
    for k := 0 to |jobs|
      invariant InOrder(sorted) && |sorted| == k
      invariant forall x :: x in sorted <==> x in jobs[..k]
    {
      assert jobs[..k + 1] == jobs[..k] + [jobs[k]];
      InsertKeepsOrder(jobs[k], sorted);
      sorted := Insert(jobs[k], sorted);
    }
    assert jobs[..|jobs|] == jobs;
  }

  ghost function StateOf(syncer: Syncer): JobState
    reads syncer
  {
    JobState(syncer.paused, syncer.syncNow, syncer.pauseCh)
  }

  /** The requested call on the job's own syncer. */
  method Control(syncer: Syncer, action: Action)
    requires syncer.Valid()
    modifies syncer
    ensures syncer.Valid() && StateOf(syncer) == Applied(old(StateOf(syncer)), action)
  {
    match action {
      case SyncAction => syncer.SyncNow();
      case PauseAction => syncer.Pause();
      case ResumeAction => syncer.Resume();
      case Unsupported =>
    }
  }

  /** What is kept of a job. */
  ghost function EntryOf(job: Job): RegistryEntry
    reads job.syncer
  {
    RegistryEntry(job.id, job.configPath, job.addedAt, job.syncer.paused)
  }

  function KeyOfEntry(e: RegistryEntry): Key { Key(e.addedAt, e.id.text) }

  class Daemon {
    var jobs: map<Id, Job>
    var registry: seq<RegistryEntry>
    var temp: Option<seq<RegistryEntry>>
    // The state of each job's syncer, and which job each syncer belongs to.
    ghost var states: map<Id, JobState>
    ghost var owner: map<Syncer, Id>
    ghost var syncers: set<Syncer>

    ghost predicate Valid()
      reads `jobs, `states, `owner, `syncers, syncers
    {
      && states.Keys == jobs.Keys
      && (forall id :: id in jobs ==> JobValid(id))
    }

    ghost predicate JobValid(id: Id)
      requires id in jobs
      reads `jobs, `states, `owner, `syncers, syncers
    {
      var job := jobs[id];
      && job.id == id && job.syncer in syncers && job.syncer in owner && owner[job.syncer] == id && job.syncer.Valid()
      && id in states && states[id] == StateOf(job.syncer)
    }

    ghost function Contents(): View
      reads this
    {
      View(states, FlagsOf(registry))
    }

    /** The jobs of the map, each once. */
    ghost predicate Arranges(listed: seq<Job>)
      reads `jobs
    {
      && (forall i, j :: 0 <= i < j < |listed| ==> listed[i].id != listed[j].id)
      && (forall job :: job in listed ==> job.id in jobs && jobs[job.id] == job)
      && (forall id :: id in jobs ==> jobs[id] in listed)
    }

    /** However a map is visited, its jobs are listed in one and the same order. */
    lemma ListingIsUnique(s: seq<Job>, t: seq<Job>)
      requires Arranges(s) && InOrder(s) && Arranges(t) && InOrder(t)
      ensures s == t
    {
      forall x ensures x in s <==> x in t {
        assert x in s ==> jobs[x.id] == x;
        assert x in t ==> jobs[x.id] == x;
      }
      SortedOnce(s, t);
    }

    /** All jobs in the order of their keys; the map is visited in no particular order. */
    method ListJobs() returns (sorted: seq<Job>)
      requires Valid()
      ensures Arranges(sorted) && InOrder(sorted)
      ensures forall i, j :: 0 <= i < j < |sorted| ==>
        || sorted[i].addedAt < sorted[j].addedAt
        || (sorted[i].addedAt == sorted[j].addedAt && Less(sorted[i].id.text, sorted[j].id.text))
    {
      var listed: seq<Job> := [];
      var todo := jobs.Keys;
      while todo != {}
        invariant todo <= jobs.Keys
        invariant forall i, j :: 0 <= i < j < |listed| ==> listed[i].id != listed[j].id
        invariant forall job :: job in listed ==> job.id in jobs && job.id !in todo && jobs[job.id] == job
        invariant forall id :: id in jobs && id !in todo ==> jobs[id] in listed
        decreases todo
      {
        var id :| id in todo;
        assert JobValid(id);
        todo := todo - {id};
        listed := listed + [jobs[id]];
      }
      sorted := SortJobs(listed);
      forall i, j | 0 <= i < j < |sorted| ensures sorted[i].id != sorted[j].id {
        BeforeIsStrict(KeyOf(sorted[i]), KeyOf(sorted[j]));
        assert sorted[i] in sorted && sorted[j] in sorted;
      }
    }

    /** One entry for each job, in the same order, with all that is kept of it. */
    ghost predicate Lists(sorted: seq<Job>, entries: seq<RegistryEntry>)
      reads set job | job in sorted :: job.syncer
    {
      && |entries| == |sorted|
      && (forall k :: 0 <= k < |sorted| ==> entries[k] == EntryOf(sorted[k]))
    }

    lemma ListedFlags(sorted: seq<Job>, entries: seq<RegistryEntry>)
      requires Valid() && Arranges(sorted) && Lists(sorted, entries)
      ensures DistinctIds(entries)
      ensures FlagsOf(entries) == Flags(states)
    {
      var flags := Flags(states);
      forall e | e in entries ensures e.id in flags && flags[e.id] == e.paused {
        var k :| 0 <= k < |entries| && entries[k] == e;
        assert sorted[k] in sorted && JobValid(sorted[k].id);
      }
      forall id | id in flags ensures exists e :: e in entries && e.id == id {
        assert jobs[id] in sorted && JobValid(id);
        var k :| 0 <= k < |sorted| && sorted[k] == jobs[id];
        assert entries[k] in entries;
      }
      FlagsOfListing(entries, flags);
    }

    /** The jobs in their persisted form: each job's flag, under its own ID. */
    method NewRegistryEntries(sorted: seq<Job>) returns (entries: seq<RegistryEntry>)
      requires Valid() && Arranges(sorted) && InOrder(sorted)
      ensures Lists(sorted, entries) && IsFile(entries)
      ensures DistinctIds(entries) && FlagsOf(entries) == Flags(states)
    {
      entries := [];
      for k := 0 to |sorted|
        invariant |entries| == k
        invariant forall j :: 0 <= j < k ==> entries[j] == EntryOf(sorted[j])
      {
        entries := entries + [RegistryEntry(sorted[k].id, sorted[k].configPath, sorted[k].addedAt,
          sorted[k].syncer.IsPaused())];
      }
      ListedFlags(sorted, entries);
      ListingIsFile(sorted, entries);
    }

    /** The new text is written beside the file and renamed over it; a write that fails
        leaves any part of it in the temporary file only. */
    method Replace(entries: seq<RegistryEntry>, dirOk: bool, writeOk: bool, torn: seq<RegistryEntry>, renameOk: bool)
      returns (ok: bool)
      modifies this`registry, this`temp
      ensures ok == (dirOk && writeOk && renameOk)
      ensures registry == if ok then entries else old(registry)
      ensures temp == if !dirOk then old(temp) else if ok then None else Some(if writeOk then entries else torn)
    {
      if !dirOk { return false; }
      temp := Some(if writeOk then entries else torn);
      if !writeOk || !renameOk { return false; }
      registry, temp := temp.value, None;
      return true;
    }

    /** An entry for each job and no others, in order, with all that is kept of the job. */
    ghost predicate IsFile(entries: seq<RegistryEntry>)
      requires Valid()
      reads `jobs, `states, `owner, `syncers, syncers
    {
      && (forall i, j :: 0 <= i < j < |entries| ==> Before(KeyOfEntry(entries[i]), KeyOfEntry(entries[j])))
      && (forall e :: e in entries ==> e.id in jobs && JobValid(e.id) && e == EntryOf(jobs[e.id]))
      && (forall id :: id in jobs ==> JobValid(id) && EntryOf(jobs[id]) in entries)
    }

    lemma ListingIsFile(sorted: seq<Job>, entries: seq<RegistryEntry>)
      requires Valid() && Arranges(sorted) && InOrder(sorted) && Lists(sorted, entries)
      ensures IsFile(entries)
    {
      forall e | e in entries ensures e.id in jobs && JobValid(e.id) && e == EntryOf(jobs[e.id]) {
        var k :| 0 <= k < |entries| && entries[k] == e;
        assert sorted[k] in sorted;
      }
      forall id | id in jobs ensures JobValid(id) && EntryOf(jobs[id]) in entries {
        assert jobs[id] in sorted;
        var k :| 0 <= k < |sorted| && sorted[k] == jobs[id];
        assert entries[k] in entries;
      }
      forall i, j | 0 <= i < j < |entries| ensures Before(KeyOfEntry(entries[i]), KeyOfEntry(entries[j])) {
        assert Before(KeyOf(sorted[i]), KeyOf(sorted[j]));
      }
    }

    method Render() returns (entries: seq<RegistryEntry>)
      requires Valid()
      ensures IsFile(entries) && DistinctIds(entries) && FlagsOf(entries) == Flags(states)
    {
      var sorted := ListJobs();
      entries := NewRegistryEntries(sorted);
    }

    /** The registry file becomes the current state of all jobs, in the order in which
        clients see them, or stays as it was. */
    method SaveRegistry(dirOk: bool, writeOk: bool, torn: seq<RegistryEntry>, renameOk: bool) returns (ok: bool)
      requires Valid()
      modifies this`registry, this`temp
      ensures Valid() && ok == (dirOk && writeOk && renameOk)
      ensures if ok then IsFile(registry) else registry == old(registry)
      ensures FlagsOf(registry) == if ok then Flags(states) else old(FlagsOf(registry))
    {
      var entries := Render();
      ok := Replace(entries, dirOk, writeOk, torn, renameOk);
    }

    method Apply(id: Id, action: Action)
      requires Valid() && id in jobs
      modifies jobs[id].syncer, `states
      ensures Valid()
      ensures states == old(states)[id := Applied(old(states)[id], action)]
    {
      var syncer := jobs[id].syncer;
      Control(syncer, action);
      states := states[id := Applied(states[id], action)];
      assert JobValid(id);
      forall other | other in jobs && other != id ensures JobValid(other) {
        assert owner[jobs[other].syncer] == other && owner[syncer] == id;
        assert old(JobValid(other));
      }
    }

    /** The flag has changed: make it durable, or change it back. */
    method Persist(id: Id, prevPaused: bool, dirOk: bool, writeOk: bool, torn: seq<RegistryEntry>, renameOk: bool)
      returns (ok: bool)
      requires Valid() && id in jobs
      modifies this`registry, this`temp, this`states, jobs[id].syncer
      ensures Valid() && ok == (dirOk && writeOk && renameOk)
      ensures ok ==> states == old(states) && FlagsOf(registry) == Flags(states)
      ensures !ok ==> registry == old(registry) && states == old(states)[id := Back(old(states)[id], prevPaused)]
    {
      ok := SaveRegistry(dirOk, writeOk, torn, renameOk);
      if !ok { RollBack(id, prevPaused); }
    }

    /** The flag goes back to what it was, by one more call. */
    method RollBack(id: Id, prevPaused: bool)
      requires Valid() && id in jobs
      modifies jobs[id].syncer, `states
      ensures Valid() && states == old(states)[id := Back(old(states)[id], prevPaused)]
    {
      Apply(id, if prevPaused then PauseAction else ResumeAction);
    }

    /** The action, and what its change of the flag requires. */
    method ApplyDurably(id: Id, action: Action, dirOk: bool, writeOk: bool, torn: seq<RegistryEntry>, renameOk: bool)
      returns (ok: bool)
      requires Valid() && id in jobs
      modifies this`registry, this`temp, this`states, jobs[id].syncer
      ensures Valid()
      ensures var j, changed := old(states)[id], Applied(old(states)[id], action);
        if changed.paused == j.paused then ok && states == old(states)[id := changed] && registry == old(registry)
        else ok == (dirOk && writeOk && renameOk) &&
             if ok then states == old(states)[id := changed] && FlagsOf(registry) == Flags(states)
             else states == old(states)[id := changed][id := Back(changed, j.paused)] && registry == old(registry)
    {
      var prevPaused := jobs[id].syncer.IsPaused();
      assert old(JobValid(id));
      Apply(id, action);
      var nowPaused := jobs[id].syncer.IsPaused();
      assert JobValid(id);
      if action.SyncAction? || nowPaused == prevPaused { return true; }
      ok := Persist(id, prevPaused, dirOk, writeOk, torn, renameOk);
    }

    /** One request, handled from start to end. */
    method JobControl(id: Id, action: Action, dirOk: bool, writeOk: bool, torn: seq<RegistryEntry>, renameOk: bool)
      returns (response: Response)
      requires Valid()
      modifies this`registry, this`temp, this`states, if id in jobs then {jobs[id].syncer} else {}
      ensures Valid()
      ensures response == Answer(old(Contents()), Request(id, action, dirOk && writeOk && renameOk))
      ensures Contents() == Handle(old(Contents()), Request(id, action, dirOk && writeOk && renameOk))
    {
      if id !in jobs { return NotFound; }
      HandleByCases(Contents(), Request(id, action, dirOk && writeOk && renameOk));
      if action.Unsupported? { return ServerError; }
      var ok := ApplyDurably(id, action, dirOk, writeOk, torn, renameOk);
      response := if ok then Accepted else ServerError;
    }

    constructor ()
      ensures Valid() && jobs == map[] && states == map[] && registry == []
    {
      jobs, registry, temp := map[], [], None;
      states, owner, syncers := map[], map[], {};
    }

    /** The job is one of the entries brought back, in all that an entry keeps. */
    ghost predicate ComesFrom(id: Id, entries: seq<RegistryEntry>)
      requires id in jobs && id in states
      reads `jobs, `states
    {
      RegistryEntry(id, jobs[id].configPath, jobs[id].addedAt, states[id].paused) in entries
    }

    /** Every entry whose configuration loads becomes a job again; one that was paused is
        paused before its loop is started. A file that cannot be read or parsed brings back
        nothing and is reported; one that does not exist is an empty one. */
    method LoadRegistry(readable: bool, loads: RegistryEntry -> bool) returns (ok: bool)
      requires Valid() && jobs == map[]
      modifies `jobs, `states, `owner, `syncers
      ensures Valid() && ok == readable
      ensures states == if ok then Restored(registry, loads) else map[]
      ensures forall id :: id in jobs ==> ComesFrom(id, registry)
    {
      if !readable { return false; }
      for k := 0 to |registry|
        invariant Valid() && states == Restored(registry[..k], loads)
        invariant forall id :: id in jobs ==> ComesFrom(id, registry)
      {
        assert registry[..k + 1][..k] == registry[..k];
        var entry := registry[k];
        if !loads(entry) { continue; }
        var syncer := new Syncer();
        if entry.paused { syncer.Pause(); }
        Register(entry, syncer);
        assert ComesFrom(entry.id, registry);
      }
      assert registry[..|registry|] == registry;
      ok := true;
    }

    method Register(entry: RegistryEntry, syncer: Syncer)
      requires Valid() && syncer !in syncers && syncer.Valid()
      modifies `jobs, `states, `owner, `syncers
      ensures Valid() && states == old(states)[entry.id := StateOf(syncer)]
      ensures syncers == old(syncers) + {syncer}
      ensures entry.id in jobs && jobs[entry.id].configPath == entry.configPath
        && jobs[entry.id].addedAt == entry.addedAt
      ensures jobs == old(jobs)[entry.id := jobs[entry.id]]
    {
      var job := new Job(entry.id, entry.configPath, entry.addedAt, syncer);
      jobs := jobs[entry.id := job];
      states := states[entry.id := StateOf(syncer)];
      owner, syncers := owner[syncer := entry.id], syncers + {syncer};
      assert JobValid(entry.id);
      forall other | other in jobs && other != entry.id ensures JobValid(other) {
        assert old(JobValid(other));
      }
    }
  }

  // ---- The same calls as steps of the run loop's protocol ------------------------------------

  function Seen(s: RunLoop.State): JobState { JobState(s.paused, s.syncNow, s.pauseCh) }

  /** A call that nothing interrupts is its two steps taken one after the other. */
  lemma PauseIsItsSteps(s: RunLoop.State)
    ensures var begun := RunLoop.Do(s, RunLoop.PauseBegins);
      if s.paused then begun == s && Paused(Seen(s)) == Seen(s)
      else RunLoop.Enabled(begun, RunLoop.PauseSends) && Seen(RunLoop.Do(begun, RunLoop.PauseSends)) == Paused(Seen(s))
  {
  }

  lemma ResumeIsItsSteps(s: RunLoop.State)
    ensures var begun := RunLoop.Do(s, RunLoop.ResumeBegins);
      if !s.paused then begun == s && Resumed(Seen(s)) == Seen(s)
      else
        RunLoop.Enabled(begun, RunLoop.ResumeSends) &&
        Seen(RunLoop.Do(begun, RunLoop.ResumeSends)) == Resumed(Seen(s))
  {
  }

  lemma SyncNowIsItsStep(s: RunLoop.State)
    ensures Seen(RunLoop.Do(s, RunLoop.SyncNowCalled)) == Applied(Seen(s), SyncAction)
  {
  }

  /** A job that comes back paused runs no cycle until it is resumed. */
  lemma RestoredPausedJobWaits(entries: seq<RegistryEntry>, loads: RegistryEntry -> bool, id: Id,
                               states: seq<RunLoop.State>, steps: seq<RunLoop.Step>, k: nat)
    requires DistinctIds(entries) && id in Restored(entries, loads)
    requires id in FlagsOf(entries) && FlagsOf(entries)[id]
    requires RunLoop.IsRun(states, steps) && k < |states|
    requires Seen(states[0]) == Restored(entries, loads)[id] && states[0].cycles == 0
    requires forall j :: 0 <= j < |steps| ==> !steps[j].ResumeBegins?
    ensures states[k].paused && states[k].cycles == 0
  {
    RestartKeepsFlags(entries, loads);
    RunLoop.PausedJobStaysQuiet(states, steps, k);
  }
}
