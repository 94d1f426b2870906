/** The claim table of one download batch: which local path each remote file may
    occupy, and which ones are already spoken for.  */
module Destinations {
  import opened Paths
  import opened Records

  const MAX_RENAME_ATTEMPTS: nat := 1000

  datatype Policy = ErrorPolicy | SkipPolicy | RenamePolicy

  /** `claimed` and `recorded` map a local path to the remote file holding it, in this
      batch and in the manifest; `byRemote` is the manifest's own direction. */
  datatype Table = Table(
    claimed: map<Path, Remote>,
    recorded: map<Path, Remote>,
    byRemote: map<Remote, Path>,
    maxAttempts: int)

  datatype Resolution = Placed(path: Path) | LeftAlone | Refused

  /** A table a batch may start from. Where two remote files share a recorded path,
      either of them may be the one `recorded` names. */
  ghost predicate FreshTable(t: Table, entries: Entries) {
    && t.claimed == map[]
    && (forall r :: r in t.byRemote <==> r in entries && entries[r].localPath != "")
    && (forall r :: r in t.byRemote ==> t.byRemote[r] == entries[r].localPath)
    && (forall p :: p in t.recorded ==> t.recorded[p] in t.byRemote && t.byRemote[t.recorded[p]] == p)
    && (forall r :: r in t.byRemote ==> t.byRemote[r] in t.recorded)
  }

  function RecordedFor(t: Table, remote: Remote): Path {
    if remote in t.byRemote then t.byRemote[remote] else ""
  }

  predicate ClaimedByOther(t: Table, candidate: Path, remote: Remote) {
    candidate in t.claimed && t.claimed[candidate] != remote
  }

  predicate RecordedByOther(t: Table, candidate: Path, remote: Remote) {
    candidate in t.recorded && t.recorded[candidate] != remote
  }

  predicate Unavailable(t: Table, disk: set<Path>, candidate: Path, remote: Remote) {
    || ClaimedByOther(t, candidate, remote)
    || RecordedByOther(t, candidate, remote)
    || candidate in disk
  }

  function Limit(t: Table): nat {
    if t.maxAttempts <= 0 then MAX_RENAME_ATTEMPTS else t.maxAttempts
  }

  function Claim(t: Table, path: Path, remote: Remote): Table {
    t.(claimed := t.claimed[path := remote])
  }

  /** The recorded destination applies: it is named and no other file of the batch
      has taken it. */
  predicate RecordedApplies(t: Table, remote: Remote) {
    RecordedFor(t, remote) != "" && !ClaimedByOther(t, RecordedFor(t, remote), remote)
  }

  /** The least attempt from `attempt` on whose candidate is free, or one past the limit. */
  function FirstFree(t: Table, disk: set<Path>, remote: Remote, desired: Path, attempt: nat): (k: nat)
    requires 1 <= attempt <= Limit(t) + 1
    ensures attempt <= k <= Limit(t) + 1
    ensures forall j :: attempt <= j < k ==> Unavailable(t, disk, Suffixed(desired, j), remote)
    ensures k <= Limit(t) ==> !Unavailable(t, disk, Suffixed(desired, k), remote)
    decreases Limit(t) + 1 - attempt
  {
    if attempt > Limit(t) || !Unavailable(t, disk, Suffixed(desired, attempt), remote) then attempt
    else FirstFree(t, disk, remote, desired, attempt + 1)
  }

  /** The fresh destination a policy settles on once the recorded one does not apply. */
  function FreshChoice(t: Table, disk: set<Path>, policy: Policy, remote: Remote, desired: Path): Resolution {
    match policy
    case ErrorPolicy => if Unavailable(t, disk, desired, remote) then Refused else Placed(desired)
    case SkipPolicy => if Unavailable(t, disk, desired, remote) then LeftAlone else Placed(desired)
    case RenamePolicy =>
      var k := FirstFree(t, disk, remote, desired, 1);
      if k <= Limit(t) then Placed(Suffixed(desired, k)) else Refused
  }

  /** What resolution answers, for the paths occupied on disk. */
  function Choose(t: Table, disk: set<Path>, policy: Policy, remote: Remote, desired: Path): Resolution {
    if RecordedApplies(t, remote) then Placed(RecordedFor(t, remote))
    else FreshChoice(t, disk, policy, remote, desired)
  }

  /** The table after resolution: an answer is claimed before anyone may use it. */
  function AfterChoose(t: Table, disk: set<Path>, policy: Policy, remote: Remote, desired: Path): Table {
    var answer := Choose(t, disk, policy, remote, desired);
    if answer.Placed? then Claim(t, answer.path, remote) else t
  }

  class BatchDestinations {
    var claimed: map<Path, Remote>
    var recorded: map<Path, Remote>
    var byRemote: map<Remote, Path>
    var exhausted: bool
    var maxAttempts: int

    ghost function Contents(): Table
      reads this
    {
      Table(claimed, recorded, byRemote, maxAttempts)
    }

    /** The manifest is visited in no particular order. */
    constructor (entries: Entries)
      ensures FreshTable(Contents(), entries)
      ensures maxAttempts == MAX_RENAME_ATTEMPTS && !exhausted
    {
      claimed, recorded, byRemote := map[], map[], map[];
      exhausted, maxAttempts := false, MAX_RENAME_ATTEMPTS;
      new;
      var todo := entries.Keys;
      while todo != {}
        invariant todo <= entries.Keys
        invariant claimed == map[] && maxAttempts == MAX_RENAME_ATTEMPTS && !exhausted
        invariant forall r :: r in byRemote <==> r in entries && r !in todo && entries[r].localPath != ""
        invariant forall r :: r in byRemote ==> byRemote[r] == entries[r].localPath && byRemote[r] in recorded
        invariant forall p :: p in recorded ==> recorded[p] in byRemote && byRemote[recorded[p]] == p
        decreases todo
      {
        var remote :| remote in todo;
        todo := todo - {remote};
        var localPath := entries[remote].localPath;
        if localPath != "" {
          recorded := recorded[localPath := remote];
          byRemote := byRemote[remote := localPath];
        }
      }
    }

    method Resolve(policy: Policy, remote: Remote, desired: Path, disk: set<Path>)
      returns (answer: Resolution)
      modifies this`claimed, this`exhausted
      ensures answer == Choose(old(Contents()), disk, policy, remote, desired)
      ensures Contents() == AfterChoose(old(Contents()), disk, policy, remote, desired)
      ensures exhausted == (old(exhausted) || (policy == RenamePolicy && answer == Refused))
    {
      var recordedPath := if remote in byRemote then byRemote[remote] else "";
      if recordedPath != "" && !(recordedPath in claimed && claimed[recordedPath] != remote) {
        claimed := claimed[recordedPath := remote];
        return Placed(recordedPath);
      }

      match policy
      case ErrorPolicy =>
        var taken := UnavailableTo(desired, remote, disk);
        if taken { return Refused; }
        claimed := claimed[desired := remote];
        return Placed(desired);
      case SkipPolicy =>
        var taken := UnavailableTo(desired, remote, disk);
        if taken { return LeftAlone; }
        claimed := claimed[desired := remote];
        return Placed(desired);
      case RenamePolicy =>
        var limit := maxAttempts;
        if limit <= 0 { limit := MAX_RENAME_ATTEMPTS; }
        ghost var t := Contents();
        var attempt: nat := 1;
        while attempt <= limit
          invariant 1 <= attempt <= limit + 1
          invariant Contents() == t && exhausted == old(exhausted)
          invariant FirstFree(t, disk, remote, desired, 1) == FirstFree(t, disk, remote, desired, attempt)
        {
          var candidate := Suffixed(desired, attempt);
          var taken := UnavailableTo(candidate, remote, disk);
          if !taken {
            claimed := claimed[candidate := remote];
            return Placed(candidate);
          }
          attempt := attempt + 1;
        }
        exhausted := true;
        return Refused;
    }

    method UnavailableTo(candidate: Path, remote: Remote, disk: set<Path>) returns (taken: bool)
      ensures taken == Unavailable(Contents(), disk, candidate, remote)
    {
      if candidate in claimed && claimed[candidate] != remote { return true; }
      if candidate in recorded && recorded[candidate] != remote { return true; }
      taken := candidate in disk;
    }
  }

  // ---- What the answers mean -------------------------------------------------

  /** The first `n` candidates for a destination. */
  function Candidates(desired: Path, n: nat): (cs: set<Path>)
    ensures forall p :: p in cs <==> exists k: nat :: 1 <= k <= n && p == Suffixed(desired, k)
  {
    if n == 0 then {} else Candidates(desired, n - 1) + {Suffixed(desired, n)}
  }

  lemma {:induction false} CandidatesAreDistinct(desired: Path, n: nat)
    ensures |Candidates(desired, n)| == n
  {
    if n > 0 {
      CandidatesAreDistinct(desired, n - 1);
      if Suffixed(desired, n) in Candidates(desired, n - 1) {
        var k: nat :| 1 <= k <= n - 1 && Suffixed(desired, n) == Suffixed(desired, k);
        SuffixedInjective(desired, n, k);
        assert false;
      }
    }
  }

  /** The rename policy, asked for a fresh destination, answers the lowest free suffix
      and nothing else; it refuses exactly when every candidate within the limit is
      taken, which takes that many different occupied paths. */
  lemma RenameTakesLowestFreeSuffix(t: Table, disk: set<Path>, remote: Remote, desired: Path)
    requires !RecordedApplies(t, remote)
    ensures forall k: nat :: 1 <= k <= Limit(t) ==>
      (Choose(t, disk, RenamePolicy, remote, desired) == Placed(Suffixed(desired, k)) <==>
        !Unavailable(t, disk, Suffixed(desired, k), remote) &&
        forall j: nat :: 1 <= j < k ==> Unavailable(t, disk, Suffixed(desired, j), remote))
    ensures Choose(t, disk, RenamePolicy, remote, desired) == Refused <==>
      forall p :: p in Candidates(desired, Limit(t)) ==> Unavailable(t, disk, p, remote)
    ensures |Candidates(desired, Limit(t))| == Limit(t)
    ensures Choose(t, disk, RenamePolicy, remote, desired) != LeftAlone
    ensures Limit(t) == if t.maxAttempts <= 0 then 1000 else t.maxAttempts
  {
    CandidatesAreDistinct(desired, Limit(t));
    var first := FirstFree(t, disk, remote, desired, 1);
    forall k: nat | 1 <= k <= Limit(t) && first <= Limit(t) && Suffixed(desired, k) == Suffixed(desired, first)
      ensures k == first
    {
      SuffixedInjective(desired, k, first);
    }
    if first <= Limit(t) {
      assert Suffixed(desired, first) in Candidates(desired, Limit(t));
    }
  }

  /** What the error and the skip policy do with a desired path, for a file whose recorded
      destination does not apply: an error or a skip exactly when another file of the batch
      holds the path, another file is recorded at it, or something is on disk there; and
      otherwise the path itself. */
  lemma ErrorAndSkipAreExact(t: Table, disk: set<Path>, remote: Remote, desired: Path)
    requires !(remote in t.byRemote && t.byRemote[remote] != "" &&
               !(t.byRemote[remote] in t.claimed && t.claimed[t.byRemote[remote]] != remote))
    ensures var taken :=
        || (desired in t.claimed && t.claimed[desired] != remote)
        || (desired in t.recorded && t.recorded[desired] != remote)
        || desired in disk;
      && Choose(t, disk, ErrorPolicy, remote, desired) == (if taken then Refused else Placed(desired))
      && Choose(t, disk, SkipPolicy, remote, desired) == (if taken then LeftAlone else Placed(desired))
  {
  }

  /** And with a recorded destination that nobody else holds, every policy answers that. */
  lemma RecordedComesFirst(t: Table, disk: set<Path>, policy: Policy, remote: Remote, desired: Path)
    requires remote in t.byRemote && t.byRemote[remote] != ""
    requires !(t.byRemote[remote] in t.claimed && t.claimed[t.byRemote[remote]] != remote)
    ensures Choose(t, disk, policy, remote, desired) == Placed(t.byRemote[remote])
  {
  }

  /** A renamed file keeps the directory and the extension that were asked for. */
  lemma RenameStaysBesideTheDesiredPath(t: Table, disk: set<Path>, remote: Remote, desired: Path)
    requires !RecordedApplies(t, remote)
    ensures var answer := Choose(t, disk, RenamePolicy, remote, desired);
      answer.Placed? ==> Dir(answer.path) == Dir(desired) && Ext(answer.path) == Ext(desired)
  {
    var k := FirstFree(t, disk, remote, desired, 1);
    SuffixedStaysInDirectory(desired, k);
    SuffixedKeepsExtension(desired, k);
  }

  /** Under every policy, resolution hands out only the file's own recorded path or a
      path that nothing occupies, never one that another file of the batch holds, and
      it takes no claim away. */
  lemma ResolveIsSafe(t: Table, disk: set<Path>, policy: Policy, remote: Remote, desired: Path)
    ensures var answer := Choose(t, disk, policy, remote, desired);
      var after := AfterChoose(t, disk, policy, remote, desired);
      && (answer.Placed? ==>
           && !ClaimedByOther(t, answer.path, remote)
           && after.claimed == t.claimed[answer.path := remote]
           && (answer.path == RecordedFor(t, remote) != "" ||
               (answer.path !in disk && !RecordedByOther(t, answer.path, remote))))
      && (forall p :: p in t.claimed ==> p in after.claimed && after.claimed[p] == t.claimed[p])
      && (!answer.Placed? ==> after == t)
  {
  }

  /** `later` may follow `t` and `disk` while `remote` does nothing: claims are kept and
      only others make new ones; files appear only where another file holds the claim. */
  ghost predicate OthersMoved(t: Table, disk: set<Path>, later: Table, laterDisk: set<Path>, remote: Remote) {
    && later.recorded == t.recorded && later.byRemote == t.byRemote && later.maxAttempts == t.maxAttempts
    && (forall p :: p in t.claimed ==> p in later.claimed && later.claimed[p] == t.claimed[p])
    && (forall p :: p in later.claimed && p !in t.claimed ==> later.claimed[p] != remote)
    && disk <= laterDisk
    && (forall p :: p in laterDisk && p !in disk ==> ClaimedByOther(later, p, remote))
  }

  /** Resolution is idempotent for a file that holds a claim and has not written its
      file, whatever other workers claimed or renamed in between. */
  lemma ResolveAgain(t: Table, disk: set<Path>, policy: Policy, remote: Remote, desired: Path,
                     later: Table, laterDisk: set<Path>)
    requires Choose(t, disk, policy, remote, desired).Placed?
    requires OthersMoved(AfterChoose(t, disk, policy, remote, desired), disk, later, laterDisk, remote)
    ensures Choose(later, laterDisk, policy, remote, desired) == Choose(t, disk, policy, remote, desired)
    ensures AfterChoose(later, laterDisk, policy, remote, desired) == later
  {
    var answer := Choose(t, disk, policy, remote, desired);
    assert later.claimed[answer.path] == remote;
    assert later.claimed[answer.path := remote] == later.claimed;
    if !RecordedApplies(t, remote) && policy == RenamePolicy {
      var k := FirstFree(t, disk, remote, desired, 1);
      forall j: nat | 1 <= j < k ensures Unavailable(later, laterDisk, Suffixed(desired, j), remote) {
        assert Unavailable(t, disk, Suffixed(desired, j), remote);
      }
      FirstFreeIs(later, laterDisk, remote, desired, k);
    }
  }

  lemma FirstFreeIs(t: Table, disk: set<Path>, remote: Remote, desired: Path, k: nat)
    requires 1 <= k <= Limit(t)
    requires !Unavailable(t, disk, Suffixed(desired, k), remote)
    requires forall j: nat :: 1 <= j < k ==> Unavailable(t, disk, Suffixed(desired, j), remote)
    ensures FirstFree(t, disk, remote, desired, 1) == k
  {
    var first := FirstFree(t, disk, remote, desired, 1);
    assert first >= k;
  }

  /** The suffix search when each candidate is looked up on the disk as it is at that
      moment: the lock covers the claims, not the file system. */
  function FirstFreeOver(t: Table, disks: seq<set<Path>>, remote: Remote, desired: Path, attempt: nat): nat
    requires |disks| == Limit(t) + 1
    requires 1 <= attempt <= Limit(t) + 1
    decreases Limit(t) + 1 - attempt
  {
    if attempt > Limit(t) || !Unavailable(t, disks[attempt], Suffixed(desired, attempt), remote) then attempt
    else FirstFreeOver(t, disks, remote, desired, attempt + 1)
  }

  /** Renames that other workers complete during the search cannot change its answer:
      they land on paths those workers hold, which are refused before the disk is read. */
  lemma {:induction false} RenamesDuringSearchAreInvisible(t: Table, disk: set<Path>, disks: seq<set<Path>>,
                                                           remote: Remote, desired: Path, attempt: nat)
    requires |disks| == Limit(t) + 1
    requires 1 <= attempt <= Limit(t) + 1
    requires forall d :: d in disks ==> disk <= d && forall p :: p in d && p !in disk ==> ClaimedByOther(t, p, remote)
    ensures FirstFreeOver(t, disks, remote, desired, attempt) == FirstFree(t, disk, remote, desired, attempt)
    decreases Limit(t) + 1 - attempt
  {
    if attempt <= Limit(t) {
      assert disks[attempt] in disks;
      RenamesDuringSearchAreInvisible(t, disk, disks, remote, desired, attempt + 1);
    }
  }
}
