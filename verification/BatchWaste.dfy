/** Bytes that a batch transfers and then throws away: which configurations can leave
    them in the published counter, and a batch of each kind that does.  */
module BatchWaste {
  import opened Paths
  import opened Records
  import opened Destinations
  import opened Batch
  import opened OneFileBatch
  import BatchLedger
  import BatchPlaces

  /** One photo in a batch that sorts by date, on a disk where `taken` is occupied. */
  function PhotoBatch(policy: Policy, taken: set<Path>): Batch {
    Batch([RemoteFile("/photos/a.jpg", 1, 5)], ["/local/a.jpg"], false, policy, 1, 3, false, _ => "", map[],
          Table(map[], map[], map[], MAX_RENAME_ATTEMPTS), map p | p in taken :: [])
  }

  lemma PhotoBatchIsValid(policy: Policy, taken: set<Path>)
    ensures OneFile(PhotoBatch(policy, taken))
  {
  }

  /** Every name that the photo could be given under its date is taken. */
  lemma CrowdedBatchRefuses(policy: Policy, desired: Path, taken: set<Path>, limit: nat)
    requires limit == MAX_RENAME_ATTEMPTS && taken == Candidates(desired, limit)
    ensures var c := PhotoBatch(policy, taken);
      !Choose(c.table, c.disk.Keys, policy, c.files[0].path, desired).Placed?
  {
    var c := PhotoBatch(policy, taken);
    assert desired == Suffixed(desired, 1) && desired in taken;
    assert c.disk.Keys == taken && Limit(c.table) == limit;
    RenameTakesLowestFreeSuffix(c.table, taken, c.files[0].path, desired);
  }

  lemma NothingCompleted(ws: seq<Worker>)
    requires |ws| == 1 && !ws[0].outcome.Completed?
    ensures Total(ws, BatchLedger.CompletedBytes) == 0
  {
    forall w | w in ws ensures BatchLedger.CompletedBytes(w) == 0 {
      assert w == ws[0];
    }
    TotalZero(ws, BatchLedger.CompletedBytes);
  }

  /** Under each policy that photo is transferred for nothing. */
  lemma CrowdedBatchStrandsBytes(policy: Policy, desired: Path, content: Content, limit: nat)
    returns (c: Batch, s: State)
    requires limit == MAX_RENAME_ATTEMPTS && |content| == 5
    ensures c == PhotoBatch(policy, Candidates(desired, limit)) && !c.flat && c.policy == policy
    ensures Reaches(c, s) && s.main.Finished?
    ensures s.status.bytesCompleted == 5 && Total(s.workers, BatchLedger.CompletedBytes) == 0
  {
    c := PhotoBatch(policy, Candidates(desired, limit));
    PhotoBatchIsValid(policy, Candidates(desired, limit));
    CrowdedBatchRefuses(policy, desired, Candidates(desired, limit), limit);
    s := TurnedAwayFileStrandsItsBytes(c, content, desired);
    NothingCompleted(s.workers);
  }

  /** Every finished batch of this configuration ends with exactly the bytes of its
      completed files in the counter. */
  ghost predicate CountsCompletedBytes(flat: bool, policy: Policy) {
    forall c, s :: Reaches(c, s) && c.flat == flat && c.policy == policy && s.main.Finished? ==>
      s.status.bytesCompleted == Total(s.workers, BatchLedger.CompletedBytes)
  }

  lemma FlatBatchCountsCompletedBytes(c: Batch, s: State)
    requires Reaches(c, s) && c.flat && s.main.Finished?
    ensures s.status.bytesCompleted == Total(s.workers, BatchLedger.CompletedBytes)
  {
    var states, steps :| IsRun(c, states, steps) && states[|steps|] == s;
    BatchLedger.BytesAreConserved(c, states, steps, |steps|);
    forall i | 0 <= i < |s.workers| ensures BatchLedger.TurnedAwayBytes(s.workers[i]) == 0 {
      BatchPlaces.FlatBatchWastesNoTransfer(c, states, steps, |steps|, i);
    }
    forall w | w in s.workers ensures BatchLedger.TurnedAwayBytes(w) == 0 {
      var i :| 0 <= i < |s.workers| && s.workers[i] == w;
    }
    TotalZero(s.workers, BatchLedger.TurnedAwayBytes);
  }

  /** Under any policy, exactly the flat structure keeps the counter free of bytes that
      were transferred and thrown away. */
  lemma FlatExactlyCountsCompletedBytes(flat: bool, policy: Policy)
    ensures CountsCompletedBytes(flat, policy) <==> flat
  {
    if flat {
      forall c, s | Reaches(c, s) && c.flat == flat && c.policy == policy && s.main.Finished?
        ensures s.status.bytesCompleted == Total(s.workers, BatchLedger.CompletedBytes)
      {
        FlatBatchCountsCompletedBytes(c, s);
      }
    } else {
      var c, s := CrowdedBatchStrandsBytes(policy, "/local/2024/a.jpg", seq(5, _ => 0), MAX_RENAME_ATTEMPTS);
      assert Reaches(c, s);
    }
  }
}
