/** The published status of one job, and what each locked update does to it. */
module StatusBoard {
  datatype Phase = Idle | Scanning | Downloading | Paused | Error

  datatype Status = Status(
    phase: Phase,
    paused: bool,
    batchTotal: int,
    completed: int,
    failed: int,
    skipped: int,
    remaining: int,
    pending: int,
    bytesTotal: int,
    bytesCompleted: int,
    hasError: bool)

  datatype CycleResult = Succeeded | BatchPaused | CycleFailed

  const INITIAL: Status := Status(Idle, false, 0, 0, 0, 0, 0, 0, 0, 0, false)

  function AtLeastZero(n: int): int { if n < 0 then 0 else n }

  /** Skipped is not among the fields a scan resets. */
  function BeginScan(st: Status): Status {
    st.(phase := Scanning, batchTotal := 0, completed := 0, failed := 0, remaining := 0, pending := 0,
        bytesTotal := 0, bytesCompleted := 0)
  }

  function BeginDownload(st: Status, total: int, totalBytes: int): Status {
    st.(phase := Downloading, batchTotal := total, remaining := total, pending := total,
        bytesTotal := totalBytes, bytesCompleted := 0, completed := 0, failed := 0, skipped := 0)
  }

  function RecordBytes(st: Status, delta: int): Status {
    if delta > 0 then st.(bytesCompleted := st.bytesCompleted + delta) else st
  }

  function FinishFile(st: Status): Status {
    var left := if st.remaining > 0 then st.remaining - 1 else st.remaining;
    st.(remaining := left, pending := left)
  }

  function RecordFileResult(st: Status, ok: bool, fileBytes: int): Status {
    FinishFile(if ok then st.(completed := st.completed + 1)
               else st.(failed := st.failed + 1, bytesCompleted := AtLeastZero(st.bytesCompleted - fileBytes)))
  }

  function RecordSkipped(st: Status): Status {
    FinishFile(st.(skipped := st.skipped + 1))
  }

  /** Bytes of an attempt that will be repeated are taken back. */
  function DiscardBytes(st: Status, copied: int): Status {
    if copied <= 0 then st else st.(bytesCompleted := AtLeastZero(st.bytesCompleted - copied))
  }

  function MarkPaused(st: Status): Status { st.(phase := Paused) }

  function RecordCycle(st: Status, result: CycleResult, cancelled: bool): Status {
    match result
    case Succeeded => st.(phase := Idle, hasError := false)
    case BatchPaused => st
    case CycleFailed => if cancelled then st else st.(phase := Error, hasError := true)
  }

  /** Every file of the batch is accounted for. */
  predicate Balanced(st: Status) {
    st.completed + st.failed + st.skipped + st.remaining == st.batchTotal
  }

  /** What ends a cycle does not disturb the counters its batch left. */
  lemma BalanceOutlivesBatch(st: Status, result: CycleResult, cancelled: bool)
    ensures Balanced(RecordCycle(st, result, cancelled)) == Balanced(MarkPaused(st)) == Balanced(st)
  {
  }

  /** A success is shown as idle and without an error, a failure of a live job as failed and
      with one; a batch that stopped for a pause and a cycle cut off by the shutdown show
      nothing. No counter changes. */
  lemma ResultsAreShown(st: Status, cancelled: bool)
    ensures RecordCycle(st, Succeeded, cancelled) == st.(phase := Idle, hasError := false)
    ensures RecordCycle(st, CycleFailed, false) == st.(phase := Error, hasError := true)
    ensures RecordCycle(st, CycleFailed, true) == st && RecordCycle(st, BatchPaused, cancelled) == st
  {
  }

  /** A scan that follows a batch with skipped files leaves the counters unbalanced:
      exactly then, because only Skipped survives the reset. */
  lemma BalancedAfterScan(st: Status)
    ensures Balanced(BeginScan(st)) <==> st.skipped == 0
  {
  }

  lemma ScanAfterSkipIsUnbalanced()
    ensures !Balanced(BeginScan(RecordSkipped(BeginDownload(INITIAL, 1, 10))))
  {
  }
}
