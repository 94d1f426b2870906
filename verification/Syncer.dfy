/** The state one job keeps under its mutex, the two wake-up channels of its run loop,
    and the operations other goroutines call on it.  */
module Syncer {
  import opened StatusBoard

  /** The channels hold at most one token, so each is whether it holds one. */
  class Syncer {
    var status: Status
    var paused: bool
    var syncNow: bool
    var pauseCh: bool

    /** The two copies of the paused flag are only changed together. */
    ghost predicate Valid()
      reads this
    {
      status.paused == paused
    }

    constructor ()
      ensures Valid()
      ensures status == INITIAL && !paused && !syncNow && !pauseCh
    {
      status, paused, syncNow, pauseCh := INITIAL, false, false, false;
    }

    predicate IsPaused()
      reads this
    {
      paused
    }

    method SyncNow()
      modifies this`syncNow
      ensures syncNow
    {
      if !syncNow { syncNow := true; }
    }

    /** A call that changes the flag leaves a token for the loop; a repeated call
        changes nothing at all. */
    method Pause()
      requires Valid()
      modifies this`paused, this`status, this`pauseCh
      ensures Valid() && paused && status == old(status).(paused := true)
      ensures pauseCh == (old(pauseCh) || !old(paused))
    {
      if paused { return; }
      paused := true;
      status := status.(paused := true);
      if !pauseCh { pauseCh := true; }
    }

    method Resume()
      requires Valid()
      modifies this`paused, this`status, this`syncNow
      ensures Valid() && !paused && status == old(status).(paused := false)
      ensures syncNow == (old(syncNow) || old(paused))
    {
      if !paused { return; }
      paused := false;
      status := status.(paused := false);
      SyncNow();
    }

    /** What a client sees never claims more than the whole batch. Only the byte count
        can differ from the live status, and only when that has run past the total. */
    method Snapshot() returns (st: Status)
      ensures st.bytesTotal > 0 ==> st.bytesCompleted <= st.bytesTotal
      ensures st == status.(bytesCompleted := st.bytesCompleted)
      ensures st == status <==> status.bytesTotal <= 0 || status.bytesCompleted <= status.bytesTotal
      ensures st != status ==> st.bytesCompleted == st.bytesTotal
    {
      st := status;
      if st.bytesTotal > 0 && st.bytesCompleted > st.bytesTotal {
        st := st.(bytesCompleted := st.bytesTotal);
      }
    }

    method MarkPaused()
      modifies this`status
      ensures status == StatusBoard.MarkPaused(old(status)) == old(status).(phase := Phase.Paused)
    {
      status := status.(phase := Phase.Paused);
    }

    method BeginScan()
      modifies this`status
      ensures status == StatusBoard.BeginScan(old(status))
      ensures status.phase == Scanning && status.batchTotal == 0 && status.bytesTotal == 0 && status.bytesCompleted == 0
      ensures status.completed == 0 && status.failed == 0 && status.remaining == 0 && status.pending == 0
      ensures status.skipped == old(status.skipped) && status.hasError == old(status.hasError)
      ensures status.paused == old(status.paused)
    {
      status := status.(phase := Scanning);
      status := status.(batchTotal := 0, completed := 0, failed := 0, remaining := 0, pending := 0);
      status := status.(bytesTotal := 0, bytesCompleted := 0);
    }

    method BeginDownload(total: int, totalBytes: int)
      modifies this`status
      ensures status == StatusBoard.BeginDownload(old(status), total, totalBytes)
      ensures status.phase == Downloading && status.batchTotal == status.remaining == status.pending == total
      ensures status.bytesTotal == totalBytes && status.bytesCompleted == 0
      ensures status.completed == 0 && status.failed == 0 && status.skipped == 0
      ensures status.hasError == old(status.hasError) && status.paused == old(status.paused)
    {
      status := status.(phase := Downloading, batchTotal := total, remaining := total, pending := total);
      status := status.(bytesTotal := totalBytes, bytesCompleted := 0);
      status := status.(completed := 0, failed := 0, skipped := 0);
    }

    method RecordBytes(delta: int)
      modifies this`status
      ensures status == StatusBoard.RecordBytes(old(status), delta)
    {
      if delta > 0 {
        status := status.(bytesCompleted := status.bytesCompleted + delta);
      }
    }

    method FinishFileLocked()
      modifies this`status
      ensures status == FinishFile(old(status))
    {
      if status.remaining > 0 {
        status := status.(remaining := status.remaining - 1);
      }
      status := status.(pending := status.remaining);
    }

    method RecordFileResult(ok: bool, fileBytes: int)
      modifies this`status
      ensures status == StatusBoard.RecordFileResult(old(status), ok, fileBytes)
      ensures ok ==> status.completed == old(status.completed) + 1
      ensures ok ==> status.bytesCompleted == old(status.bytesCompleted)
      ensures !ok ==> status.failed == old(status.failed) + 1
      ensures !ok && fileBytes <= old(status.bytesCompleted) ==>
        status.bytesCompleted == old(status.bytesCompleted) - fileBytes
    {
      if !ok {
        status := status.(failed := status.failed + 1);
        status := status.(bytesCompleted := status.bytesCompleted - fileBytes);
        if status.bytesCompleted < 0 {
          status := status.(bytesCompleted := 0);
        }
      } else {
        status := status.(completed := status.completed + 1);
      }
      FinishFileLocked();
    }

    method RecordSkipped()
      modifies this`status
      ensures status == StatusBoard.RecordSkipped(old(status))
    {
      status := status.(skipped := status.skipped + 1);
      FinishFileLocked();
    }

    method DiscardBytes(copied: int)
      modifies this`status
      ensures status == StatusBoard.DiscardBytes(old(status), copied)
    {
      if copied <= 0 { return; }
      status := status.(bytesCompleted := status.bytesCompleted - copied);
      if status.bytesCompleted < 0 {
        status := status.(bytesCompleted := 0);
      }
    }

    method RecordCycle(result: CycleResult, cancelled: bool)
      modifies this`status
      ensures status == StatusBoard.RecordCycle(old(status), result, cancelled)
      ensures result == Succeeded ==> status == old(status).(phase := Idle, hasError := false)
      ensures result == CycleFailed && !cancelled ==> status == old(status).(phase := Error, hasError := true)
      ensures result == BatchPaused || (result == CycleFailed && cancelled) ==> status == old(status)
    {
      match result
      case Succeeded => status := status.(phase := Idle, hasError := false);
      case BatchPaused =>
      case CycleFailed =>
        if !cancelled {
          status := status.(phase := Error, hasError := true);
        }
    }
  }
}
