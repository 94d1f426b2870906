/** One file's transfer: throttled progress reports, and the retry loop around them. */
module Transfer {
  import opened Retry
  import opened Options
  import opened Syncer
  import Client

  /** One file's byte counts. The wall clock is a parameter of the calls that read it. */
  class FileProgress {
    const syncer: Syncer
    const interval: int
    var copied: int
    var reported: int
    var lastEmit: Option<int>

    ghost predicate Valid()
      reads this
    {
      0 <= reported <= copied
    }

    constructor (syncer: Syncer, interval: int)
      ensures this.syncer == syncer && Valid() && copied == 0 && reported == 0
    {
      this.syncer, this.interval := syncer, interval;
      copied, reported, lastEmit := 0, 0, None;
    }

    /** Whatever is reported is added to the shared counter, no more and no less. */
    method Emit(now: int)
      requires Valid()
      modifies this`reported, this`lastEmit, syncer`status
      ensures Valid() && reported == copied
      ensures lastEmit == if copied > old(reported) then Some(now) else old(lastEmit)
      ensures syncer.status ==
        old(syncer.status).(bytesCompleted := old(syncer.status.bytesCompleted) + (reported - old(reported)))
    {
      var delta := copied - reported;
      if delta <= 0 { return; }
      reported := copied;
      lastEmit := Some(now);
      syncer.RecordBytes(delta);
    }

    /** The last report is too recent for another one. */
    ghost predicate Held(now: int)
      reads this`lastEmit
    {
      lastEmit.Some? && now - lastEmit.value < interval
    }

    /** A cumulative count arrives; the throttle may hold its report back. */
    method Update(count: int, now: int)
      requires Valid() && copied <= count
      modifies this`copied, this`reported, this`lastEmit, syncer`status
      ensures Valid() && copied == count
      ensures reported == if old(Held(now)) then old(reported) else count
      ensures lastEmit == if reported > old(reported) then Some(now) else old(lastEmit)
      ensures syncer.status ==
        old(syncer.status).(bytesCompleted := old(syncer.status.bytesCompleted) + (reported - old(reported)))
    {
      copied := count;
      if count == reported { return; }
      if lastEmit.Some? && now - lastEmit.value < interval { return; }
      Emit(now);
    }

    method Reset()
      modifies this`copied, this`reported, this`lastEmit
      ensures copied == 0 && reported == 0 && lastEmit == None
    {
      copied, reported, lastEmit := 0, 0, None;
    }
  }

  /** How one call of fetch ends; `Transient` is whatever the error classifier accepts. */
  datatype FetchResult = Fetched | Transient | Permanent

  /** One scripted attempt: the writes it makes with the times they are seen at, how and
      when it ends; and the jitter of the wait before it, whether the context is cancelled
      by then, and what happens during it. */
  datatype Attempt = Attempt(
    writes: seq<(nat, int)>,
    result: FetchResult,
    ended: int,
    jitter: Jitter,
    cancelled: bool,
    wait: seq<Happening>)

  /** The wait before attempt number `attempt` runs its full length. */
  predicate WaitedOut(a: Attempt, attempt: int)
  {
    SleepFor(Delay(attempt, a.jitter), a.cancelled, a.wait).woken
  }

  function Written(writes: seq<(nat, int)>): nat {
    if writes == [] then 0 else Written(writes[..|writes| - 1]) + writes[|writes| - 1].0
  }

  datatype TransferResult = Staged | Rejected | Exhausted | Interrupted

  function Budget(maxAttempts: int): nat { if maxAttempts < 1 then 1 else maxAttempts }

  /** The copy loop: a fresh writer counts from zero and reports after every write. */
  method CopyWithProgress(fp: FileProgress, writes: seq<(nat, int)>)
    requires fp.Valid() && fp.copied == 0
    modifies fp`copied, fp`reported, fp`lastEmit, fp.syncer`status
    ensures fp.Valid() && fp.copied == Written(writes)
    ensures fp.syncer.status ==
      old(fp.syncer.status).(bytesCompleted := old(fp.syncer.status.bytesCompleted) + fp.reported - old(fp.reported))
  {
    var copied: nat := 0;
    for i := 0 to |writes|
      invariant fp.Valid() && fp.copied == copied == Written(writes[..i])
      invariant fp.syncer.status ==
        old(fp.syncer.status).(bytesCompleted := old(fp.syncer.status.bytesCompleted) + fp.reported - old(fp.reported))
    {
      assert writes[..i + 1][..i] == writes[..i];
      var (n, now) := writes[i];
      if n > 0 {
        copied := copied + n;
        fp.Update(copied, now);
      }
    }
    assert writes[..|writes|] == writes;
  }

  /** The connection after so many failures were reported, one mark for each. */
  function MarkedTimes(s: Client.ConnState, marks: nat): Client.ConnState {
    if marks == 0 then s else Client.After(MarkedTimes(s, marks - 1), Client.MarkStale)
  }

  /** One call of fetch, with everything it copied reported before its result is seen. */
  method Fetch(fp: FileProgress, a: Attempt)
    requires fp.Valid() && fp.copied == 0 && fp.reported == 0
    modifies fp`copied, fp`reported, fp`lastEmit, fp.syncer`status
    ensures fp.Valid() && fp.reported == fp.copied == Written(a.writes)
    ensures fp.syncer.status ==
      old(fp.syncer.status).(bytesCompleted := old(fp.syncer.status.bytesCompleted) + fp.copied)
  {
    CopyWithProgress(fp, a.writes);
    fp.Emit(a.ended);
  }

  /** An attempt that will be repeated leaves no trace in the shared counter. */
  method DiscardAttempt(fp: FileProgress)
    requires fp.Valid() && fp.copied <= fp.syncer.status.bytesCompleted
    modifies fp`copied, fp`reported, fp`lastEmit, fp.syncer`status
    ensures fp.Valid() && fp.copied == 0 && fp.reported == 0
    ensures fp.syncer.status ==
      old(fp.syncer.status).(bytesCompleted := old(fp.syncer.status.bytesCompleted) - old(fp.copied))
  {
    var copied := fp.copied;
    fp.Reset();
    fp.syncer.DiscardBytes(copied);
  }

  /** Waits before attempt number `attempt`; the first one does not wait. */
  method WaitBefore(a: Attempt, attempt: int) returns (woken: bool)
    ensures woken == (attempt <= 1 || WaitedOut(a, attempt))
  {
    if attempt <= 1 { return true; }
    var delay := RetryDelay(attempt, a.jitter);
    woken := SleepFor(delay, a.cancelled, a.wait).woken;
  }

  /** One attempt and what follows from its result: a transient failure marks the
      connection and takes its bytes back at once. */
  method TryOnce(fp: FileProgress, client: Client.Client, a: Attempt)
    requires fp.Valid() && fp.copied == 0 && fp.reported == 0 && fp.syncer.status.bytesCompleted >= 0
    modifies fp`copied, fp`reported, fp`lastEmit, fp.syncer`status, client
    ensures fp.Valid() && fp.reported == fp.copied == if a.result.Transient? then 0 else Written(a.writes)
    ensures fp.syncer.status ==
      old(fp.syncer.status).(bytesCompleted := old(fp.syncer.status.bytesCompleted) + fp.copied)
    ensures client.Contents() ==
      if a.result.Transient? then Client.After(old(client.Contents()), Client.MarkStale) else old(client.Contents())
  {
    Fetch(fp, a);
    if a.result.Transient? {
      client.MarkStale();
      DiscardAttempt(fp);
    }
  }

  /** How the attempts from `attempt` on end, and how many calls were made in all. */
  function Attempts(script: seq<Attempt>, budget: nat, attempt: nat): (TransferResult, nat)
    requires 1 <= attempt <= budget + 1 && |script| >= budget
    decreases budget + 1 - attempt
  {
    if attempt > budget then (Exhausted, budget)
    else
      var a := script[attempt - 1];
      if attempt > 1 && !WaitedOut(a, attempt) then (Interrupted, attempt - 1)
      else match a.result
        case Fetched => (Staged, attempt)
        case Permanent => (Rejected, attempt)
        case Transient => Attempts(script, budget, attempt + 1)
  }

  /** The attempts up to number `calls` all had to be made. */
  predicate Reached(script: seq<Attempt>, calls: nat)
    requires calls <= |script|
  {
    && (forall k :: 0 <= k < calls - 1 ==> script[k].result == Transient)
    && (forall k :: 1 <= k < calls ==> WaitedOut(script[k], k + 1))
  }

  /** The result follows from the last call made, or from what kept the next one away. */
  predicate Follows(script: seq<Attempt>, budget: nat, result: TransferResult, calls: nat)
    requires |script| >= budget
  {
    && 1 <= calls <= budget && Reached(script, calls)
    && match result
       case Staged => script[calls - 1].result == Fetched
       case Rejected => script[calls - 1].result == Permanent
       case Exhausted => script[calls - 1].result == Transient && calls == budget
       case Interrupted =>
         script[calls - 1].result == Transient && calls < budget && !WaitedOut(script[calls], calls + 1)
  }

  lemma {:induction false} AttemptsFollow(script: seq<Attempt>, budget: nat, attempt: nat)
    requires 1 <= attempt <= budget + 1 && |script| >= budget >= 1
    requires Reached(script, attempt - 1) && (attempt > 1 ==> script[attempt - 2].result == Transient)
    ensures Follows(script, budget, Attempts(script, budget, attempt).0, Attempts(script, budget, attempt).1)
    decreases budget + 1 - attempt
  {
    if attempt <= budget {
      var a := script[attempt - 1];
      if attempt == 1 || WaitedOut(a, attempt) {
        assert Reached(script, attempt);
        if a.result.Transient? {
          AttemptsFollow(script, budget, attempt + 1);
        }
      }
    }
  }

  /** For every failure script: fetch is called at least once and at most as often as the
      budget says; every call before the last failed transiently and was followed by a wait
      that was not cut short; the result is the last call's, unless the budget is spent or
      a cancellation came before the next wait was over. Pauses have no part in it. */
  lemma RetriesAreExact(script: seq<Attempt>, maxAttempts: int)
    requires |script| >= Budget(maxAttempts)
    ensures var (result, calls) := Attempts(script, Budget(maxAttempts), 1);
      var most := if maxAttempts < 1 then 1 else maxAttempts;
      && |script| >= most && 1 <= calls <= most
      && (forall k :: 0 <= k < calls - 1 ==> script[k].result == Transient)
      && (forall k :: 1 <= k < calls ==> !CutShort(script[k], k + 1))
      && (result == Staged <==> script[calls - 1].result == Fetched)
      && (result == Rejected <==> script[calls - 1].result == Permanent)
      && (result == Interrupted ==>
            script[calls - 1].result == Transient && calls < most && CutShort(script[calls], calls + 1))
      && (result == Exhausted <==> calls == most && script[most - 1].result == Transient)
  {
    AttemptsFollow(script, Budget(maxAttempts), 1);
    forall k | 0 <= k < |script| ensures WaitedOut(script[k], k + 1) <==> !CutShort(script[k], k + 1) {
      WaitEndsEarlyIff(Delay(k + 1, script[k].jitter), script[k].cancelled, script[k].wait);
    }
  }

  /** The attempts are spent exactly when as many calls as the configuration says were made,
      all failed transiently, and no wait between them was cut short. */
  lemma ExhaustedIff(script: seq<Attempt>, maxAttempts: int)
    requires |script| >= Budget(maxAttempts)
    ensures |script| >= (if maxAttempts < 1 then 1 else maxAttempts)
    ensures var most := if maxAttempts < 1 then 1 else maxAttempts;
      Attempts(script, Budget(maxAttempts), 1) == (Exhausted, most) <==>
        && (forall k :: 0 <= k < most ==> script[k].result == Transient)
        && (forall k :: 1 <= k < most ==> !CutShort(script[k], k + 1))
  {
    RetriesAreExact(script, maxAttempts);
  }

  /** A cancellation comes before the wait is over. */
  ghost predicate CutShort(a: Attempt, attempt: int)
  {
    a.cancelled || CancelledWithin(Delay(attempt, a.jitter), a.wait)
  }

  /** Runs fetch until it succeeds, fails for good, or the attempts are spent. Whatever
      happens in between, the connection is marked once for each transient failure, and the
      shared counter ends exactly `fp.copied` higher, which is what a failing caller takes
      back: nothing, when the last attempt was discarded.  */
  method DownloadWithRetries(fp: FileProgress, client: Client.Client, maxAttempts: int, script: seq<Attempt>)
    returns (result: TransferResult, calls: nat, staleMarks: nat)
    requires fp.Valid() && fp.copied == 0 && fp.reported == 0 && fp.syncer.status.bytesCompleted >= 0
    requires |script| >= Budget(maxAttempts)
    modifies fp`copied, fp`reported, fp`lastEmit, fp.syncer`status, client
    ensures (result, calls) == Attempts(script, Budget(maxAttempts), 1) && 1 <= calls <= |script|
    ensures calls <= if maxAttempts < 1 then 1 else maxAttempts
    ensures staleMarks == if script[calls - 1].result == Transient then calls else calls - 1
    ensures client.Contents() == MarkedTimes(old(client.Contents()), staleMarks)
    ensures fp.reported == fp.copied ==
      if result == Staged || result == Rejected then Written(script[calls - 1].writes) else 0
    ensures fp.syncer.status ==
      old(fp.syncer.status).(bytesCompleted := old(fp.syncer.status.bytesCompleted) + fp.copied)
  {
    var budget := if maxAttempts < 1 then 1 else maxAttempts;
    calls, staleMarks := 0, 0;
    var attempt := 1;
    while attempt <= budget
      invariant 1 <= attempt <= budget + 1
      invariant calls == staleMarks == attempt - 1
      invariant calls > 0 ==> script[calls - 1].result == Transient
      invariant fp.copied == 0 && fp.reported == 0
      invariant fp.syncer.status == old(fp.syncer.status)
      invariant client.Contents() == MarkedTimes(old(client.Contents()), staleMarks)
      invariant Attempts(script, budget, 1) == Attempts(script, budget, attempt)
    {
      var woken := WaitBefore(script[attempt - 1], attempt);
      if !woken { return Interrupted, calls, staleMarks; }
      TryOnce(fp, client, script[attempt - 1]);
      calls := calls + 1;
      var got := script[attempt - 1].result;
      if !got.Transient? {
        return if got.Fetched? then Staged else Rejected, calls, staleMarks;
      }
      staleMarks := staleMarks + 1;
      attempt := attempt + 1;
    }
    result := Exhausted;
  }
}
