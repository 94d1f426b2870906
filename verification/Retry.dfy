/** The wait before a file is tried again: how long it is, in nanoseconds, and what can
    end it before its time.  */
module Retry {
  const BASE_DELAY: nat := 500_000_000
  const MAX_DELAY: nat := 8_000_000_000

  function Pow2(n: nat): (p: nat)
    ensures p >= 1
  {
    if n == 0 then 1 else 2 * Pow2(n - 1)
  }

  function Capped(delay: nat): nat { if delay > MAX_DELAY then MAX_DELAY else delay }

  /** The random half of a wait, as a fraction. */
  type Jitter = j: real | 0.0 <= j < 1.0 witness 0.0

  /** The jittered part of a wait, truncated to whole nanoseconds. */
  function Scaled(jitter: Jitter, half: nat): (part: int)
    requires half > 0
    ensures 0 <= part < half
    ensures part as real <= jitter * half as real < part as real + 1.0
  {
    Fraction(jitter, half as real);
    FloorBelow(jitter * half as real, half);
    (jitter * half as real).Floor
  }

  /** The doubling, up to the cap. */
  method FullDelay(attempt: nat) returns (delay: nat)
    requires attempt >= 2
    ensures BASE_DELAY <= delay == Capped(BASE_DELAY * Pow2(attempt - 2))
  {
    delay := BASE_DELAY;
    var i := 2;
    while i < attempt
      invariant 2 <= i <= attempt
      invariant BASE_DELAY <= delay == BASE_DELAY * Pow2(i - 2) <= MAX_DELAY
    {
      delay := delay * 2;
      if delay >= MAX_DELAY {
        delay := MAX_DELAY;
        LaterDelaysExceed(i - 1, attempt - 2);
        break;
      }
      i := i + 1;
    }
    if delay > MAX_DELAY { delay := MAX_DELAY; }
  }

  /** The wait before an attempt. */
  function Delay(attempt: int, jitter: Jitter): (delay: int)
    ensures attempt >= 2 ==> BASE_DELAY / 2 <= delay < MAX_DELAY
    ensures attempt < 2 ==> delay == 0
  {
    if attempt < 2 then 0
    else
      var full := Doubled(attempt);
      full / 2 + Scaled(jitter, full / 2)
  }

  function Doubled(attempt: nat): (full: nat)
    requires attempt >= 2
    ensures BASE_DELAY <= full <= MAX_DELAY
  {
    PowerIsPositive(attempt - 2);
    Capped(BASE_DELAY * Pow2(attempt - 2))
  }

  /** Half a second before the second attempt, then twice as long each time, up to eight. */
  lemma DelayDoubles(attempt: nat)
    requires attempt >= 2
    ensures Doubled(2) == 500_000_000
    ensures Doubled(attempt + 1) == if 2 * Doubled(attempt) > 8_000_000_000 then 8_000_000_000 else 2 * Doubled(attempt)
  {
    assert Pow2(0) == 1 && Pow2(attempt + 1 - 2) == 2 * Pow2(attempt - 2);
  }

  lemma PowerIsPositive(n: nat)
    ensures BASE_DELAY * Pow2(n) >= BASE_DELAY
  {
  }

  method RetryDelay(attempt: int, jitter: Jitter) returns (delay: int)
    ensures attempt < 2 ==> delay == 0
    ensures attempt >= 2 ==>
      var full := Capped(BASE_DELAY * Pow2(attempt - 2));
      full / 2 <= delay < full
    ensures delay == Delay(attempt, jitter)
  {
    if attempt < 2 { return 0; }
    var full := FullDelay(attempt);
    var half := full / 2;
    delay := half + Scaled(jitter, half);
  }

  lemma {:induction false} LaterDelaysExceed(m: nat, n: nat)
    requires m <= n && BASE_DELAY * Pow2(m) >= MAX_DELAY
    ensures BASE_DELAY * Pow2(n) >= MAX_DELAY
    decreases n - m
  {
    if m < n { LaterDelaysExceed(m, n - 1); }
  }

  lemma FloorBelow(x: real, bound: nat)
    requires 0.0 <= x < bound as real
    ensures 0 <= x.Floor < bound
  {
  }

  lemma Fraction(part: real, whole: real)
    requires 0.0 <= part < 1.0 && whole > 0.0
    ensures 0.0 <= part * whole < whole
  {
    assert (1.0 - part) * whole > 0.0;
  }

  // ---- The wait itself -----------------------------------------------------------

  /** What may happen while a worker waits. */
  datatype Happening = Elapses(time: nat) | PauseSet | PauseCleared | Cancelled

  /** How a wait ended, and how much of it had passed. */
  datatype Wait = Wait(woken: bool, elapsed: nat)

  /** The select between the timer and the context, over what happens while it blocks;
      after that, only time goes by. When both are ready by the time it looks, either may
      be taken, and the one taken is the one listed first. */
  function Blocked(left: int, timeline: seq<Happening>): Wait
    requires left > 0
    decreases |timeline|
  {
    if timeline == [] then Wait(true, left)
    else
      match timeline[0]
      case Elapses(time) =>
        if time >= left then Wait(true, left)
        else
          var later := Blocked(left - time, timeline[1..]);
          later.(elapsed := later.elapsed + time)
      case Cancelled => Wait(false, 0)
      case _ => Blocked(left, timeline[1..])
  }

  function SleepFor(delay: int, cancelled: bool, timeline: seq<Happening>): Wait {
    if cancelled then Wait(false, 0)
    else if delay <= 0 then Wait(true, 0)
    else Blocked(delay, timeline)
  }

  /** The time that passes in all. */
  function Elapsed(timeline: seq<Happening>): nat
    decreases |timeline|
  {
    if timeline == [] then 0
    else Elapsed(timeline[..|timeline| - 1])
         + match timeline[|timeline| - 1] case Elapses(time) => time case _ => 0
  }

  /** A cancellation comes while less than the delay has passed. */
  ghost predicate CancelledWithin(delay: int, timeline: seq<Happening>) {
    exists k :: 0 <= k < |timeline| && timeline[k].Cancelled? && Elapsed(timeline[..k]) < delay
  }

  lemma {:induction false} ElapsedFromTheFront(timeline: seq<Happening>)
    requires timeline != []
    ensures Elapsed(timeline) == Elapsed(timeline[1..]) + match timeline[0] case Elapses(time) => time case _ => 0
    decreases |timeline|
  {
    var last := |timeline| - 1;
    if last > 0 {
      ElapsedFromTheFront(timeline[..last]);
      assert timeline[..last][1..] == timeline[1..][..last - 1];
    } else {
      assert timeline[..last] == timeline[1..];
    }
  }

  lemma CancelledFromTheFront(delay: int, timeline: seq<Happening>)
    requires timeline != [] && delay > 0
    ensures CancelledWithin(delay, timeline) <==>
      timeline[0].Cancelled?
      || CancelledWithin(delay - (match timeline[0] case Elapses(time) => time case _ => 0), timeline[1..])
  {
    var time := match timeline[0] case Elapses(time) => time case _ => 0;
    forall k | 1 <= k < |timeline|
      ensures Elapsed(timeline[..k]) == time + Elapsed(timeline[1..][..k - 1])
    {
      ElapsedFromTheFront(timeline[..k]);
      assert timeline[..k][1..] == timeline[1..][..k - 1];
    }
    if timeline[0].Cancelled? {
      assert timeline[..0] == [];
    } else {
      if CancelledWithin(delay, timeline) {
        var k :| 0 <= k < |timeline| && timeline[k].Cancelled? && Elapsed(timeline[..k]) < delay;
        assert timeline[1..][k - 1] == timeline[k];
      }
      if CancelledWithin(delay - time, timeline[1..]) {
        var k :| 0 <= k < |timeline[1..]| && timeline[1..][k].Cancelled? && Elapsed(timeline[1..][..k]) < delay - time;
        assert timeline[k + 1] == timeline[1..][k];
        assert timeline[1..][..(k + 1) - 1] == timeline[1..][..k];
      }
    }
  }

  lemma {:induction false} BlockedEndsEarlyIff(left: int, timeline: seq<Happening>)
    requires left > 0
    ensures !Blocked(left, timeline).woken <==> CancelledWithin(left, timeline)
    ensures if Blocked(left, timeline).woken then Blocked(left, timeline).elapsed == left
            else Blocked(left, timeline).elapsed < left
    decreases |timeline|
  {
    if timeline != [] {
      CancelledFromTheFront(left, timeline);
      match timeline[0]
      case Elapses(time) =>
        if time < left { BlockedEndsEarlyIff(left - time, timeline[1..]); }
      case Cancelled =>
      case _ => BlockedEndsEarlyIff(left, timeline[1..]);
    }
  }

  /** A wait ends before its time if and only if the context is cancelled before that, and
      it reports an error exactly then or when it was cancelled to begin with. */
  lemma WaitEndsEarlyIff(delay: int, cancelled: bool, timeline: seq<Happening>)
    ensures var wait := SleepFor(delay, cancelled, timeline);
      && (wait.elapsed < delay <==> delay > 0 && (cancelled || CancelledWithin(delay, timeline)))
      && (!wait.woken <==> cancelled || CancelledWithin(delay, timeline))
  {
    if delay > 0 {
      BlockedEndsEarlyIff(delay, timeline);
    }
  }

  function WithoutPauses(timeline: seq<Happening>): seq<Happening>
    decreases |timeline|
  {
    if timeline == [] then []
    else if timeline[0].PauseSet? || timeline[0].PauseCleared? then WithoutPauses(timeline[1..])
    else [timeline[0]] + WithoutPauses(timeline[1..])
  }

  /** Pausing and resuming, however often and at whatever moments, changes nothing. */
  lemma {:induction false} PausesAreInvisible(delay: int, cancelled: bool, timeline: seq<Happening>)
    ensures SleepFor(delay, cancelled, timeline) == SleepFor(delay, cancelled, WithoutPauses(timeline))
    decreases |timeline|
  {
    if timeline != [] {
      var time := match timeline[0] case Elapses(time) => time case _ => 0;
      PausesAreInvisible(delay - time, cancelled, timeline[1..]);
    }
  }

  /** A job paused as a retry wait begins waits it out all the same. */
  lemma PausedWaitRunsItsCourse(attempt: int, jitter: Jitter)
    requires attempt >= 2
    ensures var delay := Delay(attempt, jitter);
      SleepFor(delay, false, [PauseSet, Elapses(delay)]) == Wait(true, delay) && delay >= BASE_DELAY / 2
  {
    var delay := Delay(attempt, jitter);
    var timeline := [PauseSet, Elapses(delay)];
    assert timeline[1..] == [Elapses(delay)];
    assert Blocked(delay, timeline[1..]) == Wait(true, delay);
  }
}
