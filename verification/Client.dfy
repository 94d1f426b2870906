/** The SFTP client's connection: who may replace it, when, and what a worker is given. */
module Client {
  import opened Options

  /** How a dial ends: keys or host key missing, no SSH connection, an SSH connection
      without the SFTP subsystem, or a usable connection. */
  datatype Dial = SetupFails | SshFails | SubsystemFails | Connects

  /** A connection is known by the number of its dial. `open`, `dialled` and `lastMark`
      belong to the outside world: the SSH connections that exist, how many were ever
      made, and how many had been made at the latest MarkStale. */
  datatype ConnState = ConnState(
    conn: Option<nat>,
    sftpc: Option<nat>,
    stale: bool,
    open: set<nat>,
    dialled: nat,
    lastMark: nat)

  const INITIAL: ConnState := ConnState(None, None, false, {}, 0, 0)

  predicate Usable(s: ConnState) { s.sftpc.Some? && !s.stale }

  function Without(open: set<nat>, conn: Option<nat>): set<nat> {
    if conn.Some? then open - {conn.value} else open
  }

  function Closed(s: ConnState): ConnState {
    s.(open := Without(Without(s.open, s.sftpc), s.conn), conn := None, sftpc := None, stale := false)
  }

  /** The states the lock holder passes through while it replaces the connection. */
  function ConnectMoments(s: ConnState, dial: Dial): (moments: seq<ConnState>)
    ensures moments != []
  {
    var closed := Closed(s);
    var id := s.dialled + 1;
    var up := closed.(open := closed.open + {id}, dialled := id);
    match dial
    case SetupFails => [closed]
    case SshFails => [closed]
    case SubsystemFails => [closed, up, up.(open := up.open - {id})]
    case Connects => [closed, up, up.(conn := Some(id), sftpc := Some(id), stale := false)]
  }

  function Connected(s: ConnState, dial: Dial): ConnState {
    var moments := ConnectMoments(s, dial);
    moments[|moments| - 1]
  }

  /** Operations that hold the lock throughout. `EnsureConnected` is a read followed,
      possibly after other operations, by `Connect` or by nothing. */
  datatype Op = Connect(dial: Dial) | Ready(dial: Dial) | MarkStale | Close

  function Moments(s: ConnState, op: Op): (moments: seq<ConnState>)
    ensures moments != []
  {
    match op
    case Connect(dial) => ConnectMoments(s, dial)
    case Ready(dial) => if Usable(s) then [s] else ConnectMoments(s, dial)
    case MarkStale => [s.(stale := true, lastMark := s.dialled)]
    case Close => [Closed(s)]
  }

  function After(s: ConnState, op: Op): ConnState {
    var moments := Moments(s, op);
    moments[|moments| - 1]
  }

  /** What `ready` hands to its caller. */
  function Given(s: ConnState, dial: Dial): Option<nat> {
    if Usable(s) then s.sftpc
    else if dial == Connects then Connected(s, dial).sftpc
    else None
  }

  class Client {
    var conn: Option<nat>
    var sftpc: Option<nat>
    var stale: bool
    ghost var open: set<nat>
    ghost var dialled: nat
    ghost var lastMark: nat

    ghost function Contents(): ConnState
      reads this
    {
      ConnState(conn, sftpc, stale, open, dialled, lastMark)
    }

    constructor ()
      ensures Contents() == INITIAL
    {
      conn, sftpc, stale, open, dialled, lastMark := None, None, false, {}, 0, 0;
    }

    method CloseLocked()
      modifies this
      ensures Contents() == Closed(old(Contents()))
    {
      if sftpc.Some? {
        open := open - {sftpc.value};
        sftpc := None;
      }
      if conn.Some? {
        open := open - {conn.value};
        conn := None;
      }
      stale := false;
    }

    /** `id` is the number the dial would get. */
    method ConnectLocked(dial: Dial, id: nat) returns (ok: bool)
      requires id == dialled + 1
      modifies this
      ensures ok == (dial == Connects)
      ensures Contents() == Connected(old(Contents()), dial)
    {
      CloseLocked();
      if dial == SetupFails || dial == SshFails { return false; }
      open, dialled := open + {id}, id;
      if dial == SubsystemFails {
        open := open - {id};
        return false;
      }
      conn, sftpc, stale := Some(id), Some(id), false;
      ok := true;
    }

    method MarkStale()
      modifies this
      ensures Contents() == After(old(Contents()), Op.MarkStale)
    {
      stale := true;
      lastMark := dialled;
    }

    method Ready(dial: Dial, id: nat) returns (client: Option<nat>)
      requires id == dialled + 1
      modifies this
      ensures client == Given(old(Contents()), dial)
      ensures Contents() == After(old(Contents()), Op.Ready(dial))
    {
      if sftpc.Some? && !stale { return sftpc; }
      var ok := ConnectLocked(dial, id);
      if !ok { return None; }
      client := sftpc;
    }

    /** `answers` is the probe of the current connection. Seen alone, a call that
        reports success leaves a connection behind. */
    method EnsureConnected(answers: bool, dial: Dial, id: nat) returns (ok: bool)
      requires id == dialled + 1
      modifies this
      ensures var kept := old(Usable(Contents())) && answers;
        ok == (kept || dial == Connects) &&
        Contents() == if kept then old(Contents()) else Connected(old(Contents()), dial)
    {
      var wasStale := stale;
      if !wasStale && sftpc.Some? && answers { return true; }
      ok := ConnectLocked(dial, id);
    }
  }

  // ---- Every interleaving ------------------------------------------------------

  function Run(s: ConnState, ops: seq<Op>): ConnState
    decreases |ops|
  {
    if ops == [] then s else After(Run(s, ops[..|ops| - 1]), ops[|ops| - 1])
  }

  ghost predicate Sound(s: ConnState) {
    && s.conn == s.sftpc
    && s.open == (if s.conn.Some? then {s.conn.value} else {})
    && s.lastMark <= s.dialled
    && (s.conn.Some? ==> 1 <= s.conn.value <= s.dialled)
    && (Usable(s) ==> s.lastMark < s.sftpc.value)
  }

  lemma ClosedHoldsNone(s: ConnState)
    requires Sound(s)
    ensures Closed(s).open == {}
  {
  }

  lemma ConnectedSound(s: ConnState, dial: Dial)
    requires Sound(s)
    ensures Sound(Connected(s, dial))
  {
    ClosedHoldsNone(s);
    assert {} + {s.dialled + 1} - {s.dialled + 1} == {};
  }

  lemma StepSound(s: ConnState, op: Op)
    requires Sound(s)
    ensures Sound(After(s, op))
  {
    match op
    case Connect(dial) => ConnectedSound(s, dial);
    case Ready(dial) => ConnectedSound(s, dial);
    case MarkStale =>
    case Close => ClosedHoldsNone(s);
  }

  lemma MomentsHoldOne(s: ConnState, op: Op)
    requires Sound(s)
    ensures forall m :: m in Moments(s, op) ==> |m.open| <= 1
  {
    ClosedHoldsNone(s);
    assert |{} + {s.dialled + 1}| == 1;
    assert {} + {s.dialled + 1} - {s.dialled + 1} == {};
  }

  /** Whatever the workers do in whatever order, at no moment is more than one
      connection open, and every connection ever dialled is the current one or closed. */
  lemma {:induction false} OneConnection(ops: seq<Op>, next: Op)
    ensures var s := Run(INITIAL, ops);
      && Sound(s)
      && (forall m :: m in Moments(s, next) ==> |m.open| <= 1)
      && (forall id :: 1 <= id <= s.dialled ==> s.conn == Some(id) || id !in s.open)
    decreases |ops|
  {
    if ops != [] {
      var last := |ops| - 1;
      OneConnection(ops[..last], ops[last]);
      StepSound(Run(INITIAL, ops[..last]), ops[last]);
    }
    MomentsHoldOne(Run(INITIAL, ops), next);
  }

  /** No worker is handed a connection that was dialled before the latest MarkStale:
      what it gets is open, current, and younger than every reported failure. */
  lemma ReadyIsFresh(ops: seq<Op>, dial: Dial)
    ensures var s := Run(INITIAL, ops);
      var given := Given(s, dial);
      given.Some? ==> s.lastMark < given.value && given == After(s, Ready(dial)).conn
                      && given.value in After(s, Ready(dial)).open
  {
    OneConnection(ops, Ready(dial));
  }

  /** Whatever was dialled by `dialled` can no longer be handed out. */
  ghost predicate Replaced(t: ConnState, dialled: nat) {
    dialled <= t.dialled && (Usable(t) ==> t.sftpc.value > dialled)
  }

  lemma StepReplaces(t: ConnState, op: Op, dialled: nat)
    requires Sound(t) && dialled <= t.dialled
    requires Replaced(t, dialled) || !op.Ready?
    ensures Replaced(After(t, op), dialled)
  {
  }

  lemma {:induction false} RunSound(s: ConnState, ops: seq<Op>)
    requires Sound(s)
    ensures Sound(Run(s, ops)) && s.dialled <= Run(s, ops).dialled
    decreases |ops|
  {
    if ops != [] {
      RunSound(s, ops[..|ops| - 1]);
      StepSound(Run(s, ops[..|ops| - 1]), ops[|ops| - 1]);
    }
  }

  lemma {:induction false} ReadyKeeps(s: ConnState, later: seq<Op>)
    requires Usable(s) && forall op :: op in later ==> op.Ready?
    ensures Run(s, later) == s
    decreases |later|
  {
    if later != [] {
      assert later[|later| - 1] in later;
      ReadyKeeps(s, later[..|later| - 1]);
    }
  }

  lemma {:induction false} OthersReplace(s: ConnState, later: seq<Op>, k: nat)
    requires Sound(s) && k < |later| && !later[k].Ready?
    ensures Replaced(Run(s, later), s.dialled)
    decreases |later|
  {
    var last := |later| - 1;
    RunSound(s, later[..last]);
    if k < last {
      OthersReplace(s, later[..last], k);
    }
    StepReplaces(Run(s, later[..last]), later[last], s.dialled);
  }

  /** A usable connection is what the next caller of `ready` gets if and only if nothing
      but `ready` was called since. A MarkStale that arrives late, from a worker that
      reports a failure of the connection before it, makes it be replaced like any other. */
  lemma ReplacementIsSharedIff(s: ConnState, later: seq<Op>)
    requires Sound(s) && Usable(s)
    ensures Given(Run(s, later), Connects) == s.sftpc <==> forall op :: op in later ==> op.Ready?
  {
    if forall op :: op in later ==> op.Ready? {
      ReadyKeeps(s, later);
    } else {
      var k :| 0 <= k < |later| && !later[k].Ready?;
      OthersReplace(s, later, k);
    }
  }

  /** Two workers see connection 1 fail. The first marks it and is given connection 2; then
      the second reports the same failure, and the next caller closes connection 2 under
      the first and is given a third. */
  lemma LateReportReplacesAgain()
    ensures var shared := Run(INITIAL, [Ready(Connects), MarkStale, Ready(Connects)]);
      var reported := After(shared, MarkStale);
      && shared.sftpc == Some(2) && Given(shared, Connects) == Some(2)
      && Given(reported, Connects) == Some(3)
      && 2 in reported.open && 2 !in After(reported, Ready(Connects)).open
  {
    var one := After(INITIAL, Ready(Connects));
    var marked := After(one, MarkStale);
    var shared := After(marked, Ready(Connects));
    assert Run(INITIAL, [Ready(Connects)]) == one by { assert [Ready(Connects)][..0] == []; }
    assert Run(INITIAL, [Ready(Connects), MarkStale]) == marked by {
      assert [Ready(Connects), MarkStale][..1] == [Ready(Connects)];
    }
    assert Run(INITIAL, [Ready(Connects), MarkStale, Ready(Connects)]) == shared by {
      assert [Ready(Connects), MarkStale, Ready(Connects)][..2] == [Ready(Connects), MarkStale];
    }
  }
}
