/** `cli_daemon_delegation.py`: the attempt / restart / fallback loops of the query,
    the temporal query and the index command. */
module DaemonDelegation {
  import opened Text
  import opened DaemonConnection

  datatype Mode = HeadQuery | TemporalQuery | Index

  /** What the environment does with a connection: whether the remote call (or the
      preparation for it) raises, whether the reply reports an error, whether showing
      the reply raises, and whether closing the connection raises. */
  datatype Reply = Reply(callRaises: bool, isError: bool, displayRaises: bool, closeRaises: bool)

  /** What `_start_daemon` does. */
  datatype Start = AlreadyRunning | Launched | StartRaises

  datatype Round = Round(tries: Tries, reply: Reply, start: Start)

  type Rounds = nat -> Round

  datatype Ending = Done(code: int) | Raised

  datatype Exit = Answered(code: int) | FellBack | GaveUp | Propagated | FellThrough

  // ----- specification -----

  /** The protected block, once connected. */
  function Using(mode: Mode, reply: Reply, s: Socket): (Ending, seq<Action>) {
    match mode
    case HeadQuery =>
      if reply.callRaises then (Raised, [Call])
      else if reply.displayRaises then (Raised, [Call, Show])
      else (Done(0), [Call, Show, CloseConnection(s)])
    case TemporalQuery =>
      if reply.callRaises then (Raised, [Call])
      else if reply.isError then (Done(1), [Call, Show, CloseConnection(s)])
      else if reply.displayRaises then (Raised, [Call, Show])
      else (Done(0), [Call, Show, CloseConnection(s)])
    case Index =>
      if reply.callRaises then (Raised, [Call])
      else if reply.closeRaises then (Raised, [Call, CloseConnection(s)])
      else if reply.displayRaises then (Raised, [Call, CloseConnection(s), Show])
      else (Done(if reply.isError then 1 else 0), [Call, CloseConnection(s), Show])
  }

  /** The whole protected block: how it ends, what the connection variable then holds,
      and what was done. Only the index command carries the variable over from the
      attempt before. */
  function Body(mode: Mode, delays: seq<nat>, round: Round, k: nat, stale: Option<Socket>): (Ending, Option<Socket>, seq<Action>) {
    var (r, connecting) := Connecting(delays, round.tries, k, 0);
    match r
    case Connection(s) =>
      var (ending, using) := Using(mode, round.reply, s);
      (ending, Some(s), connecting + ([Connected(s)] + using))
    case NoConnection => (Raised, None, connecting)
    case ConnectError(_) => (Raised, if mode.Index? then stale else None, connecting)
  }

  function Closing(conn: Option<Socket>): seq<Action> {
    if conn.Some? then [CloseConnection(conn.value)] else []
  }

  function Starting(start: Start): seq<Action> {
    [Cleanup, Restart] + if start.Launched? then [Sleep(500)] else []
  }

  function Attempt(mode: Mode, delays: seq<nat>, round: Round, k: nat, stale: Option<Socket>): (Ending, Option<Socket>, seq<Action>) {
    var (ending, conn, body) := Body(mode, delays, round, k, stale);
    (ending, conn, [BeginAttempt(k)] + (body + if ending.Raised? then Closing(conn) else []))
  }

  /** The loop from attempt `k` on. */
  function Run(mode: Mode, delays: seq<nat>, rounds: Rounds, k: nat, stale: Option<Socket>): (Exit, seq<Action>)
    requires k <= 3
    decreases 3 - k
  {
    if k == 3 then (FellThrough, [])
    else
      var (ending, conn, now) := Attempt(mode, delays, rounds(k), k, stale);
      if ending.Done? then (Answered(ending.code), now)
      else if k == 2 then if mode.TemporalQuery? then (GaveUp, now) else (FellBack, now + [Standalone])
      else if rounds(k).start.StartRaises? then (Propagated, now + [Cleanup, Restart])
      else
        var (exit, later) := Run(mode, delays, rounds, k + 1, conn);
        (exit, now + (Starting(rounds(k).start) + [Sleep(1000)] + later))
  }

  function Delegated(mode: Mode, hasConfig: bool, delays: seq<nat>, rounds: Rounds): (Exit, seq<Action>) {
    if hasConfig then Run(mode, delays, rounds, 0, None)
    else if mode.TemporalQuery? then (GaveUp, [])
    else (FellBack, [Standalone])
  }

  // ----- the code -----

  method StartDaemon(start: Start) returns (raised: bool, trace: seq<Action>)
    ensures raised == start.StartRaises? && trace == Starting(start)
  {
    trace := [Cleanup, Restart];
    if start.StartRaises? { return true, trace; }
    if start.AlreadyRunning? { return false, trace; }
    trace := trace + [Sleep(500)];
    raised := false;
  }

  /** The protected block of the query. */
  method QueryBody(delays: seq<nat>, round: Round, k: nat) returns (ending: Ending, conn: Option<Socket>, trace: seq<Action>)
    ensures (ending, conn) == (Body(HeadQuery, delays, round, k, None).0, Body(HeadQuery, delays, round, k, None).1)
    ensures trace == Body(HeadQuery, delays, round, k, None).2
  {
    conn := None;
    var r;
    r, trace := ConnectToDaemon(delays, round.tries, k);
    if !r.Connection? { return Raised, conn, trace; }
    conn := Some(r.socket);
    trace := trace + [Connected(r.socket), Call];
    if round.reply.callRaises { return Raised, conn, trace; }
    trace := trace + [Show];
    if round.reply.displayRaises { return Raised, conn, trace; }
    trace := trace + [CloseConnection(r.socket)];
    return Done(0), conn, trace;
  }

  /** The protected block of the temporal query. */
  method TemporalBody(delays: seq<nat>, round: Round, k: nat) returns (ending: Ending, conn: Option<Socket>, trace: seq<Action>)
    ensures (ending, conn) == (Body(TemporalQuery, delays, round, k, None).0, Body(TemporalQuery, delays, round, k, None).1)
    ensures trace == Body(TemporalQuery, delays, round, k, None).2
  {
    conn := None;
    var r;
    r, trace := ConnectToDaemon(delays, round.tries, k);
    if !r.Connection? { return Raised, conn, trace; }
    conn := Some(r.socket);
    trace := trace + [Connected(r.socket), Call];
    if round.reply.callRaises { return Raised, conn, trace; }
    if round.reply.isError {
      trace := trace + [Show, CloseConnection(r.socket)];
      return Done(1), conn, trace;
    }
    trace := trace + [Show];
    if round.reply.displayRaises { return Raised, conn, trace; }
    trace := trace + [CloseConnection(r.socket)];
    return Done(0), conn, trace;
  }

  /** The protected block of the index command. */
  method IndexBody(delays: seq<nat>, round: Round, k: nat, stale: Option<Socket>) returns (ending: Ending, conn: Option<Socket>, trace: seq<Action>)
    ensures (ending, conn) == (Body(Index, delays, round, k, stale).0, Body(Index, delays, round, k, stale).1)
    ensures trace == Body(Index, delays, round, k, stale).2
  {
    conn := stale;
    var r;
    r, trace := ConnectToDaemon(delays, round.tries, k);
    if r.ConnectError? { return Raised, conn, trace; }
    if r.NoConnection? { return Raised, None, trace; }
    conn := Some(r.socket);
    trace := trace + [Connected(r.socket), Call];
    if round.reply.callRaises { return Raised, conn, trace; }
    trace := trace + [CloseConnection(r.socket)];
    if round.reply.closeRaises { return Raised, conn, trace; }
    trace := trace + [Show];
    if round.reply.displayRaises { return Raised, conn, trace; }
    if round.reply.isError { return Done(1), conn, trace; }
    return Done(0), conn, trace;
  }

  method QueryViaDaemon(hasConfig: bool, delays: seq<nat>, rounds: Rounds) returns (exit: Exit, trace: seq<Action>)
    ensures exit == Delegated(HeadQuery, hasConfig, delays, rounds).0
    ensures trace == Delegated(HeadQuery, hasConfig, delays, rounds).1
  {
    hide Body, Starting, Closing;
    if !hasConfig { return FellBack, [Standalone]; }
    trace := [];
    ghost var whole := Run(HeadQuery, delays, rounds, 0, None);
    ghost var stale: Option<Socket> := None;
    for k := 0 to 3
      invariant whole.0 == Run(HeadQuery, delays, rounds, k, stale).0
      invariant whole.1 == trace + Run(HeadQuery, delays, rounds, k, stale).1
    {
      ghost var before := trace;
      StaleUnused(HeadQuery, delays, rounds(k), k, stale);
      var ending, conn, body := QueryBody(delays, rounds(k), k);
      var now := [BeginAttempt(k)] + (body + if ending.Raised? then Closing(conn) else []);
      trace := trace + now;
      if ending.Done? { return Answered(ending.code), trace; }
      if k == 2 {
        Associative(before, now, [Standalone]);
        return FellBack, trace + [Standalone];
      }
      var raised, starting := StartDaemon(rounds(k).start);
      Restarting(HeadQuery, delays, rounds, k, stale, before);
      if raised { return Propagated, trace + starting; }
      trace := trace + (starting + [Sleep(1000)]);
      stale := conn;
    }
    return FellThrough, trace;
  }

  method QueryTemporalViaDaemon(hasConfig: bool, delays: seq<nat>, rounds: Rounds) returns (exit: Exit, trace: seq<Action>)
    ensures exit == Delegated(TemporalQuery, hasConfig, delays, rounds).0
    ensures trace == Delegated(TemporalQuery, hasConfig, delays, rounds).1
  {
    hide Body, Starting, Closing;
    if !hasConfig { return GaveUp, []; }
    trace := [];
    ghost var whole := Run(TemporalQuery, delays, rounds, 0, None);
    ghost var stale: Option<Socket> := None;
    for k := 0 to 3
      invariant whole.0 == Run(TemporalQuery, delays, rounds, k, stale).0
      invariant whole.1 == trace + Run(TemporalQuery, delays, rounds, k, stale).1
    {
      ghost var before := trace;
      StaleUnused(TemporalQuery, delays, rounds(k), k, stale);
      var ending, conn, body := TemporalBody(delays, rounds(k), k);
      var now := [BeginAttempt(k)] + (body + if ending.Raised? then Closing(conn) else []);
      trace := trace + now;
      if ending.Done? { return Answered(ending.code), trace; }
      if k == 2 { return GaveUp, trace; }
      var raised, starting := StartDaemon(rounds(k).start);
      Restarting(TemporalQuery, delays, rounds, k, stale, before);
      if raised { return Propagated, trace + starting; }
      trace := trace + (starting + [Sleep(1000)]);
      stale := conn;
    }
    return FellThrough, trace;
  }

  method IndexViaDaemon(hasConfig: bool, delays: seq<nat>, rounds: Rounds) returns (exit: Exit, trace: seq<Action>)
    ensures exit == Delegated(Index, hasConfig, delays, rounds).0
    ensures trace == Delegated(Index, hasConfig, delays, rounds).1
  {
    hide Body, Starting, Closing;
    if !hasConfig { return FellBack, [Standalone]; }
    trace := [];
    var conn: Option<Socket> := None;
    ghost var whole := Run(Index, delays, rounds, 0, None);
    for k := 0 to 3
      invariant whole.0 == Run(Index, delays, rounds, k, conn).0
      invariant whole.1 == trace + Run(Index, delays, rounds, k, conn).1
    {
      ghost var before, stale := trace, conn;
      var ending, body;
      ending, conn, body := IndexBody(delays, rounds(k), k, conn);
      var now := [BeginAttempt(k)] + (body + if ending.Raised? then Closing(conn) else []);
      trace := trace + now;
      if ending.Done? { return Answered(ending.code), trace; }
      if k == 2 {
        Associative(before, now, [Standalone]);
        return FellBack, trace + [Standalone];
      }
      var raised, starting := StartDaemon(rounds(k).start);
      Restarting(Index, delays, rounds, k, stale, before);
      if raised { return Propagated, trace + starting; }
      trace := trace + (starting + [Sleep(1000)]);
    }
    return FellThrough, trace;
  }

  /** Only the index command looks at what an earlier attempt left behind. */
  lemma StaleUnused(mode: Mode, delays: seq<nat>, round: Round, k: nat, stale: Option<Socket>)
    requires !mode.Index?
    ensures Body(mode, delays, round, k, stale) == Body(mode, delays, round, k, None)
  {
  }

  /** Re-association of the trace around a restart. */
  lemma Restarting(mode: Mode, delays: seq<nat>, rounds: Rounds, k: nat, stale: Option<Socket>, before: seq<Action>)
    requires k < 2
    ensures var (ending, conn, now) := Attempt(mode, delays, rounds(k), k, stale);
            var starting := Starting(rounds(k).start);
            var later := Run(mode, delays, rounds, k + 1, conn).1;
            && before + (now + (starting + [Sleep(1000)] + later)) == (before + now + (starting + [Sleep(1000)])) + later
            && before + (now + [Cleanup, Restart]) == before + now + [Cleanup, Restart]
            && (rounds(k).start.StartRaises? ==> starting == [Cleanup, Restart])
  {
    hide Attempt, Run;
  }

  // ----- how a run ends -----

  predicate Connects(delays: seq<nat>, rounds: Rounds, k: nat) {
    Connecting(delays, rounds(k).tries, k, 0).0.Connection?
  }

  /** Attempt `k` fails: no connection, or its protected block raises. */
  predicate AttemptFails(mode: Mode, delays: seq<nat>, rounds: Rounds, k: nat) {
    Connects(delays, rounds, k) ==>
      var reply := rounds(k).reply;
      match mode
      case HeadQuery => reply.callRaises || reply.displayRaises
      case TemporalQuery => reply.callRaises || (!reply.isError && reply.displayRaises)
      case Index => reply.callRaises || reply.closeRaises || reply.displayRaises
  }

  /** Every attempt before `k` failed and the daemon could be started after it. */
  predicate Reached(mode: Mode, delays: seq<nat>, rounds: Rounds, k: nat) {
    forall j: nat | j < k :: AttemptFails(mode, delays, rounds, j) && !rounds(j).start.StartRaises?
  }

  /** The exit code of an attempt that does not fail. */
  function Verdict(mode: Mode, reply: Reply): int {
    if !mode.HeadQuery? && reply.isError then 1 else 0
  }

  lemma EndingIs(mode: Mode, delays: seq<nat>, rounds: Rounds, k: nat, stale: Option<Socket>)
    ensures var ending := Attempt(mode, delays, rounds(k), k, stale).0;
            ending == if AttemptFails(mode, delays, rounds, k) then Raised else Done(Verdict(mode, rounds(k).reply))
  {
    hide Connecting;
  }

  /** What a run from attempt `k` on ends with, in terms of the script alone. */
  predicate ExitIs(mode: Mode, delays: seq<nat>, rounds: Rounds, k: nat, exit: Exit)
    requires k <= 2
    decreases 2 - k
  {
    if !AttemptFails(mode, delays, rounds, k) then exit == Answered(Verdict(mode, rounds(k).reply))
    else if k == 2 then exit == if mode.TemporalQuery? then GaveUp else FellBack
    else if rounds(k).start.StartRaises? then exit == Propagated
    else ExitIs(mode, delays, rounds, k + 1, exit)
  }

  lemma {:induction false} RunExit(mode: Mode, delays: seq<nat>, rounds: Rounds, k: nat, stale: Option<Socket>)
    requires k <= 2
    ensures ExitIs(mode, delays, rounds, k, Run(mode, delays, rounds, k, stale).0)
    decreases 2 - k
  {
    hide AttemptFails, Attempt, Verdict;
    EndingIs(mode, delays, rounds, k, stale);
    if k < 2 { RunExit(mode, delays, rounds, k + 1, Attempt(mode, delays, rounds(k), k, stale).1); }
  }

  lemma ReachedStep(mode: Mode, delays: seq<nat>, rounds: Rounds, k: nat)
    ensures Reached(mode, delays, rounds, 0)
    ensures Reached(mode, delays, rounds, k + 1) <==>
              Reached(mode, delays, rounds, k) && AttemptFails(mode, delays, rounds, k) && !rounds(k).start.StartRaises?
  {
    hide AttemptFails;
  }

  /** Every run ends in one of four ways, each exactly when the script says so: the
      first attempt that does not fail answers; after three failures the command
      falls back (the temporal query only gives up); a daemon that cannot be started
      ends the command with an error, since the start is not protected. The last
      `return 1` is never reached. */
  lemma ExitMeaning(mode: Mode, delays: seq<nat>, rounds: Rounds)
    ensures
      var exit := Delegated(mode, true, delays, rounds).0;
      && exit != FellThrough
      && (exit.Answered? <==> exists k: nat :: k <= 2 && Reached(mode, delays, rounds, k) && !AttemptFails(mode, delays, rounds, k))
      && (forall k: nat :: k <= 2 && Reached(mode, delays, rounds, k) && !AttemptFails(mode, delays, rounds, k) ==>
            exit == Answered(Verdict(mode, rounds(k).reply)))
      && (exit.FellBack? || exit.GaveUp? <==> Reached(mode, delays, rounds, 2) && AttemptFails(mode, delays, rounds, 2))
      && (exit.FellBack? ==> !mode.TemporalQuery?)
      && (exit.GaveUp? ==> mode.TemporalQuery?)
      && (exit.Propagated? <==>
            exists k: nat :: k <= 1 && Reached(mode, delays, rounds, k) && AttemptFails(mode, delays, rounds, k) && rounds(k).start.StartRaises?)
  {
    hide AttemptFails, Reached, Verdict, Run;
    RunExit(mode, delays, rounds, 0, None);
    ReachedStep(mode, delays, rounds, 0);
    ReachedStep(mode, delays, rounds, 1);
    var exit := Delegated(mode, true, delays, rounds).0;
    assert ExitIs(mode, delays, rounds, 0, exit);
    if !AttemptFails(mode, delays, rounds, 0) || rounds(0).start.StartRaises? {
      assert !Reached(mode, delays, rounds, 1) && !Reached(mode, delays, rounds, 2);
    } else {
      assert ExitIs(mode, delays, rounds, 1, exit);
      if !AttemptFails(mode, delays, rounds, 1) || rounds(1).start.StartRaises? {
        assert !Reached(mode, delays, rounds, 2);
      } else {
        assert ExitIs(mode, delays, rounds, 2, exit);
      }
    }
  }

  /** A script in which no daemon answers and none can be started. */
  function StartFails(): Rounds {
    (k: nat) => Round((i: nat) => Fails(AtConnect, OtherOsError), Reply(false, false, false, false), StartRaises)
  }

  /** Then no command answers, falls back or gives up: the error ends it. */
  lemma StartFailurePropagates(mode: Mode)
    ensures Delegated(mode, true, [100], StartFails()).0 == Propagated
  {
    hide Run;
    var rounds := StartFails();
    assert !Connects([100], rounds, 0);
    assert AttemptFails(mode, [100], rounds, 0) && Reached(mode, [100], rounds, 0);
    ExitMeaning(mode, [100], rounds);
  }

  // ----- the protocol every run follows -----

  /** A monitor that reads the actions one by one. `held` is the connection obtained and not
      yet closed; `called` and `shown` say whether the current attempt has made its call and
      shown the reply; `shownOpen` and `shownClosed` count what was shown with and without a
      connection; `pause` is the time slept since the last restart and `pauses` what it was
      at each further attempt; `twice` counts closes of a connection that is not held. */
  datatype Monitor = Monitor(
    attempts: nat, restarts: nat, held: Option<Socket>, called: bool, shown: bool, cleaned: bool,
    connections: nat, calls: nat, shownOpen: nat, shownClosed: nat, pause: nat, pauses: seq<nat>,
    twice: nat, fallbacks: nat, ok: bool)

  const START := Monitor(0, 0, None, false, false, false, 0, 0, 0, 0, 0, [], 0, 0, true)

  /** An attempt begins only with no connection held and one restart per earlier attempt. It
      obtains at most one connection and makes exactly one call with it before closing it,
      and shows a reply at most once, after the call. A connection is closed before the next
      clean-up, restart, attempt or fallback; a restart follows a clean-up; nothing follows
      the fallback. */
  function Observe(m: Monitor, a: Action): Monitor {
    var m := m.(ok := m.ok && m.fallbacks == 0);
    match a
    case BeginAttempt(k) =>
      m.(attempts := m.attempts + 1, called := false, shown := false, pauses := m.pauses + if k > 0 then [m.pause] else [],
         ok := m.ok && k == m.attempts && m.attempts < 3 && m.restarts == m.attempts && m.held.None?)
    case Connected(s) =>
      m.(held := Some(s), connections := m.connections + 1,
         ok := m.ok && m.held.None? && !m.called && m.attempts > 0 && s.attempt == m.attempts - 1)
    case Call => m.(called := true, calls := m.calls + 1, ok := m.ok && m.held.Some? && !m.called)
    case Show =>
      m.(shown := true, shownOpen := m.shownOpen + (if m.held.Some? then 1 else 0),
         shownClosed := m.shownClosed + (if m.held.Some? then 0 else 1), ok := m.ok && m.called && !m.shown)
    case CloseConnection(s) =>
      if m.held == Some(s) then m.(held := None, ok := m.ok && m.called)
      else m.(twice := m.twice + 1, ok := m.ok && m.held.None?)
    case Cleanup => m.(cleaned := true, ok := m.ok && m.held.None?)
    case Restart =>
      m.(restarts := m.restarts + 1, cleaned := false, pause := 0,
         ok := m.ok && m.held.None? && m.cleaned && m.restarts + 1 == m.attempts)
    case Standalone => m.(fallbacks := m.fallbacks + 1, ok := m.ok && m.held.None?)
    case Sleep(ms) => m.(pause := m.pause + ms)
    case _ => m
  }

  function Watch(m: Monitor, trace: seq<Action>): Monitor
    decreases |trace|
  {
    if trace == [] then m else Watch(Observe(m, trace[0]), trace[1..])
  }

  lemma {:induction false} WatchConcat(m: Monitor, a: seq<Action>, b: seq<Action>)
    ensures Watch(m, a + b) == Watch(Watch(m, a), b)
    decreases |a|
  {
    hide Observe;
    if a == [] {
      assert a + b == b;
    } else {
      WatchConcat(Observe(m, a[0]), a[1..], b);
      assert (a + b)[1..] == a[1..] + b;
    }
  }

  lemma WatchOne(m: Monitor, a: Action)
    ensures Watch(m, [a]) == Observe(m, a)
  {
    hide Observe;
    assert [a][1..] == [];
  }

  predicate Quiet(a: Action) {
    a.Try? || a.OpenSocket? || a.CloseSocket? || a.Sleep?
  }

  lemma {:induction false} WatchQuiet(m: Monitor, t: seq<Action>)
    requires m.fallbacks == 0
    requires forall k | 0 <= k < |t| :: Quiet(t[k])
    ensures Watch(m, t) == m.(pause := m.pause + TotalSleep(t))
    decreases |t|
  {
    if t != [] { WatchQuiet(Observe(m, t[0]), t[1..]); }
  }

  lemma {:induction false} ConnectingIsQuiet(delays: seq<nat>, tries: Tries, k: nat, i: nat)
    requires i <= |delays|
    ensures var t := Connecting(delays, tries, k, i).1; forall j | 0 <= j < |t| :: Quiet(t[j])
    ensures var r := Connecting(delays, tries, k, i).0; r.Connection? ==> r.socket.attempt == k
    decreases |delays| - i
  {
    if i < |delays| && tries(i).Fails? && !tries(i).error.NotRetryable? && i + 1 < |delays| {
      ConnectingIsQuiet(delays, tries, k, i + 1);
    }
  }

  /** How many times an attempt closes a connection that is no longer held: the index
      command does it after a failure behind its own close, and for a connection
      left over from an earlier attempt when it cannot connect. */
  function ExtraCloses(mode: Mode, delays: seq<nat>, round: Round, k: nat, stale: Option<Socket>): nat {
    if !mode.Index? then 0
    else match Connecting(delays, round.tries, k, 0).0
      case Connection(_) => if !round.reply.callRaises && (round.reply.closeRaises || round.reply.displayRaises) then 1 else 0
      case NoConnection => 0
      case ConnectError(_) => if stale.Some? then 1 else 0
  }

  /** The reply is shown unless the call, or the index command's close before it, raises. */
  predicate Shows(mode: Mode, reply: Reply) { !reply.callRaises && (mode.Index? ==> !reply.closeRaises) }

  /** What an attempt with a connection leaves in the monitor. */
  function Used(mode: Mode, m: Monitor, reply: Reply): Monitor {
    m.(called := true, shown := Shows(mode, reply), connections := m.connections + 1, calls := m.calls + 1,
       shownOpen := m.shownOpen + (if Shows(mode, reply) && !mode.Index? then 1 else 0),
       shownClosed := m.shownClosed + (if Shows(mode, reply) && mode.Index? then 1 else 0),
       twice := m.twice + if mode.Index? && !reply.callRaises && (reply.closeRaises || reply.displayRaises) then 1 else 0)
  }

  /** An attempt begins: nothing called, shown or held. */
  predicate Begun(m: Monitor, k: nat) {
    m.ok && m.fallbacks == 0 && m.held.None? && !m.called && !m.shown && m.attempts == k + 1
  }

  lemma WatchFour(m: Monitor, a: Action, b: Action, c: Action, d: Action)
    ensures Watch(m, [a, b]) == Observe(Observe(m, a), b)
    ensures Watch(m, [a, b, c]) == Observe(Observe(Observe(m, a), b), c)
    ensures Watch(m, [a, b, c, d]) == Observe(Observe(Observe(Observe(m, a), b), c), d)
  {
    hide Observe, Watch;
    WatchTwo(m, a, b);
    var m2 := Watch(m, [a, b]);
    WatchTwo(m2, c, d);
    WatchOne(m2, c);
    WatchConcat(m, [a, b], [c]);
    WatchConcat(m, [a, b], [c, d]);
    assert [a, b] + [c] == [a, b, c] && [a, b] + [c, d] == [a, b, c, d];
  }

  lemma WatchTwo(m: Monitor, a: Action, b: Action)
    ensures Watch(m, [a, b]) == Observe(Observe(m, a), b)
  {
    hide Observe;
    assert [a, b][1..] == [b];
    WatchOne(Observe(m, a), b);
  }

  /** Everything from the connection on, with the close that follows an error. */
  function UseTrace(mode: Mode, reply: Reply, s: Socket): seq<Action> {
    var (ending, using) := Using(mode, reply, s);
    [Connected(s)] + using + if ending.Raised? then [CloseConnection(s)] else []
  }

  lemma UseTraceIs(mode: Mode, reply: Reply, s: Socket)
    ensures UseTrace(mode, reply, s) ==
              if reply.callRaises then [Connected(s), Call, CloseConnection(s)]
              else if !mode.Index? then [Connected(s), Call, Show, CloseConnection(s)]
              else if reply.closeRaises then [Connected(s), Call, CloseConnection(s), CloseConnection(s)]
              else if reply.displayRaises then [Connected(s), Call, CloseConnection(s), Show] + [CloseConnection(s)]
              else [Connected(s), Call, CloseConnection(s), Show]
  {
  }

  lemma WatchUse(mode: Mode, m: Monitor, reply: Reply, s: Socket)
    requires Begun(m, s.attempt)
    ensures Watch(m, UseTrace(mode, reply, s)) == Used(mode, m, reply)
  {
    hide UseTrace, Watch;
    UseTraceIs(mode, reply, s);
    var c := CloseConnection(s);
    WatchFour(m, Connected(s), Call, c, c);
    WatchFour(m, Connected(s), Call, Show, c);
    WatchFour(m, Connected(s), Call, c, Show);
    WatchConcat(m, [Connected(s), Call, c, Show], [c]);
    WatchOne(Watch(m, [Connected(s), Call, c, Show]), c);
  }

  /** What an attempt leaves in the monitor. */
  function Attempted(mode: Mode, m: Monitor, delays: seq<nat>, round: Round, k: nat, stale: Option<Socket>): Monitor {
    var (r, connecting) := Connecting(delays, round.tries, k, 0);
    var slept := m.(pause := m.pause + TotalSleep(connecting));
    if r.Connection? then Used(mode, slept, round.reply)
    else slept.(twice := m.twice + ExtraCloses(mode, delays, round, k, stale))
  }

  lemma WatchBody(mode: Mode, m: Monitor, delays: seq<nat>, round: Round, k: nat, stale: Option<Socket>)
    requires Begun(m, k)
    ensures var (ending, conn, body) := Body(mode, delays, round, k, stale);
            Watch(m, body + if ending.Raised? then Closing(conn) else []) == Attempted(mode, m, delays, round, k, stale)
  {
    hide Connecting, Observe, Using, Watch, Used;
    var (ending, conn, body) := Body(mode, delays, round, k, stale);
    var (r, connecting) := Connecting(delays, round.tries, k, 0);
    ConnectingIsQuiet(delays, round.tries, k, 0);
    WatchQuiet(m, connecting);
    var slept := Watch(m, connecting);
    var closing := if ending.Raised? then Closing(conn) else [];
    if r.Connection? {
      var use := UseTrace(mode, round.reply, r.socket);
      assert body + closing == connecting + use;
      WatchConcat(m, connecting, use);
      WatchUse(mode, slept, round.reply, r.socket);
    } else {
      WatchConcat(m, connecting, closing);
      WatchClosing(slept, conn);
    }
  }

  /** Closing while nothing is held. */
  lemma WatchClosing(m: Monitor, conn: Option<Socket>)
    requires m.ok && m.fallbacks == 0 && m.held.None?
    ensures Watch(m, Closing(conn)) == m.(twice := m.twice + if conn.Some? then 1 else 0)
  {
    if conn.Some? { WatchOne(m, CloseConnection(conn.value)); }
  }

  /** The monitor when attempt `k` begins. */
  function Beginning(m: Monitor, k: nat): Monitor {
    m.(attempts := k + 1, called := false, shown := false, pauses := m.pauses + if k > 0 then [m.pause] else [])
  }

  lemma WatchAttempt(mode: Mode, m: Monitor, delays: seq<nat>, round: Round, k: nat, stale: Option<Socket>)
    requires k < 3 && Good(m, k)
    ensures Watch(m, Attempt(mode, delays, round, k, stale).2) == Attempted(mode, Beginning(m, k), delays, round, k, stale)
  {
    hide Body, Attempted, Watch, Closing;
    var (ending, conn, body) := Body(mode, delays, round, k, stale);
    var rest := body + if ending.Raised? then Closing(conn) else [];
    WatchConcat(m, [BeginAttempt(k)], rest);
    WatchOne(m, BeginAttempt(k));
    WatchBody(mode, Beginning(m, k), delays, round, k, stale);
  }

  /** The pause a restart is followed by. */
  function Pause(start: Start): nat { if start.Launched? then 1500 else 1000 }

  lemma StartingPause(start: Start)
    ensures var sleeps := (if start.Launched? then [Sleep(500)] else []) + [Sleep(1000)];
            && Starting(start) + [Sleep(1000)] == [Cleanup, Restart] + sleeps
            && TotalSleep(sleeps) == Pause(start) && forall k | 0 <= k < |sleeps| :: Quiet(sleeps[k])
  {
    SleepConcat(if start.Launched? then [Sleep(500)] else [], [Sleep(1000)]);
  }

  lemma WatchRestart(m: Monitor, start: Start)
    requires m.ok && m.fallbacks == 0 && m.held.None? && m.attempts == m.restarts + 1
    ensures Watch(m, Starting(start) + [Sleep(1000)]) == m.(restarts := m.restarts + 1, cleaned := false, pause := Pause(start))
    ensures Watch(m, [Cleanup, Restart]) == m.(restarts := m.restarts + 1, cleaned := false, pause := 0)
  {
    hide Watch, Starting, Pause, TotalSleep, Quiet;
    var sleeps := (if start.Launched? then [Sleep(500)] else []) + [Sleep(1000)];
    StartingPause(start);
    WatchConcat(m, [Cleanup, Restart], sleeps);
    WatchTwo(m, Cleanup, Restart);
    WatchQuiet(m.(restarts := m.restarts + 1, cleaned := false, pause := 0), sleeps);
  }

  /** All closes of a connection no longer held, from attempt `k` on. */
  function AllExtra(mode: Mode, delays: seq<nat>, rounds: Rounds, k: nat, stale: Option<Socket>): nat
    requires k <= 3
    decreases 3 - k
  {
    if k == 3 then 0
    else
      var (ending, conn, _) := Attempt(mode, delays, rounds(k), k, stale);
      ExtraCloses(mode, delays, rounds(k), k, stale) +
      if ending.Done? || k == 2 || rounds(k).start.StartRaises? then 0 else AllExtra(mode, delays, rounds, k + 1, conn)
  }

  /** How many attempts a run from `k` on makes. */
  function Attempts(mode: Mode, delays: seq<nat>, rounds: Rounds, k: nat): (n: nat)
    requires k <= 2
    ensures 1 <= n <= 3 - k
    decreases 3 - k
  {
    if !AttemptFails(mode, delays, rounds, k) || k == 2 || rounds(k).start.StartRaises? then 1
    else 1 + Attempts(mode, delays, rounds, k + 1)
  }

  predicate Good(m: Monitor, k: nat) {
    m.ok && m.fallbacks == 0 && m.held.None? && m.attempts == m.restarts == k
  }

  /** How many of the attempts of a run from `k` on connect. */
  function Connections(mode: Mode, delays: seq<nat>, rounds: Rounds, k: nat): nat
    requires k <= 2
    decreases 2 - k
  {
    (if Connects(delays, rounds, k) then 1 else 0) +
    if Attempts(mode, delays, rounds, k) == 1 then 0 else Connections(mode, delays, rounds, k + 1)
  }

  /** What attempt `k` adds to the monitor, field by field. */
  predicate AttemptMade(mode: Mode, m: Monitor, m': Monitor, delays: seq<nat>, rounds: Rounds, k: nat) {
    var c := if Connects(delays, rounds, k) then 1 else 0;
    && m'.ok && m'.fallbacks == 0 && m'.held.None? && m'.attempts == k + 1 && m'.restarts == k
    && m'.connections == m.connections + c && m'.calls == m.calls + c
    && m'.pauses == m.pauses + (if k > 0 then [m.pause] else [])
    && (if mode.Index? then m'.shownOpen == m.shownOpen else m'.shownClosed == m.shownClosed)
    && (!AttemptFails(mode, delays, rounds, k) ==> m'.called && m'.shown)
  }

  lemma AttemptedFields(mode: Mode, m: Monitor, delays: seq<nat>, rounds: Rounds, k: nat, stale: Option<Socket>)
    requires Good(m, k)
    ensures var m' := Attempted(mode, Beginning(m, k), delays, rounds(k), k, stale);
            && AttemptMade(mode, m, m', delays, rounds, k)
            && m'.twice == m.twice + ExtraCloses(mode, delays, rounds(k), k, stale)
  {
    hide Connecting;
  }

  /** What the monitor has seen at the end of a run from attempt `k` on. */
  predicate Ended(mode: Mode, m: Monitor, end: Monitor, exit: Exit, delays: seq<nat>, rounds: Rounds, k: nat)
    requires k <= 2
  {
    var n := Attempts(mode, delays, rounds, k);
    && end.ok && end.held.None? && end.attempts == k + n
    && end.restarts == end.attempts - (if exit.Propagated? then 0 else 1)
    && end.fallbacks == (if exit.FellBack? then 1 else 0)
    && end.connections == m.connections + Connections(mode, delays, rounds, k)
    && end.calls == m.calls + Connections(mode, delays, rounds, k)
    && end.pauses == m.pauses + (if k > 0 then [m.pause] else []) + seq(n - 1, j requires 0 <= j => Pause(rounds(k + j).start))
    && (if mode.Index? then end.shownOpen == m.shownOpen else end.shownClosed == m.shownClosed)
    && (exit.Answered? ==> end.called && end.shown)
  }

  lemma PausesStep(rounds: Rounds, k: nat, n: nat, before: seq<nat>)
    requires n >= 2
    ensures before + [Pause(rounds(k).start)] + seq(n - 2, j requires 0 <= j => Pause(rounds(k + 1 + j).start))
         == before + seq(n - 1, j requires 0 <= j => Pause(rounds(k + j).start))
  {
    hide Pause;
    var a := seq(n - 2, j requires 0 <= j => Pause(rounds(k + 1 + j).start));
    var b := seq(n - 1, j requires 0 <= j => Pause(rounds(k + j).start));
    forall j | 1 <= j < n - 1 ensures b[j] == a[j - 1] { assert k + 1 + (j - 1) == k + j; }
    assert b == [Pause(rounds(k).start)] + a;
  }

  /** A run that makes only one attempt. */
  lemma EndsHere(mode: Mode, m: Monitor, m1: Monitor, end: Monitor, exit: Exit, delays: seq<nat>, rounds: Rounds, k: nat)
    requires k <= 2 && AttemptMade(mode, m, m1, delays, rounds, k) && Attempts(mode, delays, rounds, k) == 1
    requires exit.Answered? ==> !AttemptFails(mode, delays, rounds, k)
    requires end == m1.(fallbacks := if exit.FellBack? then 1 else 0,
                        restarts := if exit.Propagated? then k + 1 else k, cleaned := end.cleaned, pause := end.pause)
    ensures Ended(mode, m, end, exit, delays, rounds, k)
  {
    hide Connects, AttemptFails, Pause;
    assert m1.pauses + [] == m1.pauses;
  }

  /** A run that goes on after a restart. */
  lemma GoesOn(mode: Mode, m: Monitor, m1: Monitor, end: Monitor, exit: Exit, delays: seq<nat>, rounds: Rounds, k: nat)
    requires k < 2 && AttemptMade(mode, m, m1, delays, rounds, k)
    requires Attempts(mode, delays, rounds, k) == 1 + Attempts(mode, delays, rounds, k + 1)
    requires Ended(mode, m1.(restarts := k + 1, cleaned := false, pause := Pause(rounds(k).start)), end, exit, delays, rounds, k + 1)
    ensures Ended(mode, m, end, exit, delays, rounds, k)
  {
    hide Connects, AttemptFails, Pause, Attempts;
    PausesStep(rounds, k, Attempts(mode, delays, rounds, k), m1.pauses);
  }

  lemma {:induction false} WatchRun(mode: Mode, m: Monitor, delays: seq<nat>, rounds: Rounds, k: nat, stale: Option<Socket>)
    requires k <= 2 && Good(m, k)
    ensures var (exit, trace) := Run(mode, delays, rounds, k, stale);
            && Ended(mode, m, Watch(m, trace), exit, delays, rounds, k)
            && Watch(m, trace).twice == m.twice + AllExtra(mode, delays, rounds, k, stale)
    decreases 2 - k
  {
    hide Watch, Attempt, ExtraCloses, AttemptFails, Starting, Observe, Verdict, Attempted, Connects, Pause, Ended;
    EndingIs(mode, delays, rounds, k, stale);
    WatchAttempt(mode, m, delays, rounds(k), k, stale);
    AttemptedFields(mode, m, delays, rounds, k, stale);
    var (ending, conn, now) := Attempt(mode, delays, rounds(k), k, stale);
    var (exit, trace) := Run(mode, delays, rounds, k, stale);
    var m1 := Watch(m, now);
    if ending.Done? {
      EndsHere(mode, m, m1, m1, exit, delays, rounds, k);
    } else if k == 2 {
      WatchStandalone(m, now);
      EndsHere(mode, m, m1, Watch(m, trace), exit, delays, rounds, k);
    } else {
      WatchRestart(m1, rounds(k).start);
      if rounds(k).start.StartRaises? {
        WatchConcat(m, now, [Cleanup, Restart]);
        EndsHere(mode, m, m1, Watch(m, trace), exit, delays, rounds, k);
      } else {
        var restart, later := Starting(rounds(k).start) + [Sleep(1000)], Run(mode, delays, rounds, k + 1, conn).1;
        WatchConcat(m, now, restart + later);
        WatchConcat(m1, restart, later);
        WatchRun(mode, Watch(m1, restart), delays, rounds, k + 1, conn);
        GoesOn(mode, m, m1, Watch(m, trace), exit, delays, rounds, k);
      }
    }
  }

  lemma WatchStandalone(m: Monitor, now: seq<Action>)
    requires var m1 := Watch(m, now); m1.ok && m1.fallbacks == 0 && m1.held.None?
    ensures Watch(m, now + [Standalone]) == Watch(m, now).(fallbacks := 1)
  {
    hide Watch;
    WatchConcat(m, now, [Standalone]);
    WatchOne(Watch(m, now), Standalone);
  }

  /** The attempts made are those reached. */
  lemma AttemptsMeaning(mode: Mode, delays: seq<nat>, rounds: Rounds, k: nat)
    requires k <= 2
    ensures k < Attempts(mode, delays, rounds, 0) <==> Reached(mode, delays, rounds, k)
  {
    hide AttemptFails, Reached;
    ReachedStep(mode, delays, rounds, 0);
    ReachedStep(mode, delays, rounds, 1);
    assert Attempts(mode, delays, rounds, 0) > 1 <==> Reached(mode, delays, rounds, 1);
    assert Reached(mode, delays, rounds, 1) ==> (Attempts(mode, delays, rounds, 1) > 1 <==> Reached(mode, delays, rounds, 2));
  }

  /** The attempts from `k` on, below `end`, that connect. */
  function Connecteds(delays: seq<nat>, rounds: Rounds, k: nat, end: nat): set<nat> {
    set i: nat | k <= i < end && Connects(delays, rounds, i)
  }

  lemma ConnectedsStep(delays: seq<nat>, rounds: Rounds, k: nat, end: nat)
    requires k < end
    ensures |Connecteds(delays, rounds, k, end)| ==
              (if Connects(delays, rounds, k) then 1 else 0) + |Connecteds(delays, rounds, k + 1, end)|
  {
    hide Connects;
    var rest := Connecteds(delays, rounds, k + 1, end);
    assert Connecteds(delays, rounds, k, end) == (if Connects(delays, rounds, k) then {k} else {}) + rest;
  }

  lemma {:induction false} ConnectionsCount(mode: Mode, delays: seq<nat>, rounds: Rounds, k: nat)
    requires k <= 2
    ensures Connections(mode, delays, rounds, k) == |Connecteds(delays, rounds, k, k + Attempts(mode, delays, rounds, k))|
    decreases 2 - k
  {
    hide Connects, AttemptFails, Connecteds;
    var end := k + Attempts(mode, delays, rounds, k);
    ConnectedsStep(delays, rounds, k, end);
    if end == k + 1 {
      NoneConnected(delays, rounds, end);
    } else {
      ConnectionsCount(mode, delays, rounds, k + 1);
    }
  }

  lemma NoneConnected(delays: seq<nat>, rounds: Rounds, k: nat)
    ensures Connecteds(delays, rounds, k, k) == {}
  {
  }

  /** Over every run of every command: the attempts made are those the script reaches, at most
      three, with exactly one restart between two of them and a second of rest, or one and a
      half if a daemon was launched; a connection of each attempt that connects, exactly one
      call with it, and its close before whatever comes next and before the end; an answer
      only after a call and after showing the reply, which the queries show with the
      connection open and the index command after closing it; the fallback once, last, and
      only as the exit says. The two queries close each connection exactly once. */
  lemma ProtocolFollowed(mode: Mode, hasConfig: bool, delays: seq<nat>, rounds: Rounds)
    ensures
      var (exit, trace) := Delegated(mode, hasConfig, delays, rounds);
      var end := Watch(START, trace);
      && end.ok && end.held.None? && end.attempts <= 3
      && (forall k: nat | k <= 2 :: k < end.attempts <==> hasConfig && Reached(mode, delays, rounds, k))
      && end.restarts == (if hasConfig && !exit.Propagated? then end.attempts - 1 else end.attempts)
      && end.fallbacks == (if exit.FellBack? then 1 else 0)
      && end.connections == end.calls == |Connecteds(delays, rounds, 0, end.attempts)|
      && (hasConfig ==> |end.pauses| == end.attempts - 1)
      && (forall j | 0 <= j < |end.pauses| :: end.pauses[j] == if rounds(j).start.Launched? then 1500 else 1000)
      && (!hasConfig ==> exit == if mode.TemporalQuery? then GaveUp else FellBack)
      && (exit.Answered? ==> end.called && end.shown)
      && (if mode.Index? then end.shownOpen == 0 else end.shownClosed == 0)
      && (!mode.Index? ==> end.twice == 0)
  {
    hide Watch, Run, Observe, Attempts, Reached, Connecteds, Connections, Ended, AllExtra;
    forall k: nat | k <= 2 ensures k < Attempts(mode, delays, rounds, 0) <==> Reached(mode, delays, rounds, k) {
      AttemptsMeaning(mode, delays, rounds, k);
    }
    if hasConfig {
      WatchRun(mode, START, delays, rounds, 0, None);
      var (exit, trace) := Delegated(mode, hasConfig, delays, rounds);
      WholeRun(mode, Watch(START, trace), exit, delays, rounds);
      if !mode.Index? { QueriesCloseOnce(mode, delays, rounds, 0, None); }
    } else {
      WatchHere();
      NoneConnected(delays, rounds, 0);
    }
  }

  /** What a run from the first attempt on has led to. */
  lemma WholeRun(mode: Mode, end: Monitor, exit: Exit, delays: seq<nat>, rounds: Rounds)
    requires Ended(mode, START, end, exit, delays, rounds, 0)
    ensures end.ok && end.held.None? && end.attempts == Attempts(mode, delays, rounds, 0)
    ensures end.restarts == end.attempts - (if exit.Propagated? then 0 else 1)
    ensures end.fallbacks == (if exit.FellBack? then 1 else 0)
    ensures end.connections == end.calls == |Connecteds(delays, rounds, 0, end.attempts)|
    ensures |end.pauses| == end.attempts - 1
    ensures forall j | 0 <= j < |end.pauses| :: end.pauses[j] == if rounds(j).start.Launched? then 1500 else 1000
    ensures if mode.Index? then end.shownOpen == 0 else end.shownClosed == 0
    ensures exit.Answered? ==> end.called && end.shown
  {
    hide Attempts, Connecteds, Connections;
    ConnectionsCount(mode, delays, rounds, 0);
    var n := Attempts(mode, delays, rounds, 0);
    var pauses := seq(n - 1, j requires 0 <= j => Pause(rounds(0 + j).start));
    assert [] + [] + pauses == pauses;
  }

  lemma WatchHere()
    ensures Watch(START, []) == START && Watch(START, [Standalone]) == START.(fallbacks := 1)
  {
    WatchOne(START, Standalone);
  }

  lemma {:induction false} QueriesCloseOnce(mode: Mode, delays: seq<nat>, rounds: Rounds, k: nat, stale: Option<Socket>)
    requires k <= 3 && !mode.Index?
    ensures AllExtra(mode, delays, rounds, k, stale) == 0
    decreases 3 - k
  {
    hide Attempt;
    if k < 3 { QueriesCloseOnce(mode, delays, rounds, k + 1, Attempt(mode, delays, rounds(k), k, stale).1); }
  }

  // ----- what the monitor's verdict means -----

  lemma {:induction false} OkSoFar(m: Monitor, t: seq<Action>)
    ensures Watch(m, t).ok ==> m.ok
    decreases |t|
  {
    if t != [] { OkSoFar(Observe(m, t[0]), t[1..]); }
  }

  lemma {:induction false} HeldUntilClosed(m: Monitor, t: seq<Action>, s: Socket)
    requires m.held == Some(s) && Watch(m, t).ok && CloseConnection(s) !in t
    ensures Watch(m, t).held == Some(s)
    decreases |t|
  {
    if t != [] {
      OkSoFar(Observe(m, t[0]), t[1..]);
      HeldUntilClosed(Observe(m, t[0]), t[1..], s);
    }
  }

  predicate NeedsClosed(a: Action) {
    a.BeginAttempt? || a.Restart? || a.Standalone?
  }

  lemma WatchPrefix(t: seq<Action>, n: nat)
    requires n <= |t| && Watch(START, t).ok
    ensures Watch(START, t[..n]).ok
  {
    hide Watch, Observe;
    assert t == t[..n] + t[n..];
    WatchConcat(START, t[..n], t[n..]);
    OkSoFar(Watch(START, t[..n]), t[n..]);
  }

  lemma WatchNext(t: seq<Action>, n: nat)
    requires n < |t|
    ensures Watch(START, t[..n + 1]) == Observe(Watch(START, t[..n]), t[n])
  {
    hide Watch, Observe;
    assert t[..n + 1] == t[..n] + [t[n]];
    WatchConcat(START, t[..n], [t[n]]);
    WatchOne(Watch(START, t[..n]), t[n]);
  }

  lemma HeldAt(t: seq<Action>, i: nat, n: nat, s: Socket)
    requires i < n <= |t| && Watch(START, t).ok && t[i] == Connected(s)
    requires CloseConnection(s) !in t[i + 1..n]
    ensures Watch(START, t[..n]).held == Some(s)
  {
    hide Watch;
    WatchPrefix(t, n);
    WatchNext(t, i);
    assert t[..n] == t[..i + 1] + t[i + 1..n];
    WatchConcat(START, t[..i + 1], t[i + 1..n]);
    HeldUntilClosed(Watch(START, t[..i + 1]), t[i + 1..n], s);
  }

  /** In an accepted trace a connection is closed before the next attempt, restart or
      fallback, and before the end if the monitor holds nothing there. */
  lemma ClosedInTime(t: seq<Action>, i: nat, n: nat, s: Socket)
    requires i < n <= |t| && Watch(START, t).ok && t[i] == Connected(s)
    requires if n < |t| then NeedsClosed(t[n]) else Watch(START, t).held.None?
    ensures CloseConnection(s) in t[i + 1..n]
  {
    hide Watch;
    assert t[..|t|] == t;
    if CloseConnection(s) !in t[i + 1..n] {
      HeldAt(t, i, n, s);
      if n < |t| {
        WatchNext(t, n);
        WatchPrefix(t, n + 1);
      }
    }
  }

  /** Every connection a command obtains is closed, and closed before whatever comes
      after it. */
  lemma EveryConnectionClosed(mode: Mode, hasConfig: bool, delays: seq<nat>, rounds: Rounds, i: nat, n: nat, s: Socket)
    requires var t := Delegated(mode, hasConfig, delays, rounds).1;
             i < n <= |t| && t[i] == Connected(s) && (n < |t| ==> NeedsClosed(t[n]))
    ensures CloseConnection(s) in Delegated(mode, hasConfig, delays, rounds).1[i + 1..n]
  {
    hide Delegated, Watch;
    ProtocolFollowed(mode, hasConfig, delays, rounds);
    ClosedInTime(Delegated(mode, hasConfig, delays, rounds).1, i, n, s);
  }

  // ----- one call per connection -----

  function Calls(t: seq<Action>): nat {
    if t == [] then 0 else (if t[0].Call? then 1 else 0) + Calls(t[1..])
  }

  /** While a connection is held and not closed, a call is made at most once. */
  lemma HeldStep(m: Monitor, a: Action, s: Socket)
    requires m.held == Some(s) && a != CloseConnection(s) && Observe(m, a).ok
    ensures Observe(m, a).held == Some(s)
    ensures (if a.Call? then 1 else 0) + (if m.called then 1 else 0) == if Observe(m, a).called then 1 else 0
  {
  }

  lemma {:induction false} CallsWhileHeld(m: Monitor, t: seq<Action>, s: Socket)
    requires m.held == Some(s) && Watch(m, t).ok && CloseConnection(s) !in t
    ensures Calls(t) + (if m.called then 1 else 0) == if Watch(m, t).called then 1 else 0
    decreases |t|
  {
    hide Observe;
    if t != [] {
      OkSoFar(Observe(m, t[0]), t[1..]);
      HeldStep(m, t[0], s);
      CallsWhileHeld(Observe(m, t[0]), t[1..], s);
    }
  }

  /** In an accepted trace exactly one call stands between a connection and its close. */
  lemma CalledInTime(t: seq<Action>, i: nat, n: nat, s: Socket)
    requires i < n < |t| && Watch(START, t).ok && t[i] == Connected(s) && t[n] == CloseConnection(s)
    requires CloseConnection(s) !in t[i + 1..n]
    ensures Calls(t[i + 1..n]) == 1
  {
    hide Watch;
    HeldAt(t, i, n, s);
    HeldAt(t, i, i + 1, s);
    WatchPrefix(t, i + 1);
    WatchPrefix(t, n);
    WatchPrefix(t, n + 1);
    WatchNext(t, i);
    WatchNext(t, n);
    assert t[..n] == t[..i + 1] + t[i + 1..n];
    WatchConcat(START, t[..i + 1], t[i + 1..n]);
    CallsWhileHeld(Watch(START, t[..i + 1]), t[i + 1..n], s);
  }

  /** Every command makes exactly one call with each connection before it closes it. */
  lemma OneCallPerConnection(mode: Mode, hasConfig: bool, delays: seq<nat>, rounds: Rounds, i: nat, n: nat, s: Socket)
    requires var t := Delegated(mode, hasConfig, delays, rounds).1;
             i < n < |t| && t[i] == Connected(s) && t[n] == CloseConnection(s) && CloseConnection(s) !in t[i + 1..n]
    ensures Calls(Delegated(mode, hasConfig, delays, rounds).1[i + 1..n]) == 1
  {
    hide Delegated, Watch;
    ProtocolFollowed(mode, hasConfig, delays, rounds);
    CalledInTime(Delegated(mode, hasConfig, delays, rounds).1, i, n, s);
  }

  // ----- when the index command closes a connection twice -----

  /** Attempt `k` closes a connection that is already closed: it failed behind its own
      unprotected close, or it could not connect and an earlier attempt had. */
  predicate ClosesAgain(delays: seq<nat>, rounds: Rounds, k: nat) {
    if Connects(delays, rounds, k)
    then !rounds(k).reply.callRaises && (rounds(k).reply.closeRaises || rounds(k).reply.displayRaises)
    else exists j: nat :: j < k && Connects(delays, rounds, j)
  }

  /** The connection variable of the index command, before attempt `k`. */
  predicate StaleIs(delays: seq<nat>, rounds: Rounds, k: nat, stale: Option<Socket>) {
    stale.Some? <==> exists j: nat :: j < k && Connects(delays, rounds, j)
  }

  lemma StaleStep(delays: seq<nat>, rounds: Rounds, k: nat, stale: Option<Socket>)
    requires StaleIs(delays, rounds, k, stale)
    ensures StaleIs(delays, rounds, k + 1, Attempt(Index, delays, rounds(k), k, stale).1)
    ensures ExtraCloses(Index, delays, rounds(k), k, stale) > 0 <==> ClosesAgain(delays, rounds, k)
  {
    hide Connecting, Using;
    ConnectOutcome(delays, rounds(k).tries, k, 0);
    if delays == [] {
      forall j: nat | j < k ensures !Connects(delays, rounds, j) { ConnectOutcome(delays, rounds(j).tries, j, 0); }
    }
    assert Connects(delays, rounds, k) <==> Connecting(delays, rounds(k).tries, k, 0).0.Connection?;
  }

  lemma {:induction false} ExtraFrom(delays: seq<nat>, rounds: Rounds, k: nat, stale: Option<Socket>)
    requires k <= 2 && StaleIs(delays, rounds, k, stale) && Reached(Index, delays, rounds, k)
    ensures AllExtra(Index, delays, rounds, k, stale) > 0 <==>
              exists i: nat :: k <= i <= 2 && Reached(Index, delays, rounds, i) && ClosesAgain(delays, rounds, i)
    decreases 2 - k
  {
    hide Attempt, ExtraCloses, AttemptFails, Verdict, Reached, ClosesAgain, StaleIs;
    StaleStep(delays, rounds, k, stale);
    EndingIs(Index, delays, rounds, k, stale);
    ReachedStep(Index, delays, rounds, k);
    if Reached(Index, delays, rounds, k + 1) && k < 2 {
      ExtraFrom(delays, rounds, k + 1, Attempt(Index, delays, rounds(k), k, stale).1);
    } else {
      ReachedDown(Index, delays, rounds, k);
      assert AllExtra(Index, delays, rounds, k, stale) == ExtraCloses(Index, delays, rounds(k), k, stale);
    }
  }

  lemma ReachedDown(mode: Mode, delays: seq<nat>, rounds: Rounds, k: nat)
    ensures !Reached(mode, delays, rounds, k + 1) ==> forall i: nat :: i > k ==> !Reached(mode, delays, rounds, i)
  {
    hide AttemptFails;
  }

  /** The index command closes some connection more than once exactly when an attempt
      it reaches fails behind its own close, or cannot connect after an earlier one could. */
  lemma IndexClosesAgainIff(delays: seq<nat>, rounds: Rounds)
    ensures Watch(START, Delegated(Index, true, delays, rounds).1).twice > 0 <==>
              exists k: nat :: k <= 2 && Reached(Index, delays, rounds, k) && ClosesAgain(delays, rounds, k)
  {
    hide Watch, Run, Observe, Attempts, AllExtra, ClosesAgain;
    WatchRun(Index, START, delays, rounds, 0, None);
    assert StaleIs(delays, rounds, 0, None);
    assert Reached(Index, delays, rounds, 0);
    ExtraFrom(delays, rounds, 0, None);
  }

  /** A script in which it does: the daemon answers and the connection is closed, then
      showing the result raises. */
  function ShowingFails(): Rounds {
    (k: nat) => Round((i: nat) => TryOutcome.Connects, Reply(false, false, true, false), AlreadyRunning)
  }

  lemma IndexCanCloseAgain()
    ensures Watch(START, Delegated(Index, true, [100], ShowingFails()).1).twice > 0
  {
    hide Watch, Run;
    var rounds := ShowingFails();
    assert Connects([100], rounds, 0);
    assert Reached(Index, [100], rounds, 0);
    assert ClosesAgain([100], rounds, 0);
    IndexClosesAgainIff([100], rounds);
  }

  // ----- how long a run can sleep -----

  lemma AttemptSleep(mode: Mode, delays: seq<nat>, round: Round, k: nat, stale: Option<Socket>)
    ensures TotalSleep(Attempt(mode, delays, round, k, stale).2) <= Patience(delays, 0)
  {
    hide Patience;
    var (r, connecting) := Connecting(delays, round.tries, k, 0);
    var (ending, conn, body) := Body(mode, delays, round, k, stale);
    var closing := if ending.Raised? then Closing(conn) else [];
    var rest := body[|connecting|..] + closing;
    ConnectSleepBounded(delays, round.tries, k, 0);
    assert body + closing == connecting + rest by { assert body[..|connecting|] == connecting; }
    NoSleep(rest);
    NoSleep([BeginAttempt(k)]);
    SleepConcat([BeginAttempt(k)], body + closing);
    SleepConcat(connecting, rest);
  }

  lemma StartSleep(start: Start)
    ensures TotalSleep(Starting(start) + [Sleep(1000)]) <= 1500
  {
    SleepConcat(Starting(start), [Sleep(1000)]);
    NoSleep([Cleanup, Restart]);
    SleepConcat([Cleanup, Restart], if start.Launched? then [Sleep(500)] else []);
  }

  lemma {:induction false} RunSleep(mode: Mode, delays: seq<nat>, rounds: Rounds, k: nat, stale: Option<Socket>)
    requires k <= 2
    ensures TotalSleep(Run(mode, delays, rounds, k, stale).1) <= (3 - k) * Patience(delays, 0) + (2 - k) * 1500
    decreases 2 - k
  {
    hide Attempt, TotalSleep, Patience, Starting;
    var (ending, conn, now) := Attempt(mode, delays, rounds(k), k, stale);
    AttemptSleep(mode, delays, rounds(k), k, stale);
    QuietEnds(now);
    if k < 2 {
      var restart, later := Starting(rounds(k).start) + [Sleep(1000)], Run(mode, delays, rounds, k + 1, conn).1;
      StartSleep(rounds(k).start);
      RunSleep(mode, delays, rounds, k + 1, conn);
      SleepConcat(now, restart + later);
      SleepConcat(restart, later);
    }
  }

  lemma QuietEnds(now: seq<Action>)
    ensures TotalSleep(now + [Standalone]) == TotalSleep(now) && TotalSleep(now + [Cleanup, Restart]) == TotalSleep(now)
  {
    NoSleep([Standalone]);
    NoSleep([Cleanup, Restart]);
    SleepConcat(now, [Standalone]);
    SleepConcat(now, [Cleanup, Restart]);
  }

  /** No command sleeps longer than three times the back-off of one connect, plus three seconds. */
  lemma SleepBounded(mode: Mode, hasConfig: bool, delays: seq<nat>, rounds: Rounds)
    ensures TotalSleep(Delegated(mode, hasConfig, delays, rounds).1) <= 3 * Patience(delays, 0) + 3000
  {
    hide Run;
    RunSleep(mode, delays, rounds, 0, None);
    NoSleep([Standalone]);
  }
}
