/** `cli_daemon_delegation.py`: connecting to the daemon with back-off. The daemon
    and the operating system are scripts of outcomes; each run yields a trace of the
    actions taken. Times are milliseconds. */
module DaemonConnection {
  // ----- the connect loop -----

  /** The socket created in a given attempt and try. */
  datatype Socket = Socket(attempt: nat, try_: nat)

  datatype Error = TimedOut | OtherOsError | NotRetryable

  /** Where a try fails: creating the socket, setting its timeout, or anything from
      connecting to wrapping the stream. */
  datatype Stage = AtCreate | AtSetTimeout | AtConnect

  datatype TryOutcome = Connects | Fails(stage: Stage, error: Error)

  datatype Action =
    | Try(attempt: nat, try_: nat)
    | OpenSocket(socket: Socket)
    | CloseSocket(socket: Socket)
    | Sleep(ms: nat)
    | BeginAttempt(attempt: nat)
    | Connected(socket: Socket)
    | Call
    | Show
    | CloseConnection(socket: Socket)
    | Cleanup
    | Restart
    | Standalone

  datatype ConnectResult = Connection(socket: Socket) | NoConnection | ConnectError(error: Error)

  type Tries = nat -> TryOutcome

  function TryActions(attempt: nat, i: nat, o: TryOutcome): seq<Action> {
    var s := Socket(attempt, i);
    [Try(attempt, i)] +
    match o
    case Connects => [OpenSocket(s)]
    case Fails(AtCreate, _) => []
    case Fails(AtSetTimeout, _) => [OpenSocket(s)]
    case Fails(AtConnect, _) => [OpenSocket(s), CloseSocket(s)]
  }

  /** The loop from try `i` on. */
  function Connecting(delays: seq<nat>, tries: Tries, attempt: nat, i: nat): (ConnectResult, seq<Action>)
    requires i <= |delays|
    decreases |delays| - i
  {
    if i == |delays| then (NoConnection, [])
    else
      var now := TryActions(attempt, i, tries(i));
      match tries(i)
      case Connects => (Connection(Socket(attempt, i)), now)
      case Fails(_, e) =>
        if e.NotRetryable? || i == |delays| - 1 then (ConnectError(e), now)
        else
          var (r, later) := Connecting(delays, tries, attempt, i + 1);
          (r, now + ([Sleep(delays[i])] + later))
  }

  lemma Associative<T>(a: seq<T>, b: seq<T>, c: seq<T>)
    ensures a + (b + c) == (a + b) + c
  {
  }

  /** One pass of the loop body, up to where it returns or raises. */
  method TryOnce(attempt: nat, i: nat, o: TryOutcome) returns (trace: seq<Action>)
    ensures trace == TryActions(attempt, i, o)
  {
    var s := Socket(attempt, i);
    trace := [Try(attempt, i)];
    if !(o.Fails? && o.stage == AtCreate) { trace := trace + [OpenSocket(s)]; }
    if o.Fails? && o.stage == AtConnect { trace := trace + [CloseSocket(s)]; }
  }

  /** A try that fails but may be repeated leads to the rest of the loop. */
  lemma TryingAgain(delays: seq<nat>, tries: Tries, attempt: nat, i: nat, before: seq<Action>)
    requires i + 1 < |delays| && tries(i).Fails? && !tries(i).error.NotRetryable?
    ensures var now, rest := Connecting(delays, tries, attempt, i), Connecting(delays, tries, attempt, i + 1);
            && now.0 == rest.0
            && before + now.1 == (before + TryActions(attempt, i, tries(i)) + [Sleep(delays[i])]) + rest.1
  {
    hide TryActions;
    var now, rest := TryActions(attempt, i, tries(i)), Connecting(delays, tries, attempt, i + 1).1;
    Associative(before, now, [Sleep(delays[i])] + rest);
    Associative(before + now, [Sleep(delays[i])], rest);
  }

  /** A try that connects, fails for good or is the last one ends the loop. */
  lemma LastTry(delays: seq<nat>, tries: Tries, attempt: nat, i: nat)
    requires i <= |delays|
    ensures i == |delays| ==> Connecting(delays, tries, attempt, i) == (NoConnection, [])
    ensures i < |delays| && tries(i).Connects? ==>
              Connecting(delays, tries, attempt, i) == (Connection(Socket(attempt, i)), TryActions(attempt, i, tries(i)))
    ensures i < |delays| && tries(i).Fails? && (tries(i).error.NotRetryable? || i == |delays| - 1) ==>
              Connecting(delays, tries, attempt, i) == (ConnectError(tries(i).error), TryActions(attempt, i, tries(i)))
  {
    hide TryActions;
  }

  method ConnectToDaemon(retryDelays: seq<nat>, tries: Tries, attempt: nat) returns (r: ConnectResult, trace: seq<Action>)
    ensures r == Connecting(retryDelays, tries, attempt, 0).0
    ensures trace == Connecting(retryDelays, tries, attempt, 0).1
  {
    hide TryActions, Connecting;
    trace := [];
    ghost var whole := Connecting(retryDelays, tries, attempt, 0);
    var i := 0;
    while i < |retryDelays|
      invariant 0 <= i <= |retryDelays| && (i == |retryDelays| ==> i == 0)
      invariant whole.0 == Connecting(retryDelays, tries, attempt, i).0
      invariant whole.1 == trace + Connecting(retryDelays, tries, attempt, i).1
      decreases |retryDelays| - i
    {
      var o := tries(i);
      ghost var before := trace;
      LastTry(retryDelays, tries, attempt, i);
      var now := TryOnce(attempt, i, o);
      trace := trace + now;
      if o.Connects? { return Connection(Socket(attempt, i)), trace; }
      if o.error.NotRetryable? || i == |retryDelays| - 1 { return ConnectError(o.error), trace; }
      TryingAgain(retryDelays, tries, attempt, i, before);
      trace := trace + [Sleep(retryDelays[i])];
      i := i + 1;
    }
    LastTry(retryDelays, tries, attempt, i);
    return NoConnection, trace;
  }

  // ----- what the connect loop guarantees -----

  function TotalSleep(trace: seq<Action>): nat {
    if trace == [] then 0 else (if trace[0].Sleep? then trace[0].ms else 0) + TotalSleep(trace[1..])
  }

  lemma {:induction false} SleepConcat(a: seq<Action>, b: seq<Action>)
    ensures TotalSleep(a + b) == TotalSleep(a) + TotalSleep(b)
  {
    if a == [] {
      assert a + b == b;
    } else {
      SleepConcat(a[1..], b);
      assert (a + b)[1..] == a[1..] + b;
    }
  }

  lemma {:induction false} NoSleep(a: seq<Action>)
    requires forall k | 0 <= k < |a| :: !a[k].Sleep?
    ensures TotalSleep(a) == 0
  {
    if a != [] { NoSleep(a[1..]); }
  }

  /** The sum of all delays but the last, from index `i` on: the most one call of the
      connect loop can sleep. */
  function Patience(delays: seq<nat>, i: nat): nat
    requires i <= |delays|
    decreases |delays| - i
  {
    if i + 1 >= |delays| then 0 else delays[i] + Patience(delays, i + 1)
  }

  /** How many tries the loop makes from try `i` on. */
  function TriesMade(delays: seq<nat>, tries: Tries, i: nat): (n: nat)
    requires i <= |delays|
    ensures n <= |delays| - i && (i < |delays| ==> n >= 1)
    decreases |delays| - i
  {
    if i == |delays| then 0
    else if tries(i).Connects? || tries(i).error.NotRetryable? then 1
    else 1 + TriesMade(delays, tries, i + 1)
  }

  /** The loop sleeps at most all delays but the last. */
  lemma {:induction false} ConnectSleepBounded(delays: seq<nat>, tries: Tries, attempt: nat, i: nat)
    requires i <= |delays|
    ensures TotalSleep(Connecting(delays, tries, attempt, i).1) <= Patience(delays, i)
    decreases |delays| - i
  {
    if i < |delays| {
      var now := TryActions(attempt, i, tries(i));
      NoSleep(now);
      if tries(i).Fails? && !tries(i).error.NotRetryable? && i + 1 < |delays| {
        ConnectSleepBounded(delays, tries, attempt, i + 1);
        var later := Connecting(delays, tries, attempt, i + 1).1;
        SleepConcat(now, [Sleep(delays[i])] + later);
        assert ([Sleep(delays[i])] + later)[1..] == later;
      }
    }
  }

  /** The tries made are the consecutive ones from `i` up to the first that connects, fails
      for good or is the last allowed. */
  lemma {:induction false} TriesMadeMeaning(delays: seq<nat>, tries: Tries, attempt: nat, i: nat, k: nat)
    requires i <= |delays|
    ensures var n := TriesMade(delays, tries, i);
            && (Try(attempt, k) in Connecting(delays, tries, attempt, i).1 <==> i <= k < i + n)
            && (i <= k < i + n - 1 ==> tries(k).Fails? && !tries(k).error.NotRetryable?)
            && (n > 0 && i + n < |delays| ==> tries(i + n - 1).Connects? || tries(i + n - 1).error.NotRetryable?)
    decreases |delays| - i
  {
    if i < |delays| {
      var now := TryActions(attempt, i, tries(i));
      assert Try(attempt, k) in now <==> k == i by { assert now[0] == Try(attempt, i); }
      if tries(i).Fails? && !tries(i).error.NotRetryable? && i + 1 < |delays| {
        TriesMadeMeaning(delays, tries, attempt, i + 1, k);
      }
    }
  }

  /** The tries and pauses of a trace. */
  function Pace(trace: seq<Action>): seq<Action> {
    if trace == [] then []
    else (if trace[0].Try? || trace[0].Sleep? then [trace[0]] else []) + Pace(trace[1..])
  }

  lemma {:induction false} PaceConcat(a: seq<Action>, b: seq<Action>)
    ensures Pace(a + b) == Pace(a) + Pace(b)
  {
    if a == [] {
      assert a + b == b;
    } else {
      var first := if a[0].Try? || a[0].Sleep? then [a[0]] else [];
      PaceConcat(a[1..], b);
      assert (a + b)[1..] == a[1..] + b;
      assert Pace(a + b) == first + Pace(a[1..] + b) && Pace(a) == first + Pace(a[1..]);
      hide Pace;
      Associative(first, Pace(a[1..]), Pace(b));
    }
  }

  lemma PaceOfTry(attempt: nat, i: nat, o: TryOutcome)
    ensures Pace(TryActions(attempt, i, o)) == [Try(attempt, i)]
  {
    var t := TryActions(attempt, i, o);
    assert t[0] == Try(attempt, i);
    NoPause(t[1..]);
  }

  lemma {:induction false} NoPause(t: seq<Action>)
    requires forall k | 0 <= k < |t| :: !t[k].Try? && !t[k].Sleep?
    ensures Pace(t) == []
  {
    if t != [] { NoPause(t[1..]); }
  }

  /** `n` tries from `i` on, each but the last followed by its own delay. */
  function Rhythm(delays: seq<nat>, attempt: nat, i: nat, n: nat): seq<Action>
    requires i + n <= |delays|
  {
    seq(if n == 0 then 0 else 2 * n - 1,
        k requires 0 <= k < 2 * n - 1 => if k % 2 == 0 then Try(attempt, i + k / 2) else Sleep(delays[i + k / 2]))
  }

  lemma RhythmStep(delays: seq<nat>, attempt: nat, i: nat, n: nat)
    requires n >= 2 && i + n <= |delays|
    ensures Rhythm(delays, attempt, i, n) == [Try(attempt, i), Sleep(delays[i])] + Rhythm(delays, attempt, i + 1, n - 1)
  {
    var r, later := Rhythm(delays, attempt, i, n), Rhythm(delays, attempt, i + 1, n - 1);
    forall k | 2 <= k < 2 * n - 1 ensures r[k] == later[k - 2] { assert i + k / 2 == i + 1 + (k - 2) / 2; }
  }

  /** Between a try and the next the loop sleeps for the delay of the first of them, and
      nowhere else. */
  lemma {:induction false} ConnectRhythm(delays: seq<nat>, tries: Tries, attempt: nat, i: nat)
    requires i <= |delays|
    ensures Pace(Connecting(delays, tries, attempt, i).1) == Rhythm(delays, attempt, i, TriesMade(delays, tries, i))
    decreases |delays| - i
  {
    hide TryActions, Pace, Rhythm;
    var n := TriesMade(delays, tries, i);
    NoPace(delays, attempt, i);
    if i < |delays| {
      var now := TryActions(attempt, i, tries(i));
      PaceOfTry(attempt, i, tries(i));
      if tries(i).Fails? && !tries(i).error.NotRetryable? && i + 1 < |delays| {
        var later := Connecting(delays, tries, attempt, i + 1).1;
        ConnectRhythm(delays, tries, attempt, i + 1);
        PaceConcat(now, [Sleep(delays[i])] + later);
        PaceConcat([Sleep(delays[i])], later);
        OnePause(delays[i]);
        RhythmStep(delays, attempt, i, n);
        assert [Try(attempt, i)] + ([Sleep(delays[i])] + Pace(later)) == [Try(attempt, i), Sleep(delays[i])] + Pace(later);
      }
    }
  }

  lemma NoPace(delays: seq<nat>, attempt: nat, i: nat)
    requires i <= |delays|
    ensures Pace([]) == [] == Rhythm(delays, attempt, i, 0)
    ensures i < |delays| ==> Rhythm(delays, attempt, i, 1) == [Try(attempt, i)]
  {
  }

  lemma OnePause(ms: nat)
    ensures Pace([Sleep(ms)]) == [Sleep(ms)]
  {
    assert [Sleep(ms)][1..] == [];
  }

  /** The outcome: a connection from the last try made, an error, or nothing at all
      for an empty list of delays. */
  lemma {:induction false} ConnectOutcome(delays: seq<nat>, tries: Tries, attempt: nat, i: nat)
    requires i <= |delays|
    ensures var (r, trace) := Connecting(delays, tries, attempt, i);
            var n := TriesMade(delays, tries, i);
            && (r.NoConnection? <==> i == |delays|)
            && (r.Connection? <==> n > 0 && tries(i + n - 1).Connects?)
            && (r.Connection? ==> r.socket == Socket(attempt, i + n - 1))
            && (r.ConnectError? ==> tries(i + n - 1) == Fails(tries(i + n - 1).stage, r.error))
    decreases |delays| - i
  {
    if i < |delays| && tries(i).Fails? && !tries(i).error.NotRetryable? && i + 1 < |delays| {
      ConnectOutcome(delays, tries, attempt, i + 1);
    }
  }

  /** A try made creates a socket unless that fails, and closes it exactly when anything from
      connecting on fails. */
  lemma {:induction false} SocketsOfTries(delays: seq<nat>, tries: Tries, attempt: nat, i: nat, s: Socket)
    requires i <= |delays|
    ensures var trace, k := Connecting(delays, tries, attempt, i).1, s.try_;
            var made := s.attempt == attempt && i <= k < i + TriesMade(delays, tries, i);
            && (OpenSocket(s) in trace <==> made && (tries(k).Connects? || tries(k).stage != AtCreate))
            && (CloseSocket(s) in trace <==> made && tries(k).Fails? && tries(k).stage == AtConnect)
    decreases |delays| - i
  {
    hide TryActions;
    if i < |delays| {
      var o := tries(i);
      var now := TryActions(attempt, i, o);
      SocketsOfTry(attempt, i, o, s);
      if o.Fails? && !o.error.NotRetryable? && i + 1 < |delays| {
        var later := Connecting(delays, tries, attempt, i + 1).1;
        SocketsOfTries(delays, tries, attempt, i + 1, s);
        var trace := now + ([Sleep(delays[i])] + later);
        assert OpenSocket(s) in trace <==> OpenSocket(s) in now || OpenSocket(s) in later;
        assert CloseSocket(s) in trace <==> CloseSocket(s) in now || CloseSocket(s) in later;
      }
    }
  }

  lemma SocketsOfTry(attempt: nat, i: nat, o: TryOutcome, s: Socket)
    ensures OpenSocket(s) in TryActions(attempt, i, o) <==> s == Socket(attempt, i) && (o.Connects? || o.stage != AtCreate)
    ensures CloseSocket(s) in TryActions(attempt, i, o) <==> s == Socket(attempt, i) && o.Fails? && o.stage == AtConnect
  {
    var t := TryActions(attempt, i, o);
    assert o.Connects? || o.stage != AtCreate ==> t[1] == OpenSocket(Socket(attempt, i));
    assert o.Fails? && o.stage == AtConnect ==> t[2] == CloseSocket(Socket(attempt, i));
  }

  /** Every socket created is closed or handed out. */
  predicate NothingLeaks(r: ConnectResult, trace: seq<Action>, s: Socket) {
    OpenSocket(s) in trace ==> CloseSocket(s) in trace || r == Connection(s)
  }

  /** A socket is neither closed nor handed out exactly when setting its timeout
      failed: that call stands outside the block that closes on error. */
  lemma LeakIffSetTimeoutFailed(delays: seq<nat>, tries: Tries, attempt: nat, i: nat, s: Socket)
    requires i <= |delays|
    ensures var (r, trace) := Connecting(delays, tries, attempt, i);
            !NothingLeaks(r, trace, s) <==>
              s.attempt == attempt && i <= s.try_ < i + TriesMade(delays, tries, i)
              && tries(s.try_).Fails? && tries(s.try_).stage == AtSetTimeout
  {
    hide Connecting, TriesMade;
    SocketsOfTries(delays, tries, attempt, i, s);
    ConnectOutcome(delays, tries, attempt, i);
    TriesMadeMeaning(delays, tries, attempt, i, s.try_);
  }

  /** A script that leaks: the only try creates a socket and cannot set its timeout. */
  lemma SocketCanLeak()
    ensures var (r, trace) := Connecting([100], (i: nat) => Fails(AtSetTimeout, OtherOsError), 0, 0);
            OpenSocket(Socket(0, 0)) in trace && !NothingLeaks(r, trace, Socket(0, 0))
  {
    var tries := (i: nat) => Fails(AtSetTimeout, OtherOsError);
    LeakIffSetTimeoutFailed([100], tries, 0, 0, Socket(0, 0));
  }
}
