/** `escalation.py`: requests as tasks behind a semaphore, in any order the event loop
    may take, and the loop over concurrency levels. */
module Escalation {
  import opened Text
  import opened Sorting
  import opened Metrics

  datatype Task = Waiting | Running | Done(result: RequestResult)

  datatype Kind = IsWaiting | IsRunning | IsDone

  /** A task enters the semaphore, or its request returns and it leaves. */
  datatype Event = Acquire(i: nat) | Finish(i: nat, result: RequestResult)

  predicate Is(t: Task, k: Kind) {
    match k
    case IsWaiting => t.Waiting?
    case IsRunning => t.Running?
    case IsDone => t.Done?
  }

  function Count(s: seq<Task>, k: Kind): (n: nat)
    ensures n <= |s|
  {
    if s == [] then 0 else (if Is(s[0], k) then 1 else 0) + Count(s[1..], k)
  }

  function InFlight(s: seq<Task>): nat { Count(s, IsRunning) }

  /** One step with room for `c` tasks in the semaphore. */
  function Step(c: int, s: seq<Task>, e: Event): Option<seq<Task>> {
    if e.i >= |s| then None
    else match e
      case Acquire(i) => if s[i].Waiting? && InFlight(s) < c then Some(s[i := Running]) else None
      case Finish(i, r) => if s[i].Running? then Some(s[i := Done(r)]) else None
  }

  function Run(c: int, s: seq<Task>, es: seq<Event>): Option<seq<Task>>
    decreases |es|
  {
    if es == [] then Some(s)
    else
      var before := Run(c, s, es[..|es| - 1]);
      if before.None? then None else Step(c, before.value, es[|es| - 1])
  }

  function Start(count: nat): (s: seq<Task>)
    ensures |s| == count && forall i | 0 <= i < count :: s[i].Waiting?
  {
    seq(count, _ => Waiting)
  }

  // ----- counting -----

  lemma {:induction false} CountUpdate(s: seq<Task>, i: nat, t: Task, k: Kind)
    requires i < |s|
    ensures Count(s[i := t], k) == Count(s, k) - (if Is(s[i], k) then 1 else 0) + (if Is(t, k) then 1 else 0)
  {
    hide Is;
    if i == 0 {
      assert s[0 := t][1..] == s[1..];
    } else {
      CountUpdate(s[1..], i - 1, t, k);
      assert s[i := t][1..] == s[1..][i - 1 := t];
    }
  }

  lemma {:induction false} CountAll(s: seq<Task>)
    ensures Count(s, IsWaiting) + Count(s, IsRunning) + Count(s, IsDone) == |s|
  {
    if s != [] { CountAll(s[1..]); }
  }

  lemma {:induction false} CountNone(s: seq<Task>, k: Kind)
    ensures Count(s, k) == 0 <==> forall i | 0 <= i < |s| :: !Is(s[i], k)
  {
    hide Is;
    if s != [] {
      CountNone(s[1..], k);
      assert forall i | 1 <= i < |s| :: s[i] == s[1..][i - 1];
    }
  }

  lemma CountStart(count: nat)
    ensures Count(Start(count), IsWaiting) == count && Count(Start(count), IsRunning) == 0 && Count(Start(count), IsDone) == 0
  {
    CountNone(Start(count), IsRunning);
    CountNone(Start(count), IsDone);
    CountAll(Start(count));
  }

  /** Steps still to come: two for a waiting task, one for a running one. */
  function Remaining(s: seq<Task>): nat {
    2 * Count(s, IsWaiting) + Count(s, IsRunning)
  }

  lemma StepCounts(c: int, s: seq<Task>, e: Event)
    requires Step(c, s, e).Some?
    ensures var s' := Step(c, s, e).value;
            && |s'| == |s| && Remaining(s) == Remaining(s') + 1
            && (InFlight(s) <= c ==> InFlight(s') <= c)
  {
    hide Count;
    var t := if e.Acquire? then Running else Done(e.result);
    CountUpdate(s, e.i, t, IsWaiting);
    CountUpdate(s, e.i, t, IsRunning);
  }

  /** In every reachable state at most `c` requests are in flight, every task is queued,
      in flight or done, and each step taken is one fewer to come: a run has at most
      twice as many steps as there are tasks. */
  lemma {:induction false} ReachableBounds(c: nat, count: nat, es: seq<Event>)
    requires Run(c, Start(count), es).Some?
    ensures var s := Run(c, Start(count), es).value;
            && |s| == count && InFlight(s) <= c
            && Count(s, IsWaiting) + InFlight(s) + Count(s, IsDone) == count
            && |es| + Remaining(s) == 2 * count
    decreases |es|
  {
    hide Step, Start, Count;
    CountAll(Run(c, Start(count), es).value);
    if es == [] {
      CountStart(count);
    } else {
      var front := es[..|es| - 1];
      ReachableBounds(c, count, front);
      StepCounts(c, Run(c, Start(count), front).value, es[|es| - 1]);
    }
  }

  // ----- where runs end -----

  predicate AllDone(s: seq<Task>) {
    forall i | 0 <= i < |s| :: s[i].Done?
  }

  ghost predicate Stuck(c: int, s: seq<Task>) {
    forall e: Event :: Step(c, s, e).None?
  }

  lemma StuckIsDone(c: int, s: seq<Task>)
    requires c >= 1 && Stuck(c, s)
    ensures AllDone(s)
  {
    hide Count;
    forall i: nat | i < |s| ensures !s[i].Running? {
      assert Step(c, s, Finish(i, RequestResult(true, 0.0))).None?;
    }
    CountNone(s, IsRunning);
    forall i: nat | i < |s| ensures s[i].Done? { assert Step(c, s, Acquire(i)).None?; }
  }

  /** Every run that cannot be continued has finished all tasks, and taken two steps for
      each, exactly when there is room for one task or nothing to do. */
  lemma MaximalRunsFinishIff(c: nat, count: nat)
    ensures
      (forall es: seq<Event> :: Run(c, Start(count), es).Some? && Stuck(c, Run(c, Start(count), es).value)
         ==> AllDone(Run(c, Start(count), es).value) && |es| == 2 * count)
      <==> c >= 1 || count == 0
  {
    hide Start, Count, Step, Stuck, Run;
    if c >= 1 || count == 0 {
      forall es: seq<Event> | Run(c, Start(count), es).Some? && Stuck(c, Run(c, Start(count), es).value)
        ensures AllDone(Run(c, Start(count), es).value) && |es| == 2 * count
      {
        MaximalRun(c, count, es);
      }
    } else {
      NothingStarts(count);
    }
  }

  lemma MaximalRun(c: nat, count: nat, es: seq<Event>)
    requires Run(c, Start(count), es).Some? && Stuck(c, Run(c, Start(count), es).value) && (c >= 1 || count == 0)
    ensures AllDone(Run(c, Start(count), es).value) && |es| == 2 * count
  {
    hide Start, Count, Step, Stuck, Run;
    var s := Run(c, Start(count), es).value;
    ReachableBounds(c, count, es);
    if c >= 1 { StuckIsDone(c, s); }
    CountNone(s, IsWaiting);
    CountNone(s, IsRunning);
  }

  /** With no room the very first state is stuck. */
  lemma NothingStarts(count: nat)
    requires count > 0
    ensures Run(0, Start(count), []) == Some(Start(count)) && Stuck(0, Start(count)) && !AllDone(Start(count))
  {
    assert Start(count)[0].Waiting?;
    forall e: Event ensures Step(0, Start(count), e).None? { NoFirstStep(count, e); }
  }

  // ----- whose result it is -----

  /** A step moves its own task and no other. */
  lemma StepMoves(c: int, s: seq<Task>, e: Event, i: nat)
    requires Step(c, s, e).Some? && i < |s|
    ensures var s' := Step(c, s, e).value;
            && |s'| == |s|
            && (e.i != i ==> s'[i] == s[i])
            && (e.i == i ==> s'[i] == (if e.Acquire? then Running else Done(e.result)) && !s[i].Done?)
  {
    hide Count;
  }

  /** Result `i` is what the request of task `i` returned: a task is done with a result
      exactly when it finished with it. */
  lemma {:induction false} ResultsAreOwn(c: nat, count: nat, es: seq<Event>, i: nat, r: RequestResult)
    requires Run(c, Start(count), es).Some? && i < count
    ensures var s := Run(c, Start(count), es).value; |s| == count && (s[i] == Done(r) <==> Finish(i, r) in es)
    decreases |es|
  {
    hide Step, Start;
    if es == [] {
      assert Start(count)[i].Waiting?;
    } else {
      var front, e := es[..|es| - 1], es[|es| - 1];
      assert es == front + [e];
      var mid := Run(c, Start(count), front).value;
      ResultsAreOwn(c, count, front, i, r);
      StepMoves(c, mid, e, i);
    }
  }

  // ----- running the tasks -----

  datatype Outcome<T> = Returned(value: T) | ValueError | Hangs

  predicate Movable(c: int, s: seq<Task>, i: int)
    requires 0 <= i < |s|
  {
    s[i].Running? || (s[i].Waiting? && InFlight(s) < c)
  }

  function Results(s: seq<Task>): (r: seq<RequestResult>)
    requires AllDone(s)
    ensures |r| == |s| && forall i | 0 <= i < |s| :: r[i] == s[i].result
  {
    if s == [] then [] else [s[0].result] + Results(s[1..])
  }

  predicate DoneWith(s: seq<Task>, answers: nat -> RequestResult) {
    forall i: nat | i < |s| && s[i].Done? :: s[i].result == answers(i)
  }

  /** `range` of a possibly negative number. */
  function Positive(n: int): nat { if n < 0 then 0 else n }

  lemma NoneMovable(c: int, s: seq<Task>)
    requires forall i | 0 <= i < |s| :: !Movable(c, s, i)
    ensures c >= 1 ==> AllDone(s)
  {
    hide Count;
    forall i | 0 <= i < |s| ensures !Is(s[i], IsRunning) { assert !Movable(c, s, i); }
    CountNone(s, IsRunning);
    forall i | 0 <= i < |s| ensures c >= 1 ==> s[i].Done? { assert !Movable(c, s, i); }
  }

  /** The event loop picks any task that can move, until none can. */
  method RunConcurrentRequests(c: int, count: int, answers: nat -> RequestResult)
    returns (o: Outcome<seq<RequestResult>>, es: seq<Event>)
    ensures o.ValueError? <==> c < 0
    ensures o.Hangs? <==> c == 0 && count > 0
    ensures o.Returned? ==> |o.value| == Positive(count) && forall i: nat | i < |o.value| :: o.value[i] == answers(i)
    ensures c >= 0 ==> Run(c, Start(Positive(count)), es).Some?
    ensures o.Returned? ==> |es| == 2 * Positive(count)
  {
    hide Count;
    es := [];
    if c < 0 { return ValueError, es; }
    var n := Positive(count);
    var s := Start(n);
    CountStart(n);
    ghost var first := s;
    while exists i :: 0 <= i < |s| && Movable(c, s, i)
      invariant |s| == n && Run(c, first, es) == Some(s) && DoneWith(s, answers)
      decreases Remaining(s)
    {
      var i :| 0 <= i < |s| && Movable(c, s, i);
      var e := if s[i].Running? then Finish(i, answers(i)) else Acquire(i);
      StepCounts(c, s, e);
      assert (es + [e])[..|es|] == es;
      s := s[i := if s[i].Running? then Done(answers(i)) else Running];
      es := es + [e];
    }
    ReachableBounds(c, n, es);
    NoneMovable(c, s);
    CountNone(s, IsWaiting);
    CountNone(s, IsRunning);
    if AllDone(s) {
      NoRoom(c, n, es);
      return Returned(Results(s)), es;
    }
    return Hangs, es;
  }

  /** With no room nothing is ever done. */
  lemma NoRoom(c: nat, count: nat, es: seq<Event>)
    requires Run(c, Start(count), es).Some? && AllDone(Run(c, Start(count), es).value)
    ensures c == 0 ==> count == 0
  {
    hide Step, Start, Count, Run;
    var s := Run(c, Start(count), es).value;
    ReachableBounds(c, count, es);
    CountNone(s, IsWaiting);
    CountNone(s, IsRunning);
    if c == 0 && count > 0 { FirstStep(c, count, es); }
  }

  lemma {:induction false} FirstStep(c: nat, count: nat, es: seq<Event>)
    requires Run(c, Start(count), es).Some? && c == 0
    ensures es == []
    decreases |es|
  {
    hide Step, Start;
    if es != [] {
      FirstStep(c, count, es[..|es| - 1]);
      NoFirstStep(count, es[|es| - 1]);
    }
  }

  lemma NoFirstStep(count: nat, e: Event)
    ensures Step(0, Start(count), e).None?
  {
  }

  // ----- the levels -----

  function AsReal(x: int): real { x as real }

  /** The results of the measurement at position `k` of the sorted levels. */
  function Measured(answers: (nat, nat) -> RequestResult, k: nat, n: nat): (r: seq<RequestResult>)
    ensures |r| == n && forall i | 0 <= i < n :: r[i] == answers(k, i)
  {
    seq(n, i requires 0 <= i => answers(k, i))
  }

  /** The measurement at position `k` is the last one of level `l` before `upTo`. */
  predicate LastAt(ordered: seq<int>, upTo: nat, l: int, k: nat) {
    k < upTo <= |ordered| && ordered[k] == l && l !in ordered[k + 1..upTo]
  }

  /** Level `l` holds the metrics of its last measurement. */
  predicate LevelIs(ordered: seq<int>, upTo: nat, l: int, m: MetricsResult, n: nat, answers: (nat, nat) -> RequestResult, elapsed: nat -> real) {
    exists k: nat | k < upTo :: LastAt(ordered, upTo, l, k) && m == AggregateMetrics(Measured(answers, k, n), elapsed(k))
  }

  lemma SortedHas(levels: seq<int>)
    ensures var ordered := Sorted(levels, AsReal);
            && (forall l :: l in levels <==> l in ordered)
            && forall i, j | 0 <= i < j < |ordered| :: ordered[i] <= ordered[j]
  {
    var ordered := Sorted(levels, AsReal);
    SortedMeaning(levels, AsReal);
    assert forall l :: l in levels <==> l in multiset(levels);
    assert forall l :: l in ordered <==> l in multiset(ordered);
    assert forall i, j | 0 <= i < j < |ordered| :: AsReal(ordered[i]) <= AsReal(ordered[j]);
  }

  lemma SortedSet(levels: seq<int>)
    ensures (set l | l in Sorted(levels, AsReal)) == (set l | l in levels)
  {
    hide Sorted;
    var a, b := set l | l in Sorted(levels, AsReal), set l | l in levels;
    SortedHas(levels);
    forall l ensures l in a <==> l in b { assert l in levels <==> l in Sorted(levels, AsReal); }
  }

  /** Extending the measured levels by one: later measurements of a level win. */
  lemma LevelNext(ordered: seq<int>, k: nat, l: int, m: MetricsResult, n: nat, answers: (nat, nat) -> RequestResult, elapsed: nat -> real)
    requires k < |ordered|
    ensures l != ordered[k] && LevelIs(ordered, k, l, m, n, answers, elapsed) ==> LevelIs(ordered, k + 1, l, m, n, answers, elapsed)
    ensures l == ordered[k] && m == AggregateMetrics(Measured(answers, k, n), elapsed(k)) ==> LevelIs(ordered, k + 1, l, m, n, answers, elapsed)
  {
    hide AggregateMetrics, Measured, LastAt;
    if l == ordered[k] {
      LastNow(ordered, k);
    } else if LevelIs(ordered, k, l, m, n, answers, elapsed) {
      var j: nat :| j < k && LastAt(ordered, k, l, j) && m == AggregateMetrics(Measured(answers, j, n), elapsed(j));
      LastKept(ordered, k, l, j);
    }
  }

  lemma LastNow(ordered: seq<int>, k: nat)
    requires k < |ordered|
    ensures LastAt(ordered, k + 1, ordered[k], k)
  {
  }

  lemma LastKept(ordered: seq<int>, k: nat, l: int, j: nat)
    requires k < |ordered| && ordered[k] != l && LastAt(ordered, k, l, j)
    ensures LastAt(ordered, k + 1, l, j)
  {
    assert ordered[j + 1..k + 1] == ordered[j + 1..k] + [ordered[k]];
  }

  /** Warm-up and measurement at one level. */
  method MeasureLevel(level: int, warmupCount: int, measurementCount: int, k: nat,
      answers: (nat, nat) -> RequestResult, warmups: (nat, nat) -> RequestResult, elapsed: real)
    returns (o: Outcome<MetricsResult>, warming: seq<Event>, measuring: seq<Event>)
    ensures level >= 0 ==> Run(level, Start(Positive(warmupCount)), warming).Some?
    ensures level >= 0 ==> Run(level, Start(Positive(measurementCount)), measuring).Some?
    ensures o.Returned? ==> |warming| == 2 * Positive(warmupCount) && |measuring| == 2 * Positive(measurementCount)
    ensures o.ValueError? <==> level < 0
    ensures o.Hangs? <==> level == 0 && (warmupCount > 0 || measurementCount > 0)
    ensures o.Returned? ==> o.value == AggregateMetrics(Measured(answers, k, Positive(measurementCount)), elapsed)
  {
    measuring := [];
    var w, r;
    w, warming := RunConcurrentRequests(level, warmupCount, (i: nat) => warmups(k, i));
    if !w.Returned? { return if w.ValueError? then ValueError else Hangs, warming, measuring; }
    r, measuring := RunConcurrentRequests(level, measurementCount, (i: nat) => answers(k, i));
    if !r.Returned? { return if r.ValueError? then ValueError else Hangs, warming, measuring; }
    assert r.value == Measured(answers, k, Positive(measurementCount));
    return Returned(AggregateMetrics(r.value, elapsed)), warming, measuring;
  }

  predicate Serves(level: int, warmupCount: int, measurementCount: int) {
    level > 0 || (level == 0 && warmupCount <= 0 && measurementCount <= 0)
  }

  /** The first level that is not served decides the outcome. */
  lemma FirstRefused(levels: seq<int>, k: nat, w: int, m: int)
    requires var ordered := Sorted(levels, AsReal); k < |ordered| && forall j | 0 <= j < k :: Serves(ordered[j], w, m)
    ensures var l := Sorted(levels, AsReal)[k];
            && l in levels
            && (l == 0 ==> forall x :: x in levels ==> x >= 0)
  {
    hide Sorted;
    SortedHas(levels);
  }

  lemma AllServed(levels: seq<int>, w: int, m: int)
    requires forall l :: l in Sorted(levels, AsReal) ==> Serves(l, w, m)
    ensures forall l :: l in levels ==> Serves(l, w, m)
  {
    hide Sorted, Serves;
    SortedHas(levels);
  }

  /** The levels asked for are the levels reported, each with as many requests as were to
      be measured. A negative level is refused, and level 0 never returns unless there is
      nothing to send; both are met first, in ascending order. */
  method RunScenarioEscalation(levels: seq<int>, warmupCount: int, measurementCount: int,
      answers: (nat, nat) -> RequestResult, warmups: (nat, nat) -> RequestResult, elapsed: nat -> real)
    returns (o: Outcome<map<int, MetricsResult>>)
    ensures o.ValueError? <==> exists l :: l in levels && l < 0
    ensures o.Hangs? <==> (forall l :: l in levels ==> l >= 0) && 0 in levels && (warmupCount > 0 || measurementCount > 0)
    ensures o.Returned? ==> o.value.Keys == set l | l in levels
    ensures o.Returned? ==> forall l | l in o.value ::
              && o.value[l].totalRequests == Positive(measurementCount)
              && LevelIs(Sorted(levels, AsReal), |levels|, l, o.value[l], Positive(measurementCount), answers, elapsed)
  {
    hide LevelIs, Sorted, Run, AggregateMetrics, Measured;
    var ordered := Sorted(levels, AsReal);
    var n := Positive(measurementCount);
    var metrics: map<int, MetricsResult> := map[];
    for k := 0 to |ordered|
      invariant metrics.Keys == set l | l in ordered[..k]
      invariant forall l | l in metrics :: metrics[l].totalRequests == n && LevelIs(ordered, k, l, metrics[l], n, answers, elapsed)
      invariant forall j | 0 <= j < k :: Serves(ordered[j], warmupCount, measurementCount)
    {
      var level := ordered[k];
      FirstRefused(levels, k, warmupCount, measurementCount);
      var r, warming, measuring := MeasureLevel(level, warmupCount, measurementCount, k, answers, warmups, elapsed(k));
      if r.ValueError? { return ValueError; }
      if r.Hangs? { return Hangs; }
      AggregateMeaning(Measured(answers, k, n), elapsed(k));
      forall l | l in metrics ensures l != level ==> LevelIs(ordered, k + 1, l, metrics[l], n, answers, elapsed) {
        LevelNext(ordered, k, l, metrics[l], n, answers, elapsed);
      }
      LevelNext(ordered, k, level, r.value, n, answers, elapsed);
      metrics := metrics[level := r.value];
      assert ordered[..k + 1] == ordered[..k] + [level];
    }
    assert ordered[..|ordered|] == ordered;
    AllServed(levels, warmupCount, measurementCount);
    SortedSet(levels);
    return Returned(metrics);
  }
}
