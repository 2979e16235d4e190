/** `metrics.py`: nearest-rank percentiles and their aggregation, over exact numbers. */
module Metrics {
  import opened Text
  import opened Sorting

  function Id(x: real): real { x }

  /** The rank `ceil(p / 100 * n)`. */
  function Rank(p: int, n: nat): int {
    (p * n + 99) / 100
  }

  function Clamp(i: int, n: nat): (k: nat)
    requires n > 0
    ensures k < n
  {
    if i < 0 then 0 else if i > n - 1 then n - 1 else i
  }

  /** The percentile, or nothing where the source raises. */
  function CalculatePercentile(timings: seq<real>, p: int): Option<real> {
    if timings == [] || p < 0 || p > 100 then None
    else Some(Sorted(timings, Id)[Clamp(Rank(p, |timings|) - 1, |timings|)])
  }

  /** How many elements are at most `x`. */
  function AtMost(s: seq<real>, x: real): (n: nat)
    ensures n <= |s|
  {
    if s == [] then 0 else (if s[0] <= x then 1 else 0) + AtMost(s[1..], x)
  }

  // ----- counting in sorted sequences -----

  lemma {:induction false} AtMostConcat(a: seq<real>, b: seq<real>, x: real)
    ensures AtMost(a + b, x) == AtMost(a, x) + AtMost(b, x)
  {
    if a == [] {
      assert a + b == b;
    } else {
      AtMostConcat(a[1..], b, x);
      assert (a + b)[1..] == a[1..] + b;
    }
  }

  lemma {:induction false} AtMostAll(s: seq<real>, x: real)
    requires forall i | 0 <= i < |s| :: s[i] <= x
    ensures AtMost(s, x) == |s|
  {
    if s != [] { AtMostAll(s[1..], x); }
  }

  lemma {:induction false} AtMostNone(s: seq<real>, x: real)
    requires forall i | 0 <= i < |s| :: x < s[i]
    ensures AtMost(s, x) == 0
  {
    if s != [] { AtMostNone(s[1..], x); }
  }

  /** In ascending order, the element at `k` has at least `k + 1` elements up to it, and
      anything below it at most `k`. */
  lemma AtMostAscending(s: seq<real>, k: nat, x: real)
    requires Ascending(s, Id) && k < |s|
    ensures AtMost(s, s[k]) >= k + 1
    ensures x < s[k] ==> AtMost(s, x) <= k
  {
    hide AtMost;
    assert forall i, j | 0 <= i < j < |s| :: Id(s[i]) <= Id(s[j]);
    assert s == s[..k + 1] + s[k + 1..] && s == s[..k] + s[k..];
    AtMostAll(s[..k + 1], s[k]);
    AtMostConcat(s[..k + 1], s[k + 1..], s[k]);
    if x < s[k] {
      AtMostNone(s[k..], x);
      AtMostConcat(s[..k], s[k..], x);
    }
  }

  lemma AtMostWithout(b: seq<real>, k: nat, x: real)
    requires k < |b|
    ensures var rest := b[..k] + b[k + 1..];
            && multiset(b) == multiset(rest) + multiset{b[k]}
            && AtMost(b, x) == AtMost(rest, x) + if b[k] <= x then 1 else 0
  {
    hide AtMost;
    assert b == b[..k] + ([b[k]] + b[k + 1..]);
    AtMostConcat(b[..k], [b[k]] + b[k + 1..], x);
    AtMostConcat([b[k]], b[k + 1..], x);
    AtMostConcat(b[..k], b[k + 1..], x);
    AtMostOne(b[k], x);
  }

  lemma Cancel(a: multiset<real>, b: multiset<real>, y: real)
    requires a + multiset{y} == b + multiset{y}
    ensures a == b
  {
    assert a == a + multiset{y} - multiset{y} == b + multiset{y} - multiset{y} == b;
  }

  lemma AtMostOne(y: real, x: real)
    ensures AtMost([y], x) == if y <= x then 1 else 0
  {
  }

  /** Counting does not depend on the order. */
  lemma {:induction false} AtMostPermuted(a: seq<real>, b: seq<real>, x: real)
    requires multiset(a) == multiset(b)
    ensures AtMost(a, x) == AtMost(b, x)
    decreases |a|
  {
    hide AtMost;
    if a == [] {
      assert |b| == |multiset(b)| == 0;
    } else {
      var k := PositionOf(a, b);
      AtMostWithout(a, 0, x);
      AtMostWithout(b, k, x);
      var ra, rb := a[..0] + a[1..], b[..k] + b[k + 1..];
      Cancel(multiset(ra), multiset(rb), a[0]);
      AtMostPermuted(ra, rb, x);
    }
  }

  lemma PositionOf(a: seq<real>, b: seq<real>) returns (k: nat)
    requires a != [] && multiset(a) == multiset(b)
    ensures k < |b| && b[k] == a[0]
  {
    assert a[0] in multiset(b);
    k :| k < |b| && b[k] == a[0];
  }

  // ----- what a percentile is -----

  /** `r` is the least timing with at least `p` per cent of all timings up to it. */
  predicate IsPercentile(timings: seq<real>, p: int, r: real) {
    && r in timings
    && 100 * AtMost(timings, r) >= p * |timings|
    && forall x | x in timings && 100 * AtMost(timings, x) >= p * |timings| :: r <= x
  }

  lemma RankBounds(p: int, n: nat)
    requires 0 <= p <= 100 && n > 0
    ensures var k := Rank(p, n); 100 * k >= p * n && 100 * (k - 1) < p * n && 0 <= k <= n
  {
    assert p * n <= 100 * n;
  }

  lemma PercentileRank(timings: seq<real>, p: int, x: real)
    requires timings != [] && 0 <= p <= 100
    ensures var r := CalculatePercentile(timings, p).value;
            && r in timings && 100 * AtMost(timings, r) >= p * |timings|
            && (x in timings && 100 * AtMost(timings, x) >= p * |timings| ==> r <= x)
  {
    hide AtMost, Sorted, Rank;
    var s, n := Sorted(timings, Id), |timings|;
    SortedMeaning(timings, Id);
    var k := Clamp(Rank(p, n) - 1, n);
    RankBounds(p, n);
    assert s[k] in multiset(s);
    AtMostAscending(s, k, x);
    AtMostPermuted(s, timings, s[k]);
    AtMostPermuted(s, timings, x);
    if x in timings && x < s[k] && k == 0 {
      assert x in multiset(s);
      SmallestFirst(s, x);
    }
  }

  lemma SmallestFirst(s: seq<real>, x: real)
    requires Ascending(s, Id) && x in s
    ensures s[0] <= x
  {
    assert forall i, j | 0 <= i < j < |s| :: Id(s[i]) <= Id(s[j]);
  }

  /** The percentile exists exactly for a non-empty list and a percentage from 0 to 100,
      and is then the least timing that reaches the percentage. */
  lemma PercentileMeaning(timings: seq<real>, p: int)
    ensures CalculatePercentile(timings, p).Some? <==> timings != [] && 0 <= p <= 100
    ensures CalculatePercentile(timings, p).Some? ==> IsPercentile(timings, p, CalculatePercentile(timings, p).value)
  {
    if timings != [] && 0 <= p <= 100 {
      hide AtMost, CalculatePercentile;
      PercentileRank(timings, p, 0.0);
      forall x | x in timings && 100 * AtMost(timings, x) >= p * |timings|
        ensures CalculatePercentile(timings, p).value <= x
      {
        PercentileRank(timings, p, x);
      }
    }
  }

  lemma PercentileUnique(timings: seq<real>, p: int, r: real, r': real)
    requires IsPercentile(timings, p, r) && IsPercentile(timings, p, r')
    ensures r == r'
  {
    hide AtMost;
  }

  /** The order of the timings does not matter. */
  lemma PercentilePermuted(a: seq<real>, b: seq<real>, p: int)
    requires multiset(a) == multiset(b)
    ensures CalculatePercentile(a, p) == CalculatePercentile(b, p)
  {
    hide AtMost, CalculatePercentile;
    assert |a| == |multiset(a)| == |multiset(b)| == |b|;
    PercentileMeaning(a, p);
    PercentileMeaning(b, p);
    if a != [] && 0 <= p <= 100 {
      var r := CalculatePercentile(a, p).value;
      assert r in multiset(b);
      AtMostPermuted(a, b, r);
      forall x | x in b && 100 * AtMost(b, x) >= p * |b| ensures r <= x {
        assert x in multiset(a);
        AtMostPermuted(a, b, x);
      }
      PercentileUnique(b, p, r, CalculatePercentile(b, p).value);
    }
  }

  lemma Higher(timings: seq<real>, p: int, q: int, r: real, r': real)
    requires p <= q && IsPercentile(timings, p, r) && IsPercentile(timings, q, r')
    ensures r <= r'
  {
    hide AtMost;
    Scaled(p, q, |timings|);
    assert 100 * AtMost(timings, r') >= p * |timings|;
  }

  lemma Scaled(p: int, q: int, n: nat)
    requires p <= q
    ensures p * n <= q * n
  {
  }

  /** A higher percentage never gives a smaller value. */
  lemma PercentileMonotone(timings: seq<real>, p: int, q: int)
    requires timings != [] && 0 <= p <= q <= 100
    ensures CalculatePercentile(timings, p).value <= CalculatePercentile(timings, q).value
  {
    hide AtMost, CalculatePercentile;
    PercentileMeaning(timings, p);
    PercentileMeaning(timings, q);
    hide IsPercentile;
    Higher(timings, p, q, CalculatePercentile(timings, p).value, CalculatePercentile(timings, q).value);
  }

  // ----- aggregation -----

  datatype RequestResult = RequestResult(success: bool, responseTimeMs: real)

  datatype MetricsResult = MetricsResult(
    p50: real, p95: real, p99: real, throughput: real, errorRate: real,
    totalRequests: nat, totalErrors: nat, rawTimings: seq<real>)

  function Timings(results: seq<RequestResult>): (t: seq<real>)
    ensures |t| == |results| && forall i | 0 <= i < |t| :: t[i] == results[i].responseTimeMs
  {
    seq(|results|, i requires 0 <= i < |results| => results[i].responseTimeMs)
  }

  /** The requests that failed. */
  function Failed(results: seq<RequestResult>): set<nat> {
    set i: nat | i < |results| && !results[i].success
  }

  function Errors(results: seq<RequestResult>): (n: nat)
    ensures n <= |results|
  {
    if results == [] then 0
    else Errors(results[..|results| - 1]) + if results[|results| - 1].success then 0 else 1
  }

  lemma {:induction false} ErrorsCountFailed(results: seq<RequestResult>)
    ensures Errors(results) == |Failed(results)|
  {
    if results != [] {
      var k := |results| - 1;
      var front := results[..k];
      ErrorsCountFailed(front);
      assert forall i: nat | i < k :: front[i] == results[i];
      assert Failed(results) == Failed(front) + if results[k].success then {} else {k};
    }
  }

  function Throughput(requests: nat, elapsed: real): real {
    if requests == 0 || elapsed == 0.0 then 0.0 else requests as real / elapsed
  }

  function ErrorRate(errors: nat, requests: nat): real {
    if requests == 0 then 0.0 else errors as real / requests as real * 100.0
  }

  function AggregateMetrics(results: seq<RequestResult>, elapsed: real): MetricsResult {
    var t, n, e := Timings(results), |results|, Errors(results);
    var value := (p: int) requires 0 <= p <= 100 => if t == [] then 0.0 else CalculatePercentile(t, p).value;
    MetricsResult(value(50), value(95), value(99), Throughput(n, elapsed), ErrorRate(e, n), n, e, t)
  }

  /** Counts are those of the results, the percentiles are ordered and drawn from the
      timings of failed and successful requests alike, and the error rate is a percentage
      that reaches 0 and 100 exactly with no and only failures. */
  lemma AggregateMeaning(results: seq<RequestResult>, elapsed: real)
    ensures
      var m := AggregateMetrics(results, elapsed);
      && m.totalRequests == |results| == |m.rawTimings|
      && (forall i | 0 <= i < |results| :: m.rawTimings[i] == results[i].responseTimeMs)
      && m.totalErrors == |Failed(results)|
      && m.p50 <= m.p95 <= m.p99
      && (results != [] ==>
            IsPercentile(m.rawTimings, 50, m.p50) && IsPercentile(m.rawTimings, 95, m.p95) && IsPercentile(m.rawTimings, 99, m.p99))
      && m.errorRate * |results| as real == 100.0 * |Failed(results)| as real && 0.0 <= m.errorRate <= 100.0
      && (results != [] ==> (m.errorRate == 0.0 <==> m.totalErrors == 0) && (m.errorRate == 100.0 <==> m.totalErrors == |results|))
      && (results != [] && elapsed != 0.0 ==> m.throughput * elapsed == |results| as real)
      && (results == [] ==> m.p50 == m.p95 == m.p99 == m.errorRate == m.throughput == 0.0)
      && (elapsed == 0.0 ==> m.throughput == 0.0)
  {
    hide CalculatePercentile, IsPercentile, Errors, Timings, Failed;
    var t := Timings(results);
    ErrorsCountFailed(results);
    RateBounds(Errors(results), |results|);
    if t != [] {
      PercentileMeaning(t, 50);
      PercentileMeaning(t, 95);
      PercentileMeaning(t, 99);
      PercentileMonotone(t, 50, 95);
      PercentileMonotone(t, 95, 99);
    }
  }

  lemma RateBounds(e: nat, n: nat)
    requires e <= n
    ensures 0.0 <= ErrorRate(e, n) <= 100.0
    ensures ErrorRate(e, n) * n as real == 100.0 * e as real
    ensures n > 0 ==> (ErrorRate(e, n) == 0.0 <==> e == 0) && (ErrorRate(e, n) == 100.0 <==> e == n)
  {
    if n > 0 {
      var q := e as real / n as real;
      assert q * n as real == e as real;
      assert q == 0.0 <==> e == 0;
      assert q > 1.0 ==> q * n as real > n as real;
      assert q < 0.0 ==> q * n as real < 0.0;
    }
  }
}
