/** Which calls of a syntax tree the migration transforms, read off the paths of the nodes. */
module EligibleCalls {
  import opened Text
  import opened ErrorCodes

  /** Child positions, from the root down. */
  type Path = seq<nat>

  function NodeAt(n: Node, p: Path): Option<Node>
    decreases |p|
  {
    if p == [] then Some(n)
    else if p[0] < |n.children| then NodeAt(n.children[p[0]], p[1..])
    else None
  }

  predicate Logs(n: Node, level: string) { n.Call? && n.func == Method("logger", level) }

  /** A call of `logger.warning`, `logger.error` or `logger.critical`. */
  predicate Reports(n: Node) { Logs(n, "warning") || Logs(n, "error") || Logs(n, "critical") }

  /** One of its positional arguments is a call of `format_error_log`. */
  predicate HasFormatted(n: Node) {
    && n.Call?
    && exists k | n.from <= k < n.to && k < |n.children| ::
         n.children[k].Call? && n.children[k].func == Name("format_error_log")
  }

  lemma SameCalls(n: Node)
    ensures IsLoggerCall(n) <==> Reports(n)
    ensures n.Call? ==> (UsesFormatErrorLog(n) <==> HasFormatted(n))
  {
    if n.Call? && UsesFormatErrorLog(n) {
      var k :| n.from <= k < n.to && k < |n.children| && CallsFormatErrorLog(n.children[k]);
      assert n.children[k].Call? && n.children[k].func == Name("format_error_log");
    }
    if HasFormatted(n) {
      var k :| n.from <= k < n.to && k < |n.children| && n.children[k].Call? && n.children[k].func == Name("format_error_log");
      assert CallsFormatErrorLog(n.children[k]);
    }
  }

  /** A logger call that already uses `format_error_log`. */
  predicate Migrated(n: Node) { Reports(n) && HasFormatted(n) }

  /** Somewhere on the way to `p`, the end excluded, stands a migrated call. */
  predicate BelowMigrated(n: Node, p: Path) {
    exists k | 0 <= k < |p| :: MigratedAt(n, p[..k])
  }

  predicate MigratedAt(n: Node, p: Path) {
    var d := NodeAt(n, p); d.Some? && Migrated(d.value)
  }

  /** The node at `p` is a logger call without `format_error_log`, below no migrated call. */
  predicate NeedsCode(n: Node, p: Path) {
    var d := NodeAt(n, p);
    d.Some? && Reports(d.value) && !HasFormatted(d.value) && !BelowMigrated(n, p)
  }

  /** Pre-order on paths: a node before what is below it, then left to right. */
  predicate Before(p: Path, q: Path)
    decreases |p|
  {
    q != [] && (p == [] || p[0] < q[0] || (p[0] == q[0] && Before(p[1..], q[1..])))
  }

  function Under(i: nat, ps: seq<Path>): (r: seq<Path>)
    ensures |r| == |ps| && forall k | 0 <= k < |ps| :: r[k] == [i] + ps[k]
  {
    if ps == [] then [] else [[i] + ps[0]] + Under(i, ps[1..])
  }

  /** The paths of the eligible calls, in the order in which they are recorded. */
  function Paths(n: Node): seq<Path>
    decreases n, 0
  {
    if Migrated(n) then [] else (if Reports(n) then [[]] else []) + PathsAll(n.children, 0)
  }

  function PathsAll(ns: seq<Node>, i: nat): seq<Path>
    decreases ns, 1
  {
    if ns == [] then [] else Under(i, Paths(ns[0])) + PathsAll(ns[1..], i + 1)
  }

  // ----- the paths are those of the calls that need a code -----

  lemma NodeAtChild(n: Node, p: Path)
    requires p != []
    ensures NodeAt(n, p) == if p[0] < |n.children| then NodeAt(n.children[p[0]], p[1..]) else None
  {
  }

  lemma BelowChild(n: Node, p: Path)
    requires p != [] && p[0] < |n.children|
    ensures BelowMigrated(n, p) <==> Migrated(n) || BelowMigrated(n.children[p[0]], p[1..])
  {
    hide Migrated, NodeAt;
    var c, q := n.children[p[0]], p[1..];
    assert p[..0] == [] && (MigratedAt(n, []) <==> Migrated(n)) by { RootAt(n); }
    forall k | 0 < k < |p| ensures MigratedAt(n, p[..k]) <==> MigratedAt(c, q[..k - 1]) {
      NodeAtChild(n, p[..k]);
      assert p[..k][1..] == q[..k - 1];
    }
    if k :| 0 <= k < |q| && MigratedAt(c, q[..k]) { assert MigratedAt(n, p[..k + 1]); }
    if k :| 0 <= k < |p| && MigratedAt(n, p[..k]) { assert k > 0 ==> MigratedAt(c, q[..k - 1]); }
  }

  lemma RootAt(n: Node)
    ensures NodeAt(n, []) == Some(n)
  {
  }

  lemma NeedsChild(n: Node, p: Path)
    requires p != []
    ensures NeedsCode(n, p) <==> !Migrated(n) && p[0] < |n.children| && NeedsCode(n.children[p[0]], p[1..])
  {
    hide NodeAt, Migrated, BelowMigrated, Reports, HasFormatted;
    NodeAtChild(n, p);
    if p[0] < |n.children| { BelowChild(n, p); }
  }

  lemma NeedsRoot(n: Node)
    ensures NeedsCode(n, []) <==> Reports(n) && !Migrated(n)
  {
  }

  predicate NeedsIn(ns: seq<Node>, i: nat, p: Path) {
    p != [] && i <= p[0] < i + |ns| && NeedsCode(ns[p[0] - i], p[1..])
  }

  lemma {:induction false} PathsExact(n: Node, p: Path)
    ensures p in Paths(n) <==> NeedsCode(n, p)
    decreases n, 0
  {
    hide NeedsCode, Migrated, PathsAll;
    PathsAllExact(n.children, 0, p);
    if p == [] { NeedsRoot(n); } else { NeedsChild(n, p); }
  }

  lemma {:induction false} PathsAllExact(ns: seq<Node>, i: nat, p: Path)
    ensures p in PathsAll(ns, i) <==> NeedsIn(ns, i, p)
    decreases ns, 1
  {
    hide NeedsCode, Paths;
    if ns != [] {
      PathsAllExact(ns[1..], i + 1, p);
      if p != [] { PathsExact(ns[0], p[1..]); }
      InUnder(i, Paths(ns[0]), p);
      assert p in PathsAll(ns, i) <==> p in Under(i, Paths(ns[0])) || p in PathsAll(ns[1..], i + 1);
    }
  }

  lemma InUnder(i: nat, ps: seq<Path>, p: Path)
    ensures p in Under(i, ps) <==> p != [] && p[0] == i && p[1..] in ps
  {
    var u := Under(i, ps);
    if p in u {
      var k :| 0 <= k < |u| && u[k] == p;
      assert p == [i] + ps[k];
    }
    if p != [] && p[0] == i && p[1..] in ps {
      var k :| 0 <= k < |ps| && ps[k] == p[1..];
      assert u[k] == p;
    }
  }

  // ----- they are in pre-order, and the sites are those of their nodes -----

  predicate PreOrdered(ps: seq<Path>) {
    forall j, k | 0 <= j < k < |ps| :: Before(ps[j], ps[k])
  }

  lemma {:induction false} PathsOrdered(n: Node)
    ensures PreOrdered(Paths(n))
    decreases n, 0
  {
    hide PathsAll, Migrated, Reports;
    PathsAllOrdered(n.children, 0);
    var ps := PathsAll(n.children, 0);
    forall k | 0 <= k < |ps| ensures ps[k] != [] { PathsAllExact(n.children, 0, ps[k]); }
  }

  lemma {:induction false} PathsAllOrdered(ns: seq<Node>, i: nat)
    ensures PreOrdered(PathsAll(ns, i))
    decreases ns, 1
  {
    if ns != [] {
      hide Paths;
      var a, b := Under(i, Paths(ns[0])), PathsAll(ns[1..], i + 1);
      PathsOrdered(ns[0]);
      PathsAllOrdered(ns[1..], i + 1);
      forall k | 0 <= k < |b| ensures b[k] != [] && b[k][0] > i { PathsAllExact(ns[1..], i + 1, b[k]); }
    }
  }

  /** Lines and level of the call at `p`. */
  function SiteAt(n: Node, p: Path): Site {
    match NodeAt(n, p)
    case Some(Call(Method(_, level), start, end, _, _, _)) => Site(start, end, level)
    case _ => Site(0, 0, "")
  }

  lemma SiteAtChild(n: Node, p: Path)
    requires p != [] && p[0] < |n.children|
    ensures SiteAt(n, p) == SiteAt(n.children[p[0]], p[1..])
  {
  }

  lemma SiteAtRoot(n: Node)
    requires IsLoggerCall(n)
    ensures SiteAt(n, []) == SiteOf(n)
  {
  }

  lemma {:induction false} SitesArePaths(n: Node, k: nat)
    ensures |Eligible(n)| == |Paths(n)|
    ensures k < |Paths(n)| ==> NeedsCode(n, Paths(n)[k]) && Eligible(n)[k] == SiteAt(n, Paths(n)[k])
    decreases n, 0
  {
    hide NeedsCode, PathsAll, EligibleAll, UsesFormatErrorLog, HasFormatted, Reports;
    SameCalls(n);
    var own := if Reports(n) then 1 else 0;
    SitesAllArePaths(n.children, 0, if k >= own then k - own else 0);
    NeedsRoot(n);
    if IsLoggerCall(n) { SiteAtRoot(n); }
    if !Migrated(n) && own <= k < |Paths(n)| {
      var p := PathsAll(n.children, 0)[k - own];
      assert Paths(n)[k] == p;
      NeedsChild(n, p);
      SiteAtChild(n, p);
    }
  }

  lemma {:induction false} SitesAllArePaths(ns: seq<Node>, i: nat, k: nat)
    ensures |EligibleAll(ns)| == |PathsAll(ns, i)|
    ensures k < |PathsAll(ns, i)| ==>
              var p := PathsAll(ns, i)[k];
              NeedsIn(ns, i, p) && EligibleAll(ns)[k] == SiteAt(ns[p[0] - i], p[1..])
    decreases ns, 1
  {
    hide NeedsCode, Paths, Eligible, SiteAt;
    if ns != [] {
      var a, rest := Paths(ns[0]), PathsAll(ns[1..], i + 1);
      SitesArePaths(ns[0], k);
      if k < |a| {
        assert PathsAll(ns, i)[k] == [i] + a[k];
        assert ([i] + a[k])[1..] == a[k];
        SitesAllArePaths(ns[1..], i + 1, 0);
      } else {
        SitesAllArePaths(ns[1..], i + 1, k - |a|);
        assert k < |PathsAll(ns, i)| ==> PathsAll(ns, i)[k] == rest[k - |a|] && EligibleAll(ns)[k] == EligibleAll(ns[1..])[k - |a|];
      }
    }
  }

  /** The calls to transform: exactly the `logger.warning`, `logger.error` and `logger.critical`
      calls that have no call of `format_error_log` among their arguments and stand below no
      call that has, in pre-order, each with its own lines and level. */
  lemma EligibleReport(n: Node)
    ensures forall p: Path :: p in Paths(n) <==> NeedsCode(n, p)
    ensures PreOrdered(Paths(n)) && |Eligible(n)| == |Paths(n)|
    ensures forall k | 0 <= k < |Paths(n)| ::
              NeedsCode(n, Paths(n)[k]) && Eligible(n)[k] == SiteAt(n, Paths(n)[k])
  {
    hide Paths, Eligible, SiteAt, NeedsCode;
    forall p: Path ensures p in Paths(n) <==> NeedsCode(n, p) { PathsExact(n, p); }
    PathsOrdered(n);
    SitesArePaths(n, 0);
    forall k | 0 <= k < |Paths(n)|
      ensures NeedsCode(n, Paths(n)[k]) && Eligible(n)[k] == SiteAt(n, Paths(n)[k])
    {
      SitesArePaths(n, k);
    }
  }
}
