/** `async_to_sync_converter.py`: the visitor that collects async definitions and
    whether each awaits something itself. */
module AsyncFinder {
  import opened Text

  datatype Decorator = Name(id: string) | Attribute(attr: string) | CallOf(func: Decorator) | OtherDecorator

  /** A syntax tree, as far as the visitor looks at it. The children of a definition
      include its decorators and arguments. */
  datatype Node =
    | AsyncDef(name: string, lineno: int, endLineno: Option<int>, decorators: seq<Decorator>, children: seq<Node>)
    | Await(children: seq<Node>)
    | Other(children: seq<Node>)

  datatype Info = Info(name: string, lineno: int, endLineno: int, hasAwait: bool, decorators: seq<string>)

  function DecoratorName(d: Decorator): Option<string> {
    match d
    case Name(id) => Some(id)
    case Attribute(attr) => Some(attr)
    case CallOf(Name(id)) => Some(id)
    case CallOf(Attribute(attr)) => Some(attr)
    case _ => None
  }

  function DecoratorNames(ds: seq<Decorator>): seq<string> {
    if ds == [] then []
    else
      var d := DecoratorName(ds[|ds| - 1]);
      DecoratorNames(ds[..|ds| - 1]) + if d.Some? then [d.value] else []
  }

  /** An await below `n` that no definition in between claims. */
  predicate OwnAwait(n: Node) {
    n.Await? || (n.Other? && OwnAwaitAll(n.children))
  }

  predicate OwnAwaitAll(ns: seq<Node>) {
    ns != [] && (OwnAwait(ns[0]) || OwnAwaitAll(ns[1..]))
  }

  function InfoOf(n: Node): Info
    requires n.AsyncDef?
  {
    var end := if n.endLineno.Some? && n.endLineno.value != 0 then n.endLineno.value else n.lineno;
    Info(n.name, n.lineno, end, OwnAwaitAll(n.children), DecoratorNames(n.decorators))
  }

  /** One entry per definition, children before parents. */
  function Entries(n: Node): seq<Info>
    decreases n, 0
  {
    EntriesAll(n.children) + if n.AsyncDef? then [InfoOf(n)] else []
  }

  function EntriesAll(ns: seq<Node>): seq<Info>
    decreases ns, 1
  {
    if ns == [] then [] else Entries(ns[0]) + EntriesAll(ns[1..])
  }

  // ----- the visitor -----

  class AsyncFunctionFinder {
    var functions: seq<Info>
    var currentFunction: Option<Node>
    var currentHasAwait: bool

    constructor ()
      ensures functions == [] && currentFunction.None? && !currentHasAwait
    {
      functions, currentFunction, currentHasAwait := [], None, false;
    }

    method ExtractDecorators(ds: seq<Decorator>) returns (names: seq<string>)
      ensures names == DecoratorNames(ds)
    {
      names := [];
      for i := 0 to |ds|
        invariant names == DecoratorNames(ds[..i])
      {
        assert ds[..i + 1][..i] == ds[..i];
        match ds[i]
        case Name(id) => names := names + [id];
        case Attribute(attr) => names := names + [attr];
        case CallOf(Name(id)) => names := names + [id];
        case CallOf(Attribute(attr)) => names := names + [attr];
        case _ =>
      }
      assert ds[..|ds|] == ds;
    }

    /** Visiting a tree appends its definitions, restores the current function, and adds
        to its own await exactly what no nested definition claims. */
    method Visit(n: Node)
      modifies this
      ensures functions == old(functions) + Entries(n)
      ensures currentFunction == old(currentFunction)
      ensures currentHasAwait == (old(currentHasAwait) || (currentFunction.Some? && OwnAwait(n)))
      decreases n, 0
    {
      match n
      case AsyncDef(name, lineno, endLineno, decorators, children) =>
        var parentFunction, parentHasAwait := currentFunction, currentHasAwait;
        currentFunction, currentHasAwait := Some(n), false;
        GenericVisit(children);
        var names := ExtractDecorators(decorators);
        var end := if endLineno.Some? && endLineno.value != 0 then endLineno.value else lineno;
        functions := functions + [Info(name, lineno, end, currentHasAwait, names)];
        currentFunction, currentHasAwait := parentFunction, parentHasAwait;
      case Await(children) =>
        if currentFunction.Some? { currentHasAwait := true; }
        GenericVisit(children);
      case Other(children) => GenericVisit(children);
    }

    method GenericVisit(ns: seq<Node>)
      modifies this
      ensures functions == old(functions) + EntriesAll(ns)
      ensures currentFunction == old(currentFunction)
      ensures currentHasAwait == (old(currentHasAwait) || (currentFunction.Some? && OwnAwaitAll(ns)))
      decreases ns, 1
    {
      hide Entries, OwnAwait;
      if ns != [] {
        ghost var before := functions;
        Visit(ns[0]);
        GenericVisit(ns[1..]);
        assert functions == before + (Entries(ns[0]) + EntriesAll(ns[1..]));
      } else {
        assert functions == functions + EntriesAll(ns);
      }
    }
  }

  /** A fresh visitor run over a whole tree. */
  method FindAsyncFunctions(tree: Node) returns (functions: seq<Info>)
    ensures functions == Entries(tree)
  {
    var finder := new AsyncFunctionFinder();
    finder.Visit(tree);
    return finder.functions;
  }

  // ----- the declarative reading: nodes by their paths -----

  /** Child positions, from the root down. */
  type Path = seq<nat>

  function NodeAt(n: Node, p: Path): Option<Node>
    decreases |p|
  {
    if p == [] then Some(n)
    else if p[0] < |n.children| then NodeAt(n.children[p[0]], p[1..])
    else None
  }

  predicate DefAt(n: Node, p: Path) {
    var d := NodeAt(n, p); d.Some? && d.value.AsyncDef?
  }

  predicate AwaitAt(n: Node, p: Path) {
    var d := NodeAt(n, p); d.Some? && d.value.Await?
  }

  lemma {:induction false} NodeAtConcat(n: Node, p: Path, q: Path)
    requires NodeAt(n, p).Some?
    ensures NodeAt(n, p + q) == NodeAt(NodeAt(n, p).value, q)
    decreases |p|
  {
    if p == [] {
      assert p + q == q;
    } else {
      NodeAtConcat(n.children[p[0]], p[1..], q);
      assert (p + q)[1..] == p[1..] + q;
    }
  }

  /** Post-order on paths: descendants first, then left to right. */
  predicate Before(p: Path, q: Path)
    decreases |p|
  {
    if q == [] then p != []
    else p != [] && (p[0] < q[0] || (p[0] == q[0] && Before(p[1..], q[1..])))
  }

  lemma {:induction false} BeforeIsStrict(p: Path)
    ensures !Before(p, p)
    decreases |p|
  {
    if p != [] { BeforeIsStrict(p[1..]); }
  }

  function Under(i: nat, ps: seq<Path>): (r: seq<Path>)
    ensures |r| == |ps| && forall k | 0 <= k < |ps| :: r[k] == [i] + ps[k]
  {
    if ps == [] then [] else [[i] + ps[0]] + Under(i, ps[1..])
  }

  /** The paths of the definitions, in the order of the entries. */
  function DefPaths(n: Node): seq<Path>
    decreases n, 0
  {
    DefPathsAll(n.children, 0) + if n.AsyncDef? then [[]] else []
  }

  function DefPathsAll(ns: seq<Node>, i: nat): seq<Path>
    decreases ns, 1
  {
    if ns == [] then [] else Under(i, DefPaths(ns[0])) + DefPathsAll(ns[1..], i + 1)
  }

  predicate DefIn(ns: seq<Node>, i: nat, p: Path) {
    p != [] && i <= p[0] < i + |ns| && DefAt(ns[p[0] - i], p[1..])
  }

  lemma {:induction false} DefPathsExact(n: Node, p: Path)
    ensures p in DefPaths(n) <==> DefAt(n, p)
    decreases n, 0
  {
    DefPathsAllExact(n.children, 0, p);
    assert p in DefPaths(n) <==> p in DefPathsAll(n.children, 0) || (n.AsyncDef? && p == []);
  }

  lemma {:induction false} DefPathsAllExact(ns: seq<Node>, i: nat, p: Path)
    ensures p in DefPathsAll(ns, i) <==> DefIn(ns, i, p)
    decreases ns, 1
  {
    hide DefAt, DefPaths;
    if ns != [] {
      DefPathsAllExact(ns[1..], i + 1, p);
      if p != [] { DefPathsExact(ns[0], p[1..]); }
      InUnder(i, DefPaths(ns[0]), p);
      assert p in DefPathsAll(ns, i) <==> p in Under(i, DefPaths(ns[0])) || p in DefPathsAll(ns[1..], i + 1);
    }
  }

  lemma InUnder(i: nat, ps: seq<Path>, p: Path)
    ensures p in Under(i, ps) <==> p != [] && p[0] == i && p[1..] in ps
  {
    var u := Under(i, ps);
    if p in u {
      var k :| 0 <= k < |u| && u[k] == p;
      assert p == [i] + ps[k];
    }
    if p != [] && p[0] == i && p[1..] in ps {
      var k :| 0 <= k < |ps| && ps[k] == p[1..];
      assert u[k] == p;
    }
  }

  predicate PostOrdered(ps: seq<Path>) {
    forall j, k | 0 <= j < k < |ps| :: Before(ps[j], ps[k])
  }

  lemma {:induction false} DefPathsOrdered(n: Node)
    ensures PostOrdered(DefPaths(n))
    decreases n, 0
  {
    hide DefPathsAll;
    DefPathsAllOrdered(n.children, 0);
    var ps := DefPathsAll(n.children, 0);
    forall k | 0 <= k < |ps| ensures ps[k] != [] { DefPathsAllExact(n.children, 0, ps[k]); }
  }

  lemma {:induction false} DefPathsAllOrdered(ns: seq<Node>, i: nat)
    ensures PostOrdered(DefPathsAll(ns, i))
    decreases ns, 1
  {
    if ns != [] {
      hide DefPaths;
      var a, b := Under(i, DefPaths(ns[0])), DefPathsAll(ns[1..], i + 1);
      DefPathsOrdered(ns[0]);
      DefPathsAllOrdered(ns[1..], i + 1);
      forall k | 0 <= k < |b| ensures b[k] != [] && b[k][0] > i { DefPathsAllExact(ns[1..], i + 1, b[k]); }
    }
  }

  // ----- entries and awaits, read off the paths -----

  /** Entry `k` describes the definition at path `k`. */
  lemma {:induction false} EntriesArePaths(n: Node, k: nat)
    ensures |Entries(n)| == |DefPaths(n)|
    ensures k < |Entries(n)| ==> DefAt(n, DefPaths(n)[k]) && Entries(n)[k] == InfoOf(NodeAt(n, DefPaths(n)[k]).value)
    decreases n, 0
  {
    hide EntriesAll, DefPathsAll, InfoOf;
    EntriesAllArePaths(n.children, 0, k);
    if k < |DefPathsAll(n.children, 0)| {
      var p := DefPathsAll(n.children, 0)[k];
      assert DefPaths(n)[k] == p;
    }
  }

  lemma {:induction false} EntriesAllArePaths(ns: seq<Node>, i: nat, k: nat)
    ensures |EntriesAll(ns)| == |DefPathsAll(ns, i)|
    ensures k < |EntriesAll(ns)| ==>
              var p := DefPathsAll(ns, i)[k];
              DefIn(ns, i, p) && EntriesAll(ns)[k] == InfoOf(NodeAt(ns[p[0] - i], p[1..]).value)
    decreases ns, 1
  {
    hide InfoOf, Entries, DefPaths, EntriesAll, DefPathsAll, DefIn, NodeAt;
    AllStep(ns, i);
    if ns != [] {
      var a, rest := DefPaths(ns[0]), DefPathsAll(ns[1..], i + 1);
      EntriesArePaths(ns[0], k);
      if k < |a| {
        assert DefPathsAll(ns, i)[k] == [i] + a[k];
        DefInFirst(ns, i, a[k]);
        EntriesAllArePaths(ns[1..], i + 1, 0);
      } else {
        EntriesAllArePaths(ns[1..], i + 1, k - |a|);
        if k < |EntriesAll(ns)| { DefInRest(ns, i, rest[k - |a|]); }
      }
    }
  }

  lemma AllStep(ns: seq<Node>, i: nat)
    ensures ns == [] ==> EntriesAll(ns) == [] && DefPathsAll(ns, i) == []
    ensures ns != [] ==> EntriesAll(ns) == Entries(ns[0]) + EntriesAll(ns[1..])
    ensures ns != [] ==> DefPathsAll(ns, i) == Under(i, DefPaths(ns[0])) + DefPathsAll(ns[1..], i + 1)
  {
    hide Entries, DefPaths;
  }

  lemma DefInFirst(ns: seq<Node>, i: nat, p: Path)
    requires ns != [] && DefAt(ns[0], p)
    ensures DefIn(ns, i, [i] + p) && ([i] + p)[1..] == p
  {
    hide NodeAt;
    assert ([i] + p)[1..] == p;
  }

  lemma DefInRest(ns: seq<Node>, i: nat, p: Path)
    requires ns != [] && DefIn(ns[1..], i + 1, p)
    ensures DefIn(ns, i, p) && ns[1..][p[0] - i - 1] == ns[p[0] - i]
  {
    hide NodeAt;
  }

  /** An await at `p`, with no definition at or above it from `n` down. */
  predicate Reaches(n: Node, p: Path) {
    AwaitAt(n, p) && forall k | 0 <= k < |p| :: !DefAt(n, p[..k])
  }

  predicate ReachesIn(ns: seq<Node>, p: Path) {
    p != [] && p[0] < |ns| && Reaches(ns[p[0]], p[1..])
  }

  lemma ReachesStep(n: Node, p: Path)
    requires p != [] && !n.AsyncDef?
    ensures Reaches(n, p) <==> ReachesIn(n.children, p)
  {
    if p[0] < |n.children| {
      var c := n.children[p[0]];
      forall k | 1 <= k <= |p| ensures NodeAt(n, p[..k]) == NodeAt(c, p[1..][..k - 1]) {
        assert p[..k][1..] == p[1..][..k - 1];
      }
      assert p[..|p|] == p && p[1..][..|p| - 1] == p[1..];
      if Reaches(n, p) {
        forall k | 0 <= k < |p[1..]| ensures !DefAt(c, p[1..][..k]) { assert !DefAt(n, p[..k + 1]); }
      }
      if Reaches(c, p[1..]) {
        forall k | 0 <= k < |p| ensures !DefAt(n, p[..k]) {
          if k > 0 { assert !DefAt(c, p[1..][..k - 1]); } else { assert p[..0] == []; }
        }
      }
    }
  }

  lemma {:induction false} OwnAwaitIff(n: Node)
    ensures OwnAwait(n) <==> exists p: Path :: Reaches(n, p)
    decreases n, 0
  {
    hide OwnAwaitAll, Reaches;
    RootReaches(n);
    if n.Other? {
      OwnAwaitAllIff(n.children);
      if OwnAwaitAll(n.children) {
        var p: Path :| ReachesIn(n.children, p);
        ReachesStep(n, p);
      }
      if p: Path :| Reaches(n, p) {
        if p != [] { ReachesStep(n, p); }
      }
    }
  }

  lemma RootReaches(n: Node)
    ensures Reaches(n, []) <==> n.Await?
    ensures n.AsyncDef? ==> forall p: Path :: !Reaches(n, p)
  {
    forall p: Path ensures n.AsyncDef? ==> !Reaches(n, p) {
      if n.AsyncDef? && p != [] { assert DefAt(n, p[..0]); }
    }
  }

  lemma {:induction false} OwnAwaitAllIff(ns: seq<Node>)
    ensures OwnAwaitAll(ns) <==> exists p: Path :: ReachesIn(ns, p)
    decreases ns, 1
  {
    hide OwnAwait, Reaches;
    if ns != [] {
      OwnAwaitIff(ns[0]);
      OwnAwaitAllIff(ns[1..]);
      if OwnAwait(ns[0]) {
        var p: Path :| Reaches(ns[0], p);
        assert ([0] + p)[1..] == p;
        assert ReachesIn(ns, [0] + p);
      }
      if OwnAwaitAll(ns[1..]) {
        var p: Path :| ReachesIn(ns[1..], p);
        assert ([p[0] + 1] + p[1..])[1..] == p[1..];
        assert ReachesIn(ns, [p[0] + 1] + p[1..]);
      }
      if p: Path :| ReachesIn(ns, p) {
        if p[0] > 0 {
          assert ([p[0] - 1] + p[1..])[1..] == p[1..];
          assert ReachesIn(ns[1..], [p[0] - 1] + p[1..]);
        }
      }
    }
  }

  /** An await `q` below the definition at `p` whose nearest enclosing definition is that one. */
  predicate Claims(n: Node, p: Path, q: Path) {
    q != [] && AwaitAt(n, p + q) && forall k | 0 < k < |q| :: !DefAt(n, p + q[..k])
  }

  lemma ClaimsBelow(n: Node, p: Path, q: Path)
    requires DefAt(n, p)
    ensures Claims(n, p, q) <==> ReachesIn(NodeAt(n, p).value.children, q)
  {
    var d := NodeAt(n, p).value;
    NodeAtConcat(n, p, q);
    forall k | 0 <= k <= |q| ensures NodeAt(n, p + q[..k]) == NodeAt(d, q[..k]) { NodeAtConcat(n, p, q[..k]); }
    if q != [] {
      var o := Other(d.children);
      forall k | 1 <= k <= |q| ensures NodeAt(o, q[..k]) == NodeAt(d, q[..k]) { assert q[..k] != []; }
      assert q[..|q|] == q && q[..0] == [];
      ReachesStep(o, q);
      assert Reaches(o, q) <==> Claims(n, p, q) by { ReachesClaims(n, p, q, o); }
    }
  }

  lemma ReachesClaims(n: Node, p: Path, q: Path, o: Node)
    requires q != [] && o.Other? && NodeAt(o, q) == NodeAt(n, p + q)
    requires forall k | 1 <= k <= |q| :: NodeAt(o, q[..k]) == NodeAt(n, p + q[..k])
    ensures Reaches(o, q) <==> Claims(n, p, q)
  {
    assert q[..0] == [];
    if Reaches(o, q) {
      forall k | 0 < k < |q| ensures !DefAt(n, p + q[..k]) { assert !DefAt(o, q[..k]); }
    }
    if Claims(n, p, q) {
      forall k | 0 <= k < |q| ensures !DefAt(o, q[..k]) {
        if k > 0 { assert !DefAt(n, p + q[..k]); }
      }
    }
  }

  /** A decorator that is called `name`: the name or attribute itself, or a call of one. */
  predicate Called(d: Decorator, name: string) {
    d == Name(name) || d == Attribute(name) || d == CallOf(Name(name)) || d == CallOf(Attribute(name))
  }

  predicate Nameless(d: Decorator) {
    d.OtherDecorator? || (d.CallOf? && (d.func.CallOf? || d.func.OtherDecorator?))
  }

  /** Positions of the decorators that have a name. */
  function NamedAt(ds: seq<Decorator>): seq<nat> {
    if ds == [] then [] else NamedAt(ds[..|ds| - 1]) + if Nameless(ds[|ds| - 1]) then [] else [|ds| - 1]
  }

  /** The names are those of the decorators that have one, in order. */
  predicate NamesOf(names: seq<string>, ds: seq<Decorator>) {
    var at := NamedAt(ds);
    && |names| == |at| && (forall j | 0 <= j < |at| :: at[j] < |ds| && Called(ds[at[j]], names[j]))
    && (forall i, j | 0 <= i < j < |at| :: at[i] < at[j])
    && (forall k: nat | k < |ds| :: k in at <==> !Nameless(ds[k]))
  }

  lemma {:induction false} NamedAtExact(ds: seq<Decorator>, k: nat)
    ensures k in NamedAt(ds) <==> k < |ds| && !Nameless(ds[k])
  {
    hide Nameless;
    if ds != [] {
      var front := ds[..|ds| - 1];
      NamedAtExact(front, k);
      assert k < |front| ==> front[k] == ds[k];
    }
  }

  lemma {:induction false} NamesMatch(ds: seq<Decorator>)
    ensures var at, names := NamedAt(ds), DecoratorNames(ds);
            && |names| == |at| && (forall j | 0 <= j < |at| :: at[j] < |ds| && Called(ds[at[j]], names[j]))
            && (forall i, j | 0 <= i < j < |at| :: at[i] < at[j])
  {
    hide DecoratorName, Called, Nameless;
    if ds != [] {
      var front := ds[..|ds| - 1];
      NamesMatch(front);
      LastDecorator(ds[|ds| - 1]);
      var at, names := NamedAt(ds), DecoratorNames(ds);
      var was, said := NamedAt(front), DecoratorNames(front);
      forall j | 0 <= j < |was| ensures at[j] < |front| && Called(ds[at[j]], names[j]) {
        assert at[j] == was[j] && names[j] == said[j] && ds[was[j]] == front[was[j]];
      }
    }
  }

  lemma DecoratorsMeaning(ds: seq<Decorator>)
    ensures NamesOf(DecoratorNames(ds), ds)
  {
    hide NamedAt, DecoratorNames, Called, Nameless;
    NamesMatch(ds);
    forall k: nat | k < |ds| ensures k in NamedAt(ds) <==> !Nameless(ds[k]) { NamedAtExact(ds, k); }
  }

  lemma LastDecorator(d: Decorator)
    ensures DecoratorName(d).None? <==> Nameless(d)
    ensures DecoratorName(d).Some? ==> Called(d, DecoratorName(d).value)
  {
  }

  /** An entry says what its definition says; a missing or zero last line is the first one. */
  predicate Describes(e: Info, d: Node)
    requires d.AsyncDef?
  {
    && e.name == d.name && e.lineno == d.lineno && NamesOf(e.decorators, d.decorators)
    && (d.endLineno.Some? && d.endLineno.value != 0 ==> Some(e.endLineno) == d.endLineno)
    && (d.endLineno.None? || d.endLineno.value == 0 ==> e.endLineno == d.lineno)
  }

  /** The visitor's report on any tree: exactly one entry for each async definition, in
      post-order, with its own name, lines and decorators, and an entry says "awaits" exactly when some await has that
      definition as its nearest enclosing one. */
  lemma FinderReport(n: Node, k: nat)
    ensures |Entries(n)| == |DefPaths(n)| && PostOrdered(DefPaths(n))
    ensures forall p: Path :: p in DefPaths(n) <==> DefAt(n, p)
    ensures k < |Entries(n)| ==>
              var p := DefPaths(n)[k];
              && DefAt(n, p) && Describes(Entries(n)[k], NodeAt(n, p).value)
              && (Entries(n)[k].hasAwait <==> exists q: Path :: Claims(n, p, q))
  {
    hide Claims, ReachesIn, OwnAwaitAll, Entries, DefPaths, NodeAt, PostOrdered;
    EntriesArePaths(n, k);
    DefPathsOrdered(n);
    forall p: Path ensures p in DefPaths(n) <==> DefAt(n, p) { DefPathsExact(n, p); }
    if k < |Entries(n)| {
      var p := DefPaths(n)[k];
      var d := NodeAt(n, p).value;
      DecoratorsMeaning(d.decorators);
      OwnAwaitAllIff(d.children);
      forall q: Path ensures Claims(n, p, q) <==> ReachesIn(d.children, q) { ClaimsBelow(n, p, q); }
    }
  }
}
