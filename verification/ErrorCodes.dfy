/** `migrate_to_format_error_log.py`: the transformer that hands out error codes to
    logger calls in traversal order. */
module ErrorCodes {
  /** What is called: a name, a method of a named object, or anything else. */
  datatype Func = Name(id: string) | Method(object_: string, attr: string) | OtherFunc

  /** A syntax tree, as far as the transformer looks at it: calls with their first and last
      line, and everything else. The positional arguments of a call are its children from
      `from` to `to`. */
  datatype Node =
    | Call(func: Func, start: nat, end: nat, children: seq<Node>, from: nat, to: nat)
    | Other(children: seq<Node>)

  /** First and last line of a call (counted from 1) and its log level. */
  datatype Site = Site(start: nat, end: nat, level: string)

  /** A call and the code it was given. */
  datatype Transformation = Transformation(site: Site, code: string)

  predicate IsLoggerCall(n: Node) {
    n.Call? && n.func.Method? && n.func.object_ == "logger" && n.func.attr in ["warning", "error", "critical"]
  }

  predicate CallsFormatErrorLog(n: Node) { n.Call? && n.func == Name("format_error_log") }

  /** A positional argument is itself a call of `format_error_log`. */
  predicate UsesFormatErrorLog(n: Node)
    requires n.Call?
  {
    exists k | n.from <= k < n.to && k < |n.children| :: CallsFormatErrorLog(n.children[k])
  }

  function SiteOf(n: Node): Site
    requires IsLoggerCall(n)
  {
    Site(n.start, n.end, n.func.attr)
  }

  /** The calls that need a code, parents before children; a call that already
      uses `format_error_log` is not entered. */
  function Eligible(n: Node): seq<Site> {
    if !IsLoggerCall(n) then EligibleAll(n.children)
    else if UsesFormatErrorLog(n) then []
    else [SiteOf(n)] + EligibleAll(n.children)
  }

  function EligibleAll(ns: seq<Node>): seq<Site> {
    if ns == [] then [] else Eligible(ns[0]) + EligibleAll(ns[1..])
  }

  /** Pairs sites with codes until either runs out. */
  function Assign(sites: seq<Site>, codes: seq<string>): (ts: seq<Transformation>)
    ensures |ts| == if |sites| <= |codes| then |sites| else |codes|
    ensures forall k | 0 <= k < |ts| :: ts[k] == Transformation(sites[k], codes[k])
  {
    if sites == [] || codes == [] then [] else [Transformation(sites[0], codes[0])] + Assign(sites[1..], codes[1..])
  }

  /** What the transformer keeps: how many codes are spent and what was recorded. */
  datatype Ledger = Ledger(index: nat, recorded: seq<Transformation>)

  /** Recording one call after another, as long as there are codes. */
  function Record(l: Ledger, codes: seq<string>, sites: seq<Site>): Ledger
    decreases sites
  {
    if sites == [] || l.index >= |codes| then l
    else Record(Ledger(l.index + 1, l.recorded + [Transformation(sites[0], codes[l.index])]), codes, sites[1..])
  }

  lemma {:induction false} RecordConcat(l: Ledger, codes: seq<string>, a: seq<Site>, b: seq<Site>)
    ensures Record(l, codes, a + b) == Record(Record(l, codes, a), codes, b)
    decreases a
  {
    if a == [] {
      assert a + b == b;
    } else if l.index < |codes| {
      assert (a + b)[1..] == a[1..] + b;
      RecordConcat(Ledger(l.index + 1, l.recorded + [Transformation(a[0], codes[l.index])]), codes, a[1..], b);
    }
  }

  lemma AssignStep(sites: seq<Site>, codes: seq<string>, i: nat)
    requires i <= |codes|
    ensures sites == [] || i == |codes| ==> Assign(sites, codes[i..]) == []
    ensures sites != [] && i < |codes| ==>
              Assign(sites, codes[i..]) == [Transformation(sites[0], codes[i])] + Assign(sites[1..], codes[i + 1..])
  {
    if sites != [] && i < |codes| { assert codes[i..][1..] == codes[i + 1..]; }
  }

  /** Recording pairs the sites with the codes not yet spent. */
  lemma {:induction false} RecordIsAssign(l: Ledger, codes: seq<string>, sites: seq<Site>)
    requires l.index <= |codes|
    ensures var added := Assign(sites, codes[l.index..]);
            Record(l, codes, sites) == Ledger(l.index + |added|, l.recorded + added)
    decreases sites
  {
    hide Assign;
    AssignStep(sites, codes, l.index);
    if sites != [] && l.index < |codes| {
      var first := [Transformation(sites[0], codes[l.index])];
      var next := Ledger(l.index + 1, l.recorded + first);
      assert Record(l, codes, sites) == Record(next, codes, sites[1..]);
      hide Record;
      RecordIsAssign(next, codes, sites[1..]);
      var rest := Assign(sites[1..], codes[l.index + 1..]);
      assert l.recorded + first + rest == l.recorded + (first + rest);
    } else {
      assert l.recorded + [] == l.recorded;
    }
  }

  class LoggerCallTransformer {
    const errorCodes: seq<string>
    var errorCodeIndex: nat
    var transformations: seq<Transformation>

    ghost function State(): Ledger
      reads this
    {
      Ledger(errorCodeIndex, transformations)
    }

    constructor (codes: seq<string>)
      ensures errorCodes == codes && State() == Ledger(0, [])
    {
      errorCodes, errorCodeIndex, transformations := codes, 0, [];
    }

    /** `_uses_format_error_log`: looks at the positional arguments one by one. */
    method LooksMigrated(n: Node) returns (uses: bool)
      requires n.Call?
      ensures uses == UsesFormatErrorLog(n)
    {
      hide CallsFormatErrorLog;
      var k := n.from;
      while k < n.to && k < |n.children|
        invariant n.from <= k
        invariant forall j | n.from <= j < k && j < n.to && j < |n.children| :: !CallsFormatErrorLog(n.children[j])
      {
        if CallsFormatErrorLog(n.children[k]) { return true; }
        k := k + 1;
      }
      return false;
    }

    /** Visiting a tree records exactly its eligible calls, with the next codes. */
    method Visit(n: Node)
      modifies this
      ensures State() == Record(old(State()), errorCodes, Eligible(n))
      decreases n, 0
    {
      if IsLoggerCall(n) {
        var uses := LooksMigrated(n);
        if uses { return; }
        if errorCodeIndex >= |errorCodes| { return; }
        var errorCode := errorCodes[errorCodeIndex];
        errorCodeIndex := errorCodeIndex + 1;
        transformations := transformations + [Transformation(SiteOf(n), errorCode)];
        assert Eligible(n)[1..] == EligibleAll(n.children);
      }
      VisitAll(n.children);
    }

    /** `generic_visit`. */
    method VisitAll(ns: seq<Node>)
      modifies this
      ensures State() == Record(old(State()), errorCodes, EligibleAll(ns))
      decreases ns, 1
    {
      if ns != [] {
        RecordConcat(State(), errorCodes, Eligible(ns[0]), EligibleAll(ns[1..]));
        Visit(ns[0]);
        VisitAll(ns[1..]);
      }
    }
  }
}
