/** `migrate_to_format_error_log.py`: splicing rewritten calls into the lines of a file,
    bottom up, and the simultaneous substitution it amounts to. */
module Splicing {
  import opened Text
  import opened ErrorCodes
  import opened CallRewriting

  function Concat(lines: seq<string>): string {
    if lines == [] then "" else lines[0] + Concat(lines[1..])
  }

  function Min(a: int, b: int): int { if a <= b then a else b }

  /** The lines a transformation covers; slices stop at the end of the list. */
  function Covered(lines: seq<string>, t: Transformation): seq<string>
    requires t.site.start >= 1
  {
    var lo := Min(t.site.start - 1, |lines|);
    var hi := Min(t.site.end, |lines|);
    if lo <= hi then lines[lo..hi] else []
  }

  /** What takes the place of the covered lines: one new call, or the same lines
      when nothing can be extracted from them. */
  function Replacement(original: seq<string>, t: Transformation): seq<string> {
    var content := CallContent(Concat(original));
    if original == [] || content == "" then original
    else [NewCall(Spaces(SpacePrefix(original[0])), t.site.level, t.code, content)]
  }

  /** One turn of the loop: `lines[start_idx:end_idx] = [new_call]`. */
  function SpliceOne(lines: seq<string>, t: Transformation): seq<string>
    requires t.site.start >= 1
  {
    var lo := Min(t.site.start - 1, |lines|);
    var hi := Min(t.site.end, |lines|);
    if lo <= hi then lines[..lo] + Replacement(lines[lo..hi], t) + lines[hi..] else lines
  }

  predicate Numbered(ts: seq<Transformation>) { forall k | 0 <= k < |ts| :: ts[k].site.start >= 1 }

  function SpliceAll(lines: seq<string>, ts: seq<Transformation>): seq<string>
    requires Numbered(ts)
  {
    if ts == [] then lines else SpliceOne(SpliceAll(lines, ts[..|ts| - 1]), ts[|ts| - 1])
  }

  /** `sort(key=start, reverse=True)`, which keeps the order of equal keys. */
  function InsertByStart(t: Transformation, ts: seq<Transformation>): (r: seq<Transformation>)
    ensures multiset(r) == multiset(ts) + multiset{t}
  {
    if ts == [] || t.site.start >= ts[0].site.start then [t] + ts
    else
      assert ts == [ts[0]] + ts[1..];
      [ts[0]] + InsertByStart(t, ts[1..])
  }

  function SortByStart(ts: seq<Transformation>): (r: seq<Transformation>)
    ensures multiset(r) == multiset(ts)
  {
    if ts == [] then []
    else
      assert ts == [ts[0]] + ts[1..];
      InsertByStart(ts[0], SortByStart(ts[1..]))
  }

  predicate Descending(ts: seq<Transformation>) {
    forall i, j | 0 <= i < j < |ts| :: ts[i].site.start >= ts[j].site.start
  }

  lemma {:induction false} InsertDescending(t: Transformation, ts: seq<Transformation>)
    requires Descending(ts)
    ensures Descending(InsertByStart(t, ts))
  {
    if ts != [] && t.site.start < ts[0].site.start {
      InsertDescending(t, ts[1..]);
      var r := InsertByStart(t, ts[1..]);
      forall j | 0 <= j < |r| ensures r[j].site.start <= ts[0].site.start { InsertMembers(t, ts[1..], r[j]); }
    }
  }

  lemma {:induction false} SortDescending(ts: seq<Transformation>)
    ensures Descending(SortByStart(ts))
  {
    if ts != [] {
      SortDescending(ts[1..]);
      InsertDescending(ts[0], SortByStart(ts[1..]));
    }
  }

  lemma SortNumbered(ts: seq<Transformation>)
    requires Numbered(ts)
    ensures Numbered(SortByStart(ts))
  {
    var r := SortByStart(ts);
    forall k | 0 <= k < |r| ensures r[k].site.start >= 1 { SortMembers(ts, r[k]); }
  }

  // ----- all replacements at once -----

  predicate Apart(t: Transformation, u: Transformation) {
    t.site.end < u.site.start || u.site.end < t.site.start
  }

  predicate Fits(t: Transformation, n: nat) { 1 <= t.site.start <= t.site.end <= n }

  /** The ranges lie within `n` lines and no two of them overlap. */
  predicate Disjoint(ts: seq<Transformation>, n: nat) {
    && (forall k | 0 <= k < |ts| :: Fits(ts[k], n))
    && forall i, j | 0 <= i < j < |ts| :: Apart(ts[i], ts[j])
  }

  ghost predicate DisjointSet(ts: set<Transformation>, n: nat) {
    && (forall t | t in ts :: Fits(t, n))
    && forall t, u | t in ts && u in ts && t != u :: Apart(t, u)
  }

  function Elements(ts: seq<Transformation>): set<Transformation> { set t | t in ts }

  ghost predicate StartsIn(ts: set<Transformation>, i: int) { exists t | t in ts :: t.site.start == i + 1 }

  /** The simultaneous substitution: each covered range of the original lines gives
      way to its replacement, every other line stays. It depends on the set of
      transformations only, not on their order. */
  ghost function Substituted(lines: seq<string>, ts: set<Transformation>, i: nat): seq<string>
    requires i <= |lines| && DisjointSet(ts, |lines|)
    decreases |lines| - i
  {
    if i == |lines| then []
    else if StartsIn(ts, i) then
      var t :| t in ts && t.site.start == i + 1;
      Replacement(lines[i..t.site.end], t) + Substituted(lines, ts, t.site.end)
    else [lines[i]] + Substituted(lines, ts, i + 1)
  }

  lemma SubstitutedAt(lines: seq<string>, ts: set<Transformation>, t: Transformation)
    requires DisjointSet(ts, |lines|) && t in ts
    ensures var i := t.site.start - 1;
            Substituted(lines, ts, i) == Replacement(lines[i..t.site.end], t) + Substituted(lines, ts, t.site.end)
  {
    var i := t.site.start - 1;
    assert StartsIn(ts, i);
    forall u | u in ts && u.site.start == i + 1 ensures u == t {
      assert !Apart(u, t);
    }
  }

  lemma NothingLeft(lines: seq<string>, ts: set<Transformation>)
    requires DisjointSet(ts, |lines|)
    ensures Substituted(lines, ts, |lines|) == []
  {
  }

  lemma SubstitutedSkips(lines: seq<string>, ts: set<Transformation>, i: nat)
    requires i < |lines| && DisjointSet(ts, |lines|) && !StartsIn(ts, i)
    ensures Substituted(lines, ts, i) == [lines[i]] + Substituted(lines, ts, i + 1)
  {
    hide Replacement, Apart, DisjointSet, StartsIn;
  }

  /** Lines before the next range are copied. */
  lemma {:induction false} SubstitutedCopies(lines: seq<string>, ts: set<Transformation>, i: nat, b: nat)
    requires i <= b <= |lines| && DisjointSet(ts, |lines|) && forall k | i <= k < b :: !StartsIn(ts, k)
    ensures Substituted(lines, ts, i) == lines[i..b] + Substituted(lines, ts, b)
    decreases b - i
  {
    hide Substituted, DisjointSet, StartsIn;
    if i < b {
      SubstitutedSkips(lines, ts, i);
      SubstitutedCopies(lines, ts, i + 1, b);
      assert lines[i..b] == [lines[i]] + lines[i + 1..b];
    }
  }

  /** A range that starts earlier does not matter further on. */
  lemma {:induction false} SubstitutedIgnores(lines: seq<string>, ts: set<Transformation>, t: Transformation, i: nat)
    requires i <= |lines| && t.site.start <= i && DisjointSet(ts + {t}, |lines|)
    ensures Substituted(lines, ts + {t}, i) == Substituted(lines, ts, i)
    decreases |lines| - i
  {
    hide Replacement, Apart, Substituted;
    if i == |lines| {
      NothingLeft(lines, ts);
      NothingLeft(lines, ts + {t});
    } else {
      if StartsIn(ts, i) {
        var u :| u in ts && u.site.start == i + 1;
        SubstitutedAt(lines, ts, u);
        SubstitutedAt(lines, ts + {t}, u);
        SubstitutedIgnores(lines, ts, t, u.site.end);
      } else {
        assert !StartsIn(ts + {t}, i);
        SubstitutedIgnores(lines, ts, t, i + 1);
        SubstitutedCopies(lines, ts, i, i + 1);
        SubstitutedCopies(lines, ts + {t}, i, i + 1);
      }
    }
  }

  /** Where the untouched part of the list ends: below the last range spliced. */
  function Frontier(ts: seq<Transformation>, n: nat): int {
    if ts == [] then n else ts[|ts| - 1].site.start - 1
  }

  lemma SliceOfUntouched(lines: seq<string>, b: nat, tail: seq<string>, i: nat, e: nat)
    requires i <= e <= b <= |lines|
    ensures var current := lines[..b] + tail;
            current[..i] == lines[..i] && current[i..e] == lines[i..e] && current[e..] == lines[e..b] + tail
  {
  }

  /** Splicing one more range, below all ranges done so far. */
  lemma SpliceBelow(lines: seq<string>, done: set<Transformation>, t: Transformation, b: nat, current: seq<string>)
    requires DisjointSet(done + {t}, |lines|) && t.site.end <= b <= |lines|
    requires forall u | u in done :: u.site.start > b
    requires current == lines[..b] + Substituted(lines, done, b)
    ensures var i := t.site.start - 1;
            SpliceOne(current, t) == lines[..i] + Substituted(lines, done + {t}, i)
  {
    hide Replacement, Apart, Substituted;
    assert t in done + {t} && Fits(t, |lines|);
    var i, e := t.site.start - 1, t.site.end;
    SubstitutedCopies(lines, done, e, b);
    SubstitutedAt(lines, done + {t}, t);
    SubstitutedIgnores(lines, done, t, e);
    var tail := Substituted(lines, done, b);
    SliceOfUntouched(lines, b, tail, i, e);
    var r := Replacement(lines[i..e], t);
    assert lines[..i] + r + (lines[e..b] + tail) == lines[..i] + (r + (lines[e..b] + tail));
  }

  lemma PrefixFacts(ts: seq<Transformation>, n: nat)
    requires ts != [] && Descending(ts) && Disjoint(ts, n)
    ensures var before, t := ts[..|ts| - 1], ts[|ts| - 1];
            Descending(before) && Disjoint(before, n) && Fits(t, n) && Elements(ts) == Elements(before) + {t}
  {
    hide Apart;
    assert ts == ts[..|ts| - 1] + [ts[|ts| - 1]];
  }

  /** In descending order each range ends below the ranges before it. */
  lemma LastIsBelow(ts: seq<Transformation>, n: nat)
    requires ts != [] && Descending(ts) && Disjoint(ts, n)
    ensures var b := Frontier(ts[..|ts| - 1], n);
            ts[|ts| - 1].site.end <= b <= n && forall u | u in Elements(ts[..|ts| - 1]) :: u.site.start > b
  {
    var before, t := ts[..|ts| - 1], ts[|ts| - 1];
    if before != [] { assert Apart(ts[|ts| - 2], t); }
  }

  lemma {:induction false} DescendingSplices(lines: seq<string>, ts: seq<Transformation>)
    requires Numbered(ts) && Descending(ts) && Disjoint(ts, |lines|)
    ensures DisjointSet(Elements(ts), |lines|) && 0 <= Frontier(ts, |lines|) <= |lines|
    ensures var b := Frontier(ts, |lines|);
            SpliceAll(lines, ts) == lines[..b] + Substituted(lines, Elements(ts), b)
  {
    hide SpliceOne, Apart, Disjoint, DisjointSet, Descending, Substituted, Replacement;
    DisjointElements(ts, |lines|);
    if ts == [] {
      NothingLeft(lines, Elements(ts));
      assert lines == lines[..|lines|] + [];
    } else {
      var before, t := ts[..|ts| - 1], ts[|ts| - 1];
      PrefixFacts(ts, |lines|);
      LastIsBelow(ts, |lines|);
      DescendingSplices(lines, before);
      SpliceBelow(lines, Elements(before), t, Frontier(before, |lines|), SpliceAll(lines, before));
    }
  }

  lemma DisjointElements(ts: seq<Transformation>, n: nat)
    requires Disjoint(ts, n)
    ensures DisjointSet(Elements(ts), n)
  {
    forall t, u | t in Elements(ts) && u in Elements(ts) && t != u ensures Apart(t, u) {
      var i :| 0 <= i < |ts| && ts[i] == t;
      var j :| 0 <= j < |ts| && ts[j] == u;
      assert i < j ==> Apart(ts[i], ts[j]);
      assert j < i ==> Apart(ts[j], ts[i]);
    }
  }

  lemma InsertMembers(t: Transformation, ts: seq<Transformation>, u: Transformation)
    ensures u in InsertByStart(t, ts) <==> u == t || u in ts
  {
    assert u in InsertByStart(t, ts) <==> u in multiset(InsertByStart(t, ts));
  }

  lemma SortMembers(ts: seq<Transformation>, u: Transformation)
    ensures u in SortByStart(ts) <==> u in ts
  {
    assert u in SortByStart(ts) <==> u in multiset(SortByStart(ts));
  }

  lemma {:induction false} InsertDisjoint(t: Transformation, ts: seq<Transformation>, n: nat)
    requires Disjoint(ts, n) && Fits(t, n) && forall u | u in ts :: Apart(t, u)
    ensures Disjoint(InsertByStart(t, ts), n)
  {
    if ts != [] && t.site.start < ts[0].site.start {
      var r := InsertByStart(t, ts[1..]);
      InsertDisjoint(t, ts[1..], n);
      forall k | 0 <= k < |r| ensures Apart(ts[0], r[k]) && Fits(r[k], n) {
        InsertMembers(t, ts[1..], r[k]);
        assert Apart(t, ts[0]);
        if r[k] != t {
          var j :| 0 <= j < |ts[1..]| && ts[1..][j] == r[k];
          assert Apart(ts[0], ts[j + 1]);
        }
      }
    }
  }

  lemma {:induction false} SortDisjoint(ts: seq<Transformation>, n: nat)
    requires Disjoint(ts, n)
    ensures Disjoint(SortByStart(ts), n)
  {
    if ts != [] {
      SortDisjoint(ts[1..], n);
      forall u | u in SortByStart(ts[1..]) ensures Apart(ts[0], u) {
        SortMembers(ts[1..], u);
        var j :| 0 <= j < |ts[1..]| && ts[1..][j] == u;
        assert Apart(ts[0], ts[j + 1]);
      }
      InsertDisjoint(ts[0], SortByStart(ts[1..]), n);
    }
  }

  /** For disjoint ranges in any order the bottom-up splice loop is the
      simultaneous substitution. */
  lemma SplicingIsSubstitution(lines: seq<string>, ts: seq<Transformation>)
    requires Disjoint(ts, |lines|)
    ensures Numbered(SortByStart(ts)) && DisjointSet(Elements(ts), |lines|)
    ensures SpliceAll(lines, SortByStart(ts)) == Substituted(lines, Elements(ts), 0)
  {
    hide SpliceAll, Substituted, SortByStart;
    var sorted := SortByStart(ts);
    SortNumbered(ts);
    SortDescending(ts);
    DisjointElements(ts, |lines|);
    SortDisjoint(ts, |lines|);
    SortElements(ts);
    DescendingSplices(lines, sorted);
    var b := Frontier(sorted, |lines|);
    FrontierIsLowest(sorted, |lines|);
    SubstitutedCopies(lines, Elements(sorted), 0, b);
    assert lines[0..b] == lines[..b];
  }

  lemma SortElements(ts: seq<Transformation>)
    ensures Elements(SortByStart(ts)) == Elements(ts)
  {
    forall t ensures t in SortByStart(ts) <==> t in ts { SortMembers(ts, t); }
  }

  lemma FrontierIsLowest(ts: seq<Transformation>, n: nat)
    requires Descending(ts) && Disjoint(ts, n)
    ensures forall k | 0 <= k < Frontier(ts, n) :: !StartsIn(Elements(ts), k)
  {
    forall t | t in ts ensures t.site.start > Frontier(ts, n) {
      var j :| 0 <= j < |ts| && ts[j] == t;
    }
  }

  /** The splice loop of `transform_file_content`. */
  method SpliceCalls(content: seq<string>, transformations: seq<Transformation>) returns (lines: seq<string>)
    requires Numbered(transformations)
    ensures Numbered(SortByStart(transformations)) && lines == SpliceAll(content, SortByStart(transformations))
  {
    hide SortByStart, CallContent, NewCall, Concat, SpacePrefix;
    lines := content;
    var sorted := SortByStart(transformations);
    SortNumbered(transformations);
    for k := 0 to |sorted|
      invariant lines == SpliceAll(content, sorted[..k])
    {
      var t := sorted[k];
      assert sorted[..k + 1][..k] == sorted[..k];
      var lo, hi := Min(t.site.start - 1, |lines|), Min(t.site.end, |lines|);
      if lo <= hi {
        var original := lines[lo..hi];
        var message := CallContent(Concat(original));
        if original != [] && message != "" {
          var newCall := NewCall(Spaces(SpacePrefix(original[0])), t.site.level, t.code, message);
          lines := lines[..lo] + [newCall] + lines[hi..];
        } else {
          assert lines == lines[..lo] + original + lines[hi..];
        }
      }
    }
    assert sorted[..|sorted|] == sorted;
  }

  /** Any two listings of the same disjoint ranges give the same lines. */
  lemma SpliceOrderIrrelevant(lines: seq<string>, ts: seq<Transformation>, us: seq<Transformation>)
    requires Disjoint(ts, |lines|) && Disjoint(us, |lines|) && Elements(ts) == Elements(us)
    ensures Numbered(SortByStart(ts)) && Numbered(SortByStart(us))
    ensures SpliceAll(lines, SortByStart(ts)) == SpliceAll(lines, SortByStart(us))
  {
    SplicingIsSubstitution(lines, ts);
    SplicingIsSubstitution(lines, us);
  }
}
