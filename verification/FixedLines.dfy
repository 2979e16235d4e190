/** What the multi-line fixer finds and writes, spelled out: which lines are candidates, the text
    of a fixed call, and which calls are rewritten. */
module FixedLines {
  import opened Text
  import opened Brackets
  import opened ExtraDict
  import opened CorrelationUpdater
  import opened UpdatedLines
  import opened PlainScanner
  import opened MultilineFixer

  const LEVELS := {"error", "warning", "exception", "info", "debug", "critical"}

  ghost predicate HasCallOf(line: string, level: string) { exists i: nat :: CallStartsAt(line, level, i) }

  lemma HasCallIff(line: string, level: string)
    ensures HasCallOf(line, level) <==> FindCall(line, level, 0) >= 0
  {
    hide FindCall, CallStartsAt;
    FindCallIff(line, level, 0);
  }

  /** A candidate is a line with a call of one of the six levels and without the words. */
  lemma CandidateIff(line: string)
    ensures IsCandidate(line) <==> !Contains(line, "correlation_id") && exists level :: level in LEVELS && HasCallOf(line, level)
  {
    hide FindCall, HasCallOf, Contains;
    forall level ensures HasCallOf(line, level) <==> FindCall(line, level, 0) >= 0 { HasCallIff(line, level); }
  }

  // ----- the text of a fixed call -----

  lemma LastParenIs(s: string, p: nat)
    requires p < |s| && s[p] == ')' && forall k | p < k < |s| :: s[k] != ')'
    ensures LastParen(s) == p
  {
    var r := LastParen(s);
    hide LastParen;
  }

  /** A call without an id and without `extra=` gets the new argument in front of its last
      parenthesis. */
  lemma ArgumentAdded(a: string, b: string)
    requires ')' !in b && !HasCorrelationId(a + ([')'] + b)) && !Contains(a + ([')'] + b), "extra=")
    ensures Fixed(a + ([')'] + b), TEXTS) == a + (ARGUMENT + ([')'] + b))
  {
    hide HasCorrelationId, Contains, FindExtra, TextsFor;
    var s := a + ([')'] + b);
    forall k | |a| < k < |s| ensures s[k] != ')' { assert s[k] == b[k - |a| - 1]; }
    LastParenIs(s, |a|);
    TextsAre();
    assert s[..|a|] == a && s[|a|..] == [')'] + b;
    assert a + ARGUMENT + ([')'] + b) == a + (ARGUMENT + ([')'] + b));
  }

  /** A call without an id gets it merged into its first dict. */
  lemma DictMerged(p: string, w: string, v: string, items: string, q: string)
    requires Blank(w) && Blank(v) && '}' !in items && NoMatchBefore(p + (DictText(w, v, items) + q), |p|)
    requires !HasCorrelationId(p + (DictText(w, v, items) + q)) && Contains(p + (DictText(w, v, items) + q), "extra=")
    ensures Fixed(p + (DictText(w, v, items) + q), TEXTS) == p + (MergedDict(w, v, items, TEXTS) + q)
  {
    hide HasCorrelationId, Contains, FindExtra, TextsFor, NoMatchBefore, Blank, DictText, MergedDict, WithMergedExtra, IsMatch;
    MergedInParts(p, w, v, items, q, TEXTS);
  }

  /** A call has the id exactly if it contains the name of the function that yields it. */
  lemma IdWordsIff(call: string)
    ensures HasCorrelationId(call) <==> Contains(call, "get_correlation_id")
  {
    hide Contains;
    assert Contains("get_correlation_id", "correlation_id") by {
      assert "get_correlation_id" == "get_" + "correlation_id" + "";
      ContainsMiddle("get_", "correlation_id", "");
    }
    if Contains(call, "get_correlation_id") { ContainsTransitive(call, "get_correlation_id", "correlation_id"); }
  }

  /** A call changes exactly when it has no id, and no `extra=` but a parenthesis, or a dict. */
  lemma FixedIff(call: string)
    ensures Fixed(call, TEXTS) != call <==>
              && !Contains(call, "get_correlation_id")
              && if Contains(call, "extra=") then exists k: nat | k <= |call| :: MatchStartsAt(call, k) else ')' in call
  {
    hide HasCorrelationId, Contains, TextsFor, InertText, MatchStartsAt, IsMatch, Apply, Fixed;
    TextsMatter();
    IdWordsIff(call);
    FixIsEdit(call, TEXTS);
    var r := FindExtra(call, 0);
    if r.Some? { FoundStarts(call, r.value); }
    assert LastParen(call) >= 0 ==> call[LastParen(call)] in call;
  }

  // ----- the calls that are rewritten -----

  /** The walk takes a line alone unless it is a candidate whose call ends within the span;
      then it takes the lines of the call, and rewrites them exactly when the call changes. */
  lemma SegmentMeaning(lines: seq<string>)
    requires lines != []
    ensures
      var s, e := FirstSegment(lines), CallEnd(FRESH, lines, 0);
      if !IsCandidate(lines[0]) || e.None? then s == Segment(lines[..1], lines[..1], false)
      else
        var call := Join(lines[..e.value + 1]);
        && s.original == lines[..e.value + 1]
        && (s.rewritten <==> Fixed(call, TEXTS) != call)
        && Join(s.result) == Fixed(call, TEXTS)
  {
    hide IsCandidate, HasCorrelationId, Fixed, CallEnd, Join, Split;
    var e := CallEnd(FRESH, lines, 0);
    if e.Some? {
      var call := Join(lines[..e.value + 1]);
      JoinSplit(Fixed(call, TEXTS));
      IdUnfixed(call);
    }
  }

  lemma IdUnfixed(call: string)
    ensures HasCorrelationId(call) ==> Fixed(call, TEXTS) == call
  {
  }
}
