/** `MultiLineLoggingFixer`: finds logging calls that span several lines and
    splices the fixed call back into the list of lines while walking it. */
module MultilineFixer {
  import opened Text
  import opened Brackets
  import opened ExtraDict
  import opened CorrelationUpdater
  import opened PlainScanner

  // ----- fixing one call -----

  predicate HasCorrelationId(call: string) {
    Contains(call, "correlation_id") && Contains(call, "get_correlation_id")
  }

  /** `call.rfind(")")`. */
  function LastParen(s: string): (r: int)
    ensures -1 <= r < |s| && (r >= 0 ==> s[r] == ')')
    ensures forall k | r < k < |s| :: s[k] != ')'
  {
    if s == [] then -1 else if s[|s| - 1] == ')' then |s| - 1 else LastParen(s[..|s| - 1])
  }

  /** `fix_logging_call`. */
  function Fixed(call: string, x: Texts): string {
    if HasCorrelationId(call) then call
    else if !Contains(call, "extra=") then
      var p := LastParen(call);
      if p == -1 then call else call[..p] + x.argument + call[p..]
    else
      match FindExtra(call, 0)
      case None => call
      case Some(m) => WithMergedExtra(call, m, x)
  }

  /** The single edit a fix amounts to. */
  function FixEdit(call: string, x: Texts): (r: Option<Edit>)
    ensures r.Some? ==> InRange(r.value, call)
  {
    if HasCorrelationId(call) then None
    else if !Contains(call, "extra=") then
      var p := LastParen(call);
      if p == -1 then None else Some(Edit(p, p, x.argument))
    else
      match FindExtra(call, 0)
      case None => None
      case Some(m) => Some(MergeEdit(call, m, x))
  }

  lemma FixIsEdit(call: string, x: Texts)
    requires x.argument != "" && x.item != "" && !InertText(x.dict)
    ensures var r := FixEdit(call, x);
            if r.None? then Fixed(call, x) == call
            else
              && Fixed(call, x) == Apply(call, r.value) != call
              && r.value.text in {x.argument, x.item, x.dict}
              && (r.value.from < r.value.to ==> r.value.text == x.dict && InertText(call[r.value.from..r.value.to]))
  {
    hide HasCorrelationId, Contains, Strip;
    if !HasCorrelationId(call) {
      if !Contains(call, "extra=") {
        assert LastParen(call) >= 0 ==> |Fixed(call, x)| > |call|;
      } else if FindExtra(call, 0).Some? {
        var m := FindExtra(call, 0).value;
        MergeIsEdit(call, m, x);
        MergeChanges(call, m, x);
        MergedText(call, m, x);
      }
    }
  }

  /** Where a fix lands. A new argument goes in front of the last `)` of the text, so it
      lands between the parentheses of the call at `open` exactly when no other `)`
      follows the call's own; a merged dict lands there if it stands there, and not if it
      stands outside. */
  lemma FixLandsInside(call: string, open: nat, x: Texts)
    requires MatchingParen(call, open) >= 0 && FixEdit(call, x).Some?
    ensures
      var e, close := FixEdit(call, x).value, MatchingParen(call, open);
      var inside := open < e.from && e.to <= close;
      if !Contains(call, "extra=") then inside <==> forall k | close < k < |call| :: call[k] != ')'
      else
        FindExtra(call, 0).Some? &&
        var m := FindExtra(call, 0).value;
        && (open < m.start && m.end <= close ==> inside)
        && (m.end <= open || close < m.start ==> !inside)
  {
    hide HasCorrelationId, Contains, Strip, FindExtra, FirstClose;
    ClosesWithParen(call, open);
  }

  lemma ClosesWithParen(text: string, open: nat)
    ensures var q := MatchingParen(text, open); q >= 0 ==> open < q < |text| && text[q] == ')'
  {
    if open < |text| {
      FirstCloseMeaning(START, text[open + 1..]);
      var q := FirstClose(START, text[open + 1..]);
      assert q >= 0 ==> IsFirstClose(START, text[open + 1..], q);
    }
  }

  lemma MissingCharacter(s: string, pattern: string, c: char)
    requires c in pattern && c !in s
    ensures !Contains(s, pattern)
  {
  }

  /** With another call behind it on the line, the argument goes to that one. */
  lemma FixCanMissTheCall()
    ensures var call := "logger.info(); f()";
            && MatchingParen(call, 11) == 12
            && FixEdit(call, TEXTS) == Some(Edit(17, 17, TEXTS.argument))
  {
    hide Contains, FindExtra, TextsFor;
    var call := "logger.info(); f()";
    MissingCharacter(call, "correlation_id", '_');
    MissingCharacter(call, "extra=", '=');
    assert call[12..][0] == ')';
  }

  /** What a text must be for a fixed call to count as done. */
  predicate Carries(t: string) {
    Contains(t, "correlation_id") && Contains(t, "get_correlation_id") && OneLine(t)
  }

  lemma CarriesInside(a: string, t: string, b: string)
    requires Carries(t)
    ensures HasCorrelationId(a + t + b)
  {
    hide Contains;
    ContainsMiddle(a, t, b);
    ContainsTransitive(a + t + b, t, "correlation_id");
    ContainsTransitive(a + t + b, t, "get_correlation_id");
  }

  lemma OneLineConcat(a: string, b: string)
    requires OneLine(a) && OneLine(b)
    ensures OneLine(a + b)
  {
  }

  lemma PairCarries(a: string, id: string, c: string, d: string)
    requires OneLine(a) && OneLine(id) && OneLine(c) && OneLine(d)
    requires Contains(c, "get_correlation_id")
    ensures Carries(a + (id + c) + d)
  {
    hide Contains;
    var t := a + (id + c) + d;
    assert t == (a + id) + c + d;
    ContainsMiddle(a + id, c, d);
    ContainsTransitive(t, c, "get_correlation_id");
    assert "get_correlation_id" == "get_" + "correlation_id" + "";
    ContainsMiddle("get_", "correlation_id", "");
    ContainsTransitive(t, "get_correlation_id", "correlation_id");
    OneLineConcat(id, c);
    OneLineConcat(a, id + c);
    OneLineConcat(a + (id + c), d);
  }

  lemma TextsCarry()
    ensures Carries(TEXTS.argument) && Carries(TEXTS.item) && Carries(TEXTS.dict)
  {
    hide Carries, Contains;
    var c := ": get_correlation_id" + ['(', ')'];
    assert Contains(c, "get_correlation_id") by {
      assert c == ": " + "get_correlation_id" + ['(', ')'];
      ContainsMiddle(": ", "get_correlation_id", ['(', ')']);
    }
    PairCarries(", extra={", QUOTED_ID, c, "}");
    PairCarries("extra={", QUOTED_ID, c, "}");
    PairCarries(", ", QUOTED_ID, c, "");
    assert TEXTS.item + "" == TEXTS.item;
  }

  /** Every fix that changes the call leaves it with the id. */
  lemma FixedHasId(call: string)
    requires Fixed(call, TEXTS) != call
    ensures HasCorrelationId(Fixed(call, TEXTS))
  {
    hide Fixed, FixEdit, HasCorrelationId, Carries;
    TextsMatter();
    TextsCarry();
    FixIsEdit(call, TEXTS);
    var e := FixEdit(call, TEXTS).value;
    CarriesInside(call[..e.from], e.text, call[e.to..]);
  }

  /** Fixing a call twice is fixing it once. */
  lemma FixIdempotent(call: string)
    ensures Fixed(Fixed(call, TEXTS), TEXTS) == Fixed(call, TEXTS)
  {
    if Fixed(call, TEXTS) != call { FixedHasId(call); }
  }

  lemma {:induction false} SplitCount(s: string)
    ensures |Split(s)| == 1 + Newlines(s)
  {
    if s != [] { SplitCount(s[1..]); }
  }

  /** A fix never adds lines: it removes exactly the newlines of the blank dict it
      fills. */
  lemma FixLineCount(call: string)
    ensures var r := FixEdit(call, TEXTS);
            |Split(Fixed(call, TEXTS))| ==
              |Split(call)| - (if r.None? then 0 else Newlines(call[r.value.from..r.value.to]))
  {
    hide Fixed, FixEdit, HasCorrelationId, Contains, Split;
    TextsMatter();
    TextsCarry();
    FixIsEdit(call, TEXTS);
    SplitCount(call);
    SplitCount(Fixed(call, TEXTS));
    if FixEdit(call, TEXTS).Some? {
      var e := FixEdit(call, TEXTS).value;
      NoNewlines(e.text);
      EditNewlines(call, e);
    }
  }

  lemma EditNewlines(s: string, e: Edit)
    requires InRange(e, s)
    ensures Newlines(Apply(s, e)) + Newlines(s[e.from..e.to]) == Newlines(s) + Newlines(e.text)
  {
    var a, was, b := s[..e.from], s[e.from..e.to], s[e.to..];
    assert s == a + (was + b) && Apply(s, e) == a + (e.text + b);
    NewlinesConcat(a, was + b);
    NewlinesConcat(was, b);
    NewlinesConcat(a, e.text + b);
    NewlinesConcat(e.text, b);
  }

  // ----- the walk over the lines -----

  /** `logger\.(error|warning|exception|info|debug|critical)\s*\(` occurs in the line. */
  predicate HasLoggerCall(line: string) {
    || FindCall(line, "error", 0) >= 0 || FindCall(line, "warning", 0) >= 0
    || FindCall(line, "exception", 0) >= 0 || FindCall(line, "info", 0) >= 0
    || FindCall(line, "debug", 0) >= 0 || FindCall(line, "critical", 0) >= 0
  }

  predicate IsCandidate(line: string) { HasLoggerCall(line) && !Contains(line, "correlation_id") }

  /** Consecutive lines and what becomes of them. */
  datatype Segment = Segment(original: seq<string>, result: seq<string>, rewritten: bool)

  function Kept(lines: seq<string>): Segment { Segment(lines, lines, false) }

  /** The first segment of the lines still to be walked. */
  function FirstSegment(lines: seq<string>): (s: Segment)
    requires lines != []
    ensures 1 <= |s.original| <= |lines| && s.original == lines[..|s.original|]
    ensures !s.rewritten ==> s.result == s.original
  {
    if !IsCandidate(lines[0]) then Kept(lines[..1])
    else
      match CallEnd(FRESH, lines, 0)
      case None => Kept(lines[..1])
      case Some(e) =>
        var span := lines[..e + 1];
        var fixed := Fixed(Join(span), TEXTS);
        if HasCorrelationId(Join(span)) || fixed == Join(span) then Kept(span)
        else Segment(span, Split(fixed), true)
  }

  /** The walk as a partition of the original lines into kept and rewritten segments. */
  function Segments(lines: seq<string>): seq<Segment>
    decreases |lines|
  {
    if lines == [] then []
    else
      var s := FirstSegment(lines);
      [s] + Segments(lines[|s.original|..])
  }

  function Originals(ss: seq<Segment>): seq<string> {
    if ss == [] then [] else ss[0].original + Originals(ss[1..])
  }

  function Results(ss: seq<Segment>): seq<string> {
    if ss == [] then [] else ss[0].result + Results(ss[1..])
  }

  function Rewritten(ss: seq<Segment>): nat {
    if ss == [] then 0 else (if ss[0].rewritten then 1 else 0) + Rewritten(ss[1..])
  }

  class MultiLineLoggingFixer {
    var callsFixed: nat

    constructor ()
      ensures callsFixed == 0
    {
      callsFixed := 0;
    }

    /** The in-place loop yields the results of the segments, one after another;
        the counter grows by the number of rewritten ones. */
    method ProcessLines(input: seq<string>) returns (lines: seq<string>, modified: bool)
      modifies this
      ensures lines == Results(Segments(input))
      ensures callsFixed == old(callsFixed) + Rewritten(Segments(input))
      ensures modified <==> callsFixed > old(callsFixed)
    {
      hide IsCandidate, HasCorrelationId, Fixed, CallEnd, Split, Join, Walked, Results, Segments, Rewritten;
      lines, modified := input, false;
      var i := 0;
      ghost var fixedSoFar := 0;
      WalkStarts(input);
      while i < |lines|
        invariant 0 <= i <= |lines| && Walked(input, lines, i, fixedSoFar)
        invariant callsFixed == old(callsFixed) + fixedSoFar
        invariant modified <==> fixedSoFar > 0
        decreases |lines| - i
      {
        WalkStep(input, lines, i, fixedSoFar);
        if IsCandidate(lines[i]) {
          var end := FindFunctionCallEnd(lines, i);
          if end.None? {
            i := i + 1;
            continue;
          }
          var callText := Join(lines[i..end.value + 1]);
          assert lines[i..][..end.value + 1 - i] == lines[i..end.value + 1];
          if HasCorrelationId(callText) {
            i := end.value + 1;
            continue;
          }
          var fixedText := Fixed(callText, TEXTS);
          if fixedText != callText {
            var fixedLines := Split(fixedText);
            lines := lines[..i] + fixedLines + lines[end.value + 1..];
            modified, callsFixed, fixedSoFar := true, callsFixed + 1, fixedSoFar + 1;
            i := i + |fixedLines|;
          } else {
            i := end.value + 1;
          }
        } else {
          i := i + 1;
        }
      }
      WalkEnds(input, lines, fixedSoFar);
    }
  }

  /** The finished part of `lines`, followed by what the segments of the rest will
      yield, is what the segments of the input yield. */
  ghost predicate Walked(input: seq<string>, lines: seq<string>, i: nat, fixedSoFar: nat)
    requires i <= |lines|
  {
    && lines[..i] + Results(Segments(lines[i..])) == Results(Segments(input))
    && fixedSoFar + Rewritten(Segments(lines[i..])) == Rewritten(Segments(input))
  }

  lemma WalkStarts(input: seq<string>)
    ensures Walked(input, input, 0, 0)
  {
    assert input[0..] == input && input[..0] + Results(Segments(input)) == Results(Segments(input));
  }

  lemma WalkEnds(input: seq<string>, lines: seq<string>, fixedSoFar: nat)
    requires Walked(input, lines, |lines|, fixedSoFar)
    ensures lines == Results(Segments(input)) && fixedSoFar == Rewritten(Segments(input))
  {
    assert lines[|lines|..] == [] && lines[..|lines|] + [] == lines;
  }

  lemma OneMoreSegment(lines: seq<string>, s: Segment, tail: seq<Segment>)
    requires lines != [] && FirstSegment(lines) == s && Segments(lines[|s.original|..]) == tail
    ensures Segments(lines) == [s] + tail
    ensures Originals(Segments(lines)) == s.original + Originals(tail)
    ensures Results(Segments(lines)) == s.result + Results(tail)
    ensures Rewritten(Segments(lines)) == (if s.rewritten then 1 else 0) + Rewritten(tail)
  {
    hide FirstSegment;
    assert ([s] + tail)[1..] == tail;
  }

  /** One turn: the first segment's result joins the finished part. */
  lemma WalkStep(input: seq<string>, lines: seq<string>, i: nat, fixedSoFar: nat)
    requires i < |lines| && Walked(input, lines, i, fixedSoFar)
    ensures var s := FirstSegment(lines[i..]);
            && (!s.rewritten ==> Walked(input, lines, i + |s.original|, fixedSoFar))
            && (s.rewritten ==> Walked(input, lines[..i] + s.result + lines[i + |s.original|..], i + |s.result|, fixedSoFar + 1))
  {
    hide FirstSegment, Segments, Results, Rewritten;
    var rest, s := lines[i..], FirstSegment(lines[i..]);
    var n := |s.original|;
    assert rest[n..] == lines[i + n..];
    var tail := Segments(lines[i + n..]);
    OneMoreSegment(rest, s, tail);
    assert lines[..i] + Results(Segments(rest)) == (lines[..i] + s.result) + Results(tail);
    if s.rewritten {
      var next, j := lines[..i] + s.result + lines[i + n..], i + |s.result|;
      assert next[..j] == lines[..i] + s.result && next[j..] == lines[i + n..];
    } else {
      assert lines[..i + n] == lines[..i] + rest[..n];
    }
  }

  // ----- what the walk guarantees -----

  /** The segments cover the original lines, in order and without gaps. */
  lemma {:induction false} SegmentsPartition(lines: seq<string>)
    ensures Originals(Segments(lines)) == lines
    decreases |lines|
  {
    if lines != [] {
      hide FirstSegment, Segments, Originals;
      var s := FirstSegment(lines);
      var n := |s.original|;
      SegmentsPartition(lines[n..]);
      OneMoreSegment(lines, s, Segments(lines[n..]));
      assert lines == lines[..n] + lines[n..];
    }
  }

  /** A kept segment is unchanged. A rewritten one starts at a candidate line, spans
      at most `MAX_MULTILINE_SPAN + 1` lines, carries the id afterwards, and loses
      exactly the newlines of the blank dict that was filled. */
  predicate Lawful(s: Segment) {
    if !s.rewritten then s.result == s.original
    else
      var call := Join(s.original);
      && 1 <= |s.original| <= MAX_MULTILINE_SPAN + 1 && IsCandidate(s.original[0])
      && Join(s.result) == Fixed(call, TEXTS) && HasCorrelationId(Join(s.result))
      && FixEdit(call, TEXTS).Some?
      && var e := FixEdit(call, TEXTS).value;
         && |s.result| == |s.original| - Newlines(call[e.from..e.to])
         && (e.from < e.to ==> InertText(call[e.from..e.to]))
  }

  lemma RewrittenIsLawful(span: seq<string>)
    requires 1 <= |span| <= MAX_MULTILINE_SPAN + 1 && OneLineEach(span) && IsCandidate(span[0])
    requires Fixed(Join(span), TEXTS) != Join(span)
    ensures Lawful(Segment(span, Split(Fixed(Join(span), TEXTS)), true))
  {
    hide Fixed, FixEdit, HasCorrelationId, IsCandidate, Split, Join, Newlines, InertText, Apply;
    var call := Join(span);
    TextsMatter();
    FixIsEdit(call, TEXTS);
    FixedHasId(call);
    FixLineCount(call);
    JoinSplit(Fixed(call, TEXTS));
    SplitJoin(span);
  }

  lemma FirstIsLawful(lines: seq<string>)
    requires lines != [] && OneLineEach(lines)
    ensures Lawful(FirstSegment(lines))
  {
    hide Lawful, Fixed, HasCorrelationId, IsCandidate;
    var s := FirstSegment(lines);
    if s.rewritten {
      assert s.original[0] == lines[0];
      RewrittenIsLawful(s.original);
    } else {
      KeptIsLawful(s.original);
    }
  }

  lemma KeptIsLawful(lines: seq<string>)
    ensures Lawful(Kept(lines))
  {
  }

  lemma {:induction false} SegmentsAreLawful(lines: seq<string>)
    requires OneLineEach(lines)
    ensures forall k | 0 <= k < |Segments(lines)| :: Lawful(Segments(lines)[k])
    decreases |lines|
  {
    hide Lawful, FirstSegment;
    if lines != [] {
      var n := |FirstSegment(lines).original|;
      FirstIsLawful(lines);
      SegmentsAreLawful(lines[n..]);
    }
  }

  lemma {:induction false} ResultsNeverGrow(ss: seq<Segment>)
    requires forall k | 0 <= k < |ss| :: Lawful(ss[k])
    ensures |Results(ss)| <= |Originals(ss)|
  {
    hide Fixed, FixEdit, HasCorrelationId, IsCandidate, InertText;
    if ss != [] {
      assert Lawful(ss[0]);
      ResultsNeverGrow(ss[1..]);
    }
  }

  /** The list never grows. */
  lemma LineCountNeverGrows(lines: seq<string>)
    requires OneLineEach(lines)
    ensures |Results(Segments(lines))| <= |lines|
  {
    SegmentsAreLawful(lines);
    SegmentsPartition(lines);
    ResultsNeverGrow(Segments(lines));
  }
}
