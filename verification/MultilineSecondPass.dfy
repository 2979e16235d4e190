/** `MultiLineLoggingFixer` run twice over the same file. */
module MultilineSecondPass {
  import opened Text
  import opened Brackets
  import opened ExtraDict
  import opened CorrelationUpdater
  import opened PlainScanner
  import opened MultilineFixer

  /** A second pass takes the segment's lines again as they are, with `rest` behind them: as
      one call that ends with them and needs no fix, or line by line, where no line but an
      open first one is a candidate. */
  predicate Settled(s: Segment, rest: seq<string>)
    requires s.result != []
  {
    var r := s.result;
    if !IsCandidate(r[0]) then forall k | 0 <= k < |r| :: !IsCandidate(r[k])
    else
      match CallEnd(FRESH, r + rest, 0)
      case None => forall k | 0 < k < |r| :: !IsCandidate(r[k])
      case Some(e) => e == |r| - 1 && (HasCorrelationId(Join(r)) || Fixed(Join(r), TEXTS) == Join(r))
  }

  /** Nothing is rewritten in these lines. */
  predicate Quiet(lines: seq<string>) {
    Results(Segments(lines)) == lines && Rewritten(Segments(lines)) == 0
  }

  lemma KeptThenQuiet(lines: seq<string>, n: nat)
    requires 0 < n <= |lines| && FirstSegment(lines) == Kept(lines[..n]) && Quiet(lines[n..])
    ensures Quiet(lines)
  {
    hide FirstSegment;
    var tail := Segments(lines[n..]);
    assert Segments(lines) == [Kept(lines[..n])] + tail && Segments(lines)[1..] == tail;
    assert lines == lines[..n] + lines[n..];
  }

  lemma {:induction false} SettledThenQuiet(r: seq<string>, rest: seq<string>)
    requires (forall k | 0 <= k < |r| :: !IsCandidate(r[k])) && Quiet(rest)
    ensures Quiet(r + rest)
  {
    hide IsCandidate, Quiet, Segments, Fixed;
    var lines := r + rest;
    if r == [] {
      assert lines == rest;
    } else {
      assert lines[0] == r[0] && lines[1..] == r[1..] + rest;
      SettledThenQuiet(r[1..], rest);
      KeptThenQuiet(lines, 1);
    }
  }

  lemma SegmentStaysQuiet(s: Segment, rest: seq<string>)
    requires s.result != [] && Settled(s, rest) && Quiet(rest)
    ensures Quiet(s.result + rest)
  {
    hide IsCandidate, HasCorrelationId, Quiet, Fixed, CallEnd;
    var r := s.result;
    var lines := r + rest;
    assert lines[0] == r[0];
    if !IsCandidate(r[0]) {
      SettledThenQuiet(r, rest);
    } else if CallEnd(FRESH, lines, 0).None? {
      assert lines[1..] == r[1..] + rest;
      SettledThenQuiet(r[1..], rest);
      KeptThenQuiet(lines, 1);
    } else {
      assert lines[..|r|] == r && lines[|r|..] == rest;
      KeptThenQuiet(lines, |r|);
    }
  }

  ghost predicate AllSettled(ss: seq<Segment>) {
    ss == [] || (AllSettled(ss[1..]) && ss[0].result != [] && Settled(ss[0], Results(ss[1..])))
  }

  lemma {:induction false} SettledResultsQuiet(ss: seq<Segment>)
    requires AllSettled(ss)
    ensures Quiet(Results(ss))
  {
    hide Settled, Quiet;
    if ss == [] {
      NoLinesQuiet();
    } else {
      SettledResultsQuiet(ss[1..]);
      SegmentStaysQuiet(ss[0], Results(ss[1..]));
    }
  }

  lemma NoLinesQuiet()
    ensures Quiet([])
  {
  }

  /** A second pass over a file changes nothing if the first one left every segment
      settled: a call that still starts at a candidate line ends with its segment or stays
      open, and no other line of a segment that is walked line by line is a candidate. */
  lemma SecondPassChangesNothing(lines: seq<string>)
    requires AllSettled(Segments(lines))
    ensures var once := Results(Segments(lines));
            Results(Segments(once)) == once && Rewritten(Segments(once)) == 0
  {
    hide AllSettled, Segments, Results, Rewritten;
    SettledResultsQuiet(Segments(lines));
  }

  /** Otherwise it can change something: behind a first line that carries the id, a
      further line of the same call that is itself a call gets an argument of its own. */
  lemma SecondPassRewrites(first: string, second: string)
    requires !IsCandidate(first) && IsCandidate(second) && PlainClose(FRESH, second) >= 0
    requires !HasCorrelationId(second) && Fixed(second, TEXTS) != second
    ensures Results(Segments([first, second])) == [first] + Split(Fixed(second, TEXTS)) && Rewritten(Segments([first, second])) == 1
  {
    hide IsCandidate, HasCorrelationId, Fixed, PlainClose, Split;
    var lines := [first, second];
    assert lines[..1] == [first] && lines[1..] == [second] && [second][..1] == [second] && [second][1..] == [] && Join([second]) == second;
    var s := Segment([second], Split(Fixed(second, TEXTS)), true);
    assert CallEnd(FRESH, [second], 0) == Some(0);
    assert FirstSegment([second]) == s && FirstSegment(lines) == Kept([first]);
    OneMoreSegment([second], s, []);
    OneMoreSegment(lines, Kept([first]), [s]);
  }

  const CALL_START := "logger.info("
  const INNER := "logger.info())"

  /** The lines of a call with a dict and, in its second line, another call as a value. */
  function Nested(dict: string): seq<string> { [CALL_START + dict + ", a=", INNER] }

  lemma EmptyDictFound(tail: string)
    ensures FindExtra(CALL_START + "extra={}" + tail, 0) == Some(Match(12, 18, 20))
  {
    var s := CALL_START + "extra={}" + tail;
    var m := Match(12, 18, 20);
    var t := s[12..20];
    assert t == "extra={}";
    assert Head(t, 5, 6);
    assert IsDict(t, 6);
    assert IsMatch(s, m) && MatchStartsAt(s, 12);
    hide IsMatch, MatchStartsAt, FindExtra;
    forall k: nat | k < 12 ensures !MatchStartsAt(s, k) {
      MatchHead(s, k);
      assert s[k] == CALL_START[k] && (k < 11 ==> s[k + 1] == CALL_START[k + 1]);
      assert s[12] == 'e' && s[4] == 'e' && s[5] == 'r';
    }
    FoundWhere(s, m);
  }

  lemma NestedText(dict: string)
    ensures Join(Nested(dict)) == CALL_START + dict + (", a=\n" + INNER)
  {
    var lines := Nested(dict);
    assert lines[1..] == [INNER] && ", a=\n" == ", a=" + ['\n'];
    assert Join([INNER]) == INNER;
    assert Join(lines) == (CALL_START + dict + ", a=") + (['\n'] + INNER);
  }

  lemma NestedFixed()
    ensures Fixed(Join(Nested("extra={}")), TEXTS) == Join(Nested(TEXTS.dict)) && !HasCorrelationId(Join(Nested("extra={}")))
  {
    hide Nested, Join, FindExtra, TextsFor, WithMergedExtra, FindCall;
    var tail := ", a=\n" + INNER;
    var call := CALL_START + "extra={}" + tail;
    var m := Match(12, 18, 20);
    NestedText("extra={}");
    NestedText(TEXTS.dict);
    MissingCharacter(call, "correlation_id", '_');
    assert At(call, 12, "extra=");
    EmptyDictFound(tail);
    MergeIsEdit(call, m, TEXTS);
    assert Items(call, m) == "";
    assert Apply(call, Edit(12, 20, TEXTS.dict)) == CALL_START + TEXTS.dict + tail by {
      assert call[..12] == CALL_START && call[20..] == tail;
    }
  }

  lemma CallIsFound(tail: string)
    ensures HasLoggerCall(CALL_START + tail)
  {
    hide FindCall;
    var line := CALL_START + tail;
    assert line[0..11] == "logger." + "info" && line[11..][0] == '(';
    assert CallAt(line, "info", 0) == 11;
    assert FindCall(line, "info", 0) == 11 by { FoundAtOnce(line, "info"); }
  }

  lemma FoundAtOnce(line: string, level: string)
    requires line != [] && CallAt(line, level, 0) >= 0
    ensures FindCall(line, level, 0) == CallAt(line, level, 0)
  {
  }

  lemma {:induction false} PlainInert(l: Lex, s: string)
    requires InertText(s)
    ensures PlainRun(l, s) == l && PlainClose(l, s) < 0
    decreases s
  {
    if s != [] {
      assert Inert(s[0]);
      PlainInert(l, s[1..]);
    }
  }

  lemma PlainParen(l: Lex, t: string, m: Lex)
    requires l.quote.None? && l.depth >= 0 && t != [] && t[0] == '(' && m == l.(depth := l.depth + 1)
    ensures PlainRun(l, t) == PlainRun(m, t[1..])
    ensures PlainClose(l, t) < 0 <==> PlainClose(m, t[1..]) < 0
  {
    assert PlainStep(l, t[0]) == m;
  }

  /** Reading up to a call's own parenthesis, and what follows it. */
  lemma PlainCall(l: Lex, name: string, rest: string)
    requires l.quote.None? && l.depth >= 0 && InertText(name)
    ensures var m: Lex := l.(depth := l.depth + 1);
            && PlainRun(l, name + (['('] + rest)) == PlainRun(m, rest)
            && (PlainClose(l, name + (['('] + rest)) < 0 <==> PlainClose(m, rest) < 0)
  {
    hide PlainRun, PlainClose, InertText;
    PlainInert(l, name);
    PlainConcat(l, name, ['('] + rest);
    assert (['('] + rest)[1..] == rest;
    PlainParen(l, ['('] + rest, l.(depth := l.depth + 1));
  }

  lemma CallStartIs(rest: string)
    ensures CALL_START + rest == "logger.info" + (['('] + rest) && InertText("logger.info")
  {
  }

  lemma NestedEnds()
    ensures CallEnd(FRESH, Nested("extra={}"), 0) == Some(1)
    ensures PlainClose(FRESH, INNER) >= 0
  {
    hide PlainRun, PlainClose;
    var rest := "extra={}, a=";
    var lines := Nested("extra={}");
    assert lines[0] == CALL_START + rest && lines[1] == INNER == CALL_START + "))";
    OuterStaysOpen(rest);
    InnerCloses();
    assert CallEnd(START, lines, 1) == Some(1);
  }

  lemma OuterStaysOpen(rest: string)
    requires InertText(rest)
    ensures PlainClose(FRESH, CALL_START + rest) < 0 && PlainRun(FRESH, CALL_START + rest) == START
  {
    hide PlainRun, PlainClose, InertText;
    CallStartIs(rest);
    PlainCall(FRESH, "logger.info", rest);
    PlainInert(START, rest);
  }

  lemma InnerCloses()
    ensures PlainClose(FRESH, CALL_START + "))") >= 0 && PlainClose(START, CALL_START + "))") >= 0
  {
    hide PlainRun, PlainClose, InertText;
    CallStartIs("))");
    PlainCall(FRESH, "logger.info", "))");
    PlainCall(START, "logger.info", "))");
    TwoParens();
  }

  lemma TwoParens()
    ensures PlainClose(START, "))") == 0 && PlainClose(Lex(None, false, 2), "))") == 1
  {
    assert "))"[1..] == [')'];
  }

  /** The first pass over the two lines fills the dict. */
  lemma FirstPass()
    ensures Results(Segments(Nested("extra={}"))) == Nested(TEXTS.dict)
  {
    hide IsCandidate, Fixed, CallEnd, Segments, Results, HasCorrelationId, TextsFor, Nested, Join, Split;
    var lines := Nested("extra={}");
    OuterIsCandidate();
    NestedEnds();
    NestedFixed();
    NestedSplits();
    NestedDiffers();
    assert |lines| == 2 by { NestedLength("extra={}"); }
    assert lines[..2] == lines && lines[2..] == [];
    var s := Segment(lines, Nested(TEXTS.dict), true);
    assert FirstSegment(lines) == s;
    NoSegments();
    OneMoreSegment(lines, s, []);
  }

  lemma NestedLength(dict: string)
    ensures |Nested(dict)| == 2
  {
  }

  lemma OuterIsCandidate()
    ensures IsCandidate(Nested("extra={}")[0])
  {
    hide HasLoggerCall, Contains;
    var line := Nested("extra={}")[0];
    CallIsFound("extra={}" + ", a=");
    assert line == CALL_START + ("extra={}" + ", a=");
    MissingCharacter(line, "correlation_id", '_');
  }

  lemma NestedDiffers()
    ensures Join(Nested("extra={}")) != Join(Nested(TEXTS.dict))
  {
    hide Nested, Join, TextsFor;
    NestedText("extra={}");
    NestedText(TEXTS.dict);
    LongerDict();
  }

  lemma NoSegments()
    ensures Segments([]) == [] && Results([]) == []
  {
  }

  lemma LongerDict()
    ensures |TEXTS.dict| > 8
  {
  }

  lemma NestedSplits()
    ensures Split(Join(Nested(TEXTS.dict))) == Nested(TEXTS.dict)
  {
    hide Split, Join, Carries;
    TextsCarry();
    DictOneLine();
    OneLineConcat(CALL_START, TEXTS.dict);
    OneLineConcat(CALL_START + TEXTS.dict, ", a=");
    SplitJoin(Nested(TEXTS.dict));
  }

  lemma DictOneLine()
    ensures OneLine(TEXTS.dict)
  {
    hide Contains;
    TextsCarry();
  }

  /** A second pass is not harmless: over these two lines it adds a second argument. */
  lemma SecondPassCanInsert()
    ensures var once := Results(Segments(Nested("extra={}"))); Results(Segments(once)) != once
  {
    hide HasLoggerCall, Contains, Fixed, CallEnd, Segments, Results, HasCorrelationId, TextsFor, PlainClose, Split;
    FirstPass();
    var first := CALL_START + TEXTS.dict + ", a=";
    FilledLineIsDone();
    assert INNER == CALL_START + "))";
    CallIsFound("))");
    MissingCharacter(INNER, "correlation_id", '_');
    InnerGetsArgument();
    NestedEnds();
    SecondPassRewrites(first, INNER);
    InnerSplits();
    assert ([first] + Split(Fixed(INNER, TEXTS)))[1..] == Split(Fixed(INNER, TEXTS));
    assert Nested(TEXTS.dict) == [first, INNER] && [first, INNER][1..] == [INNER];
  }

  lemma FilledLineIsDone()
    ensures !IsCandidate(CALL_START + TEXTS.dict + ", a=")
  {
    hide HasLoggerCall, Contains, Carries;
    TextsCarry();
    CarriesInside(CALL_START, TEXTS.dict, ", a=");
  }

  lemma InnerGetsArgument()
    ensures Fixed(INNER, TEXTS) != INNER && !HasCorrelationId(INNER)
  {
    hide Contains, FindExtra, TextsFor;
    MissingCharacter(INNER, "correlation_id", '_');
    MissingCharacter(INNER, "extra=", '=');
    TextsMatter();
  }

  lemma InnerSplits()
    ensures Split(Fixed(INNER, TEXTS)) != [INNER]
  {
    hide Fixed, Split, Join;
    InnerGetsArgument();
    JoinSplit(Fixed(INNER, TEXTS));
    OneJoined(INNER);
  }

  lemma OneJoined(line: string)
    ensures Join([line]) == line
  {
  }
}
