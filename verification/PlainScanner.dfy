/** The line-by-line scanner of `fix_multiline_logging_calls.py`, which knows quotes and
    parentheses but no backslash, and when it agrees with the other two scanners. */
module PlainScanner {
  import opened Text
  import opened Brackets

  const MAX_MULTILINE_SPAN := 10

  // ----- where a call ends -----

  /** The fixer's scanner knows quotes and parentheses but no backslash. */
  function PlainStep(l: Lex, c: char): Lex {
    if l.quote.Some? then (if c == l.quote.value then l.(quote := None) else l)
    else if IsQuote(c) then l.(quote := Some(c))
    else if c == '(' then l.(depth := l.depth + 1)
    else if c == ')' then l.(depth := l.depth - 1)
    else l
  }

  function PlainRun(l: Lex, s: string): Lex
    decreases s
  {
    if s == [] then l else PlainRun(PlainStep(l, s[0]), s[1..])
  }

  predicate PlainCloses(l: Lex, c: char) { l.quote.None? && c == ')' && l.depth == 1 }

  function PlainClose(l: Lex, s: string): (r: int)
    ensures -1 <= r < |s|
    decreases s
  {
    if s == [] then -1
    else if PlainCloses(l, s[0]) then 0
    else
      var r := PlainClose(PlainStep(l, s[0]), s[1..]);
      if r < 0 then -1 else r + 1
  }

  lemma {:induction false} PlainConcat(l: Lex, a: string, b: string)
    ensures PlainRun(l, a + b) == PlainRun(PlainRun(l, a), b)
    ensures PlainClose(l, a) >= 0 ==> PlainClose(l, a + b) == PlainClose(l, a)
    ensures PlainClose(l, a) < 0 ==>
              PlainClose(l, a + b) == var r := PlainClose(PlainRun(l, a), b); if r < 0 then -1 else |a| + r
    decreases a
  {
    if a == [] {
      assert a + b == b;
    } else {
      PlainConcat(PlainStep(l, a[0]), a[1..], b);
      assert (a + b)[1..] == a[1..] + b;
    }
  }

  const FRESH: Lex := Lex(None, false, 0)

  /** Index of the line in which the call that starts in the first line ends, at
      most `MAX_MULTILINE_SPAN` lines on. */
  function CallEnd(l: Lex, lines: seq<string>, i: nat): (r: Option<nat>)
    ensures r.Some? ==> i <= r.value < |lines| && r.value <= MAX_MULTILINE_SPAN
    decreases |lines| - i
  {
    if i >= |lines| || i > MAX_MULTILINE_SPAN then None
    else if PlainClose(l, lines[i]) >= 0 then Some(i)
    else CallEnd(PlainRun(l, lines[i]), lines, i + 1)
  }

  method FindFunctionCallEnd(lines: seq<string>, start: nat) returns (r: Option<nat>)
    requires start <= |lines|
    ensures var e := CallEnd(FRESH, lines[start..], 0);
            r == if e.None? then None else Some(start + e.value)
  {
    var parenDepth, inString, stringChar := 0, false, None;
    var i := start;
    ghost var suffix := lines[start..];
    while i < |lines|
      invariant start <= i <= |lines|
      invariant (!inString <==> stringChar.None?) && (inString ==> IsQuote(stringChar.value))
      invariant CallEnd(FRESH, suffix, 0) == CallEnd(Lex(stringChar, false, parenDepth), suffix, i - start)
    {
      if i - start > MAX_MULTILINE_SPAN { return None; }
      var line := lines[i];
      assert suffix[i - start] == line;
      ghost var l: Lex := Lex(stringChar, false, parenDepth);
      var k := 0;
      while k < |line|
        invariant 0 <= k <= |line|
        invariant (!inString <==> stringChar.None?) && (inString ==> IsQuote(stringChar.value))
        invariant PlainRun(l, line) == PlainRun(Lex(stringChar, false, parenDepth), line[k..])
        invariant PlainClose(l, line) >= 0 <==> PlainClose(Lex(stringChar, false, parenDepth), line[k..]) >= 0
      {
        var c := line[k];
        assert line[k..][0] == c && line[k..][1..] == line[k + 1..];
        if IsQuote(c) && !inString {
          inString, stringChar := true, Some(c);
        } else if inString && Some(c) == stringChar {
          inString, stringChar := false, None;
        } else if !inString {
          if c == '(' {
            parenDepth := parenDepth + 1;
          } else if c == ')' {
            parenDepth := parenDepth - 1;
            if parenDepth == 0 { return Some(i); }
          }
        }
        k := k + 1;
      }
      i := i + 1;
    }
    return None;
  }

  function Newlines(s: string): nat {
    if s == [] then 0 else (if s[0] == '\n' then 1 else 0) + Newlines(s[1..])
  }

  lemma {:induction false} NewlinesConcat(a: string, b: string)
    ensures Newlines(a + b) == Newlines(a) + Newlines(b)
  {
    if a == [] {
      assert a + b == b;
    } else {
      NewlinesConcat(a[1..], b);
      assert (a + b)[1..] == a[1..] + b;
    }
  }

  lemma {:induction false} NoNewlines(s: string)
    requires OneLine(s)
    ensures Newlines(s) == 0
  {
    if s != [] { assert s[0] in s; NoNewlines(s[1..]); }
  }

  /** Walking the lines one by one finds the line of the first close in the joined
      text, if it is near enough. */
  lemma {:induction false} CallEndIsLineOfClose(l: Lex, lines: seq<string>, i: nat)
    requires i < |lines| && i <= 10 && OneLineEach(lines)
    ensures var text := Join(lines[i..]);
            var q := PlainClose(l, text);
            CallEnd(l, lines, i) ==
              if q >= 0 && i + Newlines(text[..q]) <= 10 then Some(i + Newlines(text[..q])) else None
    decreases |lines| - i
  {
    hide PlainClose, PlainRun, Newlines, Join;
    var line := lines[i];
    JoinFrom(lines, i);
    if i + 1 == |lines| {
      CloseInLine(l, line, "");
      assert line + "" == line;
    } else {
      var rest := Join(lines[i + 1..]);
      CloseInLine(l, line, ['\n'] + rest);
      if PlainClose(l, line) < 0 {
        CloseAfterLine(l, line, rest);
        if i < MAX_MULTILINE_SPAN { CallEndIsLineOfClose(PlainRun(l, line), lines, i + 1); }
      }
    }
  }

  lemma JoinFrom(lines: seq<string>, i: nat)
    requires i < |lines|
    ensures Join(lines[i..]) == if i + 1 == |lines| then lines[i] else lines[i] + (['\n'] + Join(lines[i + 1..]))
  {
    assert lines[i..][1..] == lines[i + 1..];
  }

  lemma NewlineIgnored(m: Lex, rest: string)
    ensures PlainClose(m, ['\n'] + rest) == if PlainClose(m, rest) < 0 then -1 else 1 + PlainClose(m, rest)
  {
    assert (['\n'] + rest)[1..] == rest && PlainStep(m, '\n') == m;
  }

  /** A close after the first line has that line's newline before it. */
  lemma CloseAfterLine(l: Lex, line: string, rest: string)
    requires OneLine(line) && PlainClose(l, line) < 0
    ensures var text := line + (['\n'] + rest);
            var q, p := PlainClose(l, text), PlainClose(PlainRun(l, line), rest);
            (q >= 0 <==> p >= 0) && (q >= 0 ==> Newlines(text[..q]) == 1 + Newlines(rest[..p]))
  {
    var m := PlainRun(l, line);
    PlainConcat(l, line, ['\n'] + rest);
    NewlineIgnored(m, rest);
    hide PlainRun, PlainClose;
    var p := PlainClose(m, rest);
    if p >= 0 {
      assert (line + (['\n'] + rest))[..|line| + 1 + p] == line + (['\n'] + rest[..p]);
      NewlinesConcat(line, ['\n'] + rest[..p]);
      NoNewlines(line);
      assert (['\n'] + rest[..p])[1..] == rest[..p];
    }
  }

  /** A close inside the first line has no newline before it. */
  lemma CloseInLine(l: Lex, line: string, rest: string)
    requires OneLine(line)
    ensures var q := PlainClose(l, line + rest);
            PlainClose(l, line) >= 0 ==> q == PlainClose(l, line) && Newlines((line + rest)[..q]) == 0
  {
    PlainConcat(l, line, rest);
    var q := PlainClose(l, line);
    if q >= 0 {
      assert (line + rest)[..q] == line[..q];
      NoNewlines(line[..q]);
    }
  }

  // ----- when this scanner agrees with the other two -----

  function Unescaped(l: Lex): Lex { l.(escaped := false) }

  /** Up to the close, every character behind an active backslash is one that this
      scanner ignores where it stands. */
  predicate Harmless(l: Lex, s: string)
    decreases s
  {
    if s == [] || Closes(l, s[0]) then true
    else (l.escaped ==> PlainStep(Unescaped(l), s[0]) == Unescaped(l)) && Harmless(Step(l, s[0]), s[1..])
  }

  lemma {:induction false} HarmlessAgrees(l: Lex, s: string)
    requires Harmless(l, s)
    ensures PlainClose(Unescaped(l), s) == FirstClose(l, s)
    decreases s
  {
    if s != [] && !Closes(l, s[0]) { HarmlessAgrees(Step(l, s[0]), s[1..]); }
  }

  /** Where a scan of `s` stops: at the close, or at the end. */
  function ScanEnd(l: Lex, s: string): nat {
    if FirstClose(l, s) < 0 then |s| else FirstClose(l, s)
  }

  /** After `k` characters both scanners are in the same state. */
  predicate InStepAt(l: Lex, s: string, k: nat)
    requires k <= |s|
  {
    PlainRun(Unescaped(l), s[..k]) == Unescaped(Run(l, s[..k]))
  }

  lemma InStepNext(l: Lex, s: string, k: nat)
    requires 0 < k <= |s| && PlainStep(Unescaped(l), s[0]) == Unescaped(Step(l, s[0]))
    ensures InStepAt(l, s, k) <==> InStepAt(Step(l, s[0]), s[1..], k - 1)
  {
    assert s[..k][1..] == s[1..][..k - 1];
  }

  /** The scanners are in the same state all the way to the close exactly when every
      escaped character before it is harmless. */
  lemma {:induction false} InStepIff(l: Lex, s: string)
    ensures Harmless(l, s) <==> forall k | 0 <= k <= ScanEnd(l, s) :: InStepAt(l, s, k)
    decreases s
  {
    hide InStepAt, PlainRun, Run;
    InStepHere(l, s);
    if s != [] && !Closes(l, s[0]) {
      var n, rest := Step(l, s[0]), s[1..];
      InStepIff(n, rest);
      if PlainStep(Unescaped(l), s[0]) == Unescaped(n) {
        forall k | 0 < k <= |s| ensures InStepAt(l, s, k) <==> InStepAt(n, rest, k - 1) { InStepNext(l, s, k); }
        if forall k | 0 <= k <= ScanEnd(l, s) :: InStepAt(l, s, k) {
          forall k | 0 <= k <= ScanEnd(n, rest) ensures InStepAt(n, rest, k) { assert InStepAt(l, s, k + 1); }
        }
      } else {
        assert !InStepAt(l, s, 1);
      }
    }
  }

  lemma InStepHere(l: Lex, s: string)
    ensures InStepAt(l, s, 0)
    ensures s != [] ==> (InStepAt(l, s, 1) <==> PlainStep(Unescaped(l), s[0]) == Unescaped(Step(l, s[0])))
  {
    if s != [] {
      var t := s[..1];
      assert t[0] == s[0] && t[1..] == [];
      assert Run(l, t) == Run(Step(l, s[0]), []) && PlainRun(Unescaped(l), t) == PlainRun(PlainStep(Unescaped(l), s[0]), []);
    }
  }

  /** Without backslashes nothing is escaped. */
  lemma {:induction false} NoBackslashIsHarmless(l: Lex, s: string)
    requires !l.escaped && '\\' !in s
    ensures Harmless(l, s)
    decreases s
  {
    if s != [] {
      assert s[0] in s;
      NoBackslashIsHarmless(Step(l, s[0]), s[1..]);
    }
  }

  /** The scanner starts at the beginning of the line, the others at the call's open
      parenthesis `p`. They find the same close if what stands before the call leaves
      the scanner as it began and the escapes inside are harmless. */
  lemma ScannerAgrees(text: string, p: nat)
    requires p < |text| && text[p] == '('
    requires PlainRun(FRESH, text[..p]) == FRESH && PlainClose(FRESH, text[..p]) < 0
    requires Harmless(START, text[p + 1..])
    ensures PlainClose(FRESH, text) == MatchingParen(text, p)
  {
    FromTheParen(text, p);
    HarmlessAgrees(START, text[p + 1..]);
  }

  /** The scan of a line, taken up behind the open parenthesis. */
  lemma FromTheParen(text: string, p: nat)
    requires p < |text| && text[p] == '('
    ensures PlainClose(FRESH, text[..p]) >= 0 ==> PlainClose(FRESH, text) == PlainClose(FRESH, text[..p])
    ensures PlainClose(FRESH, text[..p]) < 0 && PlainRun(FRESH, text[..p]).quote.None? ==>
              var l := PlainRun(FRESH, text[..p]);
              var r := PlainClose(l.(depth := l.depth + 1), text[p + 1..]);
              PlainClose(FRESH, text) == if r < 0 then -1 else p + 1 + r
  {
    hide PlainRun, PlainClose;
    var before, call := text[..p], text[p..];
    assert text == before + call && call[1..] == text[p + 1..];
    PlainConcat(FRESH, before, call);
    OpensHere(PlainRun(FRESH, before), call);
  }

  lemma OpensHere(l: Lex, call: string)
    requires call != [] && call[0] == '('
    ensures l.quote.None? ==>
              var r := PlainClose(l.(depth := l.depth + 1), call[1..]);
              PlainClose(l, call) == if r < 0 then -1 else 1 + r
  {
  }

  lemma {:induction false} DepthShifts(l: Lex, s: string, d: int)
    ensures PlainRun(l.(depth := l.depth + d), s) == var m := PlainRun(l, s); m.(depth := m.depth + d)
    decreases s
  {
    if s != [] { DepthShifts(PlainStep(l, s[0]), s[1..], d); }
  }

  lemma {:induction false} PlainCloseCloses(l: Lex, s: string)
    ensures var q := PlainClose(l, s); q >= 0 ==> PlainCloses(PlainRun(l, s[..q]), s[q])
    decreases s
  {
    var q := PlainClose(l, s);
    if q > 0 {
      PlainCloseCloses(PlainStep(l, s[0]), s[1..]);
      assert s[..q][1..] == s[1..][..q - 1];
    }
  }

  /** What stands before the call decides: for a call that closes, with harmless escapes
      and no string left open before it, the scanners agree exactly when the text before
      the call closes nothing and leaves no parenthesis open. */
  lemma PrefixDecides(text: string, p: nat)
    requires p < |text| && text[p] == '(' && MatchingParen(text, p) >= 0
    requires Harmless(START, text[p + 1..]) && PlainRun(FRESH, text[..p]).quote.None?
    ensures PlainClose(FRESH, text) == MatchingParen(text, p) <==>
              PlainClose(FRESH, text[..p]) < 0 && PlainRun(FRESH, text[..p]).depth == 0
  {
    hide PlainRun, PlainClose, Harmless, FirstClose;
    var l, args := PlainRun(FRESH, text[..p]), text[p + 1..];
    FromTheParen(text, p);
    HarmlessAgrees(START, args);
    NeverEscaped(FRESH, text[..p]);
    var q := FirstClose(START, args);
    PlainCloseCloses(START, args);
    PlainCloseCloses(START.(depth := START.depth + l.depth), args);
    DepthShifts(START, args[..q], l.depth);
  }

  lemma {:induction false} NeverEscaped(l: Lex, s: string)
    ensures PlainRun(l, s).escaped == l.escaped
    decreases s
  {
    if s != [] { NeverEscaped(PlainStep(l, s[0]), s[1..]); }
  }

  /** An escaped quote that hides a parenthesis: this scanner stops inside the literal. */
  lemma EscapedQuoteMisleads()
    ensures var text := "(\"\\\")\")"; MatchingParen(text, 0) == 6 && PlainClose(FRESH, text) == 4
  {
    var text := "(\"\\\")\")";
    var t := text[1..];
    assert t == ['"', '\\', '"', ')', '"', ')'] && t[1..] == ['\\', '"', ')', '"', ')'] && t[1..][1..] == ['"', ')', '"', ')'];
    assert t[1..][1..][1..] == [')', '"', ')'] && t[1..][1..][1..][1..] == ['"', ')'] && t[1..][1..][1..][1..][1..] == [')'];
  }

  /** Escapes that mislead the scanner twice can cancel: the same close is found although
      the scanners are out of step on the way. */
  lemma TwoEscapesCancel()
    ensures var text := "(\"\\\"x\\\"\")";
            && MatchingParen(text, 0) == 8 == PlainClose(FRESH, text) && !Harmless(START, text[1..])
  {
    var text := "(\"\\\"x\\\"\")";
    var a, b := "\"\\\"x", "\\\"\")";
    assert text[1..] == a + b;
    FirstHalf();
    SecondHalf();
    FirstCloseConcat(START, a, b);
    PlainConcat(START, a, b);
    HarmlessFirst(a, b);
    assert PlainStep(FRESH, '(') == START;
  }

  lemma FirstHalf()
    ensures var a := "\"\\\"x";
            && FirstClose(START, a) == -1 == PlainClose(START, a)
            && Run(START, a) == START.(quote := Some('"')) && PlainRun(START, a) == START
  {
    var a := "\"\\\"x";
    assert a[1..] == ['\\', '"', 'x'] && a[1..][1..] == ['"', 'x'] && a[1..][1..][1..] == ['x'] && a[1..][1..][1..][1..] == [];
  }

  lemma SecondHalf()
    ensures var b := "\\\"\")"; FirstClose(START.(quote := Some('"')), b) == 3 == PlainClose(START, b)
  {
    var b := "\\\"\")";
    assert b[1..] == ['"', '"', ')'] && b[1..][1..] == ['"', ')'] && b[1..][1..][1..] == [')'];
  }

  lemma HarmlessFirst(a: string, b: string)
    requires |a| == 4 && a[0] == '"' && a[1] == '\\' && a[2] == '"'
    ensures !Harmless(START, a + b)
  {
    var t := a + b;
    var u := t[1..][1..];
    assert t[0] == '"' && t[1..][0] == '\\' && u[0] == '"';
    assert !Harmless(Lex(Some('"'), true, 1), u);
    assert !Harmless(Lex(Some('"'), false, 1), t[1..]);
  }
}
