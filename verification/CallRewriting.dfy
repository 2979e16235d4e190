/** `migrate_to_format_error_log.py`: the text of a rewritten call. */
module CallRewriting {
  import opened Text
  import opened Brackets
  import opened BalancedText

  predicate IsWord(c: char) {
    'a' <= c <= 'z' || 'A' <= c <= 'Z' || '0' <= c <= '9' || c == '_'
  }

  function WordPrefix(s: string): (n: nat)
    ensures n <= |s| && (forall k | 0 <= k < n :: IsWord(s[k])) && (n < |s| ==> !IsWord(s[n]))
  {
    if s == [] || !IsWord(s[0]) then 0 else 1 + WordPrefix(s[1..])
  }

  /** End of a match of `logger\.\w+\s*\(` that starts at `i`, or -1. */
  function LoggerCallAt(s: string, i: nat): (r: int)
    ensures r == -1 || (i < r <= |s| && s[r - 1] == '(')
  {
    if !At(s, i, "logger.") then -1
    else
      var w := i + 7 + WordPrefix(s[i + 7..]);
      var p := w + SpacePrefix(s[w..]);
      if w > i + 7 && p < |s| && s[p] == '(' then p + 1 else -1
  }

  /** End of the leftmost match at or after `i`, or -1. */
  function FindLoggerCall(s: string, i: nat): (r: int)
    ensures r == -1 || (i < r <= |s| && s[r - 1] == '(')
    decreases |s| - i
  {
    if i >= |s| then -1
    else if LoggerCallAt(s, i) >= 0 then LoggerCallAt(s, i)
    else FindLoggerCall(s, i + 1)
  }

  /** `extract_logger_call_content`. */
  function CallContent(call: string): string {
    var start := FindLoggerCall(call, 0);
    if start < 0 then ""
    else
      var rest := call[start..];
      Strip(rest[..MatchingParenAfter(rest, 0)])
  }

  /** `build_new_logger_call`. */
  function NewCall(indent: string, level: string, code: string, message: string): string {
    indent + "logger." + level + "(" + NewArguments(indent, code, message)
  }

  function NewArguments(indent: string, code: string, message: string): string {
    ("format_error_log" + ['(', '\n'])
    + (indent + "    \"" + code + "\",\n")
    + (indent + "    " + message + "\n")
    + (indent + "))\n")
  }

  lemma InertEnds(l: Lex, lead: string, message: string, trail: string)
    requires !l.escaped && InertText(lead) && InertText(trail) && Neutral(l, lead + (message + trail))
    ensures FirstClose(l, message) < 0 && Run(l, message).(escaped := false) == l
  {
    RunInert(l, lead);
    FirstCloseConcat(l, lead, message + trail);
    RunConcat(l, lead, message + trail);
    FirstCloseConcat(l, message, trail);
    RunConcat(l, message, trail);
    RunInert(Run(l, message), trail);
  }

  lemma SpaceIsInert(s: string)
    requires forall k | 0 <= k < |s| :: IsSpace(s[k])
    ensures InertText(s)
  {
  }

  lemma StripSplits(content: string) returns (lead: string, trail: string)
    ensures content == lead + (Strip(content) + trail) && InertText(lead) && InertText(trail)
  {
    hide IsSpace, InertText, TrimmedLength, SpacePrefix;
    var n := TrimmedLength(content);
    var t := content[..n];
    var k := SpacePrefix(t);
    lead, trail := t[..k], content[n..];
    SpaceIsInert(lead);
    SpaceIsInert(trail);
    assert content == t + trail && t == lead + Strip(content);
  }

  /** Stripping a balanced text leaves at most a dangling backslash, which the
      next character, if inert, takes up. */
  lemma StrippedIsNeutral(l: Lex, content: string, next: string)
    requires !l.escaped && Neutral(l, content) && InertText(next) && next != ""
    ensures Neutral(l, Strip(content) + next)
  {
    var lead, trail := StripSplits(content);
    InertEnds(l, lead, Strip(content), trail);
    RunInert(Run(l, Strip(content)), next);
    SeqConcat(l, Strip(content), next);
  }

  /** What a balanced text between the parentheses of a call allows: the wrapped
      call closes at its very end. */
  lemma WrappedArgumentsClose(indent: string, code: string, content: string)
    requires InertText(indent) && QuotedBody('"', code) && Neutral(Lex(None, false, 2), content)
    ensures var args := NewArguments(indent, code, Strip(content));
            FirstClose(START, args) == |args| - 2
  {
    var l: Lex := Lex(None, false, 2);
    var name, codeLine, messageLine, closeLine :=
      "format_error_log" + ['(', '\n'], indent + "    \"" + code + "\",\n", indent + "    " + Strip(content) + "\n", indent + "))\n";
    NamePart(START, "format_error_log");
    CodePart(l, indent, code);
    MessagePart(l, indent, content);
    ClosePart(l, indent);
    SeqConcat(START, name, codeLine);
    SeqConcat(START, name + codeLine, messageLine);
    FirstCloseConcat(START, name + codeLine + messageLine, closeLine);
  }

  lemma NamePart(l: Lex, name: string)
    requires l.quote.None? && !l.escaped && InertText(name)
    ensures FirstClose(l, name + ['(', '\n']) < 0 && Run(l, name + ['(', '\n']) == l.(depth := l.depth + 1)
  {
    RunInert(l, name);
    RunOne(l, '(');
    RunOne(Step(l, '('), '\n');
    SeqConcat(l, ['('], ['\n']);
    assert ['('] + ['\n'] == ['(', '\n'];
    SeqConcat(l, name, ['(', '\n']);
  }

  lemma CodePart(l: Lex, indent: string, code: string)
    requires l.quote.None? && !l.escaped && InertText(indent) && QuotedBody('"', code)
    ensures Neutral(l, indent + "    \"" + code + "\",\n")
  {
    RunInert(l, indent + "    ");
    RunQuotedBody('"', code, l.depth);
    NeutralAround(l, '"', Step(l, '"'), code, '"');
    RunInert(l, ",\n");
    NeutralConcat(l, indent + "    ", ['"'] + code + ['"']);
    NeutralConcat(l, indent + "    " + (['"'] + code + ['"']), ",\n");
    assert indent + "    " + (['"'] + code + ['"']) + ",\n" == indent + "    \"" + code + "\",\n";
  }

  lemma MessagePart(l: Lex, indent: string, content: string)
    requires !l.escaped && InertText(indent) && Neutral(l, content)
    ensures Neutral(l, indent + "    " + Strip(content) + "\n")
  {
    RunInert(l, indent + "    ");
    StrippedIsNeutral(l, content, "\n");
    NeutralConcat(l, indent + "    ", Strip(content) + "\n");
    assert indent + "    " + (Strip(content) + "\n") == indent + "    " + Strip(content) + "\n";
  }

  lemma ClosePart(l: Lex, indent: string)
    requires l == Lex(None, false, 2) && InertText(indent)
    ensures FirstClose(l, indent + "))\n") == |indent| + 1
  {
    RunInert(l, indent);
    FirstCloseConcat(l, indent, "))\n");
    RunOne(l, ')');
    FirstCloseConcat(l, [')'], ")\n");
    assert [')'] + ")\n" == "))\n";
  }

  lemma ContentIsNeutral(rest: string)
    requires MatchingParenAfter(rest, 0) > 0
    ensures Neutral(Lex(None, false, 2), rest[..MatchingParenAfter(rest, 0)])
  {
    assert rest[0..] == rest;
    var q := FirstClose(START, rest);
    CloseIffBalanced(rest, q);
    var f :| WellFormed(f) && Render(f) == rest[..q];
    RunForest(f, 2);
  }

  lemma WordIsSkipped(level: string, rest: string)
    requires level != "" && (forall k | 0 <= k < |level| :: IsWord(level[k]))
    ensures LoggerCallAt("logger." + (level + (['('] + rest)), 0) == 7 + |level| + 1
  {
    var s := "logger." + (level + (['('] + rest));
    assert s[7..] == level + (['('] + rest);
    assert s[7..][|level|] == '(';
    var w := WordPrefix(s[7..]);
    assert w == |level|;
    assert s[7 + w..] == ['('] + rest;
  }

  lemma CallAtShifts(a: string, s: string)
    requires LoggerCallAt(s, 0) >= 0
    ensures LoggerCallAt(a + s, |a|) == |a| + LoggerCallAt(s, 0)
  {
    hide WordPrefix, SpacePrefix;
    var t, i := a + s, |a|;
    assert t[i..i + 7] == s[0..7] && t[i + 7..] == s[7..];
    var w := WordPrefix(s[7..]);
    assert t[i + 7 + w..] == s[7 + w..];
  }

  lemma {:induction false} IndentIsSkipped(n: nat, s: string, i: nat)
    requires s != "" && LoggerCallAt(s, 0) >= 0 && i <= n
    ensures FindLoggerCall(Spaces(n) + s, i) == n + LoggerCallAt(s, 0)
    decreases n - i
  {
    var t := Spaces(n) + s;
    if i == n {
      CallAtShifts(Spaces(n), s);
    } else {
      if At(t, i, "logger.") { AtHead(t, i, "logger."); }
      IndentIsSkipped(n, s, i + 1);
    }
  }

  function Spaces(n: nat): (s: string)
    ensures |s| == n && InertText(s) && forall k | 0 <= k < n :: s[k] == ' '
  {
    seq(n, _ => ' ')
  }

  predicate IsName(s: string) { s != "" && forall k | 0 <= k < |s| :: IsWord(s[k]) }

  /** The arguments of a rewritten call, without the last parenthesis and the newline. */
  function Wrapped(indent: string, code: string, message: string): (s: string)
    ensures NewArguments(indent, code, message) == s + ")\n"
  {
    var args := NewArguments(indent, code, message);
    assert args[|args| - 2..] == ")\n";
    args[..|args| - 2]
  }

  /** A rewritten call is again one balanced call, also with more text behind it: its own
      parenthesis closes at the last character before its final newline, whatever the
      original held and for every code that can stand in a string literal. */
  lemma RewrittenCallIsBalanced(n: nat, level: string, code: string, call: string, behind: string)
    requires IsName(level) && QuotedBody('"', code) && CallContent(call) != ""
    ensures var new_ := NewCall(Spaces(n), level, code, CallContent(call));
            && FindLoggerCall(new_ + behind, 0) == n + 8 + |level|
            && MatchingParenAfter(new_ + behind, n + 8 + |level|) == |new_| - (n + 8 + |level|) - 2
  {
    hide FindLoggerCall, FirstClose, NewArguments, Strip, MatchingParenAfter;
    var args := NewArguments(Spaces(n), code, CallContent(call));
    RewrittenArgumentsClose(n, code, call);
    FirstCloseConcat(START, args, behind);
    CallParses(n, level, args + behind);
    assert NewCall(Spaces(n), level, code, CallContent(call)) + behind == Spaces(n) + "logger." + level + "(" + (args + behind);
    MatchesBehind(Spaces(n) + "logger." + level + "(", args + behind);
  }

  lemma RewrittenArgumentsClose(n: nat, code: string, call: string)
    requires QuotedBody('"', code) && CallContent(call) != ""
    ensures var args := NewArguments(Spaces(n), code, CallContent(call)); FirstClose(START, args) == |args| - 2 >= 0
  {
    hide FindLoggerCall, FirstClose, NewArguments;
    var rest := call[FindLoggerCall(call, 0)..];
    var content := rest[..MatchingParenAfter(rest, 0)];
    assert MatchingParenAfter(rest, 0) > 0 by { assert Strip("") == ""; }
    ContentIsNeutral(rest);
    WrappedArgumentsClose(Spaces(n), code, content);
    assert NewArguments(Spaces(n), code, CallContent(call)) == Wrapped(Spaces(n), code, CallContent(call)) + ")\n";
  }

  lemma MatchesBehind(head: string, rest: string)
    ensures var q := FirstClose(START, rest);
            MatchingParenAfter(head + rest, |head|) == if q < 0 then 0 else q
  {
    hide FirstClose;
    assert (head + rest)[|head|..] == rest;
  }

  lemma CallParses(n: nat, level: string, args: string)
    requires IsName(level)
    ensures FindLoggerCall(Spaces(n) + "logger." + level + "(" + args, 0) == n + 8 + |level|
  {
    hide FindLoggerCall, LoggerCallAt;
    WordIsSkipped(level, args);
    var s := "logger." + (level + (['('] + args));
    IndentIsSkipped(n, s, 0);
    assert Spaces(n) + "logger." + level + "(" + args == Spaces(n) + s;
  }

  /** What is extracted from a rewritten call, whatever follows it: its wrapped arguments. */
  lemma RewrittenContent(n: nat, level: string, code: string, call: string, behind: string)
    requires IsName(level) && QuotedBody('"', code) && CallContent(call) != ""
    ensures CallContent(NewCall(Spaces(n), level, code, CallContent(call)) + behind) == Wrapped(Spaces(n), code, CallContent(call))
    ensures Wrapped(Spaces(n), code, CallContent(call)) != ""
  {
    hide FindLoggerCall, MatchingParenAfter, Strip, Wrapped, CallContent, NewCall;
    var message := CallContent(call);
    var text := NewCall(Spaces(n), level, code, message) + behind;
    var start := n + 8 + |level|;
    RewrittenCallIsBalanced(n, level, code, call, behind);
    RewrittenText(n, level, code, message);
    var w := Wrapped(Spaces(n), code, message);
    assert text[start..] == w + (")\n" + behind);
    SameFromStart(text, start);
    assert (w + (")\n" + behind))[..|w|] == w;
    ContentFrom(text, start, |w|);
    WrappedIsStripped(Spaces(n), code, message);
  }

  lemma RewrittenText(n: nat, level: string, code: string, message: string)
    ensures NewCall(Spaces(n), level, code, message)
         == Spaces(n) + "logger." + level + "(" + (Wrapped(Spaces(n), code, message) + ")\n")
  {
    hide NewArguments, Wrapped;
  }

  lemma SameFromStart(text: string, start: nat)
    requires start <= |text|
    ensures MatchingParenAfter(text[start..], 0) == MatchingParenAfter(text, start)
  {
    hide FirstClose;
    assert text[start..][0..] == text[start..];
  }

  lemma ContentFrom(text: string, start: nat, q: nat)
    requires FindLoggerCall(text, 0) == start && MatchingParenAfter(text[start..], 0) == q <= |text[start..]|
    ensures CallContent(text) == Strip(text[start..][..q])
  {
    hide FindLoggerCall, MatchingParenAfter, Strip;
  }

  lemma WrappedIsStripped(indent: string, code: string, message: string)
    ensures var w := Wrapped(indent, code, message); w != "" && Strip(w) == w
  {
    var args, w := NewArguments(indent, code, message), Wrapped(indent, code, message);
    assert args == w + ")\n" && args[0] == 'f' && args[|args| - 3] == ')';
    assert |w| > 0 && w[0] == 'f' && w[|w| - 1] == ')';
    NothingToStrip(w);
  }

  lemma NothingToStrip(w: string)
    requires w != "" && !IsSpace(w[0]) && !IsSpace(w[|w| - 1])
    ensures Strip(w) == w
  {
    assert w[..|w|] == w && w[0..] == w;
  }

  /** A code without quote and backslash can stand in a string literal. */
  lemma {:induction false} PlainCode(code: string)
    requires '"' !in code && '\\' !in code
    ensures QuotedBody('"', code)
  {
    if code != [] {
      assert code[0] in code;
      PlainCode(code[1..]);
    }
  }

  /** A code that ends in a backslash cannot: the rewritten call is never closed. */
  lemma BackslashCodeStaysOpen()
    ensures FirstClose(START, NewArguments("", "\\", "1")) == -1
  {
    hide FirstClose, Run;
    var name, rest := "format_error_log" + ['(', '\n'], ",\n    1\n))\n";
    assert NewArguments("", "\\", "1") == name + ("    " + (['"', '\\', '"'] + rest));
    NamePart(START, "format_error_log");
    FirstCloseConcat(START, name, "    " + (['"', '\\', '"'] + rest));
    RunInert(Lex(None, false, 2), "    ");
    FirstCloseConcat(Lex(None, false, 2), "    ", ['"', '\\', '"'] + rest);
    PlainCode(rest);
    LiteralStaysOpen(rest);
  }

  lemma LiteralStaysOpen(rest: string)
    requires QuotedBody('"', rest)
    ensures FirstClose(Lex(None, false, 2), ['"', '\\', '"'] + rest) == -1
  {
    hide FirstClose, Run;
    EscapedQuote();
    FirstCloseConcat(Lex(None, false, 2), ['"', '\\', '"'], rest);
    RunQuotedBody('"', rest, 2);
  }

  lemma EscapedQuote()
    ensures Run(Lex(None, false, 2), ['"', '\\', '"']) == Lex(Some('"'), false, 2)
    ensures FirstClose(Lex(None, false, 2), ['"', '\\', '"']) == -1
  {
    var t := ['"', '\\', '"'];
    assert t[1..] == ['\\', '"'] && t[1..][1..] == ['"'] && t[1..][1..][1..] == [];
  }

  // ----- what a rewritten line keeps -----

  lemma {:induction false} PrefixIs(s: string, n: nat)
    requires n < |s| && !IsSpace(s[n]) && forall k | 0 <= k < n :: IsSpace(s[k])
    ensures SpacePrefix(s) == n
    decreases n
  {
    if n > 0 { PrefixIs(s[1..], n - 1); }
  }

  lemma {:induction false} WordIs(s: string, n: nat)
    requires n < |s| && !IsWord(s[n]) && forall k | 0 <= k < n :: IsWord(s[k])
    ensures WordPrefix(s) == n
    decreases n
  {
    if n > 0 { WordIs(s[1..], n - 1); }
  }

  /** Text behind a call does not change where it is found. */
  lemma CallAtKept(s: string, tail: string)
    requires LoggerCallAt(s, 0) >= 0
    ensures LoggerCallAt(s + tail, 0) == LoggerCallAt(s, 0)
  {
    hide WordPrefix, SpacePrefix;
    var t := s + tail;
    var w := 7 + WordPrefix(s[7..]);
    var p := w + SpacePrefix(s[w..]);
    assert t[0..7] == s[0..7];
    assert forall k | 0 <= k < |s| :: t[k] == s[k];
    WordIs(t[7..], w - 7);
    PrefixIs(t[w..], p - w);
  }

  lemma {:induction false} FindSkips(t: string, i: nat, j: nat)
    requires i <= j < |t| && LoggerCallAt(t, j) >= 0 && forall k | i <= k < j :: LoggerCallAt(t, k) < 0
    ensures FindLoggerCall(t, i) == LoggerCallAt(t, j)
    decreases j - i
  {
    hide LoggerCallAt;
    if i < j { FindSkips(t, i + 1, j); }
  }

  /** The content of the first call of a text, whatever stands around it. */
  lemma ContentIgnoresAround(lead: string, call: string, tail: string)
    requires LoggerCallAt(call, 0) >= 0 && CallContent(call) != ""
    requires forall k | 0 <= k < |lead| :: LoggerCallAt(lead + (call + tail), k) < 0
    ensures CallContent(lead + (call + tail)) == CallContent(call)
  {
    hide LoggerCallAt, FirstClose, FindLoggerCall, Strip;
    var text, start := lead + (call + tail), LoggerCallAt(call, 0);
    CallAtKept(call, tail);
    CallAtShifts(lead, call + tail);
    FindSkips(text, 0, |lead|);
    FindSkips(call, 0, 0);
    var rest := call[start..];
    assert text[|lead| + start..] == rest + tail;
    assert rest[0..] == rest && (rest + tail)[0..] == rest + tail;
    EmptyStrips();
    var q := FirstClose(START, rest);
    FirstCloseConcat(START, rest, tail);
    assert q >= 0 ==> (rest + tail)[..q] == rest[..q];
  }

  lemma EmptyStrips()
    ensures Strip("") == ""
  {
  }
}
