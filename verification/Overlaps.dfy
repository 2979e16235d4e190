/** `migrate_to_format_error_log.py`: what splicing does to calls that overlap. */
module Overlaps {
  import opened Text
  import opened Brackets
  import opened BalancedText
  import opened ErrorCodes
  import opened CallRewriting
  import opened Splicing

  /** The inner call starts behind the outer one and ends within it. */
  predicate Inside(inner: Site, outer: Site, n: nat) {
    1 <= outer.start < inner.start <= inner.end <= outer.end <= n
  }

  /** Where the outer slice ends once the inner call has become one line, in terms of the
      original lines: as many lines beyond the outer call as the inner one gave up. */
  function SwallowEnd(inner: Site, outer: Site, n: nat): (end: nat)
    requires Inside(inner, outer, n)
    ensures outer.end <= end <= n
  {
    Min(outer.end + (inner.end - inner.start), n)
  }

  /** What the outer slice then holds. */
  function OuterSlice(lines: seq<string>, inner: Site, outer: Site, x: string): seq<string>
    requires Inside(inner, outer, |lines|)
  {
    lines[outer.start - 1..inner.start - 1] + [x] + lines[inner.end..SwallowEnd(inner, outer, |lines|)]
  }

  /** The call that replaces a call's own lines. */
  function OwnCall(lines: seq<string>, t: Transformation): string
    requires 1 <= t.site.start <= t.site.end <= |lines|
  {
    var own := lines[t.site.start - 1..t.site.end];
    NewCall(Spaces(SpacePrefix(own[0])), t.site.level, t.code, CallContent(Concat(own)))
  }

  predicate HasContent(lines: seq<string>) { CallContent(Concat(lines)) != "" }

  /** Two calls, spliced in the order the loop takes. */
  function BothSpliced(lines: seq<string>, t: Transformation, u: Transformation): seq<string>
    requires t.site.start >= 1 && u.site.start >= 1
  {
    NumberedPair(t, u);
    SortNumbered([t, u]);
    SpliceAll(lines, SortByStart([t, u]))
  }

  lemma NumberedPair(t: Transformation, u: Transformation)
    requires t.site.start >= 1 && u.site.start >= 1
    ensures Numbered([t, u])
  {
  }

  /** A call inside the range of another: the outer slice, taken afterwards with the old
      line numbers, reaches beyond the outer call's end and swallows the lines there. */
  lemma NestedCallSwallows(lines: seq<string>, outer: Transformation, inner: Transformation, slice: seq<string>)
    requires Inside(inner.site, outer.site, |lines|) && HasContent(lines[inner.site.start - 1..inner.site.end])
    requires slice == OuterSlice(lines, inner.site, outer.site, OwnCall(lines, inner))
    ensures BothSpliced(lines, outer, inner)
         == lines[..outer.site.start - 1] + Replacement(slice, outer) + lines[SwallowEnd(inner.site, outer.site, |lines|)..]
  {
    hide SortByStart, Replacement, OwnCall, HasContent, SpliceOne;
    InsertOuter(outer, inner);
    InnerSpliced(lines, inner);
    OuterSpliced(lines, outer, inner.site, OwnCall(lines, inner));
    assert [inner, outer][..1] == [inner];
  }

  /** If that slice has content, it becomes one line, and what it swallowed is gone. */
  lemma FollowingLinesAreGone(lines: seq<string>, outer: Transformation, inner: Transformation, slice: seq<string>)
    requires Inside(inner.site, outer.site, |lines|) && HasContent(lines[inner.site.start - 1..inner.site.end])
    requires slice == OuterSlice(lines, inner.site, outer.site, OwnCall(lines, inner)) && HasContent(slice)
    ensures
      var s, end := outer.site.start - 1, SwallowEnd(inner.site, outer.site, |lines|);
      var result := BothSpliced(lines, outer, inner);
      |result| == s + 1 + |lines| - end && result[..s] == lines[..s] && result[s + 1..] == lines[end..]
  {
    hide Replacement, OwnCall, HasContent, BothSpliced, SwallowEnd;
    var s, end := outer.site.start - 1, SwallowEnd(inner.site, outer.site, |lines|);
    NestedCallSwallows(lines, outer, inner, slice);
    ReplacedByOne(slice, outer);
    SliceAcross(lines[..s], Replacement(slice, outer), lines[end..], s, s + 1);
  }

  lemma ReplacedByOne(original: seq<string>, t: Transformation)
    requires original != [] && HasContent(original)
    ensures |Replacement(original, t)| == 1
  {
    hide CallContent, NewCall, Concat;
  }

  lemma InsertOuter(outer: Transformation, inner: Transformation)
    requires outer.site.start < inner.site.start
    ensures SortByStart([outer, inner]) == [inner, outer]
  {
    assert [outer, inner][1..] == [inner] && [inner][1..] == [];
    assert SortByStart([inner]) == [inner];
  }

  lemma InnerSpliced(lines: seq<string>, inner: Transformation)
    requires 1 <= inner.site.start <= inner.site.end <= |lines| && HasContent(lines[inner.site.start - 1..inner.site.end])
    ensures SpliceAll(lines, [inner]) == lines[..inner.site.start - 1] + [OwnCall(lines, inner)] + lines[inner.site.end..]
  {
    hide CallContent, NewCall, Concat;
    assert [inner][..0] == [];
    assert SpliceAll(lines, [inner]) == SpliceOne(lines, inner);
  }

  lemma OuterSpliced(lines: seq<string>, outer: Transformation, inner: Site, x: string)
    requires Inside(inner, outer.site, |lines|)
    ensures
      var s, end := outer.site.start - 1, SwallowEnd(inner, outer.site, |lines|);
      SpliceOne(lines[..inner.start - 1] + [x] + lines[inner.end..], outer)
      == lines[..s] + Replacement(OuterSlice(lines, inner, outer.site, x), outer) + lines[end..]
  {
    hide Replacement;
    var s, e, a, b := outer.site.start - 1, outer.site.end, inner.start - 1, inner.end;
    var end := SwallowEnd(inner, outer.site, |lines|);
    var once := lines[..a] + [x] + lines[b..];
    var hi := Min(e, |once|);
    SliceAcross(lines[..a], [x], lines[b..], s, hi);
    assert lines[..a][..s] == lines[..s] && lines[..a][s..] == lines[s..a];
    assert lines[b..][..hi - a - 1] == lines[b..end] && lines[b..][hi - a - 1..] == lines[end..];
  }

  lemma SliceAcross(p: seq<string>, x: seq<string>, q: seq<string>, s: nat, hi: nat)
    requires s <= |p| && |p| + |x| <= hi <= |p| + |x| + |q|
    ensures var t, n := p + x + q, hi - |p| - |x|;
            t[..s] == p[..s] && t[s..hi] == p[s..] + x + q[..n] && t[hi..] == q[n..]
  {
  }

  // ----- two calls that start on the same line -----

  /** The sort keeps the order of calls that start on the same line. */
  lemma SameStartOrder(lines: seq<string>, t: Transformation, u: Transformation)
    requires t.site.start == u.site.start >= 1
    ensures BothSpliced(lines, t, u) == SpliceOne(SpliceOne(lines, t), u)
  {
    hide SpliceOne;
    assert [t, u][1..] == [u] && [u][1..] == [] && SortByStart([u]) == [u];
    assert SortByStart([t, u]) == [t, u];
    assert [t, u][..1] == [t] && [t][..0] == [];
    assert SpliceAll(lines, [t]) == SpliceOne(lines, t);
  }

  /** A recorded call whose lines yield content, with a name for its level and a code that
      can stand in a string literal. */
  predicate Rewrites(lines: seq<string>, t: Transformation) {
    && 1 <= t.site.start <= t.site.end <= |lines| && HasContent(lines[t.site.start - 1..t.site.end])
    && IsName(t.site.level) && QuotedBody('"', t.code)
  }

  /** Where the second slice ends, in terms of the original lines: behind the first call, as
      many lines on as the second call spans beyond its first. */
  function SecondEnd(lines: seq<string>, t: Site, u: Site): (end: nat)
    requires t.end <= |lines| && u.start <= u.end
    ensures t.end <= end <= |lines|
  {
    Min(t.end + (u.end - u.start), |lines|)
  }

  /** What becomes of two calls that start on the same line: the first call's arguments,
      already wrapped, are wrapped again with the second code. Nothing is left of the second
      call's own message, and the lines its slice reaches behind the first call are gone. */
  lemma SameStartWrapsTwice(lines: seq<string>, t: Transformation, u: Transformation)
    requires Rewrites(lines, t) && t.site.start == u.site.start <= u.site.end
    ensures
      var s, end := t.site.start - 1, SecondEnd(lines, t.site, u.site);
      var indent, message := Spaces(SpacePrefix(lines[s])), CallContent(Concat(lines[s..t.site.end]));
      BothSpliced(lines, t, u)
      == lines[..s] + [NewCall(indent, u.site.level, u.code, Wrapped(indent, t.code, message))] + lines[end..]
  {
    hide BothSpliced, NewCall, Wrapped, CallContent, Concat, SpacePrefix;
    var s, end := t.site.start - 1, SecondEnd(lines, t.site, u.site);
    var n, message := SpacePrefix(lines[s]), CallContent(Concat(lines[s..t.site.end]));
    var x, rest := NewCall(Spaces(n), t.site.level, t.code, message), lines[t.site.end..end];
    SameStartOrder(lines, t, u);
    assert SpliceOne(lines, t) == lines[..s] + [x] + lines[t.site.end..];
    SecondSpliced(lines, t.site, u, x);
    ConcatCons(x, rest);
    RewrittenContent(n, t.site.level, t.code, Concat(lines[s..t.site.end]), Concat(rest));
    IndentOfNewCall(n, t.site.level, t.code, message);
    assert ([x] + rest)[0] == x;
  }

  lemma SecondSpliced(lines: seq<string>, t: Site, u: Transformation, x: string)
    requires 1 <= t.start <= t.end <= |lines| && t.start == u.site.start <= u.site.end
    ensures
      var s, end := t.start - 1, SecondEnd(lines, t, u.site);
      SpliceOne(lines[..s] + [x] + lines[t.end..], u) == lines[..s] + Replacement([x] + lines[t.end..end], u) + lines[end..]
  {
    hide Replacement;
    var s, end := t.start - 1, SecondEnd(lines, t, u.site);
    var once := lines[..s] + [x] + lines[t.end..];
    var hi := Min(u.site.end, |once|);
    SliceAcross(lines[..s], [x], lines[t.end..], s, hi);
    assert lines[..s][..s] == lines[..s] && lines[..s][s..] == [];
    assert lines[t.end..][..hi - s - 1] == lines[t.end..end] && lines[t.end..][hi - s - 1..] == lines[end..];
    assert [] + [x] + lines[t.end..end] == [x] + lines[t.end..end];
  }

  lemma IndentOfNewCall(n: nat, level: string, code: string, message: string)
    ensures var x := NewCall(Spaces(n), level, code, message); x != "" && SpacePrefix(x) == n
  {
    hide NewArguments;
    var x := NewCall(Spaces(n), level, code, message);
    assert forall k | 0 <= k < n :: x[k] == Spaces(n)[k];
    assert x[n] == 'l';
    PrefixIs(x, n);
  }

  /** A call over the first four lines and one inside it over the second and third; the
      fifth line belongs to neither. */
  const OVERLAPPING := ["logger.error(f(\n", "logger.error(\n", "1)\n", "))\n", "after\n"]

  function Letters(s: string, rest: Forest): (f: Forest)
    ensures Render(f) == s + Render(rest)
    ensures InertText(s) && WellFormed(rest) ==> WellFormed(f)
  {
    if s == [] then rest
    else
      assert s == [s[0]] + s[1..];
      Plain(s[0], Letters(s[1..], rest))
  }

  /** The content of a call that is closed at `q`. */
  lemma ContentUpTo(rest: string, q: nat)
    requires q <= |rest| && MatchingParenAfter(rest, 0) == q
    ensures CallContent("logger.error(" + rest) == Strip(rest[..q])
  {
    hide FindLoggerCall, MatchingParenAfter, Strip;
    CallFound(rest);
    assert ("logger.error(" + rest)[13..] == rest;
  }

  lemma TwoConcat(a: string, b: string)
    ensures Concat([a, b]) == a + b
  {
    assert [a, b][1..] == [b] && [b][1..] == [];
    assert Concat([b]) == b;
  }

  lemma InnerContent()
    ensures Concat(["logger.error(\n", "1)\n"]) == "logger.error(\n1)\n" && CallContent("logger.error(\n1)\n") == "1"
  {
    hide CallContent, Concat, MatchingParenAfter;
    TwoConcat("logger.error(\n", "1)\n");
    InnerCloses();
    ContentUpTo("\n1)\n", 2);
    assert "\n1)\n"[..2] == "\n1";
    assert "logger.error(\n1)\n" == "logger.error(" + "\n1)\n";
    StripFirst();
  }

  lemma InnerCloses()
    ensures MatchingParenAfter("\n1)\n", 0) == 2
  {
    hide FirstClose;
    var rest := "\n1)\n";
    var f := Letters("\n1", Nil);
    assert rest[0..] == rest && rest[..2] == "\n1" && Render(f) == "\n1" + "";
    hide Letters, Render, WellFormed;
    ForestThenClose(rest, f, 2);
  }

  lemma StripFirst()
    ensures Strip("\n1") == "1"
  {
  }

  /** A call at the head of a text is found there. */
  lemma CallFound(rest: string)
    ensures var call := "logger.error(" + rest; FindLoggerCall(call, 0) == 13
  {
    var call := "logger.error(" + rest;
    WordIsSkipped("error", rest);
    assert call == "logger." + ("error" + (['('] + rest));
  }

  /** A rewritten call with the line break behind it is balanced. */
  lemma NewCallIsForest(code: string) returns (f: Forest)
    requires QuotedBody('"', code)
    ensures WellFormed(f) && Render(f) == NewCall("", "error", code, "1")
  {
    var args := NewArguments("", code, "1");
    ArgumentsClose(code);
    var q := |args| - 2;
    CloseIffBalanced(args, q);
    var g :| WellFormed(g) && Render(g) == args[..q];
    ArgumentsEnd(code);
    f := CallForest("logger.error", args, g);
    assert "" + "logger." + "error" == "logger.error";
  }

  lemma CallForest(name: string, args: string, g: Forest) returns (f: Forest)
    requires InertText(name) && |args| >= 2 && args[|args| - 2..] == ")\n" && WellFormed(g) && Render(g) == args[..|args| - 2]
    ensures WellFormed(f) && Render(f) == name + "(" + args
  {
    hide Render, WellFormed, Letters;
    var end := Letters("\n", Nil);
    NilRenders();
    GroupRenders(g, end);
    f := Letters(name, Group(g, end));
    CallText(name, Render(g), args);
  }

  lemma CallText(name: string, content: string, args: string)
    requires |args| >= 2 && args[|args| - 2..] == ")\n" && content == args[..|args| - 2]
    ensures name + ("(" + content + ")" + ("\n" + "")) == name + "(" + args
  {
    assert args == content + ")\n";
    assert ")\n" == ")" + "\n";
    assert "\n" + "" == "\n";
    assert "(" + content + ")" + "\n" == "(" + (content + ")\n");
    assert name + ("(" + args) == name + "(" + args;
  }

  lemma NilRenders()
    ensures Render(Nil) == "" && WellFormed(Nil)
  {
  }

  lemma GroupRenders(g: Forest, rest: Forest)
    ensures Render(Group(g, rest)) == "(" + Render(g) + ")" + Render(rest)
    ensures WellFormed(Group(g, rest)) <==> WellFormed(g) && WellFormed(rest)
  {
  }

  lemma ArgumentsClose(code: string)
    requires QuotedBody('"', code)
    ensures var args := NewArguments("", code, "1"); FirstClose(START, args) == |args| - 2
  {
    hide FirstClose, NewArguments;
    assert Strip("1") == "1";
    NeutralOne();
    WrappedArgumentsClose("", code, "1");
  }

  lemma ArgumentsEnd(code: string)
    ensures var args := NewArguments("", code, "1"); args[|args| - 2..] == ")\n"
  {
  }

  lemma NeutralOne()
    ensures Neutral(Lex(None, false, 2), "1")
  {
    RunForest(Letters("1", Nil), 2);
  }

  /** For these lines the fifth is gone. */
  lemma LineIsSwallowed(code: string, other: string)
    requires QuotedBody('"', other)
    ensures
      var outer, inner := Transformation(Site(1, 4, "error"), code), Transformation(Site(2, 3, "error"), other);
      |BothSpliced(OVERLAPPING, outer, inner)| == 1
  {
    hide CallContent, NewCall, BothSpliced, Concat;
    var lines := OVERLAPPING;
    var outer, inner := Transformation(Site(1, 4, "error"), code), Transformation(Site(2, 3, "error"), other);
    InnerContent();
    assert lines[1..3] == ["logger.error(\n", "1)\n"];
    assert Spaces(0) == "" && SpacePrefix("logger.error(\n") == 0;
    var x := NewCall("", "error", other, "1");
    assert OwnCall(lines, inner) == x;
    OuterContent(x, other);
    assert lines[0..1] == [lines[0]] && lines[3..5] == ["))\n", "after\n"] && lines[5..] == [];
    FollowingLinesAreGone(lines, outer, inner, OuterSlice(lines, inner.site, outer.site, x));
  }

  lemma OuterContent(x: string, other: string)
    requires QuotedBody('"', other) && x == NewCall("", "error", other, "1")
    ensures CallContent(Concat(["logger.error(f(\n"] + [x] + ["))\n", "after\n"])) != ""
  {
    hide NewCall, CallContent, Concat, MatchingParenAfter, Strip, WellFormed, Render;
    var g := NewCallIsForest(other);
    var rest := "f(\n" + x + "))\nafter\n";
    FourConcat("logger.error(f(\n", x, "))\n", "after\n");
    assert "logger.error(f(\n" + x + "))\n" + "after\n" == "logger.error(" + rest;
    OuterForest(x, g);
    ContentUpTo(rest, 4 + |x|);
    StartsVisible(rest[..4 + |x|]);
  }

  lemma OuterForest(x: string, g: Forest)
    requires WellFormed(g) && Render(g) == x
    ensures MatchingParenAfter("f(\n" + x + "))\nafter\n", 0) == 4 + |x|
  {
    hide Render, WellFormed, Letters, FirstClose;
    var rest := "f(\n" + x + "))\nafter\n";
    var inner := Append(Letters("\n", Nil), g);
    NilRenders();
    GroupRenders(inner, Nil);
    var f := Letters("f", Group(inner, Nil));
    assert Render(f) == "f(\n" + x + ")";
    assert rest[..4 + |x|] == Render(f) && rest[4 + |x|] == ')' && rest[0..] == rest;
    ForestThenClose(rest, f, 4 + |x|);
  }

  lemma FourConcat(a: string, b: string, c: string, d: string)
    ensures Concat([a] + [b] + [c, d]) == a + b + c + d
  {
    hide Concat;
    TwoConcat(c, d);
    ConcatCons(b, [c, d]);
    ConcatCons(a, [b] + [c, d]);
    assert [a] + [b] + [c, d] == [a] + ([b] + [c, d]);
  }

  lemma ConcatCons(a: string, rest: seq<string>)
    ensures Concat([a] + rest) == a + Concat(rest)
  {
    assert ([a] + rest)[1..] == rest;
  }

  lemma StartsVisible(s: string)
    requires s != "" && !IsSpace(s[0])
    ensures Strip(s) != ""
  {
    var n := TrimmedLength(s);
    assert n > 0;
    assert s[..n][0] == s[0];
  }

  /** Two calls on one line, and a line behind them. */
  const SAME_LINE := ["logger.error(1); logger.error(2)\n", "after\n"]

  lemma FirstOfTwo()
    ensures Concat([SAME_LINE[0]]) == SAME_LINE[0] && CallContent(SAME_LINE[0]) == "1"
  {
    hide CallContent, MatchingParenAfter, Strip;
    var rest := "1); logger.error(2)\n";
    OneConcat(SAME_LINE[0]);
    assert SAME_LINE[0] == "logger.error(" + rest;
    OneCloses(rest);
    ContentUpTo(rest, 1);
    assert rest[..1] == "1";
    NothingToStrip("1");
  }

  lemma OneConcat(a: string)
    ensures Concat([a]) == a
  {
    assert [a][1..] == [];
  }

  lemma OneCloses(rest: string)
    requires |rest| > 1 && rest[..1] == "1" && rest[1] == ')'
    ensures MatchingParenAfter(rest, 0) == 1
  {
    hide FirstClose, Letters, Render, WellFormed;
    NilRenders();
    assert rest[0..] == rest && "1" + "" == "1";
    ForestThenClose(rest, Letters("1", Nil), 1);
  }

  /** The line behind stays, the second message is gone, the first is wrapped twice. */
  lemma SecondMessageIsLost(code: string, other: string)
    requires QuotedBody('"', code)
    ensures
      var t, u := Transformation(Site(1, 1, "error"), code), Transformation(Site(1, 1, "error"), other);
      BothSpliced(SAME_LINE, t, u) == [NewCall("", "error", other, Wrapped("", code, "1")), "after\n"]
  {
    hide CallContent, NewCall, Wrapped, BothSpliced, Concat, SpacePrefix;
    FirstOfTwo();
    NoIndent();
    BothOnFirstLine(SAME_LINE[0], ["after\n"], code, other, "1");
    assert SAME_LINE == [SAME_LINE[0]] + ["after\n"];
  }

  lemma NoIndent()
    ensures SpacePrefix(SAME_LINE[0]) == 0
  {
  }

  /** Two calls on the first line, whatever stands on the other lines. */
  lemma BothOnFirstLine(line: string, behind: seq<string>, code: string, other: string, message: string)
    requires QuotedBody('"', code) && SpacePrefix(line) == 0 && Concat([line]) == line && CallContent(line) == message != ""
    ensures
      var t, u := Transformation(Site(1, 1, "error"), code), Transformation(Site(1, 1, "error"), other);
      BothSpliced([line] + behind, t, u) == [NewCall("", "error", other, Wrapped("", code, message))] + behind
  {
    hide CallContent, NewCall, Wrapped, BothSpliced, Concat, SpacePrefix, QuotedBody;
    var lines := [line] + behind;
    var t, u := Transformation(Site(1, 1, "error"), code), Transformation(Site(1, 1, "error"), other);
    assert lines[0..1] == [line] && lines[..0] == [] && lines[1..] == behind;
    assert Spaces(0) == "";
    ErrorIsName();
    SameStartWrapsTwice(lines, t, u);
  }

  lemma ErrorIsName()
    ensures IsName("error")
  {
  }

  lemma CodeStandsAt(code: string, message: string)
    requires |code| == 1
    ensures var x := NewCall("", "error", code, message); |x| > 36 && x[36] == code[0]
  {
    var head, name, codeLine := "" + "logger." + "error" + "(", "format_error_log" + ['(', '\n'], "" + "    \"" + code + "\",\n";
    var messageLine, closeLine := "" + "    " + message + "\n", "" + "))\n";
    assert |head| == 13 && |name| == 18 && codeLine[5] == code[0];
    IndexInMiddle(head, name, codeLine, messageLine + closeLine, 5);
    assert NewCall("", "error", code, message) == head + (name + (codeLine + (messageLine + closeLine)));
  }

  lemma IndexInMiddle(a: string, b: string, c: string, d: string, k: nat)
    requires k < |c|
    ensures (a + (b + (c + d)))[|a| + |b| + k] == c[k]
  {
  }

  /** So for calls on one line the order in which they were recorded matters. */
  lemma OrderMatters()
    ensures
      var t, u := Transformation(Site(1, 1, "error"), "A"), Transformation(Site(1, 1, "error"), "B");
      BothSpliced(SAME_LINE, t, u) != BothSpliced(SAME_LINE, u, t)
  {
    hide NewCall, Wrapped, BothSpliced;
    PlainCode("A");
    PlainCode("B");
    SecondMessageIsLost("A", "B");
    SecondMessageIsLost("B", "A");
    CodeStandsAt("B", Wrapped("", "A", "1"));
    CodeStandsAt("A", Wrapped("", "B", "1"));
  }

  /** A call and, starting on its first line, one inside it that spans two lines. */
  const SAME_START := ["logger.error(logger.error(\n", "1)\n", ")\n", "after\n"]

  lemma OuterHasContent()
    ensures HasContent(SAME_START[0..3])
  {
    hide CallContent, Concat, MatchingParenAfter, Strip;
    var lines := SAME_START;
    var rest := "logger.error(\n1)\n)\n";
    assert lines[0..3] == [lines[0]] + ([lines[1]] + [lines[2]]) && [lines[1]] + [lines[2]] == [lines[1], lines[2]];
    ConcatCons(lines[0], [lines[1], lines[2]]);
    TwoConcat(lines[1], lines[2]);
    assert lines[0] + (lines[1] + lines[2]) == "logger.error(" + rest;
    NestedCloses();
    ContentUpTo(rest, 17);
    StartsVisible(rest[..17]);
  }

  lemma NestedCloses()
    ensures MatchingParenAfter("logger.error(\n1)\n)\n", 0) == 17
  {
    hide FirstClose, Letters, Render, WellFormed;
    var rest := "logger.error(\n1)\n)\n";
    NilRenders();
    var inner, end := Letters("\n1", Nil), Letters("\n", Nil);
    GroupRenders(inner, end);
    var f := Letters("logger.error", Group(inner, end));
    assert Render(f) == "logger.error" + ("(" + ("\n1" + "") + ")" + ("\n" + ""));
    assert rest[0..] == rest && rest[..17] == Render(f) && rest[17] == ')';
    ForestThenClose(rest, f, 17);
  }

  /** The slice of the inner call swallows the line behind the outer one. */
  lemma LineBehindIsSwallowed(code: string, other: string)
    requires QuotedBody('"', code)
    ensures
      var outer, inner := Transformation(Site(1, 3, "error"), code), Transformation(Site(1, 2, "error"), other);
      |BothSpliced(SAME_START, outer, inner)| == 1
  {
    hide CallContent, NewCall, Wrapped, BothSpliced, Concat, HasContent;
    var outer, inner := Transformation(Site(1, 3, "error"), code), Transformation(Site(1, 2, "error"), other);
    OuterHasContent();
    SameStartWrapsTwice(SAME_START, outer, inner);
    assert SAME_START[..0] == [] && SAME_START[4..] == [];
  }

  // ----- what else stands on the lines of a call -----

  /** A line keeps its indentation and its first call, and nothing else: it is rewritten like
      a line that holds only these, so whatever else stands before and behind the call on
      its line is lost. */
  lemma OnlyTheCallSurvives(lead: string, call: string, tail: string, t: Transformation)
    requires LoggerCallAt(call, 0) >= 0 && CallContent(call) != ""
    requires forall k | 0 <= k < |lead| :: LoggerCallAt(lead + (call + tail), k) < 0
    ensures var line := lead + (call + tail);
            Replacement([line], t) == [NewCall(Spaces(SpacePrefix(line)), t.site.level, t.code, CallContent(call))]
  {
    hide CallContent, NewCall, Concat, LoggerCallAt, SpacePrefix;
    ContentIgnoresAround(lead, call, tail);
    OneConcat(lead + (call + tail));
  }

  /** A condition in front of the call is lost. */
  lemma ConditionIsLost(t: Transformation)
    ensures Replacement(["if x: logger.error(1)\n"], t) == Replacement(["logger.error(1)\n"], t)
    ensures |Replacement(["logger.error(1)\n"], t)| == 1
  {
    hide CallContent, NewCall, Concat, SpacePrefix, Replacement, LoggerCallAt;
    var lead, call := "if x: ", "logger.error(1)\n";
    CallOfOne();
    NoIndents();
    NoCallBefore(lead + (call + ""), 6);
    NoCallBefore(call + "", 0);
    assert lead + (call + "") == "if x: logger.error(1)\n" && "" + (call + "") == call;
    OnlyTheCallSurvives(lead, call, "", t);
    OnlyTheCallSurvives("", call, "", t);
  }

  lemma CallOfOne()
    ensures LoggerCallAt("logger.error(1)\n", 0) >= 0 && CallContent("logger.error(1)\n") != ""
  {
    hide MatchingParenAfter, CallContent, LoggerCallAt;
    var rest := "1)\n";
    WordIsSkipped("error", rest);
    assert "logger." + ("error" + (['('] + rest)) == "logger.error(1)\n" == "logger.error(" + rest;
    assert rest[..1] == "1";
    OneCloses(rest);
    ContentUpTo(rest, 1);
    NothingToStrip("1");
  }

  lemma NoIndents()
    ensures SpacePrefix("if x: logger.error(1)\n") == 0 == SpacePrefix("logger.error(1)\n")
  {
  }

  lemma NoCallBefore(text: string, n: nat)
    requires n <= |text| && forall k | 0 <= k < n :: text[k] != 'l'
    ensures forall k | 0 <= k < n :: LoggerCallAt(text, k) < 0
  {
    forall k | 0 <= k < n ensures LoggerCallAt(text, k) < 0 {
      if At(text, k, "logger.") { AtHead(text, k, "logger."); }
    }
  }
}
