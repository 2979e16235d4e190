/** What the one-line updater finds and writes, spelled out: which calls it finds, what it takes
    for a correlation id, and the text of an updated line. */
module UpdatedLines {
  import opened Text
  import opened Brackets
  import opened BalancedText
  import opened ExtraDict
  import opened CorrelationUpdater

  // ----- the call that is found -----

  /** `logger.<level>`, white space and an open parenthesis at `r` stand in the line from `i` on. */
  predicate IsCall(line: string, level: string, i: nat, r: int) {
    var end := i + 7 + |level|;
    && end <= r < |line| && line[i..i + 7] == "logger." && line[i + 7..end] == level
    && Blank(line[end..r]) && line[r] == '('
  }

  ghost predicate CallStartsAt(line: string, level: string, i: nat) { exists r :: IsCall(line, level, i, r) }

  lemma AtName(line: string, level: string, i: nat)
    ensures At(line, i, "logger." + level) <==>
              i + 7 + |level| <= |line| && line[i..i + 7] == "logger." && line[i + 7..i + 7 + |level|] == level
  {
    var end := i + 7 + |level|;
    if end <= |line| {
      assert line[i..end] == line[i..i + 7] + line[i + 7..end];
      assert ("logger." + level)[..7] == "logger." && ("logger." + level)[7..] == level;
      assert line[i..end][..7] == line[i..i + 7] && line[i..end][7..] == line[i + 7..end];
    }
  }

  lemma BlankUpTo(s: string, n: nat)
    requires n < |s| && !IsSpace(s[n])
    ensures Blank(s[..n]) <==> SpacePrefix(s) == n
  {
    hide IsSpace;
    var k := SpacePrefix(s);
    assert k < n ==> !IsSpace(s[..n][k]);
  }

  lemma CallAtIff(line: string, level: string, i: nat, r: int)
    ensures IsCall(line, level, i, r) <==> r >= 0 && CallAt(line, level, i) == r
  {
    hide SpacePrefix, Blank, At;
    AtName(line, level, i);
    var end := i + 7 + |level|;
    if At(line, i, "logger." + level) && end <= r < |line| && line[r] == '(' {
      var rest := line[end..];
      assert rest[r - end] == '(' && rest[..r - end] == line[end..r];
      BlankUpTo(rest, r - end);
    }
  }

  lemma {:induction false} FoundFrom(line: string, level: string, i: nat) returns (k: nat)
    ensures i <= k && forall j: nat | i <= j < k :: CallAt(line, level, j) < 0
    ensures var r := FindCall(line, level, i);
            if r >= 0 then CallAt(line, level, k) == r else r == -1 && forall j: nat | i <= j :: CallAt(line, level, j) < 0
    decreases |line| - i
  {
    hide CallAt;
    if i >= |line| {
      k := i;
      forall j: nat | i <= j ensures CallAt(line, level, j) < 0 { NoCallBehind(line, level, j); }
    } else if CallAt(line, level, i) >= 0 {
      k := i;
    } else {
      k := FoundFrom(line, level, i + 1);
    }
  }

  lemma NoCallBehind(line: string, level: string, i: nat)
    requires i >= |line|
    ensures CallAt(line, level, i) < 0
  {
  }

  /** The search finds exactly the leftmost call, at its open parenthesis, and nothing exactly
      if there is none. */
  lemma FindCallIff(line: string, level: string, r: int)
    ensures FindCall(line, level, 0) == r >= 0 <==>
              exists i: nat :: IsCall(line, level, i, r) && forall j: nat | j < i :: !CallStartsAt(line, level, j)
    ensures FindCall(line, level, 0) < 0 <==> forall i: nat :: !CallStartsAt(line, level, i)
  {
    hide CallAt, FindCall, IsCall;
    var k := FoundFrom(line, level, 0);
    forall i: nat ensures CallStartsAt(line, level, i) <==> CallAt(line, level, i) >= 0 { StartsIff(line, level, i); }
    forall i: nat, q: int ensures IsCall(line, level, i, q) <==> q >= 0 && CallAt(line, level, i) == q {
      CallAtIff(line, level, i, q);
    }
    if FindCall(line, level, 0) == r >= 0 {
      assert IsCall(line, level, k, r);
    }
  }

  lemma StartsIff(line: string, level: string, i: nat)
    ensures CallStartsAt(line, level, i) <==> CallAt(line, level, i) >= 0
  {
    hide CallAt, IsCall;
    CallAtIff(line, level, i, CallAt(line, level, i));
    if CallStartsAt(line, level, i) {
      var r :| IsCall(line, level, i, r);
      CallAtIff(line, level, i, r);
    }
  }

  /** No call starts before `n`. */
  ghost predicate NoneBefore(line: string, level: string, n: nat) { forall j: nat | j < n :: !CallStartsAt(line, level, j) }

  lemma FoundAt(line: string, level: string, i: nat, r: int)
    requires IsCall(line, level, i, r) && NoneBefore(line, level, i)
    ensures FindCall(line, level, 0) == r
  {
    hide FindCall, CallStartsAt, IsCall;
    FindCallIff(line, level, r);
  }

  lemma PartsAreCall(a: string, level: string, w: string, rest: string)
    requires Blank(w)
    ensures IsCall(a + ("logger." + (level + (w + (['('] + rest)))), level, |a|, |a| + 7 + |level| + |w|)
  {
    hide Blank;
    var d := ['('] + rest;
    var line := a + ("logger." + (level + (w + d)));
    FourParts(a, "logger.", level, w, d);
    hide *;
    assert d[0] == '(';
  }

  lemma Shift(x: string, y: string, i: nat, j: nat)
    requires i <= j <= |y|
    ensures (x + y)[|x| + i..|x| + j] == y[i..j]
    ensures i < |y| ==> (x + y)[|x| + i] == y[i]
  {
  }

  lemma TwoParts(w: string, d: string)
    requires d != ""
    ensures var s := w + d; s[0..|w|] == w && s[|w|] == d[0]
  {
  }

  lemma ThreeParts(c: string, w: string, d: string)
    requires d != ""
    ensures var s, k := c + (w + d), |c|; s[0..k] == c && s[k..k + |w|] == w && s[k + |w|] == d[0]
  {
    TwoParts(w, d);
    Shift(c, w + d, 0, |w|);
    Shift(c, w + d, |w|, |w|);
  }

  lemma ShiftedParts(x: string, c: string, w: string, d: string)
    requires d != ""
    ensures var s, j := x + (c + (w + d)), |x|;
            var k := j + |c|;
            s[j..k] == c && s[k..k + |w|] == w && s[k + |w|] == d[0]
  {
    ThreeParts(c, w, d);
    var y := c + (w + d);
    Shift(x, y, 0, |c|);
    Shift(x, y, |c|, |c| + |w|);
    Shift(x, y, |c| + |w|, |c| + |w|);
  }

  lemma Middle(a: string, b: string, y: string)
    ensures a + (b + y) == (a + b) + y && (a + (b + y))[|a|..|a| + |b|] == b
  {
  }

  lemma FourParts(a: string, b: string, c: string, w: string, d: string)
    requires d != ""
    ensures var s, i := a + (b + (c + (w + d))), |a|;
            var j := i + |b|;
            var k := j + |c|;
            var r := k + |w|;
            r < |s| && s[i..j] == b && s[j..k] == c && s[k..r] == w && s[r] == d[0]
  {
    Middle(a, b, c + (w + d));
    ShiftedParts(a + b, c, w, d);
  }

  // ----- the dicts that are found -----

  function DictHead(w: string, v: string): string { "extra" + (w + ("=" + (v + "{"))) }

  function DictText(w: string, v: string, items: string): string { DictHead(w, v) + (items + "}") }

  lemma HeadShape(w: string, v: string, rest: string)
    requires Blank(w) && Blank(v)
    ensures Head(DictHead(w, v) + rest, 5 + |w|, 6 + |w| + |v|) && |DictHead(w, v)| == 7 + |w| + |v|
  {
    hide IsSpace;
    var t := DictHead(w, v) + rest;
    assert forall k | 0 <= k < |w| :: t[5 + k] == w[k];
    assert forall k | 0 <= k < |v| :: t[6 + |w| + k] == v[k];
  }

  lemma HeadParts(t: string, a: int, b: int)
    requires Head(t, a, b)
    ensures var w, v := t[5..a], t[a + 1..b]; Blank(w) && Blank(v) && t == DictHead(w, v) + t[b + 1..]
  {
    hide IsSpace;
    assert t[..5] == "extra";
    assert t == t[..5] + (t[5..a] + ([t[a]] + (t[a + 1..b] + ([t[b]] + t[b + 1..]))));
  }

  predicate Spelled(t: string, b: int, w: string, v: string, items: string) {
    t == DictText(w, v, items) && Blank(w) && Blank(v) && '}' !in items && b == 6 + |w| + |v|
  }

  /** The pattern of a dict matches exactly `extra`, `=` and braces with no closing one inside,
      with white space around the `=`. */
  lemma DictIff(t: string, b: int)
    ensures IsDict(t, b) <==> exists w: string, v: string, items: string :: Spelled(t, b, w, v, items)
  {
    if IsDict(t, b) {
      var a :| 5 <= a < b && Head(t, a, b);
      DictParts(t, a, b);
    }
    hide Head, Spelled;
    if w: string, v: string, items: string :| Spelled(t, b, w, v, items) { SpelledIsDict(t, b, w, v, items); }
  }

  lemma DictParts(t: string, a: int, b: int)
    requires IsDict(t, b) && Head(t, a, b)
    ensures Spelled(t, b, t[5..a], t[a + 1..b], t[b + 1..|t| - 1])
  {
    HeadParts(t, a, b);
    hide DictHead, Blank, Head;
    var items := t[b + 1..|t| - 1];
    assert t[b + 1..] == items + "}";
    forall k | 0 <= k < |items| ensures items[k] != '}' { assert items[k] == t[b + 1 + k]; }
  }

  lemma SpelledIsDict(t: string, b: int, w: string, v: string, items: string)
    requires Spelled(t, b, w, v, items)
    ensures IsDict(t, b)
  {
    hide Blank, DictHead;
    HeadShape(w, v, items + "}");
    assert forall k | 0 <= k < |items| :: t[b + 1 + k] == items[k];
  }

  function IdText(w: string, v: string, items: string, q: char, q': char): string {
    DictHead(w, v) + (items + ([q] + ("correlation_id" + [q'])))
  }

  predicate SpelledId(t: string, w: string, v: string, items: string, q: char, q': char) {
    t == IdText(w, v, items, q, q') && Blank(w) && Blank(v) && '}' !in items && IsQuote(q) && IsQuote(q')
  }

  /** An id is recognised exactly behind such a head, as a quoted key before any closing brace. */
  lemma IdIff(t: string)
    ensures IsDictWithId(t) <==> exists w: string, v: string, items: string, q: char, q': char :: SpelledId(t, w, v, items, q, q')
  {
    hide SpelledId;
    if IsDictWithId(t) { IdParts(t); }
    if w: string, v: string, items: string, q: char, q': char :| SpelledId(t, w, v, items, q, q') {
      SpelledIsId(t, w, v, items, q, q');
    }
  }

  lemma IdParts(t: string)
    requires IsDictWithId(t)
    ensures exists w: string, v: string, items: string, q: char, q': char :: SpelledId(t, w, v, items, q, q')
  {
    var n := |t| - 16;
    var b :| 0 <= b < n && HeadTo(t, b) && NoBrace(t, b + 1, n) && IsQuote(t[n]) && At(t, n + 1, "correlation_id") && IsQuote(t[|t| - 1]);
    var a :| 5 <= a < b && Head(t, a, b);
    hide *;
    IdPartsAt(t, a, b, n);
  }

  lemma IdPartsAt(t: string, a: int, b: int, n: nat)
    requires Head(t, a, b) && b < n && |t| == n + 16 && NoBrace(t, b + 1, n)
    requires IsQuote(t[n]) && At(t, n + 1, "correlation_id") && IsQuote(t[n + 15])
    ensures SpelledId(t, t[5..a], t[a + 1..b], t[b + 1..n], t[n], t[n + 15])
  {
    assert 5 <= a < b;
    hide Head, Blank, DictHead, At, IsQuote, NoBrace;
    HeadParts(t, a, b);
    IdTail(t, b + 1, n);
    NoBraceIn(t, b + 1, n);
  }

  lemma NoBraceIn(t: string, i: nat, n: nat)
    requires i <= n <= |t| && NoBrace(t, i, n)
    ensures '}' !in t[i..n]
  {
  }

  lemma IdTail(t: string, i: nat, n: nat)
    requires i <= n && |t| == n + 16 && At(t, n + 1, "correlation_id")
    ensures t[i..] == t[i..n] + ([t[n]] + ("correlation_id" + [t[n + 15]]))
  {
    assert t[n + 1..n + 15] == "correlation_id";
    assert t[i..] == t[i..n] + ([t[n]] + (t[n + 1..n + 15] + [t[n + 15]]));
  }

  lemma SpelledIsId(t: string, w: string, v: string, items: string, q: char, q': char)
    requires SpelledId(t, w, v, items, q, q')
    ensures IsDictWithId(t)
  {
    hide Blank, DictHead;
    var b := 6 + |w| + |v|;
    HeadShape(w, v, items + ([q] + ("correlation_id" + [q'])));
    var n := b + 1 + |items|;
    assert forall k | 0 <= k < |items| :: t[b + 1 + k] == items[k];
    assert |t| == n + 16 && t[n] == q && t[n + 1..n + 15] == "correlation_id" && t[n + 15] == q';
    assert HeadTo(t, b) && NoBrace(t, b + 1, n) && At(t, n + 1, "correlation_id");
  }

  /** A line without the words has no id. */
  lemma NoWordsNoId(line: string)
    ensures !Contains(line, "correlation_id") ==> !HasCorrelationIdExtra(line)
  {
    hide IsDictWithId, Contains;
    if HasCorrelationIdExtra(line) {
      var i, e :| 0 <= i <= e <= |line| && IsDictWithId(line[i..e]);
      IdHasWords(line[i..e]);
      SliceContains(line, i, e, "correlation_id");
    }
  }

  lemma SliceContains(s: string, i: nat, e: nat, pattern: string)
    requires i <= e <= |s| && Contains(s[i..e], pattern)
    ensures Contains(s, pattern)
  {
    hide Contains;
    assert s == s[..i] + s[i..e] + s[e..];
    ContainsMiddle(s[..i], s[i..e], s[e..]);
    ContainsTransitive(s, s[i..e], pattern);
  }

  lemma IdHasWords(t: string)
    requires IsDictWithId(t)
    ensures Contains(t, "correlation_id")
  {
    hide HeadTo, NoBrace, IsQuote;
    assert At(t, |t| - 15, "correlation_id");
  }

  // ----- the text of an updated line -----

  const PAIR := "\"correlation_id\": get_correlation_id()"
  const ARGUMENT := ", extra={" + PAIR + "}"
  const ITEM := ", " + PAIR
  const DICT := "extra={" + PAIR + "}"

  lemma TextsAre()
    ensures TEXTS == Texts(ARGUMENT, ITEM, DICT)
  {
    PairIs();
    assert TextsFor(CORRELATION) == TextsFor(PAIR);
  }

  lemma PairIs()
    ensures CORRELATION == PAIR
  {
    assert QUOTED_ID == "\"correlation_id\"";
    assert ": get_correlation_id" + ['(', ')'] == ": get_correlation_id()";
    assert "\"correlation_id\"" + ": get_correlation_id()" == PAIR;
  }

  /** A line up to the open parenthesis of its call. */
  function CallHead(a: string, level: string, w: string): string { a + ("logger." + (level + (w + ['(']))) }

  /** A line whose call has the arguments `body`. */
  function CallLine(head: string, body: string, rest: string): string { head + (body + ([')'] + rest)) }

  lemma HeadAssociates(a: string, level: string, w: string, more: string)
    ensures CallHead(a, level, w) + more == a + ("logger." + (level + (w + (['('] + more))))
    ensures |CallHead(a, level, w)| == |a| + 8 + |level| + |w|
  {
    Reassociate(a, "logger.", level + (w + ['(']), more);
    Reassociate("logger.", level, w + ['('], more);
    Reassociate(level, w, ['('], more);
  }

  lemma Reassociate(a: string, b: string, c: string, d: string)
    ensures (a + (b + c)) + d == a + ((b + c) + d) == a + (b + (c + d))
  {
  }

  lemma HeadIsCall(a: string, level: string, w: string, more: string)
    requires Blank(w)
    ensures IsCall(CallHead(a, level, w) + more, level, |a|, |CallHead(a, level, w)| - 1)
  {
    HeadAssociates(a, level, w, more);
    hide CallHead, IsCall, Blank;
    PartsAreCall(a, level, w, more);
  }

  lemma CloseOfLine(head: string, f: Forest, rest: string)
    requires head != "" && head[|head| - 1] == '(' && WellFormed(f)
    ensures MatchingParen(CallLine(head, Render(f), rest), |head| - 1) == |head| + |Render(f)|
  {
    hide Render, WellFormed, FirstClose;
    var body := Render(f);
    var more := body + ([')'] + rest);
    var line := head + more;
    assert line[|head| - 1] == '(' && line[|head|..] == more;
    assert more[|body|] == ')' && more[..|body|] == body;
    ForestThenClose(more, f, |body|);
  }

  /** The call of a line in parts is found, and so is its close. */
  lemma CallLineFound(a: string, level: string, w: string, f: Forest, rest: string)
    requires Blank(w) && WellFormed(f) && NoneBefore(CallLine(CallHead(a, level, w), Render(f), rest), level, |a|)
    ensures var line, head := CallLine(CallHead(a, level, w), Render(f), rest), CallHead(a, level, w);
            FindCall(line, level, 0) == |head| - 1 && MatchingParen(line, |head| - 1) == |head| + |Render(f)|
  {
    hide NoneBefore, FindCall, Render, WellFormed, CallHead, MatchingParen, IsCall, Blank;
    var head, body := CallHead(a, level, w), Render(f);
    HeadEnds(a, level, w);
    HeadIsCall(a, level, w, body + ([')'] + rest));
    CloseOfLine(head, f, rest);
    FoundAt(CallLine(head, body, rest), level, |a|, |head| - 1);
  }

  lemma HeadEnds(a: string, level: string, w: string)
    ensures var head := CallHead(a, level, w); |head| == |a| + 8 + |level| + |w| && head[|head| - 1] == '('
  {
  }

  lemma LineSlices(head: string, body: string, rest: string)
    requires head != ""
    ensures var line, open := CallLine(head, body, rest), |head| - 1;
            var close := open + 1 + |body|;
            && line[open..close] == [head[open]] + body && line[..close] == head + body && line[close..] == [')'] + rest
            && line[..open] == head[..open]
  {
  }

  /** A call without the words and without an `extra=` gets the new argument, in front of its
      own close, wherever it stands on its line. */
  lemma NewArgumentAdded(a: string, level: string, w: string, f: Forest, rest: string)
    requires Blank(w) && WellFormed(f) && NoneBefore(CallLine(CallHead(a, level, w), Render(f), rest), level, |a|)
    requires !Contains(CallLine(CallHead(a, level, w), Render(f), rest), "correlation_id")
    requires !Contains(['('] + Render(f), "extra=")
    ensures var head, body := CallHead(a, level, w), Render(f);
            Updated(CallLine(head, body, rest), level) == CallLine(head, body + ARGUMENT, rest) != CallLine(head, body, rest)
  {
    hide NoneBefore, FindCall, Render, WellFormed, CallHead, Blank, MatchingParen, Contains, HasCorrelationIdExtra, Updated;
    var head, body := CallHead(a, level, w), Render(f);
    var line, close := CallLine(head, body, rest), |head| + |body|;
    CallLineFound(a, level, w, f, rest);
    NoWordsNoId(line);
    HeadEnds(a, level, w);
    ArgumentPlaced(head, body, rest, ARGUMENT);
    assert line[|head| - 1..close] == ['('] + body by { LineSlices(head, body, rest); }
    hide CallLine;
    ArgumentCase(line, level, |head| - 1, close);
  }

  /** What is written when the call has no `extra=`. */
  lemma ArgumentCase(line: string, level: string, open: nat, close: nat)
    requires !HasCorrelationIdExtra(line) && FindCall(line, level, 0) == open && MatchingParen(line, open) == close
    requires open <= close <= |line| && !Contains(line[open..close], "extra=")
    ensures Updated(line, level) == line[..close] + ARGUMENT + line[close..]
  {
    hide FindCall, MatchingParen, Contains, HasCorrelationIdExtra, FindExtra, TextsFor;
    TextsAre();
  }

  lemma ArgumentPlaced(head: string, body: string, rest: string, x: string)
    requires head != "" && x != ""
    ensures var line, close := CallLine(head, body, rest), |head| + |body|;
            line[..close] + x + line[close..] == CallLine(head, body + x, rest) != line
  {
    LineSlices(head, body, rest);
    Reassociate(head, body, x, [')'] + rest);
    assert |CallLine(head, body + x, rest)| > |CallLine(head, body, rest)|;
  }

  /** What takes the place of a dict: a filled one if it was blank, else the same with one
      more item. */
  function MergedDict(w: string, v: string, items: string, x: Texts): string {
    if Blank(items) then x.dict else DictHead(w, v) + (items + (x.item + "}"))
  }

  ghost predicate NoMatchBefore(s: string, n: nat) { forall k: nat | k < n :: !MatchStartsAt(s, k) }

  lemma SpelledFound(p: string, w: string, v: string, items: string, q: string)
    requires Blank(w) && Blank(v) && '}' !in items && NoMatchBefore(p + (DictText(w, v, items) + q), |p|)
    ensures var s := p + (DictText(w, v, items) + q);
            FindExtra(s, 0) == Some(Match(|p|, |p| + 6 + |w| + |v|, |p| + |DictText(w, v, items)|))
  {
    hide FindExtra, MatchStartsAt, IsMatch, DictText, IsDict, Blank;
    var t, b := DictText(w, v, items), 6 + |w| + |v|;
    assert IsDict(t, b) by {
      assert Spelled(t, b, w, v, items);
      SpelledIsDict(t, b, w, v, items);
    }
    DictMatches(p, t, q, b);
    assert p + t + q == p + (t + q);
    FoundWhere(p + (t + q), Match(|p|, |p| + b, |p| + |t|));
  }

  lemma SpelledItems(p: string, w: string, v: string, items: string, q: string, m: Match)
    requires m == Match(|p|, |p| + 6 + |w| + |v|, |p| + |DictText(w, v, items)|)
    requires IsMatch(p + (DictText(w, v, items) + q), m)
    ensures Items(p + (DictText(w, v, items) + q), m) == items
  {
    hide IsMatch;
    var head := DictHead(w, v);
    assert |head| == 7 + |w| + |v|;
    hide DictHead;
    assert p + (head + (items + "}") + q) == (p + head) + (items + ("}" + q));
    Parts(p + head, items, "}" + q);
  }

  lemma Parts(a: string, b: string, c: string)
    ensures (a + (b + c))[|a|..|a| + |b|] == b
  {
  }

  /** Merging into the first dict of a text puts the merged dict in its place. */
  lemma MergedInParts(p: string, w: string, v: string, items: string, q: string, x: Texts)
    requires Blank(w) && Blank(v) && '}' !in items && NoMatchBefore(p + (DictText(w, v, items) + q), |p|)
    ensures var s := p + (DictText(w, v, items) + q);
            && FindExtra(s, 0).Some?
            && WithMergedExtra(s, FindExtra(s, 0).value, x) == p + (MergedDict(w, v, items, x) + q)
  {
    hide FindExtra, IsMatch, NoMatchBefore, Blank, Strip, WithMergedExtra, DictText;
    var t := DictText(w, v, items);
    var s := p + (t + q);
    SpelledFound(p, w, v, items, q);
    var m := FindExtra(s, 0).value;
    MergeIsEdit(s, m, x);
    SpelledItems(p, w, v, items, q, m);
    StripBlank(items);
    EditedParts(p, t, q, x.dict);
    ItemPlaced(p, w, v, items, q, x.item);
  }

  lemma EditedParts(p: string, t: string, q: string, now: string)
    ensures var s := p + (t + q); s[..|p|] + now + s[|p| + |t|..] == p + (now + q)
  {
    var s := p + (t + q);
    assert s[..|p|] == p && s[|p| + |t|..] == q;
  }

  lemma ItemPlaced(p: string, w: string, v: string, items: string, q: string, item: string)
    ensures var t := DictText(w, v, items);
            var s, k := p + (t + q), |p| + |t| - 1;
            0 <= k <= |s| && s[..k] + item + s[k..] == p + (DictHead(w, v) + (items + (item + "}")) + q)
  {
    hide DictHead;
    var h := DictHead(w, v) + items;
    var t := DictText(w, v, items);
    var s, k := p + (t + q), |p| + |t| - 1;
    assert t == h + "}";
    assert s == (p + h) + ("}" + q);
    assert s[..k] == p + h && s[k..] == "}" + q;
    assert p + h + item + ("}" + q) == p + (h + (item + "}") + q);
    assert h + (item + "}") == DictHead(w, v) + (items + (item + "}"));
  }

  /** A call whose first dict is `extra=...{...}` gets the id merged into that dict. */
  lemma DictIsMerged(a: string, level: string, w: string, f: Forest, rest: string,
                     p: string, w': string, v: string, items: string, q: string)
    requires Blank(w) && WellFormed(f) && NoneBefore(CallLine(CallHead(a, level, w), Render(f), rest), level, |a|)
    requires !Contains(CallLine(CallHead(a, level, w), Render(f), rest), "correlation_id")
    requires Contains(['('] + Render(f), "extra=") && Render(f) == p + (DictText(w', v, items) + q)
    requires Blank(w') && Blank(v) && '}' !in items && NoMatchBefore(['('] + Render(f), 1 + |p|)
    ensures var head := CallHead(a, level, w);
            Updated(CallLine(head, Render(f), rest), level) == CallLine(head, p + (MergedDict(w', v, items, TEXTS) + q), rest)
  {
    hide NoneBefore, FindCall, Render, WellFormed, CallHead, Blank, MatchingParen, Contains, HasCorrelationIdExtra, Updated,
      NoMatchBefore, DictText, MergedDict, FindExtra, IsMatch, WithMergedExtra;
    var head, body := CallHead(a, level, w), Render(f);
    var line, open, close := CallLine(head, body, rest), |head| - 1, |head| + |body|;
    CallLineFound(a, level, w, f, rest);
    NoWordsNoId(line);
    HeadEnds(a, level, w);
    LineSlices(head, body, rest);
    assert head[..open] + ['('] == head;
    MergePlaced(head, p, DictText(w', v, items), q, MergedDict(w', v, items, TEXTS), rest);
    hide CallLine;
    MergedInParts(['('] + p, w', v, items, q, TEXTS);
    MergeCase(line, level, open, close);
  }

  lemma MergePlaced(head: string, p: string, t: string, q: string, now: string, rest: string)
    requires head != "" && head[|head| - 1] == '('
    ensures ['('] + (p + (t + q)) == (['('] + p) + (t + q)
    ensures head[..|head| - 1] + ((['('] + p) + (now + q)) + ([')'] + rest) == CallLine(head, p + (now + q), rest)
  {
    var h, m := head[..|head| - 1], now + q;
    assert head == h + ['('];
    assert h + ((['('] + p) + m) == head + (p + m);
  }

  /** What is written when the call has a dict. */
  lemma MergeCase(line: string, level: string, open: nat, close: nat)
    requires !HasCorrelationIdExtra(line) && FindCall(line, level, 0) == open && MatchingParen(line, open) == close
    requires open <= close <= |line| && Contains(line[open..close], "extra=") && FindExtra(line[open..close], 0).Some?
    ensures Updated(line, level) ==
              line[..open] + WithMergedExtra(line[open..close], FindExtra(line[open..close], 0).value, TEXTS) + line[close..]
  {
    hide FindCall, MatchingParen, Contains, HasCorrelationIdExtra, FindExtra, TextsFor, WithMergedExtra, IsMatch;
  }

  /** The line changes exactly when it has no id, a call of the level that closes, and in that
      call no `extra=` or a dict. */
  lemma UpdatedIff(line: string, level: string)
    ensures
      var open := FindCall(line, level, 0);
      Updated(line, level) != line <==>
        && !HasCorrelationIdExtra(line) && open >= 0 && MatchingParen(line, open) >= 0
        && var args := line[open..MatchingParen(line, open)];
        !Contains(args, "extra=") || exists k: nat | k <= |args| :: MatchStartsAt(args, k)
  {
    hide FindCall, Contains, HasCorrelationIdExtra, TextsFor, WithMergedExtra, IsMatch, MatchStartsAt, FirstClose, InertText;
    var open := FindCall(line, level, 0);
    if open >= 0 && MatchingParen(line, open) >= 0 {
      CloseIsBehind(line, open);
      var args := line[open..MatchingParen(line, open)];
      TextsMatter();
      UpdateIsEdit(line, open, MatchingParen(line, open), TEXTS);
      var r := FindExtra(args, 0);
      if r.Some? { FoundStarts(args, r.value); }
    }
  }

  lemma CloseIsBehind(line: string, open: nat)
    ensures var q := MatchingParen(line, open); q >= 0 ==> open < q < |line| && line[open] == '('
  {
    if open < |line| { FirstCloseMeaning(START, line[open + 1..]); }
  }

  lemma FoundStarts(s: string, m: Match)
    requires IsMatch(s, m)
    ensures m.start <= |s| && MatchStartsAt(s, m.start)
  {
    assert IsMatch(s, Match(m.start, m.brace, m.end));
  }
}
