/** `LoggingCorrelationUpdater`: adds `extra={"correlation_id": ...}` to a
    one-line logging call. */
module CorrelationUpdater {
  import opened Text
  import opened Brackets
  import opened BalancedText
  import opened ExtraDict

  const QUOTED_ID := ['"'] + "correlation_id" + ['"']
  const CORRELATION := QUOTED_ID + (": get_correlation_id" + ['(', ')'])
  const TEXTS := TextsFor(CORRELATION)

  function TextsFor(pair: string): Texts {
    Texts(", extra={" + pair + "}", ", " + pair, "extra={" + pair + "}")
  }

  predicate HasCorrelationIdExtra(line: string) {
    exists i, e | 0 <= i <= e <= |line| :: IsDictWithId(line[i..e])
  }

  /** Position of the open parenthesis of `logger\.<level>\s*\(` starting at `i`, or -1. */
  function CallAt(line: string, level: string, i: nat): (r: int)
    ensures r == -1 || (i <= r < |line| && line[r] == '(')
  {
    var name := "logger." + level;
    if !At(line, i, name) then -1
    else
      var p := i + |name| + SpacePrefix(line[i + |name|..]);
      if p < |line| && line[p] == '(' then p else -1
  }

  /** Open parenthesis of the leftmost call at or after `i`, or -1. */
  function FindCall(line: string, level: string, i: nat): (r: int)
    ensures r == -1 || (i <= r < |line| && line[r] == '(')
    decreases |line| - i
  {
    if i >= |line| then -1
    else if CallAt(line, level, i) >= 0 then CallAt(line, level, i)
    else FindCall(line, level, i + 1)
  }

  /** What `update_logging_call` returns. */
  function Updated(line: string, level: string): string {
    if HasCorrelationIdExtra(line) then line
    else
      var open := FindCall(line, level, 0);
      if open < 0 then line
      else
        var close := MatchingParen(line, open);
        if close == -1 then line else UpdatedAt(line, open, close, TEXTS)
  }

  function UpdatedAt(line: string, open: nat, close: nat, x: Texts): string
    requires open <= close <= |line|
  {
    if !Contains(line[open..close], "extra=") then line[..close] + x.argument + line[close..]
    else
      match FindExtra(line[open..close], 0)
      case None => line
      case Some(m) => line[..open] + WithMergedExtra(line[open..close], m, x) + line[close..]
  }

  class LoggingCorrelationUpdater {
    var loggingCallsUpdated: nat

    constructor ()
      ensures loggingCallsUpdated == 0
    {
      loggingCallsUpdated := 0;
    }

    /** The counter moves exactly when the line changes. */
    method UpdateLoggingCall(line: string, level: string) returns (r: string)
      modifies this
      ensures r == Updated(line, level)
      ensures loggingCallsUpdated == old(loggingCallsUpdated) + (if r != line then 1 else 0)
    {
      if HasCorrelationIdExtra(line) { return line; }
      var open := FindCall(line, level, 0);
      if open < 0 { return line; }
      var close := FindMatchingParen(line, open);
      if close == -1 { return line; }
      UpdateIsEdit(line, open, close, TEXTS) by { TextsMatter(); }
      if !Contains(line[open..close], "extra=") {
        loggingCallsUpdated := loggingCallsUpdated + 1;
        return line[..close] + TEXTS.argument + line[close..];
      }
      var found := FindExtra(line[open..close], 0);
      if found.Some? {
        loggingCallsUpdated := loggingCallsUpdated + 1;
        return line[..open] + WithMergedExtra(line[open..close], found.value, TEXTS) + line[close..];
      }
      return line;
    }
  }

  // ----- what an update is: one edit inside the argument list -----

  /** The edit made to a line whose call has its parentheses at `open` and `close`. */
  function EditAt(line: string, open: nat, close: nat, x: Texts): Option<Edit>
    requires open <= close <= |line|
  {
    if !Contains(line[open..close], "extra=") then Some(Edit(close, close, x.argument))
    else
      match FindExtra(line[open..close], 0)
      case None => None
      case Some(m) =>
        var e := MergeEdit(line[open..close], m, x);
        Some(Edit(open + e.from, open + e.to, e.text))
  }

  lemma TextsMatter()
    ensures TEXTS.argument != "" && TEXTS.item != "" && !InertText(TEXTS.dict)
  {
    assert TEXTS.dict[7] == '"';
  }

  lemma EditInside(line: string, open: nat, close: nat, e: Edit)
    requires open <= close <= |line| && e.from <= e.to <= close - open
    ensures line[..open] + Apply(line[open..close], e) + line[close..]
         == Apply(line, Edit(open + e.from, open + e.to, e.text))
  {
    assert line[..open] + line[open..close][..e.from] == line[..open + e.from];
    assert line[open..close][e.to..] + line[close..] == line[open + e.to..];
  }

  lemma MatchAfterParen(args: string, m: Match)
    requires IsMatch(args, m) && args[0] == '('
    ensures m.start > 0
  {
    assert args[m.start..m.end][0] == 'e';
  }

  /** Merging is one edit of the arguments, past their open parenthesis, that changes them. */
  lemma MergeFacts(args: string, m: Match, x: Texts)
    requires FindExtra(args, 0) == Some(m) && args[0] == '('
    requires x.item != "" && !InertText(x.dict)
    ensures var e := MergeEdit(args, m, x);
            && 0 < e.from <= e.to <= |args|
            && WithMergedExtra(args, m, x) == Apply(args, e) != args
            && ((e.from == e.to && e.text == x.item) || e.text == x.dict)
  {
    MatchAfterParen(args, m);
    MergeIsEdit(args, m, x);
    MergeChanges(args, m, x);
  }

  /** The same edit, seen in the whole line. */
  lemma EditInLine(line: string, open: nat, close: nat, e: Edit, edited: string)
    requires open <= close <= |line| && e.from <= e.to <= close - open
    requires edited == Apply(line[open..close], e) != line[open..close]
    ensures line[..open] + edited + line[close..] == Apply(line, Edit(open + e.from, open + e.to, e.text)) != line
  {
    EditInside(line, open, close, e);
    Unchanged(line, open, close, e);
  }

  /** What an update of the text between `open` and `close` amounts to. */
  predicate IsProperEdit(line: string, open: nat, close: nat, x: Texts, e: Edit, updated: string) {
    && open < e.from <= e.to <= close <= |line|
    && updated == Apply(line, e) != line
    && (e.from == e.to || e.text == x.dict)
  }

  lemma ArgumentIsProper(line: string, open: nat, close: nat, x: Texts)
    requires open < close < |line| && x.argument != ""
    ensures IsProperEdit(line, open, close, x, Edit(close, close, x.argument), line[..close] + x.argument + line[close..])
  {
    assert |line[..close] + x.argument + line[close..]| > |line|;
  }

  lemma MergeIsProper(line: string, open: nat, close: nat, x: Texts, m: Match)
    requires open < close < |line| && line[open] == '(' && x.item != "" && !InertText(x.dict)
    requires FindExtra(line[open..close], 0) == Some(m)
    ensures var args := line[open..close];
            var e := MergeEdit(args, m, x);
            IsProperEdit(line, open, close, x, Edit(open + e.from, open + e.to, e.text),
                         line[..open] + WithMergedExtra(args, m, x) + line[close..])
  {
    hide IsMatch, MatchStartsAt, WithMergedExtra, InertText;
    var args := line[open..close];
    MergeFacts(args, m, x);
    EditInLine(line, open, close, MergeEdit(args, m, x), WithMergedExtra(args, m, x));
  }

  /** An update is one edit strictly inside the call's parentheses, and an edit
      always changes the line. */
  lemma UpdateIsEdit(line: string, open: nat, close: nat, x: Texts)
    requires open < close < |line| && line[open] == '('
    requires x.argument != "" && x.item != "" && !InertText(x.dict)
    ensures var r := EditAt(line, open, close, x);
            if r.None? then UpdatedAt(line, open, close, x) == line
            else IsProperEdit(line, open, close, x, r.value, UpdatedAt(line, open, close, x))
  {
    hide IsProperEdit, Contains, MergeEdit, WithMergedExtra, IsMatch, MatchStartsAt;
    ArgumentIsProper(line, open, close, x);
    var found := FindExtra(line[open..close], 0);
    if found.Some? { MergeIsProper(line, open, close, x, found.value); }
  }

  lemma Unchanged(line: string, open: nat, close: nat, e: Edit)
    requires open <= close <= |line| && e.from <= e.to <= close - open
    ensures Apply(line, Edit(open + e.from, open + e.to, e.text)) == line ==> Apply(line[open..close], e) == line[open..close]
  {
    EditInside(line, open, close, e);
    var a := Apply(line[open..close], e);
    if line[..open] + a + line[close..] == line {
      assert |a| == close - open;
      assert (line[..open] + a + line[close..])[open..close] == a;
    }
  }

  // ----- the texts are neutral for the scanners -----

  /** Reading `s` closes nothing and only ends a pending escape. */
  predicate Passes(l: Lex, s: string) {
    FirstClose(l, s) < 0 && Run(l, s) == l.(escaped := false)
  }

  lemma PassConcat(l: Lex, a: string, b: string)
    requires Passes(l, a) && Passes(l.(escaped := false), b)
    ensures Passes(l, a + b)
  {
    SeqConcat(l, a, b);
  }

  /** `"name": call()` leads every scanner state back to itself: outside a string
      it is a literal and a balanced call, inside a double-quoted one it closes
      and reopens the literal, inside a single-quoted one it is plain text. */
  lemma PairPasses(l: Lex, name: string, call: string)
    requires !l.escaped && l.depth >= 1
    requires InertText(name) && name != "" && InertText(call) && call != ""
    ensures Passes(l, ['"'] + name + ['"'] + (call + ['(', ')']))
  {
    var quoted, called := ['"'] + name + ['"'], call + ['(', ')'];
    if l.quote == Some('\'') {
      NoDelimiterIsBody('\'', quoted + called);
      RunQuotedBody('\'', quoted + called, l.depth);
    } else {
      var m := Step(l, '"');
      RunInert(m, name);
      NeutralAround(l, '"', m, name, '"');
      CalledPasses(l, call);
      PassConcat(l, quoted, called);
    }
  }

  lemma CalledPasses(l: Lex, call: string)
    requires !l.escaped && l.depth >= 1 && l.quote != Some('\'') && InertText(call) && call != ""
    ensures Passes(l, call + ['(', ')'])
  {
    if l.quote.None? {
      RunInert(l, call);
      NeutralAround(l, '(', Step(l, '('), [], ')');
      assert ['('] + [] + [')'] == ['(', ')'];
      PassConcat(l, call, ['(', ')']);
    } else {
      NoDelimiterIsBody('"', call + ['(', ')']);
      RunQuotedBody('"', call + ['(', ')'], l.depth);
    }
  }

  ghost predicate AllPass(x: Texts) {
    forall l: Lex | l.depth >= 1 :: Passes(l, x.argument) && Passes(l, x.item) && Passes(l, x.dict)
  }

  lemma WrapPasses(l: Lex, a: string, pair: string, b: string)
    requires InertText(a) && a != "" && InertText(b) && Passes(l.(escaped := false), pair)
    ensures Passes(l, a + pair + b)
  {
    RunInert(l, a);
    PassConcat(l, a, pair);
    RunInert(l.(escaped := false), b);
    PassConcat(l, a + pair, b);
  }

  lemma TextsForPass(l: Lex, pair: string)
    requires Passes(l.(escaped := false), pair)
    ensures var x := TextsFor(pair); Passes(l, x.argument) && Passes(l, x.item) && Passes(l, x.dict)
  {
    WrapPasses(l, ", extra={", pair, "}");
    WrapPasses(l, ", ", pair, "");
    assert ", " + pair + "" == ", " + pair;
    WrapPasses(l, "extra={", pair, "}");
  }

  lemma CorrelationPasses(l: Lex)
    requires !l.escaped && l.depth >= 1
    ensures Passes(l, CORRELATION)
  {
    PairPasses(l, "correlation_id", ": get_correlation_id");
  }

  lemma TextsPass()
    ensures AllPass(TEXTS)
  {
    forall l: Lex | l.depth >= 1
      ensures Passes(l, TEXTS.argument) && Passes(l, TEXTS.item) && Passes(l, TEXTS.dict)
    {
      CorrelationPasses(l.(escaped := false));
      TextsForPass(l, CORRELATION);
    }
  }

  // ----- the laws -----

  /** Before the close, a scan is at positive depth; at the close it is outside
      strings and escapes. */
  lemma PrefixState(s: string, q: nat, k: nat)
    requires FirstClose(START, s) == q && k <= q
    ensures FirstClose(START, s[..k]) < 0 && Run(START, s[..k]).depth >= 1
    ensures k == q ==> !Run(START, s[..k]).escaped
  {
    FirstCloseMeaning(START, s);
    assert IsFirstClose(START, s, q);
    FirstCloseConcat(START, s[..k], s[k..]);
    assert s == s[..k] + s[k..];
    DepthStaysPositive(START, s[..k]);
  }

  /** The scanner is outside string literals at position `k` of the line. */
  predicate OutsideStrings(line: string, open: nat, k: nat)
    requires open < k <= |line|
  {
    Run(START, line[open + 1..k]).quote.None?
  }

  /** A new argument is always put outside string literals, so the call gets it. */
  lemma ArgumentOutsideStrings(line: string, open: nat)
    requires MatchingParen(line, open) >= 0
    ensures open < MatchingParen(line, open) < |line| && OutsideStrings(line, open, MatchingParen(line, open))
  {
    hide Run, FirstClose;
    var rest := line[open + 1..];
    var q := FirstClose(START, rest);
    FirstCloseMeaning(START, rest);
    assert IsFirstClose(START, rest, q);
    assert rest[..q] == line[open + 1..open + 1 + q];
  }

  /** A call whose only argument is a literal with the text of a dict in it. */
  function MessageCall(head: string, delim: char, items: string): string {
    head + (['('] + ([delim] + ("extra={" + items + "}")) + [delim, ')'])
  }

  predicate PlainItems(delim: char, items: string) {
    forall k | 0 <= k < |items| :: items[k] != delim && items[k] != '\\' && items[k] != '}'
  }

  lemma MessageCloses(head: string, delim: char, items: string)
    requires IsQuote(delim) && PlainItems(delim, items)
    ensures MatchingParen(MessageCall(head, delim, items), |head|) == |head| + |items| + 11
  {
    var line := MessageCall(head, delim, items);
    var body := "extra={" + items + "}";
    NoDelimiterIsBody(delim, body);
    var f := Quoted(delim, body, Nil);
    assert Render(f) == [delim] + body + [delim];
    assert line[|head| + 1..] == Render(f) + ")";
    ForestThenClose(line[|head| + 1..], f, |body| + 2);
  }

  /** The text of the dict is found at its place in the literal. */
  lemma MessageDictFound(delim: char, items: string)
    requires IsQuote(delim) && PlainItems(delim, items)
    ensures FindExtra(['('] + ([delim] + ("extra={" + items + "}")) + [delim], 0) == Some(Match(2, 8, |items| + 10))
  {
    var s := ['('] + ([delim] + ("extra={" + items + "}")) + [delim];
    var m := Match(2, 8, |items| + 10);
    var dict := "extra={" + items + "}";
    TextIsDict(items);
    hide IsDict, IsMatch, MatchStartsAt, FindExtra;
    DictMatches(['(', delim], dict, [delim], 6);
    assert s == ['(', delim] + dict + [delim];
    forall k: nat | k < 2 ensures !MatchStartsAt(s, k) { MatchHead(s, k); }
    FoundWhere(s, m);
  }

  /** Inside the literal the scanner is inside a string. */
  lemma InsideMessage(head: string, delim: char, items: string, k: nat)
    requires IsQuote(delim) && PlainItems(delim, items) && k <= |items| + 8
    ensures !OutsideStrings(MessageCall(head, delim, items), |head|, |head| + 2 + k)
  {
    var line := MessageCall(head, delim, items);
    var body := "extra={" + items + "}";
    assert line[|head| + 1..|head| + 2 + k] == [delim] + body[..k];
    NoDelimiterIsBody(delim, body[..k]);
    RunQuotedBody(delim, body[..k], 1);
    RunConcat(START, [delim], body[..k]);
    RunOne(START, delim);
  }

  /** A dict is merged where its text stands, which can be inside a literal: then the message
      is edited and the call gets no argument. */
  lemma MessageIsEdited(head: string, delim: char, items: string, x: Texts)
    requires IsQuote(delim) && PlainItems(delim, items)
    ensures
      var line := MessageCall(head, delim, items);
      var close := MatchingParen(line, |head|);
      && |head| <= close <= |line| && EditAt(line, |head|, close, x).Some?
      && var e := EditAt(line, |head|, close, x).value;
      && |head| < e.from <= |line| && !OutsideStrings(line, |head|, e.from)
  {
    hide FindExtra, MatchingParen, OutsideStrings, PlainItems;
    var line := MessageCall(head, delim, items);
    var body := "extra={" + items + "}";
    MessageCloses(head, delim, items);
    var args := line[|head|..|head| + |items| + 11];
    assert args == ['('] + ([delim] + body) + [delim];
    assert At(args, 2, "extra=");
    MessageDictFound(delim, items);
    InsideMessage(head, delim, items, 0);
    InsideMessage(head, delim, items, |items| + 7);
  }

  /** A replacement that the scanner passes in the same way moves the close. */
  lemma EditShiftsClose(line: string, open: nat, close: nat, e: Edit)
    requires open < e.from <= e.to <= close < |line| && close == MatchingParen(line, open)
    requires var l := Run(START, line[open + 1..e.from]);
             Run(l, e.text) == Run(l, line[e.from..e.to]) && FirstClose(l, e.text) < 0
    ensures MatchingParen(Apply(line, e), open) == close + |e.text| - (e.to - e.from)
  {
    hide Run, FirstClose, Apply;
    var a, was, b := line[open + 1..e.from], line[e.from..e.to], line[e.to..];
    EditTail(line, open, e);
    ReplacementShiftsClose(START, a, was, e.text, b);
  }

  lemma EditTail(line: string, open: nat, e: Edit)
    requires open < e.from <= e.to <= |line|
    ensures var a, was, b := line[open + 1..e.from], line[e.from..e.to], line[e.to..];
            && line[open + 1..] == a + was + b
            && open < |Apply(line, e)| && Apply(line, e)[open] == line[open] && Apply(line, e)[open + 1..] == a + e.text + b
  {
  }

  lemma ArgumentShiftsClose(line: string, open: nat, close: nat, x: Texts)
    requires open < close < |line| && close == MatchingParen(line, open) && AllPass(x)
    ensures MatchingParen(Apply(line, Edit(close, close, x.argument)), open) == close + |x.argument|
  {
    PrefixState(line[open + 1..], close - open - 1, close - open - 1);
    assert line[open + 1..][..close - open - 1] == line[open + 1..close];
    EditShiftsClose(line, open, close, Edit(close, close, x.argument));
  }

  lemma StateInside(line: string, open: nat, close: nat, k: nat)
    requires open < k <= close < |line| && close == MatchingParen(line, open)
    ensures Run(START, line[open + 1..k]).depth >= 1
  {
    PrefixState(line[open + 1..], close - open - 1, k - open - 1);
    assert line[open + 1..][..k - open - 1] == line[open + 1..k];
  }

  lemma ItemPasses(l: Lex, x: Texts)
    requires l.depth >= 1 && AllPass(x)
    ensures Run(l, x.item + ['}']) == Run(l, ['}']) && FirstClose(l, x.item + ['}']) < 0
  {
    RunOne(l, '}');
    RunOne(l.(escaped := false), '}');
    PassConcat(l, x.item, ['}']);
  }

  lemma ItemShiftsClose(line: string, open: nat, close: nat, k: nat, x: Texts)
    requires open < k < close < |line| && close == MatchingParen(line, open) && AllPass(x)
    requires line[k] == '}'
    ensures MatchingParen(Apply(line, Edit(k, k, x.item)), open) == close + |x.item|
  {
    hide Run, FirstClose, MatchingParen, AllPass, Apply;
    StateInside(line, open, close, k);
    ItemPasses(Run(START, line[open + 1..k]), x);
    assert line[k..k + 1] == ['}'];
    EditShiftsClose(line, open, close, Edit(k, k + 1, x.item + ['}']));
    InsertBefore(line, k, x.item);
  }

  lemma InsertBefore(line: string, k: nat, item: string)
    requires k < |line| && line[k] == '}'
    ensures Apply(line, Edit(k, k + 1, item + ['}'])) == Apply(line, Edit(k, k, item))
  {
    assert line[k..] == ['}'] + line[k + 1..];
  }

  lemma DictShiftsClose(line: string, open: nat, close: nat, from: nat, to: nat, x: Texts)
    requires open < from < to <= close < |line| && close == MatchingParen(line, open) && AllPass(x)
    requires InertText(line[from..to])
    ensures MatchingParen(Apply(line, Edit(from, to, x.dict)), open) == close + |x.dict| - (to - from)
  {
    StateInside(line, open, close, from);
    RunInert(Run(START, line[open + 1..from]), line[from..to]);
    EditShiftsClose(line, open, close, Edit(from, to, x.dict));
  }

  /** The three kinds of edit: a new argument before the close, a further item
      before the dict's brace, a filled dict for a blank one. */
  predicate KnownEdit(line: string, open: nat, close: nat, x: Texts, e: Edit) {
    && open < e.from <= e.to <= close < |line|
    && ( || (e.from == close && e.text == x.argument)
         || (e.from == e.to < close && e.text == x.item && line[e.from] == '}')
         || (e.from < e.to && e.text == x.dict && InertText(line[e.from..e.to])))
  }

  lemma MergedText(args: string, m: Match, x: Texts)
    requires IsMatch(args, m)
    ensures var e := MergeEdit(args, m, x);
            || (e.from == e.to < |args| && e.text == x.item && args[e.from] == '}')
            || (e.from < e.to && e.text == x.dict && InertText(args[e.from..e.to]))
  {
    if Strip(Items(args, m)) == "" { BlankDictIsInert(args, m); }
    assert args[m.start..m.end][m.end - m.start - 1] == args[m.end - 1];
  }

  lemma KnownInLine(line: string, open: nat, close: nat, x: Texts, e: Edit)
    requires open < close < |line| && 0 < e.from <= e.to <= close - open
    requires var args := line[open..close];
             || (e.from == e.to < |args| && e.text == x.item && args[e.from] == '}')
             || (e.from < e.to && e.text == x.dict && InertText(args[e.from..e.to]))
    ensures KnownEdit(line, open, close, x, Edit(open + e.from, open + e.to, e.text))
  {
    SliceOfSlice(line, open, close, e.from, e.to);
  }

  lemma EditIsKnown(line: string, open: nat, close: nat, x: Texts)
    requires open < close < |line| && line[open] == '('
    ensures var r := EditAt(line, open, close, x);
            r.Some? ==> KnownEdit(line, open, close, x, r.value)
  {
    var args := line[open..close];
    if Contains(args, "extra=") && FindExtra(args, 0).Some? {
      var m := FindExtra(args, 0).value;
      MatchAfterParen(args, m);
      MergedText(args, m, x);
      KnownInLine(line, open, close, x, MergeEdit(args, m, x));
    }
  }

  lemma KnownEditShiftsClose(line: string, open: nat, close: nat, x: Texts, e: Edit)
    requires KnownEdit(line, open, close, x, e) && close == MatchingParen(line, open) && AllPass(x)
    ensures MatchingParen(Apply(line, e), open) == close + |e.text| - (e.to - e.from)
  {
    if e.from == close {
      ArgumentShiftsClose(line, open, close, x);
    } else if e.from == e.to {
      ItemShiftsClose(line, open, close, e.from, x);
    } else {
      DictShiftsClose(line, open, close, e.from, e.to, x);
    }
  }

  /** After any update, scanning from the same open parenthesis finds the close
      moved by exactly the growth of the line. */
  lemma CloseMovesByGrowth(line: string, level: string)
    requires Updated(line, level) != line
    ensures var open := FindCall(line, level, 0);
            var updated := Updated(line, level);
            && open >= 0 && MatchingParen(line, open) != -1
            && MatchingParen(updated, open) == MatchingParen(line, open) + |updated| - |line|
  {
    TextsMatter();
    TextsPass();
    CloseMovesAt(line, FindCall(line, level, 0), TEXTS);
  }

  lemma CloseMovesAt(line: string, open: nat, x: Texts)
    requires MatchingParen(line, open) != -1
    requires x.argument != "" && x.item != "" && !InertText(x.dict) && AllPass(x)
    requires UpdatedAt(line, open, MatchingParen(line, open), x) != line
    ensures var close := MatchingParen(line, open);
            var updated := UpdatedAt(line, open, close, x);
            MatchingParen(updated, open) == close + |updated| - |line|
  {
    var close := MatchingParen(line, open);
    UpdateIsEdit(line, open, close, x);
    EditIsKnown(line, open, close, x);
    KnownEditShiftsClose(line, open, close, x, EditAt(line, open, close, x).value);
  }

  /** The edit an update makes, if any. */
  function PlannedEdit(line: string, level: string): Option<Edit> {
    var open := FindCall(line, level, 0);
    if HasCorrelationIdExtra(line) || open < 0 || MatchingParen(line, open) == -1 then None
    else EditAt(line, open, MatchingParen(line, open), TEXTS)
  }

  /** Putting the replaced text back where the new text stands undoes an edit. */
  lemma UndoEdit(s: string, e: Edit)
    requires InRange(e, s)
    ensures Apply(Apply(s, e), Edit(e.from, e.from + |e.text|, s[e.from..e.to])) == s
  {
    assert Apply(s, e)[..e.from] == s[..e.from];
    assert Apply(s, e)[e.from + |e.text|..] == s[e.to..];
  }

  /** Every update can be undone, and unless it filled an empty dict it only
      inserted: cutting the new text out restores the line. */
  lemma UpdateUndone(line: string, level: string)
    ensures PlannedEdit(line, level).None? <==> Updated(line, level) == line
    ensures PlannedEdit(line, level).Some? ==>
              var e := PlannedEdit(line, level).value;
              && InRange(e, line) && Updated(line, level) == Apply(line, e)
              && Apply(Updated(line, level), Edit(e.from, e.from + |e.text|, line[e.from..e.to])) == line
              && (e.text != TEXTS.dict ==> line[e.from..e.to] == "")
  {
    var open := FindCall(line, level, 0);
    if !HasCorrelationIdExtra(line) && open >= 0 && MatchingParen(line, open) != -1 {
      TextsMatter();
      UpdateIsEdit(line, open, MatchingParen(line, open), TEXTS);
      if PlannedEdit(line, level).Some? { UndoEdit(line, PlannedEdit(line, level).value); }
    }
  }

  // ----- idempotence -----

  lemma HasIdAnywhere(a: string, t: string, b: string)
    requires IsDictWithId(t)
    ensures HasCorrelationIdExtra(a + t + b)
  {
    assert (a + t + b)[|a|..|a + t|] == t;
  }

  lemma FilledDictHasId()
    ensures IsDictWithId("extra={" + QUOTED_ID)
  {
    var t := "extra={" + QUOTED_ID;
    assert Head(t, 5, 6);
    assert HeadTo(t, 6) && NoBrace(t, 7, |t| - 16);
    assert t[|t| - 15..|t| - 1] == "correlation_id";
  }

  lemma MergedDictHasId(full: string, b: int)
    requires IsDict(full, b)
    ensures IsDictWithId(full[..|full| - 1] + ", " + QUOTED_ID)
  {
    var t := full[..|full| - 1] + ", " + QUOTED_ID;
    var a :| 5 <= a < b && Head(full, a, b);
    assert Head(t, a, b);
    assert HeadTo(t, b);
    assert t[|t| - 15..|t| - 1] == "correlation_id";
  }

  lemma HasIdInside(a: string, t: string, b: string)
    requires HasCorrelationIdExtra(t)
    ensures HasCorrelationIdExtra(a + t + b)
  {
    var i, e :| 0 <= i <= e <= |t| && IsDictWithId(t[i..e]);
    SliceInside(a, t, b, i, e);
  }

  lemma SliceInside(a: string, t: string, b: string, i: nat, e: nat)
    requires i <= e <= |t|
    ensures (a + t + b)[|a| + i..|a| + e] == t[i..e]
  {
  }

  lemma FreshHasId(a: string, id: string, rest: string, b: string)
    requires IsDictWithId(a + id)
    ensures HasCorrelationIdExtra(a + (id + rest) + b)
  {
    hide *;
    HasIdAnywhere("", a + id, rest + b);
    assert "" + (a + id) + (rest + b) == a + (id + rest) + b;
  }

  lemma TextsHaveId()
    ensures HasCorrelationIdExtra(TEXTS.argument) && HasCorrelationIdExtra(TEXTS.dict)
  {
    FilledDictHasId();
    FreshHasId("extra={", QUOTED_ID, ": get_correlation_id" + ['(', ')'], "}");
    HasIdInside(", ", TEXTS.dict, "");
    ArgumentHoldsDict(CORRELATION);
  }

  lemma ArgumentHoldsDict(pair: string)
    ensures TextsFor(pair).argument == ", " + TextsFor(pair).dict + ""
  {
  }

  lemma ItemGivesId(args: string, m: Match, id: string, rest: string)
    requires IsMatch(args, m)
    requires IsDictWithId(args[m.start..m.end][..m.end - m.start - 1] + ", " + id)
    ensures HasCorrelationIdExtra(Apply(args, Edit(m.end - 1, m.end - 1, ", " + (id + rest))))
  {
    hide IsDictWithId, HasCorrelationIdExtra, IsDict;
    var a, head, b := args[..m.start], args[m.start..m.end][..m.end - m.start - 1], args[m.end - 1..];
    HasIdAnywhere(a, head + ", " + id, rest + b);
    Regroup(a, head, id, rest, b);
    assert a + head == args[..m.end - 1];
  }

  lemma Regroup(a: string, b: string, c: string, d: string, e: string)
    ensures a + (b + ", " + c) + (d + e) == (a + b) + (", " + (c + d)) + e
  {
  }

  lemma ItemHasId(args: string, m: Match)
    requires IsMatch(args, m)
    ensures HasCorrelationIdExtra(Apply(args, Edit(m.end - 1, m.end - 1, TEXTS.item)))
  {
    MergedDictHasId(args[m.start..m.end], m.brace - m.start);
    ItemGivesId(args, m, QUOTED_ID, ": get_correlation_id" + ['(', ')']);
  }

  lemma DictHasId(args: string, m: Match)
    requires IsMatch(args, m)
    ensures HasCorrelationIdExtra(Apply(args, Edit(m.start, m.end, TEXTS.dict)))
  {
    TextsHaveId();
    HasIdInside(args[..m.start], TEXTS.dict, args[m.end..]);
  }

  lemma MergedHasId(args: string, m: Match)
    requires FindExtra(args, 0) == Some(m)
    ensures HasCorrelationIdExtra(WithMergedExtra(args, m, TEXTS))
  {
    hide HasCorrelationIdExtra, Strip, IsMatch, Apply, WithMergedExtra;
    MergeIsEdit(args, m, TEXTS);
    ItemHasId(args, m);
    DictHasId(args, m);
  }

  /** After every update that changes the line, the line carries the id. */
  lemma UpdatedHasId(line: string, level: string)
    requires Updated(line, level) != line
    ensures HasCorrelationIdExtra(Updated(line, level))
  {
    var open := FindCall(line, level, 0);
    var close := MatchingParen(line, open);
    var args := line[open..close];
    if !Contains(args, "extra=") {
      TextsHaveId();
      HasIdInside(line[..close], TEXTS.argument, line[close..]);
    } else {
      var m := FindExtra(args, 0).value;
      MergedHasId(args, m);
      HasIdInside(line[..open], WithMergedExtra(args, m, TEXTS), line[close..]);
    }
  }

  /** Updating twice is updating once, for every line and level. */
  lemma UpdateIdempotent(line: string, level: string)
    ensures Updated(Updated(line, level), level) == Updated(line, level)
  {
    if Updated(line, level) != line { UpdatedHasId(line, level); }
  }
}
