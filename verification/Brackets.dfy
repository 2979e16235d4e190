/** The quote- and backslash-aware bracket scanners of the source rewriters.
    Two of them are written independently, with different interfaces; both are
    proved against one definition and against a grammar of balanced text. */
module Brackets {
  import opened Text

  // ----- one definition of "the matching close parenthesis" -----

  /** What a scanner remembers: the open string delimiter, whether the last
      character was an active backslash, and the parenthesis depth. */
  datatype LexState = Lex(quote: Option<char>, escaped: bool, depth: int)

  type Lex = l: LexState | l.quote.Some? ==> IsQuote(l.quote.value) witness Lex(None, false, 0)

  const START: Lex := Lex(None, false, 1)

  predicate IsQuote(c: char) { c == '"' || c == '\'' }

  /** Characters no scanner reacts to. */
  predicate Inert(c: char) { !IsQuote(c) && c != '\\' && c != '(' && c != ')' }

  predicate InertText(s: string) { forall k | 0 <= k < |s| :: Inert(s[k]) }

  function Step(l: Lex, c: char): Lex {
    if l.escaped then l.(escaped := false)
    else if c == '\\' then l.(escaped := true)
    else if l.quote.Some? then (if c == l.quote.value then l.(quote := None) else l)
    else if IsQuote(c) then l.(quote := Some(c))
    else if c == '(' then l.(depth := l.depth + 1)
    else if c == ')' then l.(depth := l.depth - 1)
    else l
  }

  function Run(l: Lex, s: string): Lex
    decreases s
  {
    if s == [] then l else Run(Step(l, s[0]), s[1..])
  }

  /** Reading `c` in state `l` closes the outermost parenthesis. */
  predicate Closes(l: Lex, c: char) {
    !l.escaped && l.quote.None? && c == ')' && l.depth == 1
  }

  /** The first position at which the depth returns to zero. */
  predicate IsFirstClose(l: Lex, s: string, q: int) {
    && 0 <= q < |s|
    && Closes(Run(l, s[..q]), s[q])
    && forall k | 0 <= k < q :: !Closes(Run(l, s[..k]), s[k])
  }

  predicate NeverCloses(l: Lex, s: string) {
    forall q | 0 <= q < |s| :: !IsFirstClose(l, s, q)
  }

  function FirstClose(l: Lex, s: string): (r: int)
    ensures -1 <= r < |s|
    decreases s
  {
    if s == [] then -1
    else if Closes(l, s[0]) then 0
    else
      var r := FirstClose(Step(l, s[0]), s[1..]);
      if r < 0 then -1 else r + 1
  }

  lemma {:induction false} RunConcat(l: Lex, a: string, b: string)
    ensures Run(l, a + b) == Run(Run(l, a), b)
    decreases a
  {
    if a == [] {
      assert a + b == b;
    } else {
      RunConcat(Step(l, a[0]), a[1..], b);
      assert (a + b)[1..] == a[1..] + b;
    }
  }

  lemma RunSnoc(l: Lex, s: string, i: nat)
    requires i < |s|
    ensures Run(l, s[..i + 1]) == Step(Run(l, s[..i]), s[i])
  {
    assert s[..i + 1] == s[..i] + [s[i]];
    RunConcat(l, s[..i], [s[i]]);
    assert Run(Run(l, s[..i]), [s[i]]) == Run(Step(Run(l, s[..i]), s[i]), [s[i]][1..]);
  }

  lemma {:induction false} FirstCloseConcat(l: Lex, a: string, b: string)
    ensures FirstClose(l, a) >= 0 ==> FirstClose(l, a + b) == FirstClose(l, a)
    ensures FirstClose(l, a) < 0 ==>
              FirstClose(l, a + b) ==
              var r := FirstClose(Run(l, a), b); if r < 0 then -1 else |a| + r
    decreases a
  {
    if a == [] {
      assert a + b == b;
    } else {
      FirstCloseConcat(Step(l, a[0]), a[1..], b);
      assert (a + b)[1..] == a[1..] + b;
    }
  }

  /** The recursive search finds exactly the first return to depth zero. */
  lemma {:induction false} FirstCloseMeaning(l: Lex, s: string)
    ensures forall q :: IsFirstClose(l, s, q) <==> q == FirstClose(l, s) && q >= 0
    decreases s
  {
    if s != [] {
      var l', s' := Step(l, s[0]), s[1..];
      FirstCloseMeaning(l', s');
      forall k | 0 <= k < |s'|
        ensures Run(l, s[..k + 1]) == Run(l', s'[..k]) && s[k + 1] == s'[k]
      {
        assert s[..k + 1][1..] == s'[..k];
      }
      assert Run(l, s[..0]) == l;
      if Closes(l, s[0]) {
        assert IsFirstClose(l, s, 0);
        forall q | q > 0 ensures !IsFirstClose(l, s, q) {
          assert Closes(Run(l, s[..0]), s[0]);
        }
      } else {
        forall q ensures IsFirstClose(l, s, q) <==> IsFirstClose(l', s', q - 1) {
          if IsFirstClose(l', s', q - 1) {
            forall k | 0 <= k < q ensures !Closes(Run(l, s[..k]), s[k]) {
              if k > 0 { assert !Closes(Run(l', s'[..k - 1]), s'[k - 1]); }
            }
          }
          if IsFirstClose(l, s, q) {
            assert q > 0;
            forall k | 0 <= k < q - 1 ensures !Closes(Run(l', s'[..k]), s'[k]) {
              assert !Closes(Run(l, s[..k + 1]), s[k + 1]);
            }
          }
        }
      }
    }
  }

  /** Before the close is found the depth stays positive. */
  lemma {:induction false} DepthStaysPositive(l: Lex, s: string)
    requires l.depth >= 1 && FirstClose(l, s) < 0
    ensures Run(l, s).depth >= 1
    decreases s
  {
    if s != [] { DepthStaysPositive(Step(l, s[0]), s[1..]); }
  }

  lemma {:induction false} RunInert(l: Lex, s: string)
    requires InertText(s)
    ensures FirstClose(l, s) < 0
    ensures Run(l, s) == if s == [] then l else l.(escaped := false)
    decreases s
  {
    if s != [] {
      assert Inert(s[0]) && Step(l, s[0]) == l.(escaped := false);
      RunInert(Step(l, s[0]), s[1..]);
    }
  }

  /** Replacing a stretch before the close by one that leads to the same state
      moves the close by exactly the difference in length. */
  lemma ReplacementShiftsClose(l: Lex, a: string, was: string, now: string, b: string)
    requires FirstClose(l, a + was + b) >= |a + was|
    requires var m := Run(l, a);
             Run(m, now) == Run(m, was) && FirstClose(m, now) < 0
    ensures FirstClose(l, a + now + b) == FirstClose(l, a + was + b) + |now| - |was|
  {
    FirstCloseConcat(l, a + was, b);
    FirstCloseConcat(l, a, was);
    RunConcat(l, a, was);
    FirstCloseConcat(l, a, now);
    RunConcat(l, a, now);
    FirstCloseConcat(l, a + now, b);
  }

  // ----- the two scanners -----

  /** The updater's scanner: position of the close that matches the open
      parenthesis at `start`, or -1. */
  method FindMatchingParen(text: string, start: nat) returns (r: int)
    ensures start >= |text| || text[start] != '(' ==> r == -1
    ensures start < |text| && text[start] == '(' && r == -1 ==> NeverCloses(START, text[start + 1..])
    ensures r != -1 ==> start < r < |text| && text[start] == '('
                        && IsFirstClose(START, text[start + 1..], r - start - 1)
    ensures r == MatchingParen(text, start)
  {
    if start >= |text| || text[start] != '(' { return -1; }
    var depth, inString, stringChar, escaped := 0, false, None, false;
    ghost var rest := text[start + 1..];
    FirstCloseMeaning(START, rest);
    for i := start to |text|
      invariant !inString <==> stringChar.None?
      invariant inString ==> IsQuote(stringChar.value)
      invariant i == start ==> depth == 0 && !inString && !escaped
      invariant i > start ==> Lex(stringChar, escaped, depth) == Run(START, rest[..i - start - 1])
      invariant forall k | 0 <= k < i - start - 1 :: !Closes(Run(START, rest[..k]), rest[k])
    {
      var c := text[i];
      if i > start {
        RunSnoc(START, rest, i - start - 1);
      }
      if escaped { escaped := false; continue; }
      if c == '\\' { escaped := true; continue; }
      if IsQuote(c) && !inString {
        inString, stringChar := true, Some(c);
        continue;
      } else if inString && Some(c) == stringChar {
        inString, stringChar := false, None;
        continue;
      }
      if !inString {
        if c == '(' {
          depth := depth + 1;
        } else if c == ')' {
          depth := depth - 1;
          if depth == 0 { return i; }
        }
      }
    }
    assert NeverCloses(START, rest);
    assert !IsFirstClose(START, rest, FirstClose(START, rest));
    return -1;
  }

  /** What `FindMatchingParen` returns, as a function. */
  function MatchingParen(text: string, start: nat): int {
    if start >= |text| || text[start] != '(' then -1
    else
      var q := FirstClose(START, text[start + 1..]);
      if q < 0 then -1 else start + 1 + q
  }

  /** The migrator's scanner: called just past the open parenthesis, it returns
      the distance to the close, and 0 both when there is none and when the
      close follows at once. */
  method FindMatchingParenAfter(text: string, start: nat) returns (r: nat)
    ensures start <= |text| && r > 0 ==> IsFirstClose(START, text[start..], r)
    ensures start <= |text| && r == 0 ==>
              IsFirstClose(START, text[start..], 0) || NeverCloses(START, text[start..])
    ensures r == MatchingParenAfter(text, start)
  {
    var parenDepth, inString, stringChar, escapeNext := 1, false, None, false;
    if start > |text| { return 0; }
    ghost var rest := text[start..];
    FirstCloseMeaning(START, rest);
    for i := start to |text|
      invariant !inString <==> stringChar.None?
      invariant inString ==> IsQuote(stringChar.value)
      invariant Lex(stringChar, escapeNext, parenDepth) == Run(START, rest[..i - start])
      invariant forall k | 0 <= k < i - start :: !Closes(Run(START, rest[..k]), rest[k])
    {
      var c := text[i];
      RunSnoc(START, rest, i - start);
      if escapeNext { escapeNext := false; continue; }
      if c == '\\' { escapeNext := true; continue; }
      if IsQuote(c) && !inString {
        inString, stringChar := true, Some(c);
      } else if inString && Some(c) == stringChar {
        inString, stringChar := false, None;
      }
      if !inString {
        if c == '(' {
          parenDepth := parenDepth + 1;
        } else if c == ')' {
          parenDepth := parenDepth - 1;
          if parenDepth == 0 {
            assert IsFirstClose(START, rest, i - start);
            return i - start;
          }
        }
      }
    }
    assert NeverCloses(START, rest);
    assert !IsFirstClose(START, rest, FirstClose(START, rest));
    return 0;
  }

  /** What `FindMatchingParenAfter` returns, as a function. */
  function MatchingParenAfter(text: string, start: nat): nat {
    if start > |text| then 0
    else
      var q := FirstClose(START, text[start..]);
      if q < 0 then 0 else q
  }

  /** The two scanners agree on every text and open parenthesis: the migrator's
      answer is the updater's, rebased; its 0 merges "none" and "immediate". */
  lemma ScannersAgree(text: string, p: nat)
    requires p < |text| && text[p] == '('
    ensures MatchingParen(text, p) != -1 ==>
              MatchingParenAfter(text, p + 1) == MatchingParen(text, p) - p - 1
    ensures MatchingParen(text, p) == -1 ==> MatchingParenAfter(text, p + 1) == 0
    ensures MatchingParenAfter(text, p + 1) == 0 <==>
              MatchingParen(text, p) == -1 || (p + 1 < |text| && text[p + 1] == ')')
  {
    if p + 1 < |text| {
      assert text[p + 1..][0] == text[p + 1];
    }
  }
}
