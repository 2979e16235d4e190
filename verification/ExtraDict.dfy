/** The `extra={...}` argument of a logging call: the regular expressions that
    find it and the string edits that add the correlation id. Both rewriting
    scripts use the same patterns and the same texts. */
module ExtraDict {
  import opened Text
  import opened Brackets

  /** The inserted texts: a whole argument, a further dict item, a filled dict. */
  datatype Texts = Texts(argument: string, item: string, dict: string)

  // ----- the regular expressions -----

  predicate AllSpace(s: string, lo: int, hi: int)
    requires 0 <= lo && hi <= |s|
  {
    forall k | lo <= k < hi :: IsSpace(s[k])
  }

  predicate NoBrace(s: string, lo: int, hi: int)
    requires 0 <= lo && hi <= |s|
  {
    forall k | lo <= k < hi :: s[k] != '}'
  }

  /** `t` begins with `extra\s*=\s*\{`, the `=` at `a` and the brace at `b`. */
  predicate Head(t: string, a: int, b: int) {
    && 5 <= a < b < |t|
    && t[0] == 'e' && t[1] == 'x' && t[2] == 't' && t[3] == 'r' && t[4] == 'a'
    && AllSpace(t, 5, a) && t[a] == '=' && AllSpace(t, a + 1, b) && t[b] == '{'
  }

  predicate HeadTo(t: string, b: int) {
    exists a | 5 <= a < b :: Head(t, a, b)
  }

  /** All of `t` matches `extra\s*=\s*\{([^}]*)\}`, with the open brace at `b`. */
  predicate IsDict(t: string, b: int) {
    && 0 <= b < |t| - 1
    && HeadTo(t, b) && NoBrace(t, b + 1, |t| - 1) && t[|t| - 1] == '}'
  }

  /** All of `t` matches `extra\s*=\s*\{[^}]*["']correlation_id["']`. */
  predicate IsDictWithId(t: string) {
    exists b | 0 <= b < |t| - 16 ::
      && HeadTo(t, b) && NoBrace(t, b + 1, |t| - 16)
      && IsQuote(t[|t| - 16]) && At(t, |t| - 15, "correlation_id") && IsQuote(t[|t| - 1])
  }

  /** A match: the text from `start` to `end`, with the open brace at `brace`;
      group 1 is what the braces enclose. */
  datatype Match = Match(start: nat, brace: nat, end: nat)

  predicate IsMatch(s: string, m: Match) {
    m.start <= m.brace < m.end <= |s| && IsDict(s[m.start..m.end], m.brace - m.start)
  }

  function Items(s: string, m: Match): string
    requires IsMatch(s, m)
  {
    s[m.brace + 1..m.end - 1]
  }

  predicate MatchStartsAt(s: string, i: nat) {
    exists b, e | i <= b < e <= |s| :: IsMatch(s, Match(i, b, e))
  }

  /** The leftmost match (`re.search`). */
  function FindExtra(s: string, i: nat): (r: Option<Match>)
    ensures r.Some? ==> r.value.start >= i && IsMatch(s, r.value)
    ensures r.Some? ==> forall k | i <= k < r.value.start :: !MatchStartsAt(s, k)
    ensures r.None? ==> forall k | i <= k <= |s| :: !MatchStartsAt(s, k)
    decreases |s| - i
  {
    if i > |s| then None
    else if MatchStartsAt(s, i) then
      MatchUnique(s, i);
      var m: Match :| IsMatch(s, m) && m.start == i;
      Some(m)
    else FindExtra(s, i + 1)
  }

  /** A dict ends at its first closing brace, and its items start at its first open one. */
  lemma DictShape(t: string, b: int)
    requires IsDict(t, b)
    ensures t[b] == '{' && t[|t| - 1] == '}'
    ensures forall k | 0 <= k < b :: t[k] != '{'
    ensures forall k | 0 <= k < |t| - 1 :: t[k] != '}'
  {
    var a :| 5 <= a < b && Head(t, a, b);
    forall k | 0 <= k < b ensures t[k] != '{' && t[k] != '}' {
      assert k < 5 || k == a || IsSpace(t[k]);
    }
  }

  lemma OneMatch(s: string, m: Match, n: Match)
    requires IsMatch(s, m) && IsMatch(s, n) && m.start == n.start && m.end <= n.end
    ensures m == n
  {
    var t, u := s[m.start..m.end], s[n.start..n.end];
    DictShape(t, m.brace - m.start);
    DictShape(u, n.brace - n.start);
    hide IsDict;
    assert t == u[..|t|];
    assert u[|t| - 1] == '}' && u[m.brace - m.start] == '{';
    assert |t| == |u|;
    assert t[n.brace - n.start] == '{';
  }

  /** A position has at most one match. */
  lemma MatchUnique(s: string, i: nat)
    ensures forall m, n :: IsMatch(s, m) && IsMatch(s, n) && m.start == n.start == i ==> m == n
  {
    forall m: Match, n: Match
      | IsMatch(s, m) && IsMatch(s, n) && m.start == n.start == i && m.end <= n.end
      ensures m == n
    {
      OneMatch(s, m, n);
    }
  }

  lemma MatchHead(s: string, k: nat)
    ensures MatchStartsAt(s, k) ==> k + 1 < |s| && s[k] == 'e' && s[k + 1] == 'x'
  {
    if MatchStartsAt(s, k) {
      var b, e :| k <= b < e <= |s| && IsMatch(s, Match(k, b, e));
      var t := s[k..e];
      var a :| 5 <= a < b - k && Head(t, a, b - k);
    }
  }

  lemma DictMatches(a: string, t: string, b: string, brace: nat)
    requires IsDict(t, brace)
    ensures IsMatch(a + t + b, Match(|a|, |a| + brace, |a| + |t|)) && MatchStartsAt(a + t + b, |a|)
  {
    assert brace < |t| - 1;
    hide IsDict;
    assert (a + t + b)[|a|..|a| + |t|] == t;
  }

  lemma TextIsDict(items: string)
    requires forall k | 0 <= k < |items| :: items[k] != '}'
    ensures IsDict("extra={" + items + "}", 6)
  {
    assert Head("extra={" + items + "}", 5, 6);
  }

  /** The first position that has a match is where it is found. */
  lemma FoundWhere(s: string, m: Match)
    requires IsMatch(s, m) && MatchStartsAt(s, m.start) && forall k: nat | k < m.start :: !MatchStartsAt(s, k)
    ensures FindExtra(s, 0) == Some(m)
  {
    hide IsDict;
    MatchUnique(s, m.start);
    var r := FindExtra(s, 0);
    if r.Some? {
      assert IsMatch(s, Match(r.value.start, r.value.brace, r.value.end));
      assert MatchStartsAt(s, r.value.start);
    }
  }

  // ----- the edits -----

  lemma {:induction false} ReplaceCharLast(s: string, c: char, now: string)
    requires s != [] && s[|s| - 1] == c && forall k | 0 <= k < |s| - 1 :: s[k] != c
    ensures ReplaceChar(s, c, now) == s[..|s| - 1] + now
  {
    var rest := s[1..];
    if |s| == 1 {
      assert rest == [];
    } else {
      ReplaceCharLast(rest, c, now);
      assert ReplaceChar(s, c, now) == [s[0]] + ReplaceChar(rest, c, now);
      hide ReplaceChar;
      assert s[..|s| - 1] == [s[0]] + rest[..|s| - 2];
    }
  }

  /** `s.replace(was, now, 1)`. */
  function ReplaceFirst(s: string, was: string, now: string): string {
    var p := Find(s, was, 0);
    if p < 0 then s else s[..p] + now + s[p + |was|..]
  }

  /** `s` with the matched dict merged, as the source writes it. */
  function WithMergedExtra(s: string, m: Match, x: Texts): string
    requires IsMatch(s, m)
  {
    var full := s[m.start..m.end];
    var newExtra := if Strip(Items(s, m)) != "" then ReplaceChar(full, '}', x.item + ['}']) else x.dict;
    ReplaceFirst(s, full, newExtra)
  }

  /** `s[from..to]` gives way to `text`. */
  datatype Edit = Edit(from: nat, to: nat, text: string)

  predicate InRange(e: Edit, s: string) { e.from <= e.to <= |s| }

  function Apply(s: string, e: Edit): string
    requires InRange(e, s)
  {
    s[..e.from] + e.text + s[e.to..]
  }

  /** The edit that merging amounts to: an item goes in front of the close brace,
      or a filled dict takes the place of an empty one. */
  function MergeEdit(s: string, m: Match, x: Texts): (e: Edit)
    requires IsMatch(s, m)
    ensures InRange(e, s) && m.start <= e.from <= e.to <= m.end
  {
    if Strip(Items(s, m)) != "" then Edit(m.end - 1, m.end - 1, x.item) else Edit(m.start, m.end, x.dict)
  }

  /** Wherever the matched text occurs, the pattern matches. */
  lemma OccurrenceMatches(s: string, m: Match, p: nat)
    requires IsMatch(s, m) && At(s, p, s[m.start..m.end])
    ensures MatchStartsAt(s, p)
  {
    assert IsMatch(s, Match(p, p + m.brace - m.start, p + m.end - m.start));
  }

  /** The first textual occurrence of the matched dict is the match itself. */
  lemma FirstOccurrenceIsMatch(s: string, m: Match)
    requires FindExtra(s, 0) == Some(m)
    ensures Find(s, s[m.start..m.end], 0) == m.start
  {
    var full := s[m.start..m.end];
    assert At(s, m.start, full);
    OccurrenceMatches(s, m, Find(s, full, 0));
  }

  lemma AddItem(s: string, m: Match, item: string)
    requires IsMatch(s, m)
    ensures s[..m.start] + ReplaceChar(s[m.start..m.end], '}', item + ['}']) + s[m.end..]
         == Apply(s, Edit(m.end - 1, m.end - 1, item))
  {
    ReplaceCharLast(s[m.start..m.end], '}', item + ['}']);
  }

  /** The source's two nested `replace` calls make exactly that one edit. */
  lemma MergeIsEdit(s: string, m: Match, x: Texts)
    requires FindExtra(s, 0) == Some(m)
    ensures WithMergedExtra(s, m, x) == Apply(s, MergeEdit(s, m, x))
  {
    hide Strip, ReplaceChar, Find, FindExtra, IsDict;
    FirstOccurrenceIsMatch(s, m);
    AddItem(s, m, x.item);
  }

  /** A dict that strips to nothing is inert: no quotes, no parentheses. */
  lemma BlankDictIsInert(s: string, m: Match)
    requires IsMatch(s, m) && Strip(Items(s, m)) == ""
    ensures InertText(s[m.start..m.end])
  {
    var t, b := s[m.start..m.end], m.brace - m.start;
    SliceOfSlice(s, m.start, m.end, b + 1, |t| - 1);
    hide Strip;
    assert Items(s, m) == t[b + 1..|t| - 1];
    forall k | b < k < |t| - 1 ensures Inert(t[k]) {
      assert t[b + 1..|t| - 1][k - b - 1] == t[k];
    }
  }

  /** Merging always changes the text. */
  lemma MergeChanges(s: string, m: Match, x: Texts)
    requires IsMatch(s, m) && x.item != "" && !InertText(x.dict)
    ensures Apply(s, MergeEdit(s, m, x)) != s
  {
    if Strip(Items(s, m)) == "" { BlankDictIsInert(s, m); }
  }
}
