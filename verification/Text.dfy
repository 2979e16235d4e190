/** Strings as the Python scripts see them: white space, substring search,
    `strip`, and `split("\n")` / `"\n".join`. */
module Text {

  datatype Option<+T> = None | Some(value: T)

  /** The characters that `str.isspace`, `str.strip` and the regex class `\s` accept. */
  predicate IsSpace(c: char) {
    || '\U{0009}' <= c <= '\U{000D}'
    || '\U{001C}' <= c <= '\U{0020}'
    || c == '\U{0085}' || c == '\U{00A0}' || c == '\U{1680}'
    || c == '\U{2028}' || c == '\U{2029}' || c == '\U{202F}' || c == '\U{205F}' || c == '\U{3000}'
    || '\U{2000}' <= c <= '\U{200A}'
  }

  /** Blank, tabs and line breaks are white space, and no visible ASCII character is. */
  lemma SpacesOfPython(c: char)
    ensures c in " \t\n\r" || c == '\U{000B}' || c == '\U{000C}' ==> IsSpace(c)
    ensures '!' <= c <= '~' ==> !IsSpace(c)
  {
  }

  /** `pattern` occurs in `s` at position `i`. */
  predicate At(s: string, i: int, pattern: string) {
    0 <= i && i + |pattern| <= |s| && s[i..i + |pattern|] == pattern
  }

  lemma AtHead(s: string, i: int, pattern: string)
    requires pattern != "" && 0 <= i < |s| && At(s, i, pattern)
    ensures s[i] == pattern[0]
  {
    assert s[i..i + |pattern|][0] == s[i];
  }

  /** `pattern in s`. */
  predicate Contains(s: string, pattern: string) {
    exists i | 0 <= i <= |s| :: At(s, i, pattern)
  }

  /** Position of the leftmost occurrence of `pattern` at or after `from`, or -1 (`str.find`). */
  function Find(s: string, pattern: string, from: nat): (r: int)
    ensures r >= 0 ==> r >= from && At(s, r, pattern)
    ensures r >= 0 ==> forall k | from <= k < r :: !At(s, k, pattern)
    ensures r < 0 ==> r == -1 && forall k | from <= k :: !At(s, k, pattern)
    decreases |s| - from
  {
    if from > |s| then -1
    else if At(s, from, pattern) then from
    else Find(s, pattern, from + 1)
  }

  /** An occurrence survives inside any larger text. */
  lemma ContainsMiddle(a: string, pattern: string, b: string)
    ensures Contains(a + pattern + b, pattern)
  {
    assert (a + pattern + b)[|a|..|a| + |pattern|] == pattern;
    assert At(a + pattern + b, |a|, pattern);
  }

  lemma ContainsTransitive(s: string, middle: string, pattern: string)
    requires Contains(s, middle) && Contains(middle, pattern)
    ensures Contains(s, pattern)
  {
    var i :| 0 <= i <= |s| && At(s, i, middle);
    var j :| 0 <= j <= |middle| && At(middle, j, pattern);
    forall k | 0 <= k < |pattern| ensures s[i + j + k] == pattern[k] {
      assert pattern[k] == middle[j..j + |pattern|][k] == middle[j + k];
      assert middle[j + k] == s[i..i + |middle|][j + k] == s[i + (j + k)];
    }
    assert At(s, i + j, pattern);
  }

  lemma SliceOfSlice<T>(s: seq<T>, a: nat, b: nat, i: nat, j: nat)
    requires a <= b <= |s| && i <= j <= b - a
    ensures s[a..b][i..j] == s[a + i..a + j]
  {
    assert forall k | 0 <= k < j - i :: s[a..b][i..j][k] == s[a..b][i + k] == s[a + (i + k)] == s[a + i..a + j][k];
  }

  /** Length of the longest white-space prefix. */
  function SpacePrefix(s: string): (n: nat)
    ensures n <= |s|
    ensures forall k | 0 <= k < n :: IsSpace(s[k])
    ensures n < |s| ==> !IsSpace(s[n])
  {
    if s == [] || !IsSpace(s[0]) then 0 else 1 + SpacePrefix(s[1..])
  }

  /** Length of `s` without its trailing white space. */
  function TrimmedLength(s: string): (n: nat)
    ensures n <= |s|
    ensures forall k | n <= k < |s| :: IsSpace(s[k])
    ensures n > 0 ==> !IsSpace(s[n - 1])
  {
    if s == [] || !IsSpace(s[|s| - 1]) then |s| else TrimmedLength(s[..|s| - 1])
  }

  /** `str.strip()`. */
  function Strip(s: string): string {
    var t := s[..TrimmedLength(s)];
    t[SpacePrefix(t)..]
  }

  /** Nothing but white space. */
  predicate Blank(s: string) { forall k | 0 <= k < |s| :: IsSpace(s[k]) }

  lemma StripOuter(lead: string, s: string, tail: string)
    requires Blank(lead) && Blank(tail) && s != "" && !IsSpace(s[0]) && !IsSpace(s[|s| - 1])
    ensures Strip(lead + s + tail) == s
  {
    hide IsSpace;
    var t := lead + s + tail;
    var n := TrimmedLength(t);
    assert t[|lead| + |s| - 1] == s[|s| - 1];
    assert n == |lead| + |s|;
    assert t[..n] == lead + s;
    assert (lead + s)[|lead|] == s[0];
    assert SpacePrefix(lead + s) == |lead|;
  }

  lemma StripBlank(s: string)
    ensures Strip(s) == "" <==> Blank(s)
  {
    hide IsSpace;
    var n := TrimmedLength(s);
    if Blank(s) {
      assert n == 0;
    } else {
      assert n > 0 && s[..n][n - 1] == s[n - 1];
    }
  }

  lemma StripEnds(s: string)
    requires Strip(s) != ""
    ensures var t := Strip(s); !IsSpace(t[0]) && !IsSpace(t[|t| - 1])
  {
    hide IsSpace;
  }

  lemma StripParts(text: string) returns (lead: string, tail: string)
    ensures Blank(lead) && Blank(tail) && text == lead + Strip(text) + tail
  {
    hide IsSpace;
    var n := TrimmedLength(text);
    var t := text[..n];
    var i := SpacePrefix(t);
    lead, tail := t[..i], text[n..];
    assert t == lead + Strip(text) && text == t + tail;
  }

  /** `s.replace(c, now)` for a single character `c`. */
  function ReplaceChar(s: string, c: char, now: string): string {
    if s == [] then "" else (if s[0] == c then now else [s[0]]) + ReplaceChar(s[1..], c, now)
  }

  predicate OneLine(s: string) { '\n' !in s }

  predicate OneLineEach(lines: seq<string>) {
    forall i | 0 <= i < |lines| :: OneLine(lines[i])
  }

  /** Puts `c` in front of a list of lines. */
  function Attach(c: char, lines: seq<string>): seq<string>
    requires lines != []
  {
    if c == '\n' then [""] + lines else [[c] + lines[0]] + lines[1..]
  }

  /** `s.split("\n")`. */
  function Split(s: string): (lines: seq<string>)
    ensures |lines| >= 1 && OneLineEach(lines)
  {
    if s == [] then [""] else Attach(s[0], Split(s[1..]))
  }

  /** `"\n".join(lines)`. */
  function Join(lines: seq<string>): string {
    if |lines| == 0 then ""
    else if |lines| == 1 then lines[0]
    else lines[0] + (['\n'] + Join(lines[1..]))
  }

  /** Joining a split text gives the text back. */
  lemma {:induction false} JoinSplit(s: string)
    ensures Join(Split(s)) == s
  {
    if s != [] {
      JoinSplit(s[1..]);
    }
  }

  lemma {:induction false} SplitOneLine(s: string)
    requires OneLine(s)
    ensures Split(s) == [s]
  {
    if s != [] {
      assert s[0] in s;
      SplitOneLine(s[1..]);
      assert [s[0]] + s[1..] == s && [s[1..]][1..] == [];
    }
  }

  lemma AttachConcat(c: char, x: seq<string>, y: seq<string>)
    requires x != []
    ensures Attach(c, x + y) == Attach(c, x) + y
  {
    assert (x + y)[1..] == x[1..] + y;
  }

  /** Splitting distributes over a newline. */
  lemma {:induction false} SplitConcat(a: string, b: string)
    ensures Split(a + (['\n'] + b)) == Split(a) + Split(b)
  {
    var t := a + (['\n'] + b);
    if a == [] {
      assert t == ['\n'] + b;
      assert t[1..] == b;
    } else {
      SplitConcat(a[1..], b);
      assert t[1..] == a[1..] + (['\n'] + b);
      AttachConcat(a[0], Split(a[1..]), Split(b));
    }
  }

  /** Splitting a joined list gives the lines of every element, in order. */
  function SplitEach(lines: seq<string>): seq<string> {
    if lines == [] then [] else Split(lines[0]) + SplitEach(lines[1..])
  }

  lemma {:induction false} SplitJoinGeneral(lines: seq<string>)
    requires lines != []
    ensures Split(Join(lines)) == SplitEach(lines)
  {
    if |lines| == 1 {
      assert SplitEach(lines[1..]) == [];
    } else {
      SplitConcat(lines[0], Join(lines[1..]));
      SplitJoinGeneral(lines[1..]);
    }
  }

  lemma {:induction false} SplitEachOneLine(lines: seq<string>)
    requires OneLineEach(lines)
    ensures SplitEach(lines) == lines
  {
    if lines != [] {
      SplitOneLine(lines[0]);
      SplitEachOneLine(lines[1..]);
      assert lines == [lines[0]] + lines[1..];
    }
  }

  /** Splitting a joined list of lines gives the list back. */
  lemma SplitJoin(lines: seq<string>)
    requires lines != [] && OneLineEach(lines)
    ensures Split(Join(lines)) == lines
  {
    SplitJoinGeneral(lines);
    SplitEachOneLine(lines);
  }

  lemma {:induction false} SplitEachConcat(a: seq<string>, b: seq<string>)
    ensures SplitEach(a + b) == SplitEach(a) + SplitEach(b)
  {
    if a == [] {
      assert a + b == b;
    } else {
      SplitEachConcat(a[1..], b);
      assert (a + b)[1..] == a[1..] + b;
    }
  }
}
