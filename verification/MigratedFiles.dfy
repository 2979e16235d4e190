/** What a reader finds in a migrated file: every transformed call with its own level, code and
    message, and the import line behind the last import. */
module MigratedFiles {
  import opened Text
  import opened BalancedText
  import opened ErrorCodes
  import opened CallRewriting
  import opened CallReading
  import opened Splicing
  import opened ErrorLogMigrator

  // ----- every transformed call reads back -----

  /** No range reaches across line `i`. */
  ghost predicate Cut(ts: set<Transformation>, i: nat) {
    forall u | u in ts :: u.site.start > i || u.site.end <= i
  }

  lemma CutBehind(lines: seq<string>, ts: set<Transformation>, u: Transformation, t: Transformation)
    requires DisjointSet(ts, |lines|) && u in ts && t in ts && u.site.start < t.site.start
    ensures u.site.end < t.site.start && Cut(ts, u.site.end)
  {
    assert Apart(t, u);
    forall v | v in ts ensures v.site.start > u.site.end || v.site.end <= u.site.end { assert v != u ==> Apart(u, v); }
  }

  lemma CutNext(ts: set<Transformation>, i: nat)
    requires Cut(ts, i) && !StartsIn(ts, i)
    ensures Cut(ts, i + 1)
  {
    forall v | v in ts ensures v.site.start > i + 1 || v.site.end <= i + 1 { assert v.site.start != i + 1; }
  }

  lemma CopiedLine(lines: seq<string>, ts: set<Transformation>, i: nat)
    requires DisjointSet(ts, |lines|) && i < |lines| && !StartsIn(ts, i)
    ensures Substituted(lines, ts, i) == [lines[i]] + Substituted(lines, ts, i + 1)
  {
  }

  lemma {:induction false} SubstitutedReaches(lines: seq<string>, ts: set<Transformation>, i: nat, t: Transformation)
    returns (pre: seq<string>)
    requires DisjointSet(ts, |lines|) && t in ts && i < t.site.start && Cut(ts, i)
    ensures Substituted(lines, ts, i) == pre + Substituted(lines, ts, t.site.start - 1)
    decreases |lines| - i
  {
    hide Substituted, Replacement, Cut;
    assert Fits(t, |lines|);
    var target := Substituted(lines, ts, t.site.start - 1);
    if i == t.site.start - 1 {
      pre := [];
      assert [] + target == target;
    } else if StartsIn(ts, i) {
      var u :| u in ts && u.site.start == i + 1;
      SubstitutedAt(lines, ts, u);
      CutBehind(lines, ts, u, t);
      var rest := SubstitutedReaches(lines, ts, u.site.end, t);
      var first := Replacement(lines[i..u.site.end], u);
      pre := first + rest;
      assert pre + target == first + (rest + target);
    } else {
      CutNext(ts, i);
      CopiedLine(lines, ts, i);
      var rest := SubstitutedReaches(lines, ts, i + 1, t);
      pre := [lines[i]] + rest;
      assert pre + target == [lines[i]] + (rest + target);
    }
  }

  /** What is to be read from the line of a transformed call. */
  function Expected(lines: seq<string>, t: Transformation): Reading
    requires Fits(t, |lines|)
  {
    var first := t.site.start - 1;
    Reading(Spaces(SpacePrefix(lines[first])), t.site.level, t.code, CallContent(Concat(lines[first..t.site.end])))
  }

  /** A transformed call whose lines yield a message. */
  predicate Speaks(lines: seq<string>, t: Transformation)
    requires Fits(t, |lines|)
  {
    IsName(t.site.level) && QuotedBody('"', t.code) && CallContent(Concat(lines[t.site.start - 1..t.site.end])) != ""
  }

  lemma ReplacementReadsBack(lines: seq<string>, t: Transformation)
    requires Fits(t, |lines|) && Speaks(lines, t)
    ensures var r := Replacement(lines[t.site.start - 1..t.site.end], t);
            |r| == 1 && ReadCall(r[0]) == Some(Expected(lines, t))
  {
    hide CallContent, NewCall, Concat, ReadCall, SpacePrefix;
    var original := lines[t.site.start - 1..t.site.end];
    assert original[0] == lines[t.site.start - 1];
    var call := Concat(original);
    ReadBack(SpacePrefix(original[0]), t.site.level, t.code, call, "");
    var new_ := NewCall(Spaces(SpacePrefix(original[0])), t.site.level, t.code, CallContent(call));
    assert new_ + "" == new_;
  }

  /** After the substitution every transformed call stands on a line of its own, with its
      indentation, level, code and message. */
  lemma CallReadsBack(lines: seq<string>, ts: set<Transformation>, t: Transformation)
    requires DisjointSet(ts, |lines|) && t in ts && Speaks(lines, t)
    ensures exists line :: line in Substituted(lines, ts, 0) && ReadCall(line) == Some(Expected(lines, t))
  {
    hide Substituted, Speaks, Replacement, ReadCall, Expected;
    assert Cut(ts, 0);
    var pre := SubstitutedReaches(lines, ts, 0, t);
    SubstitutedAt(lines, ts, t);
    ReplacementReadsBack(lines, t);
    var r := Replacement(lines[t.site.start - 1..t.site.end], t);
    assert r[0] in pre + (r + Substituted(lines, ts, t.site.end));
  }

  lemma ImportKeeps(lines: seq<string>, line: string)
    requires line in lines
    ensures line in WithImport(lines)
  {
    hide ImportPoint;
    var p := ImportPoint(lines);
    assert lines == lines[..p] + lines[p..];
  }

  /** In a migrated file whose recorded ranges are disjoint, the k-th eligible call is read with
      its level, the k-th code and its message. */
  lemma MigratedFileReadsBack(n: Node, lines: seq<string>, hasImport: bool, codes: seq<string>, k: nat)
    requires k < |Eligible(n)| && k < |codes| && Disjoint(Assign(Eligible(n), codes), |lines|)
    requires var t := Transformation(Eligible(n)[k], codes[k]); Fits(t, |lines|) && Speaks(lines, t)
    ensures var ts := Assign(Eligible(n), codes);
            && Numbered(ts)
            && exists line :: line in ContentOf(lines, ts, hasImport) &&
                 ReadCall(line) == Some(Expected(lines, Transformation(Eligible(n)[k], codes[k])))
  {
    hide Eligible, Assign, ContentOf, Substituted, Speaks, ReadCall, Expected, WithImport;
    var ts := Assign(Eligible(n), codes);
    var t := ts[k];
    ContentIsSubstitution(lines, ts, hasImport);
    assert t in Elements(ts);
    CallReadsBack(lines, Elements(ts), t);
    var line :| line in Substituted(lines, Elements(ts), 0) && ReadCall(line) == Some(Expected(lines, t));
    ImportKeeps(Substituted(lines, Elements(ts), 0), line);
    assert line in ContentOf(lines, ts, hasImport);
  }

  /** A call from which nothing can be extracted keeps its lines. */
  lemma SilentCallKept(lines: seq<string>, ts: set<Transformation>, t: Transformation) returns (a: seq<string>, b: seq<string>)
    requires DisjointSet(ts, |lines|) && t in ts && CallContent(Concat(lines[t.site.start - 1..t.site.end])) == ""
    ensures Substituted(lines, ts, 0) == a + (lines[t.site.start - 1..t.site.end] + b)
  {
    hide Substituted, CallContent, Concat;
    assert Fits(t, |lines|) && Cut(ts, 0);
    a := SubstitutedReaches(lines, ts, 0, t);
    b := Substituted(lines, ts, t.site.end);
    SubstitutedAt(lines, ts, t);
  }

  // ----- import lines -----

  predicate Imports(line: string, lead: string, word: string, rest: string) {
    line == lead + (word + rest) && Blank(lead) && word in {"import ", "from "} && !Blank(rest)
  }

  lemma TrimKeeps(a: string, rest: string)
    requires !Blank(rest)
    ensures TrimmedLength(a + rest) > |a|
  {
    hide IsSpace;
    var k :| 0 <= k < |rest| && !IsSpace(rest[k]);
    assert (a + rest)[|a| + k] == rest[k];
  }

  lemma StripStarts(lead: string, word: string, rest: string)
    requires Blank(lead) && word != "" && !IsSpace(word[0]) && !Blank(rest)
    ensures At(Strip(lead + (word + rest)), 0, word)
  {
    hide IsSpace, Blank;
    var line := lead + (word + rest);
    TrimKeeps(lead + word, rest);
    assert line == (lead + word) + rest;
    var n := TrimmedLength(line);
    var t := line[..n];
    assert t == lead + (word + rest[..n - |lead| - |word|]);
    assert t[|lead|] == word[0];
    assert SpacePrefix(t) == |lead| by { BlankPrefix(lead, t); }
    assert t[|lead|..][0..|word|] == word;
  }

  lemma BlankPrefix(lead: string, t: string)
    requires Blank(lead) && |lead| < |t| && t[..|lead|] == lead && !IsSpace(t[|lead|])
    ensures SpacePrefix(t) == |lead|
  {
    hide IsSpace;
    var n := SpacePrefix(t);
    assert forall k | 0 <= k < |lead| :: t[k] == lead[k];
  }

  /** A line counts as an import exactly if, behind white space, it begins with one of the two
      words and goes on with more than white space. */
  lemma ImportIff(line: string)
    ensures IsImport(line) <==> exists lead: string, word: string, rest: string :: Imports(line, lead, word, rest)
  {
    hide Imports, Strip;
    if IsImport(line) {
      var word := if At(Strip(line), 0, "import ") then "import " else "from ";
      ImportParts(line, word);
    }
    if lead: string, word: string, rest: string :| Imports(line, lead, word, rest) { PartsImport(line, lead, word, rest); }
  }

  lemma PartsImport(line: string, lead: string, word: string, rest: string)
    requires Imports(line, lead, word, rest)
    ensures IsImport(line)
  {
    hide Strip, Blank;
    StripStarts(lead, word, rest);
  }

  lemma ImportParts(line: string, word: string)
    requires At(Strip(line), 0, word) && word in {"import ", "from "}
    ensures exists lead: string, rest: string :: Imports(line, lead, word, rest)
  {
    hide IsSpace, Strip, Blank;
    var lead, tail := StripParts(line);
    var s := Strip(line);
    var r := s[|word|..];
    assert s == word + r by { assert s[0..|word|] == word; }
    EndsVisibly(line, word, r);
    StaysVisible(r, tail);
    assert lead + (word + r) + tail == lead + (word + (r + tail));
    assert Imports(line, lead, word, r + tail);
  }

  /** A stripped text that begins with one of the words goes on. */
  lemma EndsVisibly(line: string, word: string, r: string)
    requires Strip(line) == word + r && word in {"import ", "from "}
    ensures r != "" && !IsSpace(r[|r| - 1])
  {
    hide Strip;
    StripEnds(line);
    SpacesOfPython(' ');
    hide IsSpace;
    var s := word + r;
    assert r == "" ==> s == word;
    assert r != "" ==> s[|s| - 1] == r[|r| - 1];
  }

  lemma StaysVisible(r: string, tail: string)
    requires r != "" && !IsSpace(r[|r| - 1])
    ensures !Blank(r + tail)
  {
    hide IsSpace;
    assert (r + tail)[|r| - 1] == r[|r| - 1];
  }

  lemma PointBehind(a: seq<string>, b: seq<string>)
    requires (a == [] || IsImport(a[|a| - 1])) && forall k | 0 <= k < |b| :: !IsImport(b[k])
    ensures ImportPoint(a + b) == |a|
  {
    var lines := a + b;
    ImportPointIsLast(lines);
    hide IsImport, ImportPoint;
    assert a != [] ==> lines[|a| - 1] == a[|a| - 1];
    assert forall k | |a| <= k < |lines| :: lines[k] == b[k - |a|];
  }

  /** The import line goes behind the last import, and to the top of a file without one. */
  lemma ImportPlaced(a: seq<string>, b: seq<string>)
    requires (a == [] || IsImport(a[|a| - 1])) && forall k | 0 <= k < |b| :: !IsImport(b[k])
    ensures WithImport(a + b) ==
              a + ["from code_indexer.server.logging.error_handler import format_error_log\n"] + b
  {
    hide IsImport, ImportPoint;
    PointBehind(a, b);
    assert (a + b)[..|a|] == a;
    assert (a + b)[|a|..] == b;
  }
}
