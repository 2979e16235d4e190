/** `apply_slim_descriptions.py`: sets the `slim_description` line in the raw
    frontmatter of a document `before --- frontmatter --- body`. */
module SlimDescriptions {
  import opened Text

  // ----- escaping -----

  /** `_escape_yaml_string`: backslashes are doubled first, then quotes escaped. */
  function Escape(value: string): string {
    ReplaceChar(ReplaceChar(value, '\\', "\\\\"), '"', "\\\"")
  }

  function EscapeEach(value: string): string {
    if value == [] then ""
    else (if value[0] == '\\' || value[0] == '"' then ['\\', value[0]] else [value[0]]) + EscapeEach(value[1..])
  }

  lemma {:induction false} ReplaceConcat(a: string, b: string, c: char, now: string)
    ensures ReplaceChar(a + b, c, now) == ReplaceChar(a, c, now) + ReplaceChar(b, c, now)
  {
    if a == [] {
      assert a + b == b;
    } else {
      ReplaceConcat(a[1..], b, c, now);
      assert (a + b)[1..] == a[1..] + b;
      var head := if a[0] == c then now else [a[0]];
      assert head + ReplaceChar(a[1..], c, now) + ReplaceChar(b, c, now)
          == head + (ReplaceChar(a[1..], c, now) + ReplaceChar(b, c, now));
    }
  }

  /** The two passes are one pass, character by character. */
  lemma {:induction false} EscapeIsPerCharacter(value: string)
    ensures Escape(value) == EscapeEach(value)
  {
    if value != [] {
      EscapeIsPerCharacter(value[1..]);
      var c := value[0];
      var first := if c == '\\' then "\\\\" else [c];
      ReplaceConcat(first, ReplaceChar(value[1..], '\\', "\\\\"), '"', "\\\"");
      if c == '\\' {
        assert first == ['\\'] + ['\\'];
        ReplaceConcat(['\\'], ['\\'], '"', "\\\"");
      }
    }
  }

  /** A character that YAML 1.2.2 admits in a one-line double-quoted scalar. */
  predicate Admitted(c: char) { c == '\t' || c >= ' ' }

  /** The character a one-character escape stands for (section 5.7 of YAML 1.2.2);
      the hexadecimal escapes are not read. */
  function EscapeCode(c: char): Option<char> {
    match c
    case '0' => Some('\0')
    case 'a' => Some('\U{07}')
    case 'b' => Some('\U{08}')
    case 't' => Some('\t')
    case '\t' => Some('\t')
    case 'n' => Some('\n')
    case 'v' => Some('\U{0B}')
    case 'f' => Some('\U{0C}')
    case 'r' => Some('\r')
    case 'e' => Some('\U{1B}')
    case ' ' => Some(' ')
    case '"' => Some('"')
    case '/' => Some('/')
    case '\\' => Some('\\')
    case 'N' => Some('\U{85}')
    case '_' => Some('\U{A0}')
    case 'L' => Some('\U{2028}')
    case 'P' => Some('\U{2029}')
    case _ => None
  }

  /** Reads the inside of a double-quoted scalar up to its closing quote; gives the
      value and the text behind the quote. */
  function Decode(s: string): Option<(string, string)> {
    if s == [] then None
    else if s[0] == '"' then Some(("", s[1..]))
    else if s[0] == '\\' then
      if |s| < 2 || EscapeCode(s[1]).None? then None
      else Prepend(EscapeCode(s[1]).value, Decode(s[2..]))
    else if !Admitted(s[0]) then None
    else Prepend(s[0], Decode(s[1..]))
  }

  function Prepend(c: char, r: Option<(string, string)>): Option<(string, string)> {
    if r.None? then None else Some(([c] + r.value.0, r.value.1))
  }

  lemma {:induction false} DecodeEscaped(value: string, rest: string)
    ensures Decode(EscapeEach(value) + ['"'] + rest) ==
              if forall k | 0 <= k < |value| :: Admitted(value[k]) then Some((value, rest)) else None
  {
    var s := EscapeEach(value) + ['"'] + rest;
    if value == [] {
      assert s[1..] == rest;
    } else {
      DecodeEscaped(value[1..], rest);
      var tail := EscapeEach(value[1..]) + ['"'] + rest;
      if value[0] == '\\' || value[0] == '"' {
        assert s[2..] == tail;
      } else {
        assert s[1..] == tail;
      }
      assert (forall k | 0 <= k < |value| :: Admitted(value[k])) <==>
             Admitted(value[0]) && forall k | 0 <= k < |value[1..]| :: Admitted(value[1..][k]) by {
        assert value == [value[0]] + value[1..];
      }
      assert [value[0]] + value[1..] == value;
    }
  }

  /** `_build_slim_line`. */
  function SlimLine(value: string): string {
    "slim_description: \"" + Escape(value) + ['"']
  }

  /** Reading a slim line's value back gives the value, with nothing left over and
      no quote before the closing one, exactly when no character is a line break or
      another control character. */
  lemma ValueReadsBack(value: string)
    ensures SlimLine(value)[..19] == "slim_description: \""
    ensures Decode(SlimLine(value)[19..]) == Some((value, "")) <==> forall k | 0 <= k < |value| :: Admitted(value[k])
  {
    EscapeIsPerCharacter(value);
    DecodeEscaped(value, "");
    assert SlimLine(value)[19..] == EscapeEach(value) + ['"'] + "";
  }

  // ----- editing the lines of the frontmatter -----

  predicate IsSlim(line: string) { At(line, 0, "slim_description:") }

  predicate IsTlDr(line: string) { At(line, 0, "tl_dr:") }

  predicate HasSlim(lines: seq<string>) { exists k | 0 <= k < |lines| :: IsSlim(lines[k]) }

  /** The lines that are not slim descriptions, in order. */
  function WithoutSlim(lines: seq<string>): seq<string> {
    if lines == [] then []
    else (if IsSlim(lines[0]) then [] else [lines[0]]) + WithoutSlim(lines[1..])
  }

  /** Where the slim description goes: the other lines before it and after it. The
      first slim line fixes the place; without one it is the line behind the first
      `tl_dr`, or the end. */
  function Before(lines: seq<string>): seq<string> {
    if HasSlim(lines) then BeforeSlim(lines) else BeforeInsertion(lines)
  }

  function After(lines: seq<string>): seq<string> {
    if HasSlim(lines) then AfterSlim(lines) else lines[|BeforeInsertion(lines)|..]
  }

  function BeforeSlim(lines: seq<string>): seq<string> {
    if lines == [] || IsSlim(lines[0]) then [] else [lines[0]] + BeforeSlim(lines[1..])
  }

  function AfterSlim(lines: seq<string>): seq<string> {
    if lines == [] then [] else if IsSlim(lines[0]) then WithoutSlim(lines[1..]) else AfterSlim(lines[1..])
  }

  function BeforeInsertion(lines: seq<string>): (r: seq<string>)
    ensures |r| <= |lines| && r == lines[..|r|]
  {
    if lines == [] then []
    else if IsTlDr(lines[0]) then [lines[0]]
    else
      assert [lines[0]] + lines[1..] == lines;
      [lines[0]] + BeforeInsertion(lines[1..])
  }

  /** The edited lines, with a block of lines in the slim description's place. */
  function Edited(lines: seq<string>, block: seq<string>): seq<string> {
    Before(lines) + block + After(lines)
  }

  // ----- the method -----

  /** Positions of the slim lines at or after `from`. */
  function SlimIndices(lines: seq<string>, from: nat): (r: seq<nat>)
    ensures forall k | 0 <= k < |r| :: from <= r[k] < |lines|
    decreases |lines| - from
  {
    if from >= |lines| then []
    else if IsSlim(lines[from]) then [from] + SlimIndices(lines, from + 1)
    else SlimIndices(lines, from + 1)
  }

  function FirstTlDr(lines: seq<string>, from: nat): (r: Option<nat>)
    ensures r.Some? ==> from <= r.value < |lines| && IsTlDr(lines[r.value])
    ensures forall p | from <= p < (if r.Some? then r.value else |lines|) :: !IsTlDr(lines[p])
    decreases |lines| - from
  {
    if from >= |lines| then None
    else if IsTlDr(lines[from]) then Some(from)
    else FirstTlDr(lines, from + 1)
  }

  /** `_apply_slim_to_frontmatter` on the split lines. */
  method ApplySlimToLines(input: seq<string>, slimLine: string) returns (lines: seq<string>)
    ensures lines == Edited(input, [slimLine])
  {
    hide IsSlim, IsTlDr, SlimIndices, FirstTlDr, WithoutSlim, HasSlim, BeforeInsertion, Edited, Next;
    lines := input;
    var existing := SlimIndices(lines, 0);
    if existing != [] {
      var first := existing[0];
      lines := lines[first := slimLine];
      ghost var replaced := lines;
      ghost var b := |input|;
      NothingToPop(input, replaced);
      var j := |existing|;
      while j > 1
        invariant 1 <= j <= |existing|
        invariant b == if j == |existing| then |input| else existing[j]
        invariant lines == replaced[..b] + WithoutSlim(input[b..])
      {
        j := j - 1;
        var idx := existing[j];
        IndexIsSlim(input, j);
        IndicesIncrease(input, j);
        NextIndex(input, j);
        PopStep(input, idx);
        PopKeeps(replaced, idx, b, WithoutSlim(input[b..]));
        lines := lines[..idx] + lines[idx + 1..];
        b := idx;
      }
      ReplacedIsEdited(input, existing, b, slimLine);
      return lines;
    }
    var tlDr := FirstTlDr(lines, 0);
    InsertedIsEdited(input, slimLine);
    if tlDr.None? {
      lines := lines + [slimLine];
      assert lines == input[..|input|] + [slimLine] + input[|input|..];
    } else {
      lines := lines[..tlDr.value + 1] + [slimLine] + lines[tlDr.value + 1..];
    }
  }

  lemma ReplacedIsEdited(input: seq<string>, existing: seq<nat>, b: nat, slimLine: string)
    requires existing == SlimIndices(input, 0) != []
    requires b == if |existing| == 1 then |input| else existing[1]
    ensures existing[0] < b <= |input|
    ensures input[existing[0] := slimLine][..b] + WithoutSlim(input[b..]) == Edited(input, [slimLine])
  {
    hide SlimIndices, WithoutSlim, Before, After, HasSlim;
    FirstSlimSplits(input, existing, b);
    UpdatedPrefix(input, existing[0], b, slimLine, WithoutSlim(input[b..]));
  }

  lemma UpdatedPrefix(input: seq<string>, f: nat, b: nat, line: string, tail: seq<string>)
    requires f < b <= |input|
    ensures input[f := line][..b] + tail == input[..f] + [line] + (input[f + 1..b] + tail)
  {
  }

  lemma InsertedIsEdited(input: seq<string>, slimLine: string)
    requires SlimIndices(input, 0) == []
    ensures var t := FirstTlDr(input, 0);
            var n := if t.None? then |input| else t.value + 1;
            n <= |input| && Edited(input, [slimLine]) == input[..n] + [slimLine] + input[n..]
  {
    hide SlimIndices, FirstTlDr, BeforeInsertion, HasSlim;
    NoIndices(input);
    InsertionPoint(input, 0);
    assert input[0..] == input;
  }

  /** Popping a line that stands before the part already filtered. */
  lemma PopKeeps(replaced: seq<string>, idx: nat, b: nat, tail: seq<string>)
    requires idx < b <= |replaced|
    ensures var lines := replaced[..b] + tail;
            lines[..idx] + lines[idx + 1..] == replaced[..idx] + (replaced[idx + 1..b] + tail)
  {
  }

  lemma NoIndices(input: seq<string>)
    requires SlimIndices(input, 0) == []
    ensures !HasSlim(input)
  {
    NextSlim(input, 0);
  }

  lemma NothingToPop(input: seq<string>, replaced: seq<string>)
    requires |replaced| == |input|
    ensures replaced == replaced[..|input|] + WithoutSlim(input[|input|..])
  {
    assert input[|input|..] == [];
  }

  lemma {:induction false} NoSlimUnchanged(lines: seq<string>)
    requires !HasSlim(lines)
    ensures WithoutSlim(lines) == lines
  {
    if lines != [] {
      assert !IsSlim(lines[0]);
      assert !HasSlim(lines[1..]) by { assert forall k | 0 <= k < |lines[1..]| :: lines[1..][k] == lines[k + 1]; }
      NoSlimUnchanged(lines[1..]);
    }
  }

  lemma {:induction false} WithoutSlimConcat(a: seq<string>, b: seq<string>)
    ensures WithoutSlim(a + b) == WithoutSlim(a) + WithoutSlim(b)
  {
    if a == [] {
      assert a + b == b;
    } else {
      hide IsSlim;
      WithoutSlimConcat(a[1..], b);
      assert (a + b)[1..] == a[1..] + b;
      var head := if IsSlim(a[0]) then [] else [a[0]];
      assert head + WithoutSlim(a[1..]) + WithoutSlim(b) == head + (WithoutSlim(a[1..]) + WithoutSlim(b));
    }
  }

  /** The next slim line at or after `from`, or the end. */
  function Next(lines: seq<string>, from: nat): (n: nat)
    requires from <= |lines|
    ensures from <= n <= |lines|
  {
    var r := SlimIndices(lines, from);
    if r == [] then |lines| else r[0]
  }

  /** Up to the next slim line there is none. */
  lemma {:induction false} NextSlim(lines: seq<string>, from: nat)
    requires from <= |lines|
    ensures var n := Next(lines, from);
            && (forall k | from <= k < n :: !IsSlim(lines[k])) && (n < |lines| ==> IsSlim(lines[n]))
            && SlimIndices(lines, from) == (if n == |lines| then [] else [n] + SlimIndices(lines, n + 1))
    decreases |lines| - from
  {
    hide IsSlim, SlimIndices;
    IndicesStep(lines, from);
    if from < |lines| && !IsSlim(lines[from]) { NextSlim(lines, from + 1); }
  }

  lemma IndicesStep(lines: seq<string>, from: nat)
    requires from <= |lines|
    ensures from == |lines| ==> SlimIndices(lines, from) == []
    ensures from < |lines| && IsSlim(lines[from]) ==> SlimIndices(lines, from) == [from] + SlimIndices(lines, from + 1)
    ensures from < |lines| && !IsSlim(lines[from]) ==> SlimIndices(lines, from) == SlimIndices(lines, from + 1)
  {
    hide IsSlim;
  }

  /** Filtering copies the lines up to the next slim line. */
  lemma {:induction false} GapCopied(lines: seq<string>, from: nat)
    requires from <= |lines|
    ensures WithoutSlim(lines[from..]) == lines[from..Next(lines, from)] + WithoutSlim(lines[Next(lines, from)..])
    decreases |lines| - from
  {
    hide IsSlim, WithoutSlim;
    var n := Next(lines, from);
    if n == from {
      assert lines[from..from] + WithoutSlim(lines[from..]) == WithoutSlim(lines[from..]);
    } else {
      GapCopied(lines, from + 1);
      OtherLineCopied(lines, from);
      assert lines[from..n] == [lines[from]] + lines[from + 1..n];
    }
  }

  lemma OtherLineCopied(lines: seq<string>, i: nat)
    requires i < |lines| && !IsSlim(lines[i])
    ensures WithoutSlim(lines[i..]) == [lines[i]] + WithoutSlim(lines[i + 1..])
  {
    hide IsSlim;
    assert lines[i..][1..] == lines[i + 1..];
  }

  lemma {:induction false} IndicesAfter(lines: seq<string>, from: nat, j: nat)
    requires from <= |lines| && j < |SlimIndices(lines, from)|
    ensures var r := SlimIndices(lines, from);
            IsSlim(lines[r[j]]) && r[j + 1..] == SlimIndices(lines, r[j] + 1)
    decreases j
  {
    hide IsSlim, WithoutSlim, SlimIndices, Next;
    NextSlim(lines, from);
    var n := Next(lines, from);
    var r, t := SlimIndices(lines, from), SlimIndices(lines, n + 1);
    assert r == [n] + t;
    TailOfCons(n, t, j);
    if j > 0 { IndicesAfter(lines, n + 1, j - 1); }
  }

  lemma TailOfCons(n: nat, t: seq<nat>, j: nat)
    requires j <= |t|
    ensures ([n] + t)[j] == (if j == 0 then n else t[j - 1]) && ([n] + t)[j + 1..] == t[j..] && t[0..] == t
  {
  }

  lemma SlimHeadDropped(lines: seq<string>, i: nat)
    requires i < |lines| && IsSlim(lines[i])
    ensures WithoutSlim(lines[i..]) == WithoutSlim(lines[i + 1..])
  {
    hide IsSlim;
    assert lines[i..][1..] == lines[i + 1..];
  }

  lemma IndicesIncrease(lines: seq<string>, j: nat)
    requires 0 < j < |SlimIndices(lines, 0)|
    ensures SlimIndices(lines, 0)[0] < SlimIndices(lines, 0)[j]
  {
    hide IsSlim, SlimIndices;
    IndicesAfter(lines, 0, 0);
    assert SlimIndices(lines, 0)[j] == SlimIndices(lines, 0)[1..][j - 1];
  }

  lemma NextIndex(lines: seq<string>, j: nat)
    requires j < |SlimIndices(lines, 0)|
    ensures var r := SlimIndices(lines, 0);
            Next(lines, r[j] + 1) == if j + 1 == |r| then |lines| else r[j + 1]
  {
    hide IsSlim, SlimIndices;
    IndicesAfter(lines, 0, j);
    var r := SlimIndices(lines, 0);
    assert j + 1 < |r| ==> r[j + 1..][0] == r[j + 1];
  }

  lemma PopStep(input: seq<string>, idx: nat)
    requires idx < |input| && IsSlim(input[idx])
    ensures var b := Next(input, idx + 1);
            WithoutSlim(input[idx..]) == WithoutSlim(input[idx + 1..]) == input[idx + 1..b] + WithoutSlim(input[b..])
  {
    hide *;
    GapCopied(input, idx + 1);
    SlimHeadDropped(input, idx);
  }

  lemma IndexIsSlim(lines: seq<string>, j: nat)
    requires j < |SlimIndices(lines, 0)|
    ensures IsSlim(lines[SlimIndices(lines, 0)[j]])
  {
    IndicesAfter(lines, 0, j);
  }

  lemma {:induction false} FirstSlimAt(lines: seq<string>, f: nat)
    requires f < |lines| && IsSlim(lines[f]) && forall k | 0 <= k < f :: !IsSlim(lines[k])
    ensures BeforeSlim(lines) == lines[..f] && AfterSlim(lines) == WithoutSlim(lines[f + 1..])
    decreases f
  {
    if f > 0 {
      FirstSlimAt(lines[1..], f - 1);
      assert lines[..f] == [lines[0]] + lines[1..][..f - 1];
      assert lines[1..][f..] == lines[f + 1..];
    }
  }

  lemma FirstSlimBefore(lines: seq<string>)
    requires SlimIndices(lines, 0) != []
    ensures forall k | 0 <= k < SlimIndices(lines, 0)[0] :: !IsSlim(lines[k])
  {
    NextSlim(lines, 0);
  }

  lemma FirstSlimSplits(input: seq<string>, existing: seq<nat>, b: nat)
    requires existing == SlimIndices(input, 0) != []
    requires b == if |existing| == 1 then |input| else existing[1]
    ensures existing[0] < b <= |input| && HasSlim(input)
    ensures Before(input) == input[..existing[0]] && After(input) == input[existing[0] + 1..b] + WithoutSlim(input[b..])
  {
    hide IsSlim, SlimIndices, Before, After, Next, HasSlim, WithoutSlim;
    NextSlim(input, 0);
    IndexIsSlim(input, 0);
    FirstSlimBefore(input);
    NextIndex(input, 0);
    FirstSlimParts(input, existing[0]);
  }

  lemma FirstSlimParts(input: seq<string>, f: nat)
    requires f < |input| && IsSlim(input[f]) && forall k | 0 <= k < f :: !IsSlim(input[k])
    ensures var b := Next(input, f + 1);
            HasSlim(input) && Before(input) == input[..f] && After(input) == input[f + 1..b] + WithoutSlim(input[b..])
  {
    hide IsSlim, WithoutSlim, Next, BeforeSlim, AfterSlim, BeforeInsertion;
    FirstSlimAt(input, f);
    PopStep(input, f);
  }

  lemma {:induction false} InsertionPoint(lines: seq<string>, from: nat)
    requires from <= |lines|
    ensures var r := FirstTlDr(lines, from);
            from + |BeforeInsertion(lines[from..])| == if r.Some? then r.value + 1 else |lines|
    decreases |lines| - from
  {
    if from < |lines| && !IsTlDr(lines[from]) {
      InsertionPoint(lines, from + 1);
      assert lines[from..][1..] == lines[from + 1..];
    }
  }

  // ----- the laws of the edit -----

  lemma ConsHasNone(line: string, rest: seq<string>)
    requires !IsSlim(line) && !HasSlim(rest)
    ensures !HasSlim([line] + rest)
  {
    hide IsSlim;
    assert forall k | 0 < k <= |rest| :: ([line] + rest)[k] == rest[k - 1];
  }

  lemma TailHas(lines: seq<string>)
    requires lines != [] && HasSlim(lines) && !IsSlim(lines[0])
    ensures HasSlim(lines[1..])
  {
    hide IsSlim;
    var k :| 0 <= k < |lines| && IsSlim(lines[k]);
    assert IsSlim(lines[1..][k - 1]);
  }

  lemma {:induction false} BeforeSlimHasNone(lines: seq<string>)
    ensures !HasSlim(BeforeSlim(lines))
  {
    hide IsSlim;
    if lines != [] && !IsSlim(lines[0]) {
      BeforeSlimHasNone(lines[1..]);
      ConsHasNone(lines[0], BeforeSlim(lines[1..]));
    }
  }

  lemma {:induction false} AroundSlim(lines: seq<string>)
    requires HasSlim(lines)
    ensures BeforeSlim(lines) + AfterSlim(lines) == WithoutSlim(lines)
  {
    hide IsSlim;
    if !IsSlim(lines[0]) {
      TailHas(lines);
      AroundSlim(lines[1..]);
      assert BeforeSlim(lines) + AfterSlim(lines) == [lines[0]] + (BeforeSlim(lines[1..]) + AfterSlim(lines[1..]));
    }
  }

  lemma {:induction false} WithoutSlimHasNone(lines: seq<string>)
    ensures !HasSlim(WithoutSlim(lines))
  {
    if lines != [] {
      hide IsSlim;
      WithoutSlimHasNone(lines[1..]);
      if !IsSlim(lines[0]) { ConsHasNone(lines[0], WithoutSlim(lines[1..])); }
    }
  }

  lemma {:induction false} AfterSlimHasNone(lines: seq<string>)
    ensures !HasSlim(AfterSlim(lines))
  {
    if lines != [] {
      if IsSlim(lines[0]) { WithoutSlimHasNone(lines[1..]); } else { AfterSlimHasNone(lines[1..]); }
    }
  }

  /** Before and after the slim description stand exactly the other lines, in order. */
  lemma OtherLinesKept(lines: seq<string>)
    ensures !HasSlim(Before(lines)) && !HasSlim(After(lines))
    ensures Before(lines) + After(lines) == WithoutSlim(lines)
  {
    hide HasSlim, BeforeSlim, AfterSlim, BeforeInsertion, WithoutSlim;
    if HasSlim(lines) {
      BeforeSlimHasNone(lines);
      AroundSlim(lines);
      AfterSlimHasNone(lines);
    } else {
      NoSlimUnchanged(lines);
      NoneOnEitherSide(lines, |BeforeInsertion(lines)|);
    }
  }

  lemma NoneOnEitherSide(lines: seq<string>, n: nat)
    requires n <= |lines| && !HasSlim(lines)
    ensures !HasSlim(lines[..n]) && !HasSlim(lines[n..]) && lines[..n] + lines[n..] == lines
  {
    hide IsSlim;
    assert forall k | 0 <= k < n :: lines[..n][k] == lines[k];
    assert forall k | 0 <= k < |lines| - n :: lines[n..][k] == lines[n + k];
  }

  lemma SlicesAround(before: seq<string>, first: string, rest: seq<string>)
    ensures var lines := before + [first] + rest;
            && lines[|before|] == first && lines[..|before|] == before && lines[|before| + 1..] == rest
            && forall k | 0 <= k < |before| :: lines[k] == before[k]
  {
  }

  /** Editing again: the first slim line gives the place, all further ones go. */
  lemma EditAgain(before: seq<string>, first: string, more: seq<string>, after: seq<string>, block: seq<string>)
    requires !HasSlim(before) && IsSlim(first) && !HasSlim(after)
    ensures Edited(before + [first] + (more + after), block) == before + block + (WithoutSlim(more) + after)
  {
    hide IsSlim, WithoutSlim, BeforeSlim, AfterSlim, BeforeInsertion;
    var lines := before + [first] + (more + after);
    SlicesAround(before, first, more + after);
    assert HasSlim(lines) by { assert IsSlim(lines[|before|]); }
    FirstSlimAt(lines, |before|);
    WithoutSlimConcat(more, after);
    NoSlimUnchanged(after);
  }

  /** `_apply_slim_to_frontmatter`. */
  function Applied(frontmatter: string, value: string): string {
    Join(Edited(Split(frontmatter), [SlimLine(value)]))
  }

  method ApplySlimToFrontmatter(frontmatter: string, value: string) returns (r: string)
    ensures r == Applied(frontmatter, value)
  {
    var lines := ApplySlimToLines(Split(frontmatter), SlimLine(value));
    r := Join(lines);
  }

  lemma {:induction false} EscapeOneLine(value: string)
    requires OneLine(value)
    ensures OneLine(EscapeEach(value))
  {
    if value != [] {
      assert value[0] in value;
      EscapeOneLine(value[1..]);
    }
  }

  lemma SlimLineOneLine(value: string)
    requires OneLine(value)
    ensures OneLine(SlimLine(value))
  {
    EscapeIsPerCharacter(value);
    EscapeOneLine(value);
  }

  lemma {:induction false} WithoutSlimOneLine(lines: seq<string>)
    requires OneLineEach(lines)
    ensures OneLineEach(WithoutSlim(lines))
  {
    hide IsSlim, OneLine;
    if lines != [] { WithoutSlimOneLine(lines[1..]); }
  }

  lemma AroundOneLine(lines: seq<string>)
    requires OneLineEach(lines)
    ensures OneLineEach(Before(lines)) && OneLineEach(After(lines))
  {
    hide Before, After, WithoutSlim, HasSlim, OneLine;
    OtherLinesKept(lines);
    WithoutSlimOneLine(lines);
    var all := Before(lines) + After(lines);
    assert forall k | 0 <= k < |Before(lines)| :: Before(lines)[k] == all[k];
    assert forall k | 0 <= k < |After(lines)| :: After(lines)[k] == all[|Before(lines)| + k];
  }

  lemma LinesAround(before: seq<string>, slim: string, after: seq<string>)
    requires OneLineEach(before) && OneLineEach(after)
    ensures Split(Join(before + [slim] + after)) == before + Split(slim) + after
  {
    hide Split, OneLine, Join, SplitEach;
    SplitJoinGeneral(before + [slim] + after);
    SplitEachConcat(before + [slim], after);
    SplitEachConcat(before, [slim]);
    SplitEachOneLine(before);
    SplitEachOneLine(after);
    SplitEachSingle(slim);
  }

  lemma SplitEachSingle(line: string)
    ensures SplitEach([line]) == Split(line)
  {
    hide Split;
    assert [line][1..] == [];
    assert SplitEach([line]) == Split(line) + [];
  }

  /** The two kinds of lines the edit looks for. */
  lemma LinesBegin(line: string)
    ensures IsSlim(line) <==> exists v: string :: line == "slim_description:" + v
    ensures IsTlDr(line) <==> exists v: string :: line == "tl_dr:" + v
  {
    Begins(line, "slim_description:");
    Begins(line, "tl_dr:");
  }

  lemma Begins(line: string, word: string)
    ensures At(line, 0, word) <==> exists v: string :: line == word + v
  {
    if At(line, 0, word) { assert line == word + line[|word|..]; }
    if v: string :| line == word + v { assert line[0..|word|] == word; }
  }

  predicate HasTlDr(lines: seq<string>) { exists k | 0 <= k < |lines| :: IsTlDr(lines[k]) }

  lemma {:induction false} InsertionBehind(a: seq<string>, x: string, b: seq<string>)
    requires !HasTlDr(a)
    ensures IsTlDr(x) ==> BeforeInsertion(a + ([x] + b)) == a + [x]
    ensures BeforeInsertion(a) == a
  {
    hide IsTlDr;
    var lines := a + ([x] + b);
    if a == [] {
      assert lines == [x] + b && a + [x] == [x];
    } else {
      assert !IsTlDr(a[0]) && !HasTlDr(a[1..]) by { assert forall k | 0 <= k < |a[1..]| :: a[1..][k] == a[k + 1]; }
      InsertionBehind(a[1..], x, b);
      assert lines[1..] == a[1..] + ([x] + b) && a == [a[0]] + a[1..];
    }
  }

  /** Where the new lines go: in the place of the first slim line, all further ones being
      dropped; without one, right behind the first `tl_dr` line; without either, at the end. */
  lemma PlaceOfSlim(a: seq<string>, x: string, b: seq<string>, block: seq<string>)
    ensures !HasSlim(a) && IsSlim(x) ==> Edited(a + [x] + b, block) == a + block + WithoutSlim(b)
    ensures !HasSlim(a + ([x] + b)) && !HasTlDr(a) && IsTlDr(x) ==> Edited(a + ([x] + b), block) == (a + [x]) + block + b
    ensures !HasSlim(a) && !HasTlDr(a) ==> Edited(a, block) == a + block
  {
    hide IsSlim, IsTlDr, HasSlim, HasTlDr, WithoutSlim, BeforeSlim, AfterSlim, BeforeInsertion;
    if !HasSlim(a) && IsSlim(x) {
      NoLinesNoSlim();
      EditAgain(a, x, b, [], block);
      assert b + [] == b && WithoutSlim(b) + [] == WithoutSlim(b);
    }
    if !HasTlDr(a) {
      InsertionBehind(a, x, b);
      assert (a + ([x] + b))[|a| + 1..] == b;
      assert a[|a|..] == [] && a + block + [] == a + block;
    }
  }

  lemma NoLinesNoSlim()
    ensures !HasSlim([])
  {
  }

  /** The lines of an edited frontmatter: the other lines, unchanged and in order,
      around the lines of the slim description. */
  lemma AppliedLines(frontmatter: string, value: string)
    ensures var lines := Split(frontmatter);
            Split(Applied(frontmatter, value)) == Before(lines) + Split(SlimLine(value)) + After(lines)
  {
    hide Before, After, Split, SlimLine, OneLineEach;
    AroundOneLine(Split(frontmatter));
    LinesAround(Before(Split(frontmatter)), SlimLine(value), After(Split(frontmatter)));
  }

  /** For a value without newline there is afterwards exactly one slim line, the new
      one, and all other lines are kept in order. */
  lemma ExactlyOneSlimLine(frontmatter: string, value: string)
    requires OneLine(value)
    ensures var lines := Split(Applied(frontmatter, value));
            var p := |Before(Split(frontmatter))|;
            && p < |lines| && lines[p] == SlimLine(value)
            && (forall k | 0 <= k < |lines| :: IsSlim(lines[k]) <==> k == p)
            && lines[..p] + lines[p + 1..] == WithoutSlim(Split(frontmatter))
  {
    hide Before, After, Split, SlimLine, WithoutSlim, IsSlim;
    AppliedLines(frontmatter, value);
    SlimLineOneLine(value);
    SplitOneLine(SlimLine(value));
    var lines := Split(frontmatter);
    var before, after := Before(lines), After(lines);
    OtherLinesKept(lines);
    SlimLineIsSlim(value);
    var out := before + [SlimLine(value)] + after;
    SlicesAround(before, SlimLine(value), after);
    forall k | |before| < k < |out| ensures !IsSlim(out[k]) {
      assert out[k] == after[k - |before| - 1];
    }
  }

  lemma SlimLineIsSlim(value: string)
    ensures IsSlim(SlimLine(value))
  {
    assert SlimLine(value)[0..17] == "slim_description:";
  }

  lemma {:induction false} SplitFirst(prefix: string, s: string)
    requires OneLine(prefix)
    ensures |prefix| <= |Split(prefix + s)[0]| && Split(prefix + s)[0][..|prefix|] == prefix
  {
    if prefix != [] {
      assert prefix[0] in prefix;
      assert (prefix + s)[1..] == prefix[1..] + s;
      SplitFirst(prefix[1..], s);
      var rest := Split(prefix[1..] + s);
      assert Split(prefix + s) == Attach(prefix[0], rest);
      assert ([prefix[0]] + rest[0])[..|prefix|] == [prefix[0]] + rest[0][..|prefix| - 1];
    }
  }

  /** The first line of a slim description, also of one with newlines, is a slim line. */
  lemma FirstLineIsSlim(value: string)
    ensures IsSlim(Split(SlimLine(value))[0])
  {
    var rest := " \"" + Escape(value) + ['"'];
    assert SlimLine(value) == "slim_description:" + rest;
    assert OneLine("slim_description:");
    SplitFirst("slim_description:", rest);
  }

  lemma JoinSame(a: seq<string>, more: seq<string>, b: seq<string>)
    requires a != [] && OneLineEach(more)
    ensures Join(a + (more + b)) == Join(a + b) <==> more == []
  {
    hide Join, Split;
    SplitJoinGeneral(a + (more + b));
    SplitJoinGeneral(a + b);
    SplitEachConcat(a, more + b);
    SplitEachConcat(more, b);
    SplitEachConcat(a, b);
    SplitEachOneLine(more);
    if more == [] { assert more + b == b; }
  }

  /** Lines a slim description leaves behind when it is replaced: its continuation
      lines that do not look like slim lines. */
  function Residue(value: string): seq<string> {
    WithoutSlim(Split(SlimLine(value))[1..])
  }

  lemma AppliedTwice(frontmatter: string, a: string, b: string)
    ensures var lines := Split(frontmatter);
            Applied(Applied(frontmatter, a), b) == Join(Before(lines) + [SlimLine(b)] + (Residue(a) + After(lines)))
  {
    hide Before, After, Split, SlimLine, WithoutSlim, IsSlim, Join, HasSlim, Edited;
    var lines := Split(frontmatter);
    var block := Split(SlimLine(a));
    AppliedLines(frontmatter, a);
    OtherLinesKept(lines);
    FirstLineIsSlim(a);
    EditAgain(Before(lines), block[0], block[1..], After(lines), [SlimLine(b)]);
    Regrouped(Before(lines), block, After(lines));
  }

  lemma Regrouped(before: seq<string>, block: seq<string>, after: seq<string>)
    requires block != []
    ensures before + block + after == before + [block[0]] + (block[1..] + after)
  {
    assert block == [block[0]] + block[1..];
  }

  lemma AppliedOnce(frontmatter: string, b: string)
    ensures var lines := Split(frontmatter); Applied(frontmatter, b) == Join(Before(lines) + [SlimLine(b)] + After(lines))
  {
  }

  /** The last write wins exactly when the earlier value leaves no residue. */
  lemma LastWriteWinsIff(frontmatter: string, a: string, b: string)
    ensures Applied(Applied(frontmatter, a), b) == Applied(frontmatter, b) <==> Residue(a) == []
  {
    hide Before, After, Split, SlimLine, WithoutSlim, Join, Applied;
    var lines := Split(frontmatter);
    AppliedTwice(frontmatter, a, b);
    AppliedOnce(frontmatter, b);
    var head := Before(lines) + [SlimLine(b)];
    WithoutSlimOneLine(Split(SlimLine(a))[1..]);
    JoinSame(head, Residue(a), After(lines));
  }

  /** A value without newline never leaves a residue. */
  lemma OneLineNoResidue(value: string)
    requires OneLine(value)
    ensures Residue(value) == []
  {
    SlimLineOneLine(value);
    SplitOneLine(SlimLine(value));
  }

  // ----- the document -----

  datatype Parts = Parts(before: string, frontmatter: string, body: string)

  /** `raw.split("---", 2)`, when it yields three parts. */
  function SplitDocument(raw: string): Option<Parts> {
    var a := Find(raw, "---", 0);
    if a < 0 then None
    else
      var b := Find(raw, "---", a + 3);
      if b < 0 then None else Some(Parts(raw[..a], raw[a + 3..b], raw[b + 3..]))
  }

  function Rebuild(d: Parts): string {
    d.before + "---" + d.frontmatter + "---" + d.body
  }

  /** One document of `apply_slim`: skipped when it does not have the structure. */
  function UpdatedDocument(raw: string, value: string): string {
    match SplitDocument(raw)
    case None => raw
    case Some(d) => Rebuild(d.(frontmatter := Applied(d.frontmatter, value)))
  }

  /** Behind `s`, the delimiter is found where it was put and not earlier. */
  predicate Clean(s: string) { Find(s + "---", "---", 0) == |s| }

  predicate EndsInDash(s: string) { s != "" && s[|s| - 1] == '-' }

  /** Three dashes in a row at position `k`. */
  predicate DashesAt(s: string, k: int) {
    0 <= k && k + 3 <= |s| && s[k] == '-' && s[k + 1] == '-' && s[k + 2] == '-'
  }

  lemma AtDashes(s: string, k: int)
    ensures At(s, k, "---") <==> DashesAt(s, k)
  {
    if 0 <= k && k + 3 <= |s| {
      assert s[k..k + 3] == [s[k], s[k + 1], s[k + 2]];
    }
  }

  predicate HasDashes(s: string) { exists k | 0 <= k < |s| :: DashesAt(s, k) }

  /** A text is clean exactly when it holds no delimiter and does not end in a dash. */
  lemma CleanMeaning(s: string)
    ensures Clean(s) <==> !HasDashes(s) && !EndsInDash(s)
  {
    var t := s + "---";
    var p := Find(t, "---", 0);
    forall k ensures At(t, k, "---") <==> DashesAt(t, k) { AtDashes(t, k); }
    assert DashesAt(t, |s|);
    assert forall k | 0 <= k < |s| :: t[k] == s[k];
    if HasDashes(s) {
      var k :| 0 <= k < |s| && DashesAt(s, k);
      assert DashesAt(t, k);
    }
    if EndsInDash(s) { assert DashesAt(t, |s| - 1); }
    if p < |s| {
      assert DashesAt(t, p);
      assert p + 3 <= |s| ==> DashesAt(s, p);
    }
  }

  lemma FindInPrefix(s: string, rest: string)
    ensures Find(s + "---" + rest, "---", 0) == Find(s + "---", "---", 0) <= |s|
    ensures Find(s + "---", "---", 0) >= 0
  {
    var t, u := s + "---", s + "---" + rest;
    forall k ensures At(t, k, "---") <==> DashesAt(t, k) { AtDashes(t, k); }
    forall k ensures At(u, k, "---") <==> DashesAt(u, k) { AtDashes(u, k); }
    assert forall k | 0 <= k < |t| :: t[k] == u[k];
    assert DashesAt(t, |s|) && DashesAt(u, |s|);
    var p, q := Find(t, "---", 0), Find(u, "---", 0);
    assert DashesAt(u, p) && DashesAt(t, q);
  }

  lemma FindShifts(p: string, x: string)
    ensures var f := Find(x, "---", 0); Find(p + x, "---", |p|) == if f < 0 then -1 else |p| + f
  {
    hide Find, At;
    var u := p + x;
    forall k ensures At(x, k, "---") <==> k >= 0 && At(u, |p| + k, "---") {
      AtDashes(x, k);
      AtDashes(u, |p| + k);
    }
    var f, g := Find(x, "---", 0), Find(u, "---", |p|);
    assert g >= 0 ==> At(x, g - |p|, "---");
    assert f >= 0 ==> At(u, |p| + f, "---");
  }

  /** A rebuilt document splits into the same parts exactly when the text before the
      frontmatter and the frontmatter are clean. */
  lemma SplitsBackIff(d: Parts)
    ensures SplitDocument(Rebuild(d)) == Some(d) <==> Clean(d.before) && Clean(d.frontmatter)
  {
    hide Find, At;
    var raw := Rebuild(d);
    var x := d.frontmatter + "---" + d.body;
    FindInPrefix(d.before, x);
    FindInPrefix(d.frontmatter, d.body);
    assert raw == d.before + "---" + x;
    FindShifts(d.before + "---", x);
    if Clean(d.before) {
      var f := Find(x, "---", 0);
      PartsAt(d, f);
      assert |d.before + "---"| == |d.before| + 3;
      assert Find(raw, "---", |d.before| + 3) == |d.before| + 3 + f;
      assert SplitDocument(raw) == Some(Parts(d.before, d.frontmatter[..f], raw[|d.before| + 3 + f + 3..]));
      assert f == |d.frontmatter| ==> d.frontmatter[..f] == d.frontmatter;
      assert f < |d.frontmatter| ==> |d.frontmatter[..f]| != |d.frontmatter|;
    }
  }

  lemma PartsAt(d: Parts, f: int)
    requires 0 <= f <= |d.frontmatter|
    ensures var raw, a := Rebuild(d), |d.before|;
            && a + 3 + f + 3 <= |raw|
            && raw[..a] == d.before && raw[a + 3..a + 3 + f] == d.frontmatter[..f]
            && (f == |d.frontmatter| ==> raw[a + 3 + f + 3..] == d.body)
  {
  }

  lemma FivePieces(raw: string, a: int, b: int)
    requires 0 <= a && a + 3 <= b && b + 3 <= |raw|
    ensures raw == raw[..a] + raw[a..a + 3] + raw[a + 3..b] + raw[b..b + 3] + raw[b + 3..]
  {
  }

  /** A document that splits is the rebuilding of its parts, and these are clean. */
  lemma PartsAreClean(raw: string)
    ensures SplitDocument(raw).Some? ==>
              var d := SplitDocument(raw).value; raw == Rebuild(d) && Clean(d.before) && Clean(d.frontmatter)
  {
    if SplitDocument(raw).Some? {
      var d := SplitDocument(raw).value;
      var a := Find(raw, "---", 0);
      var b := Find(raw, "---", a + 3);
      FivePieces(raw, a, b);
      SplitsBackIff(d);
    }
  }

  // ----- dashes in the parts of an edited frontmatter -----

  /** A run of dashes at `k` in a part is one in the whole. */
  lemma DashesInPart(a: string, s: string, b: string, k: int)
    ensures 0 <= k && k + 3 <= |s| ==> (DashesAt(s, k) <==> DashesAt(a + s + b, |a| + k))
  {
    var t := a + s + b;
    assert forall j | 0 <= j < |s| :: t[|a| + j] == s[j];
  }

  lemma PartHasDashes(a: string, s: string, b: string)
    requires HasDashes(s)
    ensures HasDashes(a + s + b)
  {
    var k :| 0 <= k < |s| && DashesAt(s, k);
    DashesInPart(a, s, b, k);
    assert DashesAt(a + s + b, |a| + k);
  }

  lemma DashesOnOneSide(x: string, c: char, y: string)
    requires c != '-' && HasDashes(x + [c] + y)
    ensures HasDashes(x) || HasDashes(y)
  {
    var t := x + [c] + y;
    var k :| 0 <= k < |t| && DashesAt(t, k);
    assert t[|x|] == c;
    if k + 2 < |x| {
      DashesInPart("", x, [c] + y, k);
      assert "" + x + ([c] + y) == t;
      assert DashesAt(x, k);
    } else {
      var m := k - |x| - 1;
      DashesInPart(x + [c], y, "", m);
      assert x + [c] + y + "" == t;
      assert DashesAt(y, m);
    }
  }

  lemma DashesAroundSeparator(x: string, c: char, y: string)
    requires c != '-'
    ensures HasDashes(x + ([c] + y)) <==> HasDashes(x) || HasDashes(y)
  {
    hide HasDashes;
    assert x + ([c] + y) == x + [c] + y == "" + x + ([c] + y) == x + [c] + y + "";
    if HasDashes(x) { PartHasDashes("", x, [c] + y); }
    if HasDashes(y) { PartHasDashes(x + [c], y, ""); }
    if HasDashes(x + [c] + y) { DashesOnOneSide(x, c, y); }
  }

  function Dashes(n: nat): (s: string)
    ensures |s| == n && forall k | 0 <= k < n :: s[k] == '-'
  {
    seq(n, _ => '-')
  }

  lemma EscapedHead(n: nat, c: char, rest: string)
    requires c != '-'
    ensures var e := if c == '\\' || c == '"' then ['\\', c] else [c];
            HasDashes(Dashes(n) + (e + rest)) <==> HasDashes(Dashes(n)) || HasDashes(rest)
  {
    hide HasDashes;
    DashesAroundSeparator(Dashes(n), c, rest);
    DashesAroundSeparator(Dashes(n), '\\', [c] + rest);
    DashesAroundSeparator([], c, rest);
    NoDashes([]);
    assert [] + ([c] + rest) == [c] + rest;
    assert ['\\'] + ([c] + rest) == ['\\', c] + rest;
  }

  /** Escaping neither makes nor breaks a run of dashes. */
  lemma {:induction false} EscapeKeepsDashes(n: nat, value: string)
    ensures HasDashes(Dashes(n) + EscapeEach(value)) <==> HasDashes(Dashes(n) + value)
    decreases value
  {
    hide HasDashes;
    if value != [] {
      var c, rest := value[0], value[1..];
      if c == '-' {
        EscapeKeepsDashes(n + 1, rest);
        MoveDash(n, rest);
        MoveDash(n, EscapeEach(rest));
        assert value == ['-'] + rest;
      } else {
        EscapeKeepsDashes(0, rest);
        assert Dashes(0) + rest == rest && Dashes(0) + EscapeEach(rest) == EscapeEach(rest);
        assert value == [c] + rest;
        DashesAroundSeparator(Dashes(n), c, rest);
        EscapedHead(n, c, EscapeEach(rest));
      }
    }
  }

  lemma MoveDash(n: nat, rest: string)
    ensures Dashes(n) + (['-'] + rest) == Dashes(n + 1) + rest
  {
    assert Dashes(n) + ['-'] == Dashes(n + 1);
  }

  lemma NoDashes(s: string)
    requires forall k | 0 <= k < |s| :: s[k] != '-'
    ensures !HasDashes(s)
  {
  }

  lemma SlimLineDashes(value: string)
    ensures HasDashes(SlimLine(value)) <==> HasDashes(value)
    ensures !EndsInDash(SlimLine(value))
  {
    hide HasDashes, EscapeEach, Escape;
    var esc := EscapeEach(value);
    EscapeIsPerCharacter(value);
    EscapeKeepsDashes(0, value);
    assert Dashes(0) + value == value && Dashes(0) + esc == esc;
    var name := "slim_description: ";
    NoDashes(name);
    QuotedDashes(name, esc);
    assert SlimLine(value) == name + (['"'] + (esc + ['"']));
  }

  lemma QuotedDashes(name: string, inside: string)
    requires !HasDashes(name)
    ensures HasDashes(name + (['"'] + (inside + ['"']))) <==> HasDashes(inside)
  {
    hide HasDashes;
    NoDashes([]);
    DashesAroundSeparator(name, '"', inside + ['"']);
    DashesAroundSeparator(inside, '"', []);
    assert inside + (['"'] + []) == inside + ['"'];
  }

  lemma {:induction false} JoinDashes(lines: seq<string>)
    requires lines != []
    ensures HasDashes(Join(lines)) <==> exists k | 0 <= k < |lines| :: HasDashes(lines[k])
    ensures EndsInDash(Join(lines)) <==> EndsInDash(lines[|lines| - 1])
  {
    hide HasDashes;
    if |lines| > 1 {
      JoinDashes(lines[1..]);
      DashesAroundSeparator(lines[0], '\n', Join(lines[1..]));
      assert forall k | 0 < k < |lines| :: lines[k] == lines[1..][k - 1];
      assert lines[1..][|lines| - 2] == lines[|lines| - 1];
    }
  }

  // ----- the laws of the document -----

  /** The edited frontmatter ends in a line with a final dash. */
  predicate DashBeforeDelimiter(frontmatter: string) {
    var after := After(Split(frontmatter));
    after != [] && EndsInDash(after[|after| - 1])
  }

  lemma {:induction false} WithoutSlimMembers(lines: seq<string>, line: string)
    ensures line in WithoutSlim(lines) ==> line in lines
  {
    hide IsSlim;
    if lines != [] { WithoutSlimMembers(lines[1..], line); }
  }

  lemma OtherLinesHaveNoDashes(frontmatter: string)
    requires Clean(frontmatter)
    ensures var lines := Split(frontmatter);
            forall line | line in Before(lines) || line in After(lines) :: !HasDashes(line)
  {
    hide HasDashes, Split, Join, Before, After, WithoutSlim, EndsInDash, IsSlim, HasSlim;
    var lines := Split(frontmatter);
    CleanMeaning(frontmatter);
    JoinSplit(frontmatter);
    JoinDashes(lines);
    OtherLinesKept(lines);
    forall line | line in Before(lines) || line in After(lines) ensures !HasDashes(line) {
      assert line in Before(lines) + After(lines);
      WithoutSlimMembers(lines, line);
    }
  }

  lemma AppliedDashes(frontmatter: string, value: string)
    requires Clean(frontmatter)
    ensures HasDashes(Applied(frontmatter, value)) <==> HasDashes(value)
    ensures EndsInDash(Applied(frontmatter, value)) <==> DashBeforeDelimiter(frontmatter)
  {
    hide HasDashes, Split, Join, Before, After, EndsInDash, SlimLine, Clean;
    var lines := Split(frontmatter);
    var before, slim, after := Before(lines), SlimLine(value), After(lines);
    var edited := before + [slim] + after;
    OtherLinesHaveNoDashes(frontmatter);
    SlimLineDashes(value);
    JoinDashes(edited);
    assert edited[|before|] == slim;
    forall k | 0 <= k < |edited| && k != |before| ensures !HasDashes(edited[k]) {
      assert edited[k] in before || edited[k] in after;
    }
    assert edited[|edited| - 1] == if after == [] then slim else after[|after| - 1];
  }

  lemma AppliedCleanIff(frontmatter: string, value: string)
    requires Clean(frontmatter)
    ensures Clean(Applied(frontmatter, value)) <==> !HasDashes(value) && !DashBeforeDelimiter(frontmatter)
  {
    hide HasDashes, EndsInDash, DashBeforeDelimiter, Applied, Clean;
    AppliedDashes(frontmatter, value);
    CleanMeaning(Applied(frontmatter, value));
  }

  /** The rewritten document splits into the same prefix, the edited frontmatter and
      the same body exactly when the value holds no delimiter and the frontmatter
      left over does not end in a dash. */
  lemma RewrittenSplitsIff(raw: string, d: Parts, value: string)
    requires SplitDocument(raw) == Some(d)
    ensures SplitDocument(UpdatedDocument(raw, value)) == Some(d.(frontmatter := Applied(d.frontmatter, value)))
            <==> !HasDashes(value) && !DashBeforeDelimiter(d.frontmatter)
  {
    hide HasDashes, DashBeforeDelimiter, Clean, Applied, SplitDocument, Rebuild;
    PartsAreClean(raw);
    AppliedCleanIff(d.frontmatter, value);
    SplitsBackIff(d.(frontmatter := Applied(d.frontmatter, value)));
  }

  /** Writing the value again over its own lines changes nothing exactly when it leaves
      no residue. */
  lemma ReappliedIff(before: seq<string>, after: seq<string>, value: string)
    requires !HasSlim(before) && !HasSlim(after) && OneLineEach(before) && OneLineEach(after)
    ensures var f := Join(before + [SlimLine(value)] + after); Applied(f, value) == f <==> Residue(value) == []
  {
    hide Split, SlimLine, WithoutSlim, IsSlim, Join, HasSlim, Edited, OneLineEach, Before, After;
    var block := Split(SlimLine(value));
    LinesAround(before, SlimLine(value), after);
    FirstLineIsSlim(value);
    EditAgain(before, block[0], block[1..], after, [SlimLine(value)]);
    Regrouped(before, block, after);
    ContinuationOneLine(block);
    JoinSame(before + [SlimLine(value)], Residue(value), after);
  }

  lemma ContinuationOneLine(block: seq<string>)
    requires block != [] && OneLineEach(block)
    ensures OneLineEach(WithoutSlim(block[1..]))
  {
    hide WithoutSlim, OneLine;
    WithoutSlimOneLine(block[1..]);
  }

  lemma {:induction false} JoinLast(lines: seq<string>, last: string)
    requires lines != []
    ensures Join(lines + [last]) == Join(lines) + (['\n'] + last)
  {
    if |lines| == 1 {
      assert (lines + [last])[1..] == [last];
    } else {
      JoinLast(lines[1..], last);
      var rest := Join(lines[1..]);
      assert (lines + [last])[1..] == lines[1..] + [last];
      assert Join(lines) == lines[0] + (['\n'] + rest);
      assert Join(lines + [last]) == lines[0] + (['\n'] + (rest + (['\n'] + last)));
    }
  }

  lemma ShorterIsNotSlim(line: string, n: nat)
    requires n <= |line|
    ensures IsSlim(line[..n]) ==> IsSlim(line)
  {
    assert n >= 17 ==> line[..n][0..17] == line[0..17];
  }

  /** Cutting dashes off the end only shortens the last line. */
  lemma CutDashes(head: seq<string>, after: seq<string>, f: nat) returns (now: seq<string>)
    requires head != [] && after != [] && !HasSlim(after) && OneLineEach(after)
    requires var text := Join(head + after); f <= |text| && forall k | f <= k < |text| :: text[k] == '-'
    ensures !HasSlim(now) && OneLineEach(now) && Join(head + after)[..f] == Join(head + now)
  {
    hide Join, IsSlim;
    var front, last := after[..|after| - 1], after[|after| - 1];
    var pre, text := Join(head + front), Join(head + after);
    assert head + after == (head + front) + [last];
    JoinLast(head + front, last);
    assert text[|pre|] == '\n';
    var n := f - |pre| - 1;
    ShorterIsNotSlim(last, n);
    now := front + [last[..n]];
    assert head + now == (head + front) + [last[..n]];
    JoinLast(head + front, last[..n]);
    assert text[..f] == pre + (['\n'] + last[..n]);
  }

  /** A rebuilt document with a clean prefix always splits, at the first delimiter. */
  lemma ResplitsAt(d: Parts)
    requires Clean(d.before)
    ensures var f := Find(d.frontmatter + "---", "---", 0);
            && 0 <= f <= |d.frontmatter| && SplitDocument(Rebuild(d)).Some?
            && SplitDocument(Rebuild(d)).value.before == d.before
            && SplitDocument(Rebuild(d)).value.frontmatter == d.frontmatter[..f]
  {
    hide Find, At;
    var raw := Rebuild(d);
    var x := d.frontmatter + "---" + d.body;
    FindInPrefix(d.before, x);
    FindInPrefix(d.frontmatter, d.body);
    assert raw == d.before + "---" + x;
    FindShifts(d.before + "---", x);
    PartsAt(d, Find(x, "---", 0));
  }

  /** Without three dashes in a row, the delimiter is found in the trailing dashes. */
  lemma OnlyDashesCut(s: string)
    requires !HasDashes(s)
    ensures var f := Find(s + "---", "---", 0); 0 <= f <= |s| && forall k | f <= k < |s| :: s[k] == '-'
  {
    hide Find, At;
    var t := s + "---";
    var f := Find(t, "---", 0);
    FindInPrefix(s, "");
    AtDashes(t, f);
    assert DashesAt(t, f);
    hide HasDashes;
    assert forall k | 0 <= k < |s| :: t[k] == s[k];
    CutIsShort(s, f);
  }

  lemma CutIsShort(s: string, f: nat)
    requires !HasDashes(s)
    ensures f + 3 <= |s| ==> !(s[f] == '-' && s[f + 1] == '-' && s[f + 2] == '-')
  {
    assert f + 3 <= |s| ==> !DashesAt(s, f);
  }

  lemma RebuildSameIff(d: Parts, f: string)
    ensures Rebuild(d.(frontmatter := f)) == Rebuild(d) <==> f == d.frontmatter
  {
    var a, b := Rebuild(d.(frontmatter := f)), Rebuild(d);
    var p := |d.before| + 3;
    assert a[p..p + |f|] == f && b[p..p + |d.frontmatter|] == d.frontmatter;
    assert |a| == p + |f| + 3 + |d.body| && |b| == p + |d.frontmatter| + 3 + |d.body|;
  }

  lemma CutReappliedIff(frontmatter: string, value: string, f: nat)
    requires var now := Applied(frontmatter, value); f <= |now| && forall k | f <= k < |now| :: now[k] == '-'
    requires DashBeforeDelimiter(frontmatter) || f == |Applied(frontmatter, value)|
    ensures var cut := Applied(frontmatter, value)[..f]; Applied(cut, value) == cut <==> Residue(value) == []
  {
    hide Split, SlimLine, IsSlim, Join, HasSlim, OneLineEach, EndsInDash, Residue, Before, After;
    var lines := Split(frontmatter);
    var before, after := Before(lines), After(lines);
    OtherLinesKept(lines);
    AroundOneLine(lines);
    AppliedOnce(frontmatter, value);
    var now := Applied(frontmatter, value);
    if f == |now| {
      assert now[..f] == now;
      ReappliedIff(before, after, value);
    } else {
      var shorter := CutDashes(before + [SlimLine(value)], after, f);
      ReappliedIff(before, shorter, value);
    }
  }

  /** Applying the same value to a document twice is applying it once exactly when the
      value holds no delimiter and leaves no residue; a document without the structure
      is never touched. */
  lemma DocumentIdempotentIff(raw: string, value: string)
    ensures SplitDocument(raw).None? ==> UpdatedDocument(raw, value) == raw
    ensures SplitDocument(raw).Some? ==>
              (UpdatedDocument(UpdatedDocument(raw, value), value) == UpdatedDocument(raw, value)
               <==> !HasDashes(value) && Residue(value) == [])
  {
    hide HasDashes, DashBeforeDelimiter, Applied, SplitDocument, Rebuild, Residue, Clean, Find, EndsInDash;
    if SplitDocument(raw).Some? {
      var d := SplitDocument(raw).value;
      PartsAreClean(raw);
      var now := Applied(d.frontmatter, value);
      var d' := d.(frontmatter := now);
      ResplitsAt(d');
      PartsAreClean(Rebuild(d'));
      var e := SplitDocument(Rebuild(d')).value;
      RebuildSameIff(e, Applied(e.frontmatter, value));
      if HasDashes(value) {
        AppliedCleanIff(e.frontmatter, value);
      } else {
        ResplitReapplied(d.frontmatter, value);
      }
    }
  }

  lemma ResplitReapplied(frontmatter: string, value: string)
    requires Clean(frontmatter) && !HasDashes(value)
    ensures var now := Applied(frontmatter, value);
            var f := Find(now + "---", "---", 0);
            0 <= f <= |now| && (Applied(now[..f], value) == now[..f] <==> Residue(value) == [])
  {
    hide HasDashes, DashBeforeDelimiter, Applied, Residue, Clean, Find;
    var now := Applied(frontmatter, value);
    var f := Find(now + "---", "---", 0);
    AppliedDashes(frontmatter, value);
    OnlyDashesCut(now);
    CutReappliedIff(frontmatter, value, f);
  }

  /** For a value without newline and delimiter the document law holds outright. */
  lemma DocumentIdempotent(raw: string, value: string)
    requires OneLine(value) && !HasDashes(value)
    ensures UpdatedDocument(UpdatedDocument(raw, value), value) == UpdatedDocument(raw, value)
  {
    hide HasDashes, SplitDocument, Rebuild, Residue, Applied;
    OneLineNoResidue(value);
    DocumentIdempotentIff(raw, value);
  }

  lemma {:induction false} LastLineStays(lines: seq<string>)
    requires lines != [] && !IsSlim(lines[|lines| - 1])
    ensures WithoutSlim(lines) != [] && WithoutSlim(lines)[|WithoutSlim(lines)| - 1] == lines[|lines| - 1]
  {
    hide IsSlim;
    if |lines| > 1 {
      assert lines[1..][|lines| - 2] == lines[|lines| - 1];
      LastLineStays(lines[1..]);
    }
  }

  /** The dash can only come up when the frontmatter's last line is a slim line,
      which the edit then removes or replaces. */
  lemma DashNeedsTrailingSlim(frontmatter: string)
    requires Clean(frontmatter) && DashBeforeDelimiter(frontmatter)
    ensures var lines := Split(frontmatter); IsSlim(lines[|lines| - 1])
  {
    hide IsSlim, Split, Join, Before, After, WithoutSlim, EndsInDash, HasDashes, HasSlim;
    var lines := Split(frontmatter);
    CleanMeaning(frontmatter);
    JoinSplit(frontmatter);
    JoinDashes(lines);
    OtherLinesKept(lines);
    var after := After(lines);
    var all := Before(lines) + after;
    assert all[|all| - 1] == after[|after| - 1];
    if !IsSlim(lines[|lines| - 1]) {
      LastLineStays(lines);
    }
  }

  /** It does come up: a second slim line at the very end, after a line that ends in
      a dash. */
  lemma DashLines(first: string, other: string, last: string)
    requires IsSlim(first) && IsSlim(last) && !IsSlim(other) && EndsInDash(other)
    requires OneLine(first) && OneLine(last) && OneLine(other)
    ensures DashBeforeDelimiter(Join([first, other, last]))
  {
    hide IsSlim, EndsInDash;
    var lines := [first, other, last];
    SplitJoin(lines);
    FirstSlimAt(lines, 0);
    assert IsSlim(lines[0]);
    assert lines[1..] == [other, last] && [other, last][1..] == [last] && [last][1..] == [];
    assert WithoutSlim([last]) == [];
    assert WithoutSlim([other, last]) == [other];
  }

  /** The document with these frontmatter lines splits into its parts, and whatever
      value is set, the rewritten one does not split into the edited parts. */
  lemma DashComesUp(first: string, other: string, last: string, value: string)
    requires IsSlim(first) && IsSlim(last) && !IsSlim(other) && EndsInDash(other) && !EndsInDash(last)
    requires OneLine(first) && OneLine(last) && OneLine(other)
    requires !HasDashes(first) && !HasDashes(other) && !HasDashes(last)
    ensures var f := Join([first, other, last]);
            var d := Parts("", f, "");
            && SplitDocument(Rebuild(d)) == Some(d)
            && SplitDocument(UpdatedDocument(Rebuild(d), value)) != Some(d.(frontmatter := Applied(f, value)))
  {
    hide IsSlim, HasDashes, EndsInDash, Join, SplitDocument, Rebuild, Applied, Clean, DashBeforeDelimiter;
    var lines := [first, other, last];
    var d := Parts("", Join(lines), "");
    JoinDashes(lines);
    CleanMeaning(Join(lines));
    EmptyIsClean();
    SplitsBackIff(d);
    DashLines(first, other, last);
    RewrittenSplitsIff(Rebuild(d), d, value);
  }

  lemma EmptyIsClean()
    ensures Clean("")
  {
    CleanMeaning("");
  }

  /** Such a document, in full. */
  lemma DashDocument(value: string)
    ensures
      var f := Join(["slim_description:", "x-", "slim_description:"]);
      && SplitDocument("---" + f + "---") == Some(Parts("", f, ""))
      && SplitDocument(UpdatedDocument("---" + f + "---", value)) != Some(Parts("", Applied(f, value), ""))
  {
    hide Join, SplitDocument, Applied, HasDashes;
    var slim := "slim_description:";
    NoDashes(slim);
    ShortHasNoDashes("x-");
    assert IsSlim(slim) by { assert slim[0..17] == slim; }
    DashComesUp(slim, "x-", slim, value);
    var f := Join([slim, "x-", slim]);
    assert Rebuild(Parts("", f, "")) == "---" + f + "---";
  }

  lemma ShortHasNoDashes(s: string)
    requires |s| < 3
    ensures !HasDashes(s)
  {
  }

  // ----- a value with a newline -----

  lemma SplitTwo(a: string, b: string)
    requires OneLine(a) && OneLine(b)
    ensures Split(a + (['\n'] + b)) == [a, b]
  {
    SplitJoin([a, b]);
    assert [a, b][1..] == [b] && Join([b]) == b;
  }

  /** The continuation line of this value is left behind when it is replaced. */
  lemma ResidueOfTwoLines()
    ensures Residue("a\nb") == ["b\""]
  {
    hide Split;
    var value := "a\nb";
    EscapeIsPerCharacter(value);
    assert value[1..] == "\nb" && value[1..][1..] == "b" && value[1..][1..][1..] == "";
    assert EscapeEach(value) == value;
    var first, second := "slim_description: \"a", "b\"";
    assert SlimLine(value) == first + (['\n'] + second);
    SplitTwo(first, second);
    assert [first, second][1..] == [second] && [second][1..] == [];
    assert !IsSlim(second);
  }

  /** So for this value no later write wins, and no document that splits is left alone
      by a second application. */
  lemma TwoLinesFail(frontmatter: string, b: string, raw: string)
    ensures Applied(Applied(frontmatter, "a\nb"), b) != Applied(frontmatter, b)
    ensures SplitDocument(raw).Some? ==>
              UpdatedDocument(UpdatedDocument(raw, "a\nb"), "a\nb") != UpdatedDocument(raw, "a\nb")
  {
    hide Applied, SplitDocument, UpdatedDocument, Residue, HasDashes;
    ResidueOfTwoLines();
    LastWriteWinsIff(frontmatter, "a\nb", b);
    DocumentIdempotentIff(raw, "a\nb");
  }

  /** The shortest document that splits. */
  lemma SmallestDocument()
    ensures SplitDocument("------") == Some(Parts("", "", ""))
  {
    hide SplitDocument;
    EmptyIsClean();
    SplitsBackIff(Parts("", "", ""));
    assert Rebuild(Parts("", "", "")) == "------";
  }

  /** On it, applying the value twice is not applying it once. */
  lemma TwoLinesDocument()
    ensures UpdatedDocument(UpdatedDocument("------", "a\nb"), "a\nb") != UpdatedDocument("------", "a\nb")
  {
    hide SplitDocument, UpdatedDocument;
    SmallestDocument();
    TwoLinesFail("", "", "------");
  }
}
