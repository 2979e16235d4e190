/** What the migrator reads from a call and what a reader finds in the call it writes. */
module CallReading {
  import opened Text
  import opened Brackets
  import opened BalancedText
  import opened CallRewriting

  // ----- the call whose content is extracted -----

  /** `logger.`, a word up to `e`, white space and an open parenthesis just before `r`, from `i` on. */
  predicate IsLoggerCall(s: string, i: nat, e: int, r: int) {
    && i + 7 < e < r <= |s| && s[i..i + 7] == "logger."
    && (forall k | i + 7 <= k < e :: IsWord(s[k])) && (forall k | e <= k < r - 1 :: IsSpace(s[k])) && s[r - 1] == '('
  }

  ghost predicate LoggerCallStartsAt(s: string, i: nat) { exists e, r :: IsLoggerCall(s, i, e, r) }

  lemma LoggerCallIs(s: string, i: nat, e: int, r: int)
    requires IsLoggerCall(s, i, e, r)
    ensures LoggerCallAt(s, i) == r > 0
  {
    hide WordPrefix, SpacePrefix, IsWord, IsSpace;
    NotInWords(s[e]);
    NotInWords('(');
    WordIs(s[i + 7..], e - i - 7);
    PrefixIs(s[e..], r - 1 - e);
  }

  lemma NotInWords(c: char)
    ensures IsSpace(c) || c == '(' ==> !IsWord(c)
    ensures c == '(' ==> !IsSpace(c)
  {
  }

  lemma LoggerCallParts(s: string, i: nat)
    requires LoggerCallAt(s, i) >= 0
    ensures IsLoggerCall(s, i, i + 7 + WordPrefix(s[i + 7..]), LoggerCallAt(s, i))
  {
    hide IsWord, IsSpace;
    var w := i + 7 + WordPrefix(s[i + 7..]);
    var p := w + SpacePrefix(s[w..]);
    forall k | i + 7 <= k < w ensures IsWord(s[k]) { assert s[k] == s[i + 7..][k - i - 7]; }
    forall k | w <= k < p ensures IsSpace(s[k]) { assert s[k] == s[w..][k - w]; }
  }

  lemma StartsIff(s: string, i: nat)
    ensures LoggerCallStartsAt(s, i) <==> LoggerCallAt(s, i) >= 0
  {
    hide LoggerCallAt, IsLoggerCall;
    if LoggerCallAt(s, i) >= 0 { LoggerCallParts(s, i); }
    if LoggerCallStartsAt(s, i) {
      var e, r :| IsLoggerCall(s, i, e, r);
      LoggerCallIs(s, i, e, r);
    }
  }

  lemma {:induction false} NothingFound(s: string, i: nat)
    requires forall k | i <= k < |s| :: LoggerCallAt(s, k) < 0
    ensures FindLoggerCall(s, i) == -1
    decreases |s| - i
  {
    hide LoggerCallAt;
    if i < |s| { NothingFound(s, i + 1); }
  }

  lemma {:induction false} FirstOf(s: string, i: nat) returns (j: nat)
    requires exists k: nat :: i <= k < |s| && LoggerCallAt(s, k) >= 0
    ensures i <= j < |s| && LoggerCallAt(s, j) >= 0 && forall k | i <= k < j :: LoggerCallAt(s, k) < 0
    decreases |s| - i
  {
    hide LoggerCallAt;
    if LoggerCallAt(s, i) >= 0 { j := i; } else { j := FirstOf(s, i + 1); }
  }

  /** The search finds exactly the leftmost call, behind its open parenthesis, and nothing
      exactly if there is none. */
  lemma FindLoggerCallIff(s: string, r: int)
    ensures FindLoggerCall(s, 0) == r >= 0 <==>
              exists i: nat, e: int :: IsLoggerCall(s, i, e, r) && forall j: nat | j < i :: !LoggerCallStartsAt(s, j)
    ensures FindLoggerCall(s, 0) < 0 <==> forall i: nat :: !LoggerCallStartsAt(s, i)
  {
    hide LoggerCallAt, FindLoggerCall, IsLoggerCall, LoggerCallStartsAt;
    forall i: nat ensures LoggerCallStartsAt(s, i) <==> LoggerCallAt(s, i) >= 0 { StartsIff(s, i); }
    forall i: nat | LoggerCallAt(s, i) >= 0 ensures i < |s| { StartInside(s, i); }
    if exists k: nat :: 0 <= k < |s| && LoggerCallAt(s, k) >= 0 {
      var j := FirstOf(s, 0);
      FindSkips(s, 0, j);
      LoggerCallParts(s, j);
      if i: nat, e: int :| IsLoggerCall(s, i, e, r) && forall k: nat | k < i :: !LoggerCallStartsAt(s, k) {
        LoggerCallIs(s, i, e, r);
        assert i == j;
      }
    } else {
      NothingFound(s, 0);
      forall i: nat, e: int ensures !IsLoggerCall(s, i, e, r) { NoneThere(s, i, e, r); }
    }
  }

  lemma NoneThere(s: string, i: nat, e: int, r: int)
    ensures IsLoggerCall(s, i, e, r) ==> LoggerCallStartsAt(s, i)
  {
  }

  lemma StartInside(s: string, i: nat)
    requires LoggerCallAt(s, i) >= 0
    ensures i < |s|
  {
  }

  /** The content of a call: what its parentheses enclose, stripped; nothing if there is no
      call, if it does not close, or if it encloses nothing but white space. */
  lemma ContentMeaning(s: string)
    ensures
      var start := FindLoggerCall(s, 0);
      var q := if start < 0 then -1 else FirstClose(START, s[start..]);
      && (q >= 0 ==> CallContent(s) == Strip(s[start..start + q]))
      && (CallContent(s) == "" <==> q < 0 || Blank(s[start..start + q]))
  {
    hide FindLoggerCall, FirstClose, Strip;
    var start := FindLoggerCall(s, 0);
    EmptyStrips();
    if start >= 0 {
      var rest := s[start..];
      assert rest[0..] == rest;
      var q := FirstClose(START, rest);
      if q >= 0 {
        assert rest[..q] == s[start..start + q];
        StripBlank(s[start..start + q]);
      } else {
        assert rest[..0] == "";
      }
    }
  }

  // ----- reading a rewritten call -----

  /** What a rewritten call says: its indentation, its level, its code and its message. */
  datatype Reading = Reading(indent: string, level: string, code: string, message: string)

  /** Length of the text up to the quote that closes a literal, or -1. */
  function LiteralEnd(s: string): int {
    if s == [] then -1
    else if s[0] == '"' then 0
    else
      var n := if s[0] == '\\' then 2 else 1;
      var r := if |s| < n then -1 else LiteralEnd(s[n..]);
      if r < 0 then -1 else r + n
  }

  lemma {:induction false} LiteralEnds(code: string, rest: string)
    requires QuotedBody('"', code)
    ensures LiteralEnd(code + (['"'] + rest)) == |code|
  {
    var s := code + (['"'] + rest);
    if code == [] {
      assert s[0] == '"';
    } else {
      var n := if code[0] == '\\' then 2 else 1;
      LiteralEnds(code[n..], rest);
      assert s[n..] == code[n..] + (['"'] + rest);
    }
  }

  lemma {:induction false} LiteralEndInside(s: string)
    ensures LiteralEnd(s) < |s|
  {
    if s != [] && s[0] != '"' {
      var n := if s[0] == '\\' then 2 else 1;
      if |s| >= n { LiteralEndInside(s[n..]); }
    }
  }

  /** Reads the arguments of `format_error_log`: a literal, a comma, the message. */
  function ReadArguments(args: string): Option<(string, string)> {
    var inside := Strip(args);
    if inside == "" || inside[0] != '"' then None
    else
      var e := LiteralEnd(inside[1..]);
      LiteralEndInside(inside[1..]);
      if e < 0 || e + 2 >= |inside| || inside[e + 2] != ',' then None
      else Some((inside[1..1 + e], Strip(inside[e + 3..])))
  }

  /** Reads a call `logger.<level>(format_error_log("<code>", <message>))`, with the close of
      the inner call found by the parenthesis scanner. */
  function ReadCall(text: string): Option<Reading> {
    var i := Find(text, "logger.", 0);
    if i < 0 then None
    else
      var n := WordPrefix(text[i + 7..]);
      var inner := text[i + 7 + n..];
      if !At(inner, 0, "(format_error_log(") then None
      else
        var args := inner[18..];
        var q := FirstClose(START, args);
        if q < 0 then None
        else
          var r := ReadArguments(args[..q]);
          if r.None? then None else Some(Reading(text[..i], text[i + 7..i + 7 + n], r.value.0, r.value.1))
  }

  /** Both arguments are read from a literal, a comma and a stripped message, with white space
      around and between them. */
  lemma ArgumentsRead(lead: string, code: string, gap: string, message: string, tail: string)
    requires Blank(lead) && Blank(gap) && Blank(tail) && QuotedBody('"', code)
    requires message != "" && !IsSpace(message[0]) && !IsSpace(message[|message| - 1])
    ensures ReadArguments(lead + (['"'] + (code + (['"', ','] + (gap + message)))) + tail) == Some((code, message))
  {
    hide IsSpace, Blank, LiteralEnd, Strip, ReadArguments;
    var inside := ['"'] + (code + (['"', ','] + (gap + message)));
    assert inside[|inside| - 1] == message[|message| - 1];
    NotASpace();
    StripOuter(lead, inside, tail);
    StripOuter(gap, message, "");
    assert gap + message + "" == gap + message;
    InsideRead(lead + inside + tail, code, gap + message);
  }

  /** What is read when the stripped text is a literal, a comma and more. */
  lemma InsideRead(args: string, code: string, behind: string)
    requires QuotedBody('"', code) && Strip(args) == ['"'] + (code + (['"', ','] + behind))
    ensures ReadArguments(args) == Some((code, Strip(behind)))
  {
    hide LiteralEnd, Strip;
    var inside := Strip(args);
    assert inside[1..] == code + (['"'] + ([','] + behind));
    LiteralEnds(code, [','] + behind);
    assert inside[|code| + 2] == ',' && inside[1..1 + |code|] == code && inside[|code| + 3..] == behind;
  }

  lemma NotASpace()
    ensures !IsSpace('"') && Blank("")
  {
  }

  /** The arguments of `format_error_log` as written: two lines and the last indentation. */
  function InnerArguments(indent: string, code: string, message: string): string {
    "\n" + ((indent + "    \"" + code + "\",\n") + ((indent + "    " + message + "\n") + indent))
  }

  lemma ArgumentsAsWritten(indent: string, code: string, message: string)
    ensures NewArguments(indent, code, message) == "format_error_log(" + (InnerArguments(indent, code, message) + "))\n")
  {
    var b, c := indent + "    \"" + code + "\",\n", indent + "    " + message + "\n";
    assert "format_error_log" + ['(', '\n'] == "format_error_log(" + "\n";
    Five("format_error_log(", "\n", b, c, indent, "))\n");
  }

  lemma Five(a: string, n: string, b: string, c: string, d: string, e: string)
    ensures (a + n) + b + c + (d + e) == a + ((n + (b + (c + d))) + e)
  {
    assert (a + n) + b + c == a + (n + (b + c));
    assert (n + (b + (c + d))) + e == (n + (b + c)) + (d + e);
  }

  lemma InnerParts(indent: string, code: string, message: string)
    ensures InnerArguments(indent, code, message)
         == ("\n" + indent + "    ") + (['"'] + (code + (['"', ','] + (("\n" + indent + "    ") + message)))) + ("\n" + indent)
  {
    var lead := "\n" + indent + "    ";
    var b, c := indent + "    \"" + code + "\",\n", indent + "    " + message + "\n";
    assert "    \"" == "    " + ['"'] && "\",\n" == ['"', ','] + "\n";
    assert "\n" + b == lead + (['"'] + (code + (['"', ','] + "\n")));
    assert "\n" + (c + indent) == (lead + message) + ("\n" + indent);
    Joined("\n", b, c, indent, lead + (['"'] + (code + ['"', ','])), lead + message);
    assert lead + (['"'] + (code + ['"', ','])) + (lead + message) == lead + (['"'] + (code + (['"', ','] + (lead + message))));
  }

  /** Two lines with the newline in front of each. */
  lemma Joined(n: string, b: string, c: string, d: string, x: string, y: string)
    requires n + b == x + n && n + (c + d) == y + (n + d)
    ensures n + (b + (c + d)) == x + y + (n + d)
  {
    assert n + (b + (c + d)) == (n + b) + (c + d) == x + (n + (c + d)) == x + (y + (n + d));
  }

  /** The inner call closes behind its arguments. */
  lemma InnerCloses(indent: string, code: string, content: string, behind: string)
    requires InertText(indent) && QuotedBody('"', code) && Neutral(START, content)
    ensures var inner := InnerArguments(indent, code, Strip(content));
            FirstClose(START, inner + ("))\n" + behind)) == |inner|
  {
    hide FirstClose, Run, InertText, Strip;
    var b, c := indent + "    \"" + code + "\",\n", indent + "    " + Strip(content) + "\n";
    CodePart(START, indent, code);
    MessagePart(START, indent, content);
    RunInert(START, indent);
    NewlineIsInert();
    RunInert(START, "\n");
    NeutralConcat(START, c, indent);
    NeutralConcat(START, b, c + indent);
    NeutralConcat(START, "\n", b + (c + indent));
    var inner := InnerArguments(indent, code, Strip(content));
    assert inner == "\n" + (b + (c + indent));
    FirstCloseConcat(START, inner, "))\n" + behind);
    ClosesAtOnce(")\n" + behind);
    assert "))\n" + behind == [')'] + (")\n" + behind);
  }

  lemma NewlineIsInert()
    ensures InertText("\n")
  {
  }

  lemma ClosesAtOnce(rest: string)
    ensures FirstClose(START, [')'] + rest) == 0
  {
  }

  lemma FirstLogger(n: nat, more: string)
    ensures Find(Spaces(n) + ("logger." + more), "logger.", 0) == n
  {
    var s := Spaces(n) + ("logger." + more);
    var r := Find(s, "logger.", 0);
    hide Find;
    assert s[n..n + 7] == "logger.";
    assert At(s, n, "logger.");
    assert r >= 0;
    AtHead(s, r, "logger.");
  }

  lemma ReadParts(n: nat, level: string, args: string, r: (string, string))
    requires IsName(level)
    requires var q := FirstClose(START, args); q >= 0 && ReadArguments(args[..q]) == Some(r)
    ensures ReadCall(Spaces(n) + ("logger." + (level + ("(format_error_log(" + args)))) == Some(Reading(Spaces(n), level, r.0, r.1))
  {
    hide Find, WordPrefix, FirstClose, ReadArguments, IsWord;
    var inner := "(format_error_log(" + args;
    var text := Spaces(n) + ("logger." + (level + inner));
    FirstLogger(n, level + inner);
    assert text[n + 7..] == level + inner;
    NotInWords('(');
    assert (level + inner)[|level|] == '(';
    WordIs(level + inner, |level|);
    assert text[n + 7..n + 7 + |level|] == level && text[n + 7 + |level|..] == inner && text[..n] == Spaces(n);
    assert inner[0..18] == "(format_error_log(" && inner[18..] == args;
  }

  lemma NewCallParts(n: nat, level: string, code: string, message: string, behind: string)
    ensures NewCall(Spaces(n), level, code, message) + behind
         == Spaces(n) + ("logger." + (level + ("(format_error_log(" + (InnerArguments(Spaces(n), code, message) + ("))\n" + behind)))))
  {
    ArgumentsAsWritten(Spaces(n), code, message);
    hide NewArguments, InnerArguments;
    var x := InnerArguments(Spaces(n), code, message);
    assert "(" + "format_error_log(" == "(format_error_log(";
    Regrouped(Spaces(n), "logger.", level, "(", "format_error_log(", x, "))\n", behind);
  }

  lemma Regrouped(a: string, b: string, c: string, d: string, e: string, x: string, y: string, z: string)
    ensures a + b + c + d + (e + (x + y)) + z == a + (b + (c + ((d + e) + (x + (y + z)))))
  {
    assert (e + (x + y)) + z == e + (x + (y + z));
    assert a + b + c + d == a + (b + (c + d));
    assert (c + d) + (e + (x + (y + z))) == c + ((d + e) + (x + (y + z)));
  }

  /** Reading a rewritten call gives the indentation, the level and the code it was given and
      the message of the original call, whatever that held and whatever follows. */
  lemma ReadBack(n: nat, level: string, code: string, call: string, behind: string)
    requires IsName(level) && QuotedBody('"', code) && CallContent(call) != ""
    ensures ReadCall(NewCall(Spaces(n), level, code, CallContent(call)) + behind) == Some(Reading(Spaces(n), level, code, CallContent(call)))
  {
    hide ReadCall, NewCall, CallContent, FirstClose, ReadArguments, Strip, InnerArguments, Run;
    var message := CallContent(call);
    var content := ContentOfCall(call);
    StripEnds(content);
    var inner := InnerArguments(Spaces(n), code, message);
    var args := inner + ("))\n" + behind);
    InnerCloses(Spaces(n), code, content, behind);
    assert args[..|inner|] == inner;
    var lead := "\n" + Spaces(n) + "    ";
    SpacesAreBlank(n);
    InnerParts(Spaces(n), code, message);
    ArgumentsRead(lead, code, lead, message, "\n" + Spaces(n));
    ReadParts(n, level, args, (code, message));
    NewCallParts(n, level, code, message, behind);
  }

  lemma SpacesAreBlank(n: nat)
    ensures Blank("\n" + Spaces(n) + "    ") && Blank("\n" + Spaces(n))
  {
  }

  /** The text a content was stripped from is neutral for the scanner. */
  lemma ContentOfCall(call: string) returns (content: string)
    requires CallContent(call) != ""
    ensures CallContent(call) == Strip(content) && Neutral(START, content)
  {
    hide FindLoggerCall, FirstClose, Strip;
    var rest := call[FindLoggerCall(call, 0)..];
    var q := MatchingParenAfter(rest, 0);
    content := rest[..q];
    EmptyStrips();
    assert rest[0..] == rest;
    assert q > 0 && q == FirstClose(START, rest);
    BalancedIsNeutral(rest, q);
  }

  lemma BalancedIsNeutral(rest: string, q: nat)
    requires FirstClose(START, rest) == q
    ensures Neutral(START, rest[..q])
  {
    CloseIffBalanced(rest, q);
    var f :| WellFormed(f) && Render(f) == rest[..q];
    RunForest(f, 1);
  }
}
