/** The words of a query's arguments, spelled out: the flags, which of them take a value, and
    the integers that are accepted. */
module QueryWords {
  import opened Text
  import opened QueryArgs

  // ----- flags -----

  const FLAGS := {"--fts", "--semantic", "--quiet", "--limit", "--language", "--path-filter",
                  "--exclude-language", "--exclude-path", "--snippet-lines", "--repo"}

  /** The flags that take the argument behind them. */
  const VALUE_FLAGS := {"--limit", "--language", "--path-filter", "--exclude-language", "--exclude-path", "--snippet-lines"}

  predicate Dashed(arg: string) { |arg| >= 2 && arg[0] == '-' && arg[1] == '-' }

  lemma FlagsAreDashed(arg: string)
    ensures Dashed(arg) <==> At(arg, 0, "--")
    ensures arg in FLAGS ==> Dashed(arg)
  {
    assert |arg| >= 2 ==> arg[0..2] == [arg[0], arg[1]];
  }

  /** An argument is a word exactly if it does not begin with two dashes, an unknown flag exactly
      if it does and is none of the ten, and a known flag exactly if it is that flag's text. */
  lemma ClassifyIff(arg: string, f: Flag)
    requires !f.Unknown? && !f.NotAFlag?
    ensures Classify(arg).NotAFlag? <==> !Dashed(arg)
    ensures Classify(arg).Unknown? <==> Dashed(arg) && arg !in FLAGS
    ensures Classify(arg) == f <==> arg == FlagText(f)
  {
    FlagsAreDashed(arg);
    FlagTextClassifies(f);
    hide At;
  }

  /** The first token is a word, or a flag with the argument behind it exactly if it is one of
      the six that take a value and there is one. */
  lemma FirstTokenMeaning(args: seq<string>)
    requires args != []
    ensures var t := FirstToken(args);
            && (if Dashed(args[0]) then t.Flagged? else t == Word(args[0]))
            && (t.Flagged? ==> t.value == if args[0] in VALUE_FLAGS && |args| > 1 then Some(args[1]) else None)
  {
    hide Classify;
    ClassifyIff(args[0], Repo);
    assert TakesValue(Classify(args[0])) <==> args[0] in VALUE_FLAGS by { ValueIff(args[0]); }
  }

  lemma ValueIff(arg: string)
    ensures TakesValue(Classify(arg)) <==> arg in VALUE_FLAGS
  {
    FlagsAreDashed(arg);
    hide At;
  }

  // ----- integers -----

  predicate AllDigits(s: string) { s != "" && forall k | 0 <= k < |s| :: IsDigit(s[k]) }

  predicate DigitGroups(gs: seq<string>) { gs != [] && forall k | 0 <= k < |gs| :: AllDigits(gs[k]) }

  /** Groups of digits joined by single underscores. */
  function Glue(gs: seq<string>): string {
    if gs == [] then "" else if |gs| == 1 then gs[0] else gs[0] + (['_'] + Glue(gs[1..]))
  }

  function Flat(gs: seq<string>): string { if gs == [] then "" else gs[0] + Flat(gs[1..]) }

  /** The decimal value of some digits. */
  function Value(s: string): nat
    requires forall k | 0 <= k < |s| :: IsDigit(s[k])
  {
    if s == "" then 0
    else
      assert IsDigit(s[|s| - 1]);
      10 * Value(s[..|s| - 1]) + (s[|s| - 1] - '0') as nat
  }

  /** Reading on after some digits: as if they stood in front. */
  function ReadOn(s: string, before: string): Option<nat>
    requires forall k | 0 <= k < |before| :: IsDigit(before[k])
  {
    ReadDigits(s, Value(before))
  }

  lemma ValueSnoc(s: string, c: char)
    requires (forall k | 0 <= k < |s| :: IsDigit(s[k])) && IsDigit(c)
    ensures Value(s + [c]) == 10 * Value(s) + (c - '0') as nat
  {
    assert (s + [c])[..|s|] == s;
  }

  lemma {:induction false} ReadGroup(g: string, rest: string, before: string)
    requires (forall k | 0 <= k < |g| :: IsDigit(g[k])) && forall k | 0 <= k < |before| :: IsDigit(before[k])
    ensures ReadOn(g + rest, before) == ReadOn(rest, before + g)
    decreases g
  {
    if g == "" {
      assert g + rest == rest && before + g == before;
    } else {
      var s := g + rest;
      ValueSnoc(before, g[0]);
      ReadGroup(g[1..], rest, before + [g[0]]);
      assert s[1..] == g[1..] + rest && before + [g[0]] + g[1..] == before + g;
    }
  }

  lemma {:induction false} FlatDigits(gs: seq<string>)
    requires forall k | 0 <= k < |gs| :: AllDigits(gs[k])
    ensures forall k | 0 <= k < |Flat(gs)| :: IsDigit(Flat(gs)[k])
  {
    if gs != [] { FlatDigits(gs[1..]); assert AllDigits(gs[0]); }
  }

  lemma {:induction false} GlueBegins(gs: seq<string>)
    requires DigitGroups(gs)
    ensures Glue(gs) != "" && IsDigit(Glue(gs)[0]) && IsDigit(Glue(gs)[|Glue(gs)| - 1])
  {
    assert AllDigits(gs[0]);
    if |gs| > 1 { GlueBegins(gs[1..]); }
  }

  lemma {:induction false} GluedReads(gs: seq<string>, before: string)
    requires DigitGroups(gs) && forall k | 0 <= k < |before| :: IsDigit(before[k])
    ensures forall k | 0 <= k < |before + Flat(gs)| :: IsDigit((before + Flat(gs))[k])
    ensures ReadOn(Glue(gs), before) == Some(Value(before + Flat(gs)))
    decreases |gs|
  {
    FlatDigits(gs);
    assert AllDigits(gs[0]);
    if |gs| == 1 {
      assert Flat(gs) == gs[0] + "" == gs[0] && gs[0] + "" == gs[0];
      ReadGroup(gs[0], "", before);
    } else {
      var rest := Glue(gs[1..]);
      ReadGroup(gs[0], ['_'] + rest, before);
      GlueBegins(gs[1..]);
      assert (['_'] + rest)[1..] == rest;
      GluedReads(gs[1..], before + gs[0]);
      assert before + gs[0] + Flat(gs[1..]) == before + Flat(gs);
    }
  }

  /** What is read consists of such groups. */
  lemma {:induction false} ReadIsGlued(s: string, value: nat) returns (gs: seq<string>)
    requires s != "" && IsDigit(s[0]) && ReadDigits(s, value).Some?
    ensures DigitGroups(gs) && Glue(gs) == s
    decreases s
  {
    if |s| == 1 {
      gs := [s];
    } else if IsDigit(s[1]) {
      var hs := ReadIsGlued(s[1..], 10 * value + (s[0] - '0') as nat);
      gs := [[s[0]] + hs[0]] + hs[1..];
      GroupGrows(s[0], hs[0], hs[1..]);
      assert hs == [hs[0]] + hs[1..];
      assert s == [s[0]] + s[1..];
    } else {
      var next := 10 * value + (s[0] - '0') as nat;
      assert s[1] == '_' && |s| > 2 && IsDigit(s[2]) by { assert s[1..][0] == s[1] && s[1..][1..] == s[2..]; UnderscoreStep(s[1..], next); }
      assert s[1..][1..] == s[2..];
      var hs := ReadIsGlued(s[2..], next);
      gs := [[s[0]]] + hs;
      assert gs[1..] == hs && s == [s[0]] + (['_'] + s[2..]);
      forall k | 0 <= k < |gs| ensures AllDigits(gs[k]) { assert k > 0 ==> gs[k] == hs[k - 1]; }
    }
  }

  lemma UnderscoreStep(s: string, value: nat)
    requires s != "" && !IsDigit(s[0]) && ReadDigits(s, value).Some?
    ensures s[0] == '_' && |s| > 1 && IsDigit(s[1]) && ReadDigits(s, value) == ReadDigits(s[1..], value)
  {
  }

  lemma GlueCons(g: string, rest: seq<string>)
    ensures Glue([g] + rest) == if rest == [] then g else g + (['_'] + Glue(rest))
  {
    assert ([g] + rest)[1..] == rest;
  }

  lemma GroupsCons(g: string, rest: seq<string>)
    requires AllDigits(g) && forall k | 0 <= k < |rest| :: AllDigits(rest[k])
    ensures DigitGroups([g] + rest)
  {
    hide AllDigits;
  }

  lemma DigitInFront(c: char, g: string)
    requires IsDigit(c) && AllDigits(g)
    ensures AllDigits([c] + g)
  {
  }

  lemma GroupGrows(c: char, h: string, rest: seq<string>)
    requires IsDigit(c) && AllDigits(h) && forall k | 0 <= k < |rest| :: AllDigits(rest[k])
    ensures DigitGroups([[c] + h] + rest) && Glue([[c] + h] + rest) == [c] + Glue([h] + rest)
  {
    hide AllDigits, Glue;
    DigitInFront(c, h);
    GroupsCons([c] + h, rest);
    GlueCons([c] + h, rest);
    GlueCons(h, rest);
    Associates([c], h, ['_'] + Glue(rest));
  }

  lemma Associates(a: string, b: string, c: string)
    ensures a + b + c == a + (b + c)
  {
  }

  function Number(gs: seq<string>): nat
    requires DigitGroups(gs)
  {
    FlatDigits(gs);
    Value(Flat(gs))
  }

  lemma ReadNatIff(s: string, n: nat)
    ensures ReadNat(s) == Some(n) <==> exists gs: seq<string> :: DigitGroups(gs) && Glue(gs) == s && Number(gs) == n
  {
    hide AllDigits, Glue, Number, ReadDigits;
    if ReadNat(s) == Some(n) {
      var gs := ReadIsGlued(s, 0);
      GluedIsRead(gs);
      assert Glue(gs) == s && Number(gs) == n;
    }
    if gs: seq<string> :| DigitGroups(gs) && Glue(gs) == s && Number(gs) == n { GluedIsRead(gs); }
  }

  lemma GluedIsRead(gs: seq<string>)
    requires DigitGroups(gs)
    ensures ReadNat(Glue(gs)) == Some(Number(gs))
  {
    GlueBegins(gs);
    GluedReads(gs, "");
    assert "" + Flat(gs) == Flat(gs);
  }

  predicate IsInteger(text: string, lead: string, sign: string, gs: seq<string>, tail: string) {
    && DigitGroups(gs) && sign in {"", "-", "+"} && Blank(lead) && Blank(tail)
    && text == lead + (sign + Glue(gs)) + tail
  }

  function SignedValue(sign: string, n: nat): int { if sign == "-" then 0 - n else n as int }

  lemma StripsToNumber(lead: string, sign: string, gs: seq<string>, tail: string)
    requires DigitGroups(gs) && sign in {"", "-", "+"} && Blank(lead) && Blank(tail)
    ensures Strip(lead + (sign + Glue(gs)) + tail) == sign + Glue(gs)
  {
    hide AllDigits, Strip, Blank, Glue;
    GlueBegins(gs);
    var s := sign + Glue(gs);
    assert !IsSpace(s[0]) && !IsSpace(s[|s| - 1]) by {
      assert s[|s| - 1] == Glue(gs)[|Glue(gs)| - 1] && s[0] == if sign == "" then Glue(gs)[0] else sign[0];
    }
    StripOuter(lead, s, tail);
  }

  lemma IntegerParses(text: string, lead: string, sign: string, gs: seq<string>, tail: string)
    requires IsInteger(text, lead, sign, gs, tail)
    ensures ParseInt(text) == Some(SignedValue(sign, Number(gs)))
  {
    hide Blank, Strip, AllDigits, Glue, Number, ReadNat;
    StripsToNumber(lead, sign, gs, tail);
    GluedIsRead(gs);
    GlueBegins(gs);
    var s := sign + Glue(gs);
    if sign == "" { assert s == Glue(gs); } else { assert s[0] == sign[0] && s[1..] == Glue(gs); }
  }

  /** `int` accepts exactly groups of digits joined by single underscores, with a sign or none
      in front and white space around, and gives their decimal value. */
  lemma ParseIntIff(text: string, v: int)
    ensures ParseInt(text) == Some(v) <==>
              exists lead: string, sign: string, gs: seq<string>, tail: string ::
                IsInteger(text, lead, sign, gs, tail) && v == SignedValue(sign, Number(gs))
  {
    hide Blank, Glue, AllDigits, ParseInt, Number;
    if ParseInt(text) == Some(v) { ParsedIsInteger(text, v); }
    if lead: string, sign: string, gs: seq<string>, tail: string :| IsInteger(text, lead, sign, gs, tail) && v == SignedValue(sign, Number(gs)) {
      IntegerParses(text, lead, sign, gs, tail);
    }
  }

  lemma ParsedIsInteger(text: string, v: int)
    requires ParseInt(text) == Some(v)
    ensures exists lead: string, sign: string, gs: seq<string>, tail: string ::
              IsInteger(text, lead, sign, gs, tail) && v == SignedValue(sign, Number(gs))
  {
    hide ReadNat, Glue, AllDigits, Number, Blank;
    var lead, tail := StripParts(text);
    var s := Strip(text);
    hide Strip;
    var sign := if s[0] == '-' then "-" else if s[0] == '+' then "+" else "";
    var digits := s[|sign|..];
    assert s == sign + digits && digits == if sign == "" then s else s[1..];
    var n := ReadNat(digits).value;
    ReadNatIff(digits, n);
    var gs: seq<string> :| DigitGroups(gs) && Glue(gs) == digits && Number(gs) == n;
    assert IsInteger(text, lead, sign, gs, tail) && v == SignedValue(sign, Number(gs));
  }
}
