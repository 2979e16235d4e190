/** `parse_query_args` of the fast daemon path: the hand-written parser of the
    `query` command's arguments. */
module QueryArgs {
  import opened Text

  // ----- integers -----

  predicate IsDigit(c: char) { '0' <= c <= '9' }

  /** The digits of an integer literal: groups of digits joined by single
      underscores; `value` is what has been read so far. */
  function ReadDigits(s: string, value: nat): Option<nat> {
    if s == [] then Some(value)
    else if IsDigit(s[0]) then ReadDigits(s[1..], 10 * value + (s[0] - '0') as nat)
    else if s[0] == '_' && |s| > 1 && IsDigit(s[1]) then ReadDigits(s[1..], value)
    else None
  }

  function ReadNat(s: string): Option<nat> {
    if s == [] || !IsDigit(s[0]) then None else ReadDigits(s, 0)
  }

  function Signed(r: Option<nat>, sign: int): Option<int> {
    if r.None? then None else Some(sign * r.value)
  }

  /** `int(text)` for ASCII digits. */
  function ParseInt(text: string): Option<int> {
    var s := Strip(text);
    if s == [] then None
    else if s[0] == '-' then Signed(ReadNat(s[1..]), -1)
    else if s[0] == '+' then Signed(ReadNat(s[1..]), 1)
    else Signed(ReadNat(s), 1)
  }

  function ShowNat(n: nat): (s: string)
    ensures s != [] && forall k | 0 <= k < |s| :: IsDigit(s[k])
  {
    var d := [('0' as int + n % 10) as char];
    if n < 10 then d else ShowNat(n / 10) + d
  }

  function ShowInt(n: int): string { if n < 0 then "-" + ShowNat(-n) else ShowNat(n) }

  lemma {:induction false} ReadDigitsConcat(a: string, b: string, value: nat)
    requires forall k | 0 <= k < |a| :: IsDigit(a[k])
    ensures ReadDigits(a, value).Some?
    ensures ReadDigits(a + b, value) == ReadDigits(b, ReadDigits(a, value).value)
    decreases a
  {
    if a == [] {
      assert a + b == b;
    } else {
      assert (a + b)[1..] == a[1..] + b;
      ReadDigitsConcat(a[1..], b, 10 * value + (a[0] - '0') as nat);
    }
  }

  lemma {:induction false} ReadShown(n: nat)
    ensures ReadDigits(ShowNat(n), 0) == Some(n)
  {
    var d := [('0' as int + n % 10) as char];
    assert d[1..] == [];
    if n >= 10 {
      ReadShown(n / 10);
      ReadDigitsConcat(ShowNat(n / 10), d, 0);
    }
  }

  lemma StripNothing(s: string)
    requires s != [] && !IsSpace(s[0]) && !IsSpace(s[|s| - 1])
    ensures Strip(s) == s
  {
    assert s[..|s|] == s && s[0..] == s;
  }

  /** A shown integer parses back. */
  lemma ShownIntParses(n: int)
    ensures ParseInt(ShowInt(n)) == Some(n)
  {
    var m: nat := if n < 0 then -n else n;
    var digits := ShowNat(m);
    ReadShown(m);
    hide ShowNat, ReadDigits, Strip;
    if n < 0 {
      assert ("-" + digits)[1..] == digits;
      assert IsDigit(("-" + digits)[|digits|]);
      StripNothing("-" + digits);
    } else {
      StripNothing(digits);
    }
  }

  // ----- tokens -----

  datatype Kind = Language | PathFilter | ExcludeLanguage | ExcludePath

  datatype Mode = Fts | Semantic | Quiet

  /** What an argument in flag position is. */
  datatype Flag = Switch(mode: Mode) | Limit | Filter(kind: Kind) | SnippetLines | Repo | Unknown | NotAFlag

  function Classify(arg: string): Flag {
    if !At(arg, 0, "--") then NotAFlag
    else if arg == "--fts" then Switch(Fts)
    else if arg == "--semantic" then Switch(Semantic)
    else if arg == "--quiet" then Switch(Quiet)
    else if arg == "--limit" then Limit
    else if arg == "--language" then Filter(Language)
    else if arg == "--path-filter" then Filter(PathFilter)
    else if arg == "--exclude-language" then Filter(ExcludeLanguage)
    else if arg == "--exclude-path" then Filter(ExcludePath)
    else if arg == "--snippet-lines" then SnippetLines
    else if arg == "--repo" then Repo
    else Unknown
  }

  predicate TakesValue(f: Flag) { f.Limit? || f.Filter? || f.SnippetLines? }

  /** One step of the parser: a flag with the value behind it (absent for a flag at
      the end), or a plain word. */
  datatype Token = Flagged(flag: Flag, value: Option<string>) | Word(text: string)

  /** How many arguments the first token takes, and what it is. */
  function FirstToken(args: seq<string>): Token
    requires args != []
  {
    var f := Classify(args[0]);
    if f.NotAFlag? then Word(args[0])
    else if TakesValue(f) && |args| > 1 then Flagged(f, Some(args[1]))
    else Flagged(f, None)
  }

  function Width(t: Token): nat { if t.Flagged? && t.value.Some? then 2 else 1 }

  /** The arguments cut into tokens: exactly the arguments in flag position and the
      values that follow them. */
  function Tokens(args: seq<string>): seq<Token>
    decreases |args|
  {
    if args == [] then []
    else
      var t := FirstToken(args);
      [t] + Tokens(args[Width(t)..])
  }

  // ----- the result -----

  /** A repeatable filter, as the result dictionary holds it: a string, or a list
      from the second occurrence on. */
  datatype Values = One(value: string) | Many(values: seq<string>)

  datatype Query = Query(text: string, isFts: bool, isSemantic: bool, limit: int, quiet: bool,
                         filters: map<Kind, Values>, snippetLines: Option<int>)

  const DEFAULTS := Query("", false, false, 10, false, map[], None)

  function AddValue(filters: map<Kind, Values>, k: Kind, v: string): map<Kind, Values> {
    if k !in filters then filters[k := One(v)]
    else
      match filters[k]
      case One(first) => filters[k := Many([first, v])]
      case Many(vs) => filters[k := Many(vs + [v])]
  }

  /** What one token does to the result; `None` is a ValueError. */
  function Step(q: Query, t: Token): Option<Query> {
    match t
    case Word(s) => Some(if q.text == "" then q.(text := s) else q)
    case Flagged(Unknown, _) => None
    case Flagged(Switch(Fts), _) => Some(q.(isFts := true))
    case Flagged(Switch(Semantic), _) => Some(q.(isSemantic := true))
    case Flagged(Switch(Quiet), _) => Some(q.(quiet := true))
    case Flagged(Limit, Some(v)) => (var n := ParseInt(v); if n.None? then None else Some(q.(limit := n.value)))
    case Flagged(Filter(k), Some(v)) => Some(q.(filters := AddValue(q.filters, k, v)))
    case Flagged(SnippetLines, Some(v)) => (var n := ParseInt(v); if n.None? then None else Some(q.(snippetLines := n)))
    case Flagged(_, _) => Some(q)
  }

  function Fold(q: Query, ts: seq<Token>): Option<Query>
    decreases ts
  {
    if ts == [] then Some(q)
    else
      var r := Step(q, ts[0]);
      if r.None? then None else Fold(r.value, ts[1..])
  }

  function Finish(q: Query): Query {
    if !q.isFts && !q.isSemantic then q.(isSemantic := true) else q
  }

  /** What `parse_query_args` returns. */
  function Parsed(args: seq<string>): Option<Query> {
    var r := Fold(DEFAULTS, Tokens(args));
    if r.None? then None else Some(Finish(r.value))
  }

  lemma UnfoldFirst(q: Query, args: seq<string>, i: nat)
    requires i < |args|
    ensures var t := FirstToken(args[i..]);
            && i + Width(t) <= |args|
            && Fold(q, Tokens(args[i..])) ==
                 var r := Step(q, t); if r.None? then None else Fold(r.value, Tokens(args[i + Width(t)..]))
  {
    hide Classify, Step;
    var t := FirstToken(args[i..]);
    var rest := Tokens(args[i..][Width(t)..]);
    assert args[i..][Width(t)..] == args[i + Width(t)..];
    assert ([t] + rest)[1..] == rest;
  }

  lemma NothingLeft(q: Query)
    ensures Fold(q, Tokens([])) == Some(q)
  {
  }

  method ParseQueryArgs(args: seq<string>) returns (r: Option<Query>)
    ensures r == Parsed(args)
  {
    hide Classify, ParseInt, Fold, Tokens, AddValue;
    var result := DEFAULTS;
    assert args[0..] == args;
    var i := 0;
    while i < |args|
      invariant 0 <= i <= |args|
      invariant Fold(DEFAULTS, Tokens(args)) == Fold(result, Tokens(args[i..]))
    {
      var arg := args[i];
      var f := Classify(arg);
      UnfoldFirst(result, args, i);
      if !f.NotAFlag? {
        if f.Unknown? { return None; }
        if f == Switch(Fts) {
          result := result.(isFts := true);
        } else if f == Switch(Semantic) {
          result := result.(isSemantic := true);
        } else if f == Switch(Quiet) {
          result := result.(quiet := true);
        } else if f.Limit? && i + 1 < |args| {
          var n := ParseInt(args[i + 1]);
          if n.None? { return None; }
          result := result.(limit := n.value);
          i := i + 1;
        } else if f.Filter? && i + 1 < |args| {
          result := result.(filters := AddValue(result.filters, f.kind, args[i + 1]));
          i := i + 1;
        } else if f.SnippetLines? && i + 1 < |args| {
          var n := ParseInt(args[i + 1]);
          if n.None? { return None; }
          result := result.(snippetLines := n);
          i := i + 1;
        }
      } else {
        if result.text == "" { result := result.(text := arg); }
      }
      i := i + 1;
    }
    NothingLeft(result);
    assert args[i..] == [];
    if !result.isFts && !result.isSemantic { result := result.(isSemantic := true); }
    return Some(result);
  }

  // ----- what the result means in terms of the tokens -----

  /** Why a token raises ValueError. */
  predicate Rejected(t: Token) {
    && t.Flagged?
    && (t.flag.Unknown? || ((t.flag.Limit? || t.flag.SnippetLines?) && t.value.Some? && ParseInt(t.value.value).None?))
  }

  predicate Accepted(ts: seq<Token>) { forall k | 0 <= k < |ts| :: !Rejected(ts[k]) }

  /** The values that followed the flag of filter `k` in flag position, in order. */
  function ValuesOf(ts: seq<Token>, k: Kind): seq<string> {
    if ts == [] then []
    else (if ts[0].Flagged? && ts[0].flag == Filter(k) && ts[0].value.Some? then [ts[0].value.value] else [])
         + ValuesOf(ts[1..], k)
  }

  /** The first word that is not empty. */
  function FirstWord(ts: seq<Token>): string {
    if ts == [] then "" else if ts[0].Word? && ts[0].text != "" then ts[0].text else FirstWord(ts[1..])
  }

  predicate HasMode(ts: seq<Token>, m: Mode) {
    exists k | 0 <= k < |ts| :: ts[k].Flagged? && ts[k].flag == Switch(m)
  }

  /** The last integer given with flag `f`, or `otherwise`. */
  function LastInt(ts: seq<Token>, f: Flag, otherwise: Option<int>): Option<int> {
    if ts == [] then otherwise
    else
      var t := ts[|ts| - 1];
      if t.Flagged? && t.flag == f && t.value.Some? then ParseInt(t.value.value)
      else LastInt(ts[..|ts| - 1], f, otherwise)
  }

  /** The values a filter holds. */
  function Held(filters: map<Kind, Values>, k: Kind): seq<string> {
    if k !in filters then [] else match filters[k] case One(v) => [v] case Many(vs) => vs
  }

  /** A scalar for one value, a list for two or more, no entry for none. */
  predicate Promoted(filters: map<Kind, Values>) {
    forall k | k in filters :: filters[k].Many? ==> |filters[k].values| >= 2
  }

  /** The relation between the state before some tokens, the tokens and the state
      after them. */
  ghost predicate Explains(q: Query, ts: seq<Token>, r: Query) {
    && r.text == (if q.text != "" then q.text else FirstWord(ts))
    && r.isFts == (q.isFts || HasMode(ts, Fts))
    && r.isSemantic == (q.isSemantic || HasMode(ts, Semantic))
    && r.quiet == (q.quiet || HasMode(ts, Quiet))
    && Some(r.limit) == LastInt(ts, Limit, Some(q.limit))
    && r.snippetLines == LastInt(ts, SnippetLines, q.snippetLines)
    && (forall k :: Held(r.filters, k) == Held(q.filters, k) + ValuesOf(ts, k))
    && Promoted(r.filters)
  }

  lemma {:induction false} FoldSnoc(q: Query, ts: seq<Token>, t: Token)
    ensures Fold(q, ts + [t]) == var r := Fold(q, ts); if r.None? then None else Step(r.value, t)
    decreases ts
  {
    hide Step;
    if ts == [] {
      assert (ts + [t])[1..] == [];
    } else {
      assert (ts + [t])[1..] == ts[1..] + [t];
      if Step(q, ts[0]).Some? { FoldSnoc(Step(q, ts[0]).value, ts[1..], t); }
    }
  }

  lemma {:induction false} ValuesOfSnoc(ts: seq<Token>, t: Token, k: Kind)
    ensures ValuesOf(ts + [t], k) == ValuesOf(ts, k) + ValuesOf([t], k)
  {
    var all := ts + [t];
    if ts == [] {
      assert all == [t] && ValuesOf(ts, k) + ValuesOf([t], k) == ValuesOf([t], k);
    } else {
      var rest := ts[1..];
      ValuesOfSnoc(rest, t, k);
      assert all[0] == ts[0] && all[1..] == rest + [t];
      var first := if ts[0].Flagged? && ts[0].flag == Filter(k) && ts[0].value.Some? then [ts[0].value.value] else [];
      assert ValuesOf(all, k) == first + ValuesOf(rest + [t], k) && ValuesOf(ts, k) == first + ValuesOf(rest, k);
      hide ValuesOf;
    }
  }

  lemma {:induction false} FirstWordSnoc(ts: seq<Token>, t: Token)
    ensures FirstWord(ts + [t]) == if FirstWord(ts) != "" then FirstWord(ts) else if t.Word? then t.text else ""
  {
    if ts == [] {
      assert (ts + [t])[1..] == [];
    } else {
      FirstWordSnoc(ts[1..], t);
      assert (ts + [t])[1..] == ts[1..] + [t];
    }
  }

  lemma HasModeSnoc(ts: seq<Token>, t: Token, m: Mode)
    ensures HasMode(ts + [t], m) <==> HasMode(ts, m) || (t.Flagged? && t.flag == Switch(m))
  {
    var us := ts + [t];
    assert us[|ts|] == t && forall k | 0 <= k < |ts| :: us[k] == ts[k];
  }

  lemma LastIntSnoc(ts: seq<Token>, t: Token, f: Flag, otherwise: Option<int>)
    ensures LastInt(ts + [t], f, otherwise) ==
              if t.Flagged? && t.flag == f && t.value.Some? then ParseInt(t.value.value) else LastInt(ts, f, otherwise)
  {
    hide ParseInt;
    assert (ts + [t])[..|ts|] == ts;
  }

  /** One more token keeps the explanation. */
  lemma ExplainStep(q: Query, ts: seq<Token>, r: Query, t: Token)
    requires Explains(q, ts, r)
    ensures Step(r, t).Some? <==> !Rejected(t)
    ensures Step(r, t).Some? ==> Explains(q, ts + [t], Step(r, t).value)
  {
    hide ParseInt, LastInt, ValuesOf, HasMode, FirstWord;
    FirstWordSnoc(ts, t);
    HasModeSnoc(ts, t, Fts);
    HasModeSnoc(ts, t, Semantic);
    HasModeSnoc(ts, t, Quiet);
    LastIntSnoc(ts, t, Limit, Some(q.limit));
    LastIntSnoc(ts, t, SnippetLines, q.snippetLines);
    if Step(r, t).Some? {
      FilterStep(q.filters, ts, r.filters, t);
    }
  }

  /** The filters after one token. */
  function FiltersAfter(filters: map<Kind, Values>, t: Token): map<Kind, Values> {
    if t.Flagged? && t.flag.Filter? && t.value.Some? then AddValue(filters, t.flag.kind, t.value.value) else filters
  }

  lemma AddValueHolds(filters: map<Kind, Values>, k: Kind, v: string, j: Kind)
    ensures Held(AddValue(filters, k, v), j) == Held(filters, j) + (if j == k then [v] else [])
    ensures Promoted(filters) ==> Promoted(AddValue(filters, k, v))
  {
  }

  lemma OneTokenValues(t: Token, k: Kind)
    ensures ValuesOf([t], k) == if t.Flagged? && t.flag == Filter(k) && t.value.Some? then [t.value.value] else []
  {
    assert [t][1..] == [];
  }

  lemma FilterStep(was: map<Kind, Values>, ts: seq<Token>, now: map<Kind, Values>, t: Token)
    requires Promoted(now) && forall k :: Held(now, k) == Held(was, k) + ValuesOf(ts, k)
    ensures var f := FiltersAfter(now, t);
            Promoted(f) && forall k :: Held(f, k) == Held(was, k) + ValuesOf(ts + [t], k)
  {
    hide AddValue, Held, Promoted, ValuesOf;
    var f := FiltersAfter(now, t);
    forall k ensures Held(f, k) == Held(was, k) + ValuesOf(ts + [t], k) && Promoted(f) {
      ValuesOfSnoc(ts, t, k);
      OneTokenValues(t, k);
      if t.Flagged? && t.flag.Filter? && t.value.Some? { AddValueHolds(now, t.flag.kind, t.value.value, k); }
      assert Held(was, k) + ValuesOf(ts, k) + ValuesOf([t], k) == Held(was, k) + (ValuesOf(ts, k) + ValuesOf([t], k));
    }
    var k := Language;
    assert Promoted(f) by { assert Held(f, k) == Held(was, k) + ValuesOf(ts + [t], k); }
  }

  lemma {:induction false} FoldExplained(q: Query, ts: seq<Token>)
    requires Promoted(q.filters)
    ensures Fold(q, ts).Some? <==> Accepted(ts)
    ensures Fold(q, ts).Some? ==> Explains(q, ts, Fold(q, ts).value)
    decreases |ts|
  {
    hide Step, Rejected, Explains, Promoted;
    if ts == [] {
      NothingExplained(q);
    } else {
      var before, t := ts[..|ts| - 1], ts[|ts| - 1];
      assert ts == before + [t];
      FoldExplained(q, before);
      FoldSnoc(q, before, t);
      if Fold(q, before).Some? { ExplainStep(q, before, Fold(q, before).value, t); }
    }
  }

  lemma NothingExplained(q: Query)
    requires Promoted(q.filters)
    ensures Explains(q, [], q)
  {
  }

  /** The parser accepts exactly the arguments without an unknown flag or an
      unreadable integer in flag position; then every component is what the tokens
      say: the first non-empty word, the modes given, the last limit, and for each
      filter the values that followed its flag, in order, as nothing, a scalar or a
      list. */
  lemma ParsedMeaning(args: seq<string>)
    ensures var ts := Tokens(args);
            && (Parsed(args).Some? <==> Accepted(ts))
            && (Parsed(args).Some? ==>
                  var q := Parsed(args).value;
                  && q.text == FirstWord(ts) && q.quiet == HasMode(ts, Quiet)
                  && q.isFts == HasMode(ts, Fts) && q.isSemantic == (HasMode(ts, Semantic) || !HasMode(ts, Fts))
                  && Some(q.limit) == LastInt(ts, Limit, Some(10)) && q.snippetLines == LastInt(ts, SnippetLines, None)
                  && (forall k :: Held(q.filters, k) == ValuesOf(ts, k)) && Promoted(q.filters))
  {
    hide Accepted, LastInt, HasMode, FirstWord, ValuesOf, Tokens, Fold;
    var ts := Tokens(args);
    FoldExplained(DEFAULTS, ts);
    if Parsed(args).Some? {
      forall k ensures Held(Parsed(args).value.filters, k) == ValuesOf(ts, k) {
        assert Held(DEFAULTS.filters, k) + ValuesOf(ts, k) == ValuesOf(ts, k);
      }
    }
  }

  // ----- printing a result and parsing it again -----

  function FlagText(f: Flag): string
    requires !f.Unknown? && !f.NotAFlag?
  {
    match f
    case Switch(Fts) => "--fts"
    case Switch(Semantic) => "--semantic"
    case Switch(Quiet) => "--quiet"
    case Limit => "--limit"
    case Filter(Language) => "--language"
    case Filter(PathFilter) => "--path-filter"
    case Filter(ExcludeLanguage) => "--exclude-language"
    case Filter(ExcludePath) => "--exclude-path"
    case SnippetLines => "--snippet-lines"
    case Repo => "--repo"
  }

  lemma FlagTextClassifies(f: Flag)
    requires !f.Unknown? && !f.NotAFlag?
    ensures Classify(FlagText(f)) == f
  {
    var s := FlagText(f);
    assert s[0] == '-' && s[1] == '-' && s[0..2] == "--";
  }

  /** A token that can be written as arguments. */
  predicate Printable(t: Token) {
    match t
    case Word(s) => Classify(s).NotAFlag?
    case Flagged(f, v) => !f.Unknown? && !f.NotAFlag? && (TakesValue(f) <==> v.Some?)
  }

  function Unparse(ts: seq<Token>): seq<string>
    requires forall k | 0 <= k < |ts| :: Printable(ts[k])
  {
    if ts == [] then []
    else
      assert Printable(ts[0]);
      (match ts[0]
       case Word(s) => [s]
       case Flagged(f, v) => if v.Some? then [FlagText(f), v.value] else [FlagText(f)])
      + Unparse(ts[1..])
  }

  lemma {:induction false} TokensOfUnparse(ts: seq<Token>)
    requires forall k | 0 <= k < |ts| :: Printable(ts[k])
    ensures Tokens(Unparse(ts)) == ts
  {
    hide Classify, FlagText;
    if ts != [] {
      TokensOfUnparse(ts[1..]);
      var args, rest := Unparse(ts), Unparse(ts[1..]);
      if ts[0].Flagged? { FlagTextClassifies(ts[0].flag); }
      assert FirstToken(args) == ts[0];
      assert args[Width(ts[0])..] == rest;
    }
  }

  /** The canonical tokens of a result: the word, the modes, the limit, each filter
      value behind its flag, the snippet lines. */
  function PrintFilter(filters: map<Kind, Values>, k: Kind): (ts: seq<Token>)
  {
    FilterTokens(k, Held(filters, k))
  }

  function FilterTokens(k: Kind, vs: seq<string>): (ts: seq<Token>)
    ensures forall i | 0 <= i < |ts| :: Printable(ts[i])
  {
    if vs == [] then [] else [Flagged(Filter(k), Some(vs[0]))] + FilterTokens(k, vs[1..])
  }

  function PrintModes(q: Query): seq<Token> {
    (if q.isFts then [Flagged(Switch(Fts), None)] else [])
    + ((if q.isSemantic then [Flagged(Switch(Semantic), None)] else [])
       + (if q.quiet then [Flagged(Switch(Quiet), None)] else []))
  }

  function PrintScalars(q: Query): seq<Token> {
    (if q.text == "" then [] else [Word(q.text)])
    + ([Flagged(Limit, Some(ShowInt(q.limit)))]
       + (if q.snippetLines.None? then [] else [Flagged(SnippetLines, Some(ShowInt(q.snippetLines.value)))]))
  }

  function Print(q: Query): seq<Token> {
    PrintScalars(q) + (PrintModes(q)
    + (PrintFilter(q.filters, Language) + (PrintFilter(q.filters, PathFilter)
    + (PrintFilter(q.filters, ExcludeLanguage) + PrintFilter(q.filters, ExcludePath)))))
  }

  /** The results the parser can produce. */
  predicate Producible(q: Query) {
    Classify(q.text).NotAFlag? && (q.isFts || q.isSemantic) && Promoted(q.filters)
  }

  lemma {:induction false} FoldConcat(q: Query, a: seq<Token>, b: seq<Token>)
    ensures Fold(q, a + b) == var r := Fold(q, a); if r.None? then None else Fold(r.value, b)
    decreases a
  {
    hide Step;
    if a == [] {
      assert a + b == b;
    } else {
      assert (a + b)[1..] == a[1..] + b;
      if Step(q, a[0]).Some? { FoldConcat(Step(q, a[0]).value, a[1..], b); }
    }
  }

  lemma FoldOne(q: Query, t: Token)
    ensures Fold(q, [t]) == Step(q, t)
  {
    hide Step;
    assert [t][1..] == [];
  }

  lemma FoldScalars(q: Query)
    ensures Fold(DEFAULTS, PrintScalars(q)) == Some(DEFAULTS.(text := q.text, limit := q.limit, snippetLines := q.snippetLines))
  {
    hide ParseInt, ShowInt, Fold;
    ShownIntParses(q.limit);
    var a := if q.text == "" then [] else [Word(q.text)];
    var b := [Flagged(Limit, Some(ShowInt(q.limit)))];
    var c := if q.snippetLines.None? then [] else [Flagged(SnippetLines, Some(ShowInt(q.snippetLines.value)))];
    var q1 := DEFAULTS.(text := q.text);
    var q2 := q1.(limit := q.limit);
    FoldConcat(DEFAULTS, a, b + c);
    FoldConcat(q1, b, c);
    FoldNone(DEFAULTS);
    FoldNone(q2);
    FoldOne(DEFAULTS, Word(q.text));
    FoldOne(q1, b[0]);
    if q.snippetLines.Some? {
      ShownIntParses(q.snippetLines.value);
      FoldOne(q2, c[0]);
    }
  }

  lemma FoldNone(q: Query)
    ensures Fold(q, []) == Some(q)
  {
  }

  lemma FoldSwitch(q: Query, m: Mode, on: bool)
    ensures Fold(q, if on then [Flagged(Switch(m), None)] else []) == if on then Step(q, Flagged(Switch(m), None)) else Some(q)
  {
    hide Step;
    if on { FoldOne(q, Flagged(Switch(m), None)); }
  }

  lemma FoldModes(p: Query, q: Query)
    requires !p.isFts && !p.isSemantic && !p.quiet
    ensures Fold(p, PrintModes(q)) == Some(p.(isFts := q.isFts, isSemantic := q.isSemantic, quiet := q.quiet))
  {
    hide Fold;
    var a := if q.isFts then [Flagged(Switch(Fts), None)] else [];
    var b := if q.isSemantic then [Flagged(Switch(Semantic), None)] else [];
    var c := if q.quiet then [Flagged(Switch(Quiet), None)] else [];
    var p1 := p.(isFts := q.isFts);
    var p2 := p1.(isSemantic := q.isSemantic);
    FoldConcat(p, a, b + c);
    FoldConcat(p1, b, c);
    FoldSwitch(p, Fts, q.isFts);
    FoldSwitch(p1, Semantic, q.isSemantic);
    FoldSwitch(p2, Quiet, q.quiet);
  }

  lemma {:induction false} FoldMany(q: Query, k: Kind, head: seq<string>, vs: seq<string>)
    requires |head| >= 2
    ensures Fold(q.(filters := q.filters[k := Many(head)]), FilterTokens(k, vs)) == Some(q.(filters := q.filters[k := Many(head + vs)]))
    decreases vs
  {
    var p := q.(filters := q.filters[k := Many(head)]);
    if vs == [] {
      assert head + vs == head;
    } else {
      FoldMany(q, k, head + [vs[0]], vs[1..]);
      assert head + [vs[0]] + vs[1..] == head + vs;
      var ts := FilterTokens(k, vs);
      assert ts[1..] == FilterTokens(k, vs[1..]);
      assert p.filters[k := Many(head + [vs[0]])] == q.filters[k := Many(head + [vs[0]])];
      assert Step(p, ts[0]) == Some(q.(filters := q.filters[k := Many(head + [vs[0]])]));
    }
  }

  lemma FoldTwo(q: Query, k: Kind, vs: seq<string>)
    requires k !in q.filters && |vs| >= 2
    ensures Fold(q, FilterTokens(k, vs)) == Some(q.(filters := q.filters[k := Many(vs)]))
  {
    var ts := FilterTokens(k, vs);
    var q1 := q.(filters := q.filters[k := One(vs[0])]);
    var q2 := q.(filters := q.filters[k := Many([vs[0], vs[1]])]);
    assert ts[1..] == FilterTokens(k, vs[1..]);
    assert vs[1..][1..] == vs[2..];
    assert ts[1..][1..] == FilterTokens(k, vs[2..]);
    assert Step(q, ts[0]) == Some(q1);
    assert q1.filters[k := Many([vs[0], vs[1]])] == q2.filters;
    assert Step(q1, ts[1]) == Some(q2);
    FoldMany(q, k, [vs[0], vs[1]], vs[2..]);
    assert [vs[0], vs[1]] + vs[2..] == vs;
    assert Fold(q, ts) == Fold(q1, ts[1..]) == Fold(q2, ts[1..][1..]);
  }

  /** Reading a filter's values back rebuilds its entry. */
  lemma FoldFilter(q: Query, k: Kind, filters: map<Kind, Values>)
    requires k !in q.filters && Promoted(filters)
    ensures Fold(q, PrintFilter(filters, k)) ==
              Some(if k in filters then q.(filters := q.filters[k := filters[k]]) else q)
  {
    if k in filters {
      match filters[k]
      case One(v) =>
        var t := Flagged(Filter(k), Some(v));
        assert FilterTokens(k, [v]) == [t] by { assert [v][1..] == []; }
        FoldOne(q, t);
      case Many(vs) =>
        FoldTwo(q, k, vs);
    }
  }

  /** `filters` cut down to some kinds. */
  function Only(filters: map<Kind, Values>, kinds: set<Kind>): map<Kind, Values> {
    map k | k in filters && k in kinds :: filters[k]
  }

  lemma FoldNextFilter(q: Query, kinds: set<Kind>, k: Kind, filters: map<Kind, Values>)
    requires q.filters == Only(filters, kinds) && k !in kinds && Promoted(filters)
    ensures Fold(q, PrintFilter(filters, k)) == Some(q.(filters := Only(filters, kinds + {k})))
  {
    hide Fold, PrintFilter;
    FoldFilter(q, k, filters);
    if k in filters {
      assert q.filters[k := filters[k]] == Only(filters, kinds + {k});
    } else {
      assert q.filters == Only(filters, kinds + {k});
    }
  }

  lemma FoldFilters(q: Query, filters: map<Kind, Values>)
    requires q.filters == map[] && Promoted(filters)
    ensures Fold(q, PrintFilter(filters, Language) + (PrintFilter(filters, PathFilter)
                    + (PrintFilter(filters, ExcludeLanguage) + PrintFilter(filters, ExcludePath))))
            == Some(q.(filters := filters))
  {
    hide Fold, PrintFilter, Promoted;
    var a, b, c, d := PrintFilter(filters, Language), PrintFilter(filters, PathFilter),
      PrintFilter(filters, ExcludeLanguage), PrintFilter(filters, ExcludePath);
    var q1 := q.(filters := Only(filters, {Language}));
    var q2 := q.(filters := Only(filters, {Language, PathFilter}));
    var q3 := q.(filters := Only(filters, {Language, PathFilter, ExcludeLanguage}));
    assert q.filters == Only(filters, {});
    assert {} + {Language} == {Language} && {Language} + {PathFilter} == {Language, PathFilter};
    assert {Language, PathFilter} + {ExcludeLanguage} == {Language, PathFilter, ExcludeLanguage};
    FoldConcat(q, a, b + (c + d));
    FoldNextFilter(q, {}, Language, filters);
    FoldConcat(q1, b, c + d);
    FoldNextFilter(q1, {Language}, PathFilter, filters);
    FoldConcat(q2, c, d);
    FoldNextFilter(q2, {Language, PathFilter}, ExcludeLanguage, filters);
    FoldNextFilter(q3, {Language, PathFilter, ExcludeLanguage}, ExcludePath, filters);
    forall k: Kind ensures k in {Language, PathFilter, ExcludeLanguage} + {ExcludePath} {
      match k case Language => case PathFilter => case ExcludeLanguage => case ExcludePath =>
    }
    assert Only(filters, {Language, PathFilter, ExcludeLanguage} + {ExcludePath}) == filters;
  }

  lemma PrintIsPrintable(q: Query)
    requires Producible(q)
    ensures forall k | 0 <= k < |Print(q)| :: Printable(Print(q)[k])
  {
    hide PrintScalars, PrintModes, PrintFilter, Printable, Producible;
    var a, b := PrintScalars(q), PrintModes(q);
    var c, d := PrintFilter(q.filters, Language), PrintFilter(q.filters, PathFilter);
    var e, f := PrintFilter(q.filters, ExcludeLanguage), PrintFilter(q.filters, ExcludePath);
    ScalarsPrintable(q);
    ModesPrintable(q);
    FilterPrintable(q.filters, Language);
    FilterPrintable(q.filters, PathFilter);
    FilterPrintable(q.filters, ExcludeLanguage);
    FilterPrintable(q.filters, ExcludePath);
    assert AllPrintable(e + f);
    assert AllPrintable(d + (e + f));
    assert AllPrintable(c + (d + (e + f)));
    assert AllPrintable(b + (c + (d + (e + f))));
    assert AllPrintable(a + (b + (c + (d + (e + f)))));
  }

  predicate AllPrintable(ts: seq<Token>) {
    forall k | 0 <= k < |ts| :: Printable(ts[k])
  }

  lemma ScalarsPrintable(q: Query)
    requires Producible(q)
    ensures AllPrintable(PrintScalars(q))
  {
    hide Classify, Promoted, ShowInt;
  }

  lemma ModesPrintable(q: Query)
    ensures AllPrintable(PrintModes(q))
  {
    hide Classify;
  }

  lemma FilterPrintable(filters: map<Kind, Values>, k: Kind)
    ensures AllPrintable(PrintFilter(filters, k))
  {
    hide Classify, Printable, FilterTokens;
  }

  lemma FoldPrint(q: Query)
    requires Producible(q)
    ensures Fold(DEFAULTS, Print(q)) == Some(q)
  {
    hide Fold, PrintScalars, PrintModes, PrintFilter;
    var a, b := PrintScalars(q), PrintModes(q);
    var c := PrintFilter(q.filters, Language) + (PrintFilter(q.filters, PathFilter)
             + (PrintFilter(q.filters, ExcludeLanguage) + PrintFilter(q.filters, ExcludePath)));
    var q1 := DEFAULTS.(text := q.text, limit := q.limit, snippetLines := q.snippetLines);
    var q2 := q1.(isFts := q.isFts, isSemantic := q.isSemantic, quiet := q.quiet);
    FoldConcat(DEFAULTS, a, b + c);
    FoldScalars(q);
    FoldConcat(q1, b, c);
    FoldModes(q1, q);
    FoldFilters(q2, q.filters);
  }

  lemma {:induction false} WordsAreNotFlags(args: seq<string>)
    ensures Classify(FirstWord(Tokens(args))).NotAFlag?
    decreases |args|
  {
    if args != [] { WordsAreNotFlags(args[Width(FirstToken(args))..]); }
  }

  /** For every accepted argument list, printing the result and parsing it again
      gives the same result. */
  lemma PrintParseRoundTrip(args: seq<string>)
    requires Parsed(args).Some?
    ensures var q := Parsed(args).value;
            && Producible(q) && (forall k | 0 <= k < |Print(q)| :: Printable(Print(q)[k]))
            && Parsed(Unparse(Print(q))) == Some(q)
  {
    hide Print, Unparse, Tokens, Classify, Fold, Printable, FirstWord;
    ParsedMeaning(args);
    WordsAreNotFlags(args);
    var q := Parsed(args).value;
    PrintIsPrintable(q);
    TokensOfUnparse(Print(q));
    FoldPrint(q);
  }
}
