/** Balanced text as a grammar: what the parenthesis scanners accept. */
module BalancedText {
  import opened Text
  import opened Brackets

  /** Text without an unmatched close: plain characters, backslash pairs, string
      literals and parenthesized groups. */
  datatype Forest =
    | Nil
    | Plain(c: char, rest: Forest)
    | Escape(c: char, rest: Forest)
    | Quoted(delim: char, body: string, rest: Forest)
    | Group(inner: Forest, rest: Forest)

  /** The inside of a string literal: no unescaped delimiter, no dangling backslash. */
  predicate QuotedBody(delim: char, body: string) {
    if body == [] then true
    else if body[0] == '\\' then |body| >= 2 && QuotedBody(delim, body[2..])
    else body[0] != delim && QuotedBody(delim, body[1..])
  }

  predicate WellFormed(f: Forest) {
    match f
    case Nil => true
    case Plain(c, rest) => Inert(c) && WellFormed(rest)
    case Escape(_, rest) => WellFormed(rest)
    case Quoted(delim, body, rest) => IsQuote(delim) && QuotedBody(delim, body) && WellFormed(rest)
    case Group(inner, rest) => WellFormed(inner) && WellFormed(rest)
  }

  function Render(f: Forest): string {
    match f
    case Nil => ""
    case Plain(c, rest) => [c] + Render(rest)
    case Escape(c, rest) => ['\\', c] + Render(rest)
    case Quoted(delim, body, rest) => [delim] + body + [delim] + Render(rest)
    case Group(inner, rest) => "(" + Render(inner) + ")" + Render(rest)
  }

  lemma {:induction false} RunQuotedBody(delim: char, body: string, d: int)
    requires IsQuote(delim) && QuotedBody(delim, body)
    ensures Run(Lex(Some(delim), false, d), body) == Lex(Some(delim), false, d)
    ensures FirstClose(Lex(Some(delim), false, d), body) < 0
  {
    if body != [] {
      var l := Lex(Some(delim), false, d);
      if body[0] == '\\' {
        RunQuotedBody(delim, body[2..], d);
        assert body[1..][1..] == body[2..];
        assert Step(Step(l, body[0]), body[1]) == l;
        assert Run(l, body) == Run(Step(l, body[0]), body[1..]);
      } else {
        RunQuotedBody(delim, body[1..], d);
      }
    }
  }

  lemma RunOne(l: Lex, c: char)
    ensures Run(l, [c]) == Step(l, c)
    ensures FirstClose(l, [c]) == if Closes(l, c) then 0 else -1
  {
    assert [c][1..] == [];
  }

  lemma SeqConcat(l: Lex, a: string, b: string)
    requires FirstClose(l, a) < 0 && FirstClose(Run(l, a), b) < 0
    ensures FirstClose(l, a + b) < 0 && Run(l, a + b) == Run(Run(l, a), b)
  {
    FirstCloseConcat(l, a, b);
    RunConcat(l, a, b);
  }

  /** Reading `s` neither closes the parenthesis nor changes the state. */
  predicate Neutral(l: Lex, s: string) {
    Run(l, s) == l && FirstClose(l, s) < 0
  }

  lemma NeutralConcat(l: Lex, a: string, b: string)
    requires Neutral(l, a) && Neutral(l, b)
    ensures Neutral(l, a + b)
  {
    SeqConcat(l, a, b);
  }

  /** Reading `a`, then `s` in state `m`, then `b`, ends where it began. */
  lemma NeutralAround(l: Lex, a: char, m: Lex, s: string, b: char)
    requires Step(l, a) == m && !Closes(l, a) && Neutral(m, s) && Step(m, b) == l && !Closes(m, b)
    ensures Neutral(l, [a] + s + [b])
  {
    RunOne(l, a);
    SeqConcat(l, [a], s);
    RunOne(m, b);
    SeqConcat(l, [a] + s, [b]);
  }

  /** Scanning a balanced text changes nothing and closes nothing. */
  lemma {:induction false} RunForest(f: Forest, d: int)
    requires WellFormed(f) && d >= 1
    ensures Neutral(Lex(None, false, d), Render(f))
  {
    var l: Lex := Lex(None, false, d);
    match f
    case Nil =>
    case Plain(c, rest) =>
      RunForest(rest, d);
      RunOne(l, c);
      NeutralConcat(l, [c], Render(rest));
    case Escape(c, rest) =>
      RunForest(rest, d);
      NeutralAround(l, '\\', Step(l, '\\'), [], c);
      assert ['\\'] + [] + [c] == ['\\', c];
      NeutralConcat(l, ['\\', c], Render(rest));
    case Quoted(delim, body, rest) =>
      RunForest(rest, d);
      RunQuotedBody(delim, body, d);
      NeutralAround(l, delim, Lex(Some(delim), false, d), body, delim);
      NeutralConcat(l, [delim] + body + [delim], Render(rest));
    case Group(inner, rest) =>
      RunForest(inner, d + 1);
      RunForest(rest, d);
      NeutralAround(l, '(', Lex(None, false, d + 1), Render(inner), ')');
      NeutralConcat(l, "(" + Render(inner) + ")", Render(rest));
  }

  /** Inside a string literal, the literal ends before the close is found. */
  lemma {:induction false} QuoteEnds(delim: char, s: string, d: int) returns (m: nat)
    requires IsQuote(delim) && d >= 1 && FirstClose(Lex(Some(delim), false, d), s) >= 0
    ensures m < |s| && s[m] == delim && QuotedBody(delim, s[..m])
  {
    var l := Lex(Some(delim), false, d);
    if s[0] == delim {
      m := 0;
    } else if s[0] == '\\' {
      assert FirstClose(Step(l, s[0]), s[1..]) >= 0;
      assert Step(Step(l, s[0]), s[1]) == l && s[1..][1..] == s[2..];
      var m' := QuoteEnds(delim, s[2..], d);
      m := m' + 2;
      assert s[..m][2..] == s[2..][..m'];
    } else {
      var m' := QuoteEnds(delim, s[1..], d);
      m := m' + 1;
      assert s[..m][1..] == s[1..][..m'];
    }
  }

  /** The first piece of a text whose scan closes later. */
  lemma FirstPiece(s: string, d: int) returns (f: Forest, n: nat)
    requires d >= 1 && FirstClose(Lex(None, false, d), s) >= 0 && s[0] != ')' && s[0] != '('
    ensures 0 < n <= |s| && WellFormed(f) && Render(f) == s[..n]
  {
    var c := s[0];
    if c == '\\' {
      assert FirstClose(Step(Lex(None, false, d), c), s[1..]) >= 0;
      f, n := Escape(s[1], Nil), 2;
    } else if IsQuote(c) {
      var m := QuoteEnds(c, s[1..], d);
      var body := s[1..][..m];
      assert s[..m + 2] == [c] + body + [c];
      f, n := Quoted(c, body, Nil), m + 2;
    } else {
      f, n := Plain(c, Nil), 1;
    }
  }

  /** `f` with `g` behind it. */
  function Append(f: Forest, g: Forest): (r: Forest)
    ensures Render(r) == Render(f) + Render(g)
    ensures WellFormed(f) && WellFormed(g) ==> WellFormed(r)
  {
    match f
    case Nil => g
    case Plain(c, rest) => Plain(c, Append(rest, g))
    case Escape(c, rest) => Escape(c, Append(rest, g))
    case Quoted(delim, body, rest) => Quoted(delim, body, Append(rest, g))
    case Group(inner, rest) => Group(inner, Append(rest, g))
  }

  /** Up to the first unmatched close, any text the scanner accepts parses. */
  lemma {:induction false} Parse(s: string, d: int) returns (f: Forest, k: nat)
    requires d >= 1 && FirstClose(Lex(None, false, d), s) >= 0
    ensures WellFormed(f) && k < |s| && s[k] == ')' && Render(f) == s[..k]
    decreases |s|, 1
  {
    if s[0] == ')' {
      f, k := Nil, 0;
    } else {
      var first, n := ParseFirst(s, d);
      ParseRest(s, d, first, n);
      var rest, m := Parse(s[n..], d);
      f, k := Append(first, rest), n + m;
      assert s[..k] == s[..n] + s[n..][..m];
    }
  }

  lemma {:induction false} ParseFirst(s: string, d: int) returns (f: Forest, n: nat)
    requires d >= 1 && FirstClose(Lex(None, false, d), s) >= 0 && s[0] != ')'
    ensures 0 < n <= |s| && WellFormed(f) && Render(f) == s[..n]
    decreases |s|, 0
  {
    if s[0] == '(' {
      assert FirstClose(Lex(None, false, d + 1), s[1..]) >= 0;
      var inner, m := Parse(s[1..], d + 1);
      assert s[1..][..m] == s[1..m + 1];
      f, n := Group(inner, Nil), m + 2;
    } else {
      f, n := FirstPiece(s, d);
    }
  }

  /** After a balanced prefix the scan goes on in the same state. */
  lemma ParseRest(s: string, d: int, f: Forest, n: nat)
    requires d >= 1 && n <= |s| && WellFormed(f) && Render(f) == s[..n]
    requires FirstClose(Lex(None, false, d), s) >= 0
    ensures FirstClose(Lex(None, false, d), s[n..]) == FirstClose(Lex(None, false, d), s) - n >= 0
  {
    RunForest(f, d);
    FirstCloseConcat(Lex(None, false, d), s[..n], s[n..]);
    assert s == s[..n] + s[n..];
  }

  /** The scanners find position `q` exactly when the text before `q` is a
      balanced forest and a close parenthesis stands at `q`. */
  lemma CloseIffBalanced(s: string, q: nat)
    ensures FirstClose(START, s) == q <==>
              q < |s| && s[q] == ')' && exists f :: WellFormed(f) && Render(f) == s[..q]
  {
    if FirstClose(START, s) == q {
      var f, k := Parse(s, 1);
      ForestThenClose(s, f, k);
    }
    if q < |s| && s[q] == ')' && exists f :: WellFormed(f) && Render(f) == s[..q] {
      var f :| WellFormed(f) && Render(f) == s[..q];
      ForestThenClose(s, f, q);
    }
  }

  lemma ForestThenClose(s: string, f: Forest, q: nat)
    requires q < |s| && s[q] == ')' && WellFormed(f) && Render(f) == s[..q]
    ensures FirstClose(START, s) == q
  {
    RunForest(f, 1);
    FirstCloseConcat(START, s[..q], s[q..]);
    assert s == s[..q] + s[q..];
    assert FirstClose(START, s[q..]) == 0;
  }

  lemma {:induction false} NoDelimiterIsBody(delim: char, s: string)
    requires forall k | 0 <= k < |s| :: s[k] != delim && s[k] != '\\'
    ensures QuotedBody(delim, s)
  {
    if s != [] { NoDelimiterIsBody(delim, s[1..]); }
  }

  /** A parenthesis between two quotes of either kind is passed over. */
  lemma QuotesHide(body: string, q: char)
    requires q == '"' || q == '\''
    requires forall k | 0 <= k < |body| :: body[k] != q && body[k] != '\\'
    ensures FirstClose(START, [q] + body + [q] + ")") == |body| + 2
  {
    NoDelimiterIsBody(q, body);
    hide FirstClose, QuotedBody;
    var f, s := Quoted(q, body, Nil), [q] + body + [q] + ")";
    assert Render(f) == [q] + body + [q] + "" && s[..|body| + 2] == [q] + body + [q];
    ForestThenClose(s, f, |body| + 2);
  }

  /** A quote or parenthesis behind a backslash is passed over. */
  lemma BackslashHides(c: char)
    ensures FirstClose(START, ['\\', c, ')']) == 2
  {
    hide FirstClose;
    var s, f := ['\\', c, ')'], Escape(c, Nil);
    assert Render(f) == ['\\', c] + "" && s[..2] == ['\\', c];
    ForestThenClose(s, f, 2);
  }
}
