/**
 The text side of the expression parser: tokens are read from characters by
 maximal munch, and `{name}` placeholders are replaced in the text before any
 token is read. The main result is that this textual replacement is the token
 replacement of `ExpressionSubstitution` whenever the text is an expression:
 no printed number can run into its neighbours.
 */
module ExpressionText {
  import opened Prelude
  import opened ExpressionGrammar
  import opened ExpressionSubstitution

  predicate Digit(c: char) { '0' <= c <= '9' }

  predicate WordStart(c: char) { 'a' <= c <= 'z' || 'A' <= c <= 'Z' || c == '_' }

  predicate WordChar(c: char) { WordStart(c) || Digit(c) }

  predicate Blank(c: char) { c == ' ' || c == '\t' }

  // --- Maximal runs ---

  function RunLength(s: string, p: char -> bool): (n: nat)
    ensures n <= |s|
    ensures forall i :: 0 <= i < n ==> p(s[i])
    ensures n < |s| ==> !p(s[n])
  {
    if s == [] || !p(s[0]) then 0 else 1 + RunLength(s[1..], p)
  }

  lemma RunLengthIs(s: string, p: char -> bool, n: nat)
    requires n <= |s|
    requires forall i :: 0 <= i < n ==> p(s[i])
    requires n < |s| ==> !p(s[n])
    ensures RunLength(s, p) == n
  {
  }

  // --- Number literals ---

  /** "e" or "E", an optional sign, and at least one digit; otherwise nothing. */
  function ExponentLength(s: string): (n: nat)
    ensures n <= |s|
  {
    if s == [] || (s[0] != 'e' && s[0] != 'E') then 0
    else
      var k := if |s| > 1 && (s[1] == '+' || s[1] == '-') then 2 else 1;
      var d := RunLength(s[k..], Digit);
      if d == 0 then 0 else k + d
  }

  /** Digits, optionally a point and digits, optionally an exponent. */
  function MantissaLength(s: string): (n: nat)
    ensures n <= |s|
  {
    var i := RunLength(s, Digit);
    if i < |s| && s[i] == '.' then i + 1 + RunLength(s[i + 1..], Digit) else i
  }

  function NumeralLength(s: string): (n: nat)
    ensures n <= |s|
  {
    MantissaLength(s) + ExponentLength(s[MantissaLength(s)..])
  }

  predicate StartsNumeral(s: string) {
    s != [] && (Digit(s[0]) || (s[0] == '.' && |s| > 1 && Digit(s[1])))
  }

  /** Python refuses leading zeros in integer literals, except in a zero. */
  predicate LeadingZeros(s: string) {
    |s| > 1 && s[0] == '0' && RunLength(s, Digit) == |s| && exists c :: c in s && c != '0'
  }

  predicate IsNumeral(s: string) {
    StartsNumeral(s) && NumeralLength(s) == |s| && !LeadingZeros(s)
  }

  /** A rest that cannot extend a number or a name. */
  predicate Boundary(s: string) {
    s == [] || (!WordChar(s[0]) && s[0] != '.')
  }

  lemma ExponentBeforeBoundary(s: string, n: nat, rest: string)
    requires n <= |s| && (ExponentLength(s) == n)
    requires Boundary(rest)
    ensures ExponentLength(s[..n] + rest) == n
  {
    var t := s[..n] + rest;
    if n > 0 {
      var k := if |s| > 1 && (s[1] == '+' || s[1] == '-') then 2 else 1;
      assert t[0] == s[0] && (k == 2 ==> t[1] == s[1]);
      assert t[k] == s[k];
      assert t[k..] == s[k..][..n - k] + rest;
      RunLengthIs(t[k..], Digit, n - k);
    }
  }

  lemma MantissaBeforeBoundary(s: string, n: nat, rest: string)
    requires MantissaLength(s) <= n <= |s|
    requires if n == MantissaLength(s) then Boundary(rest) else n > MantissaLength(s)
    ensures MantissaLength(s[..n] + rest) == MantissaLength(s)
  {
    var t := s[..n] + rest;
    var m := MantissaLength(s);
    var i := RunLength(s, Digit);
    RunLengthIs(t, Digit, i);
    if i < |s| && s[i] == '.' {
      var d := RunLength(s[i + 1..], Digit);
      assert t[i] == '.';
      assert t[i + 1..] == s[i + 1..n] + rest;
      assert t[i + 1..][..d] == s[i + 1..][..d];
      RunLengthIs(t[i + 1..], Digit, d);
    }
  }

  /** A number keeps its extent when what follows it is replaced by any boundary. */
  lemma NumeralBeforeBoundary(s: string, rest: string)
    requires Boundary(rest)
    ensures NumeralLength(s[..NumeralLength(s)] + rest) == NumeralLength(s)
  {
    var n, m := NumeralLength(s), MantissaLength(s);
    MantissaBeforeBoundary(s, n, rest);
    ExponentBeforeBoundary(s[m..], n - m, rest);
    DropPrefix(s, m, n, rest);
  }

  lemma DropPrefix(s: string, m: nat, n: nat, rest: string)
    requires m <= n <= |s|
    ensures (s[..n] + rest)[m..] == s[m..][..n - m] + rest
  {
  }

  // --- Tokens ---

  /** The length of a `{name}` placeholder at the start of a text, 0 if there is none. */
  function PlaceholderLength(s: string): (n: nat)
    ensures n <= |s|
    ensures n > 0 ==> n > 2 && s[0] == '{'
  {
    if s == [] || s[0] != '{' then 0
    else
      var w := RunLength(s[1..], WordChar);
      if 0 < w && 1 + w < |s| && s[1 + w] == '}' then w + 2 else 0
  }

  /** The operator or parenthesis a character stands for; `**` and `//` are other operators. */
  function OperatorAt(s: string): Option<Token>
    requires s != []
  {
    match s[0]
    case '+' => Some(Plus)
    case '-' => Some(Minus)
    case '*' => if |s| > 1 && s[1] == '*' then None else Some(Star)
    case '/' => if |s| > 1 && s[1] == '/' then None else Some(Slash)
    case '(' => Some(LParen)
    case ')' => Some(RParen)
    case _ => None
  }

  function NumberToken(s: string): (r: Option<(Token, nat)>)
    requires StartsNumeral(s)
    ensures r.Some? ==> r.value.0.Num? && 0 < r.value.1 == NumeralLength(s)
  {
    var n := NumeralLength(s);
    NumeralNonEmpty(s);
    if LeadingZeros(s[..n]) then None else Some((Num(s[..n]), n))
  }

  function WordToken(s: string): (r: (Token, nat))
    requires s != [] && WordStart(s[0])
    ensures r.0.Name? && 0 < r.1 == RunLength(s, WordChar)
  {
    (Name(s[..RunLength(s, WordChar)]), RunLength(s, WordChar))
  }

  function PlaceholderToken(s: string): (r: (Token, nat))
    requires PlaceholderLength(s) > 0
    ensures r.0.Var? && r.1 == PlaceholderLength(s)
  {
    (Var(s[1..PlaceholderLength(s) - 1]), PlaceholderLength(s))
  }

  function NextToken(s: string): (r: Option<(Token, nat)>)
    requires s != []
    ensures r.Some? ==> 0 < r.value.1 <= |s|
  {
    if StartsNumeral(s) then NumberToken(s)
    else if WordStart(s[0]) then Some(WordToken(s))
    else if PlaceholderLength(s) > 0 then Some(PlaceholderToken(s))
    else
      var t :- OperatorAt(s);
      Some((t, 1))
  }

  lemma NumeralNonEmpty(s: string)
    requires StartsNumeral(s)
    ensures NumeralLength(s) > 0
  {
    if s[0] == '.' {
      assert s[1..][0] == s[1];
    }
  }

  function Lex(s: string): Option<seq<Token>>
    decreases |s|
  {
    if s == [] then Some([])
    else if Blank(s[0]) then Lex(s[1..])
    else
      var (t, n) :- NextToken(s);
      var rest :- Lex(s[n..]);
      Some([t] + rest)
  }

  /** `ast.parse` refuses an indented first line. */
  function Tokenize(text: string): Option<seq<Token>> {
    if text != [] && Blank(text[0]) then None else Lex(text)
  }

  // --- Textual substitution ---

  /** `_VAR_PATTERN.sub`: every placeholder, left to right, becomes its printed value. */
  function SubstituteText(s: string, show: Show): string
    decreases |s|
  {
    var n := PlaceholderLength(s);
    if s == [] then []
    else if n > 0 then show(s[1..n - 1]).Text() + SubstituteText(s[n..], show)
    else [s[0]] + SubstituteText(s[1..], show)
  }

  /** What Python guarantees of a printed float. */
  ghost predicate WellPrinted(p: Printed) {
    if p.finite then IsNumeral(p.body) else p.body == "inf" || p.body == "nan"
  }

  ghost predicate AllWellPrinted(show: Show) {
    forall name :: WellPrinted(show(name))
  }

  ghost predicate Spaced(ts: seq<Token>) {
    forall i :: 0 <= i < |ts| - 1 ==> !(ts[i].Atom() && ts[i + 1].Atom())
  }

  /** What may follow a number, name or placeholder directly. */
  predicate TextBoundary(s: string) {
    Boundary(s) && (s == [] || s[0] != '{')
  }

  /** No number, name or placeholder touches another one. */
  predicate Separated(s: string)
    decreases |s|
  {
    if s == [] then true
    else if Blank(s[0]) then Separated(s[1..])
    else
      match NextToken(s)
      case None => true
      case Some((t, n)) => (t.Atom() ==> TextBoundary(s[n..])) && Separated(s[n..])
  }

  lemma BodyIsToken(p: Printed, rest: string)
    requires WellPrinted(p) && Boundary(rest)
    ensures p.body != []
    ensures NextToken(p.body + rest) == Some((p.BodyToken(), |p.body|))
    ensures !Blank((p.body + rest)[0])
  {
    var s := p.body + rest;
    if p.finite {
      NumeralNonEmpty(p.body);
      assert p.body[..|p.body|] == p.body;
      NumeralBeforeBoundary(p.body, rest);
      assert s[..|p.body|] == p.body;
      assert StartsNumeral(s);
    } else {
      RunLengthIs(s, WordChar, 3);
      assert s[..3] == p.body;
    }
  }

  lemma BodyIsRead(p: Printed, rest: string)
    requires WellPrinted(p) && Boundary(rest) && Lex(rest).Some?
    ensures Lex(p.body + rest) == Some([p.BodyToken()] + Lex(rest).value)
  {
    BodyIsToken(p, rest);
    assert (p.body + rest)[|p.body|..] == rest;
  }

  lemma SignIsRead(s: string)
    requires Lex(s).Some?
    ensures Lex("-" + s) == Some([Minus] + Lex(s).value)
  {
    assert ("-" + s)[1..] == s;
    assert NextToken("-" + s) == Some((Minus, 1));
  }

  lemma PrintedIsTokens(p: Printed, rest: string, tail: seq<Token>)
    requires WellPrinted(p) && Boundary(rest) && Lex(rest) == Some(tail)
    ensures Lex(p.Text() + rest) == Some(p.Tokens() + tail)
  {
    BodyIsRead(p, rest);
    if p.negative {
      SignIsRead(p.body + rest);
      assert p.Text() + rest == "-" + (p.body + rest);
      SignThenBody(p.BodyToken(), tail);
    }
  }

  lemma SignThenBody(body: Token, tail: seq<Token>)
    ensures [Minus] + ([body] + tail) == [Minus, body] + tail
  {
  }

  /** A text without a brace is copied. */
  lemma {:induction false} SubstituteCopies(s: string, n: nat, show: Show)
    requires n <= |s| && forall i :: 0 <= i < n ==> s[i] != '{'
    ensures SubstituteText(s, show) == s[..n] + SubstituteText(s[n..], show)
  {
    if n > 0 {
      SubstituteCopies(s[1..], n - 1, show);
      Recombine(s, n, SubstituteText(s[n..], show));
      assert s[1..][n - 1..] == s[n..];
    } else {
      assert s[0..] == s;
    }
  }

  lemma Recombine(s: string, n: nat, rest: string)
    requires 0 < n <= |s|
    ensures [s[0]] + (s[1..][..n - 1] + rest) == s[..n] + rest
  {
  }

  lemma BoundaryKept(s: string, show: Show)
    requires TextBoundary(s)
    ensures Boundary(SubstituteText(s, show))
  {
    if s != [] {
      assert PlaceholderLength(s) == 0;
      assert SubstituteText(s, show)[0] == s[0];
    }
  }

  lemma LexUnfold(s: string) returns (t: Token, n: nat, tail: seq<Token>)
    requires s != [] && !Blank(s[0]) && Lex(s).Some?
    ensures NextToken(s) == Some((t, n)) && 0 < n <= |s|
    ensures Lex(s[n..]) == Some(tail) && Lex(s) == Some([t] + tail)
  {
    t, n := NextToken(s).value.0, NextToken(s).value.1;
    tail := Lex(s[n..]).value;
  }

  lemma SpacedTail(t: Token, tail: seq<Token>)
    requires Spaced([t] + tail)
    ensures Spaced(tail)
    ensures t.Atom() ==> tail == [] || !tail[0].Atom()
  {
    var ts := [t] + tail;
    forall i | 0 <= i < |tail| - 1
      ensures !(tail[i].Atom() && tail[i + 1].Atom())
    {
      assert !(ts[i + 1].Atom() && ts[i + 1 + 1].Atom());
    }
    if tail != [] {
      assert !(ts[0].Atom() && ts[0 + 1].Atom());
    }
  }

  /** A text whose next token is no atom starts with a boundary. */
  lemma NoAtomNext(s: string)
    requires Lex(s).Some? && (Lex(s).value == [] || !Lex(s).value[0].Atom())
    ensures TextBoundary(s)
  {
    if s != [] && !Blank(s[0]) {
      var t, n, tail := LexUnfold(s);
      assert OperatorAt(s).Some?;
    }
  }

  lemma {:induction false} SpacedIsSeparated(s: string)
    requires Lex(s).Some? && Spaced(Lex(s).value)
    ensures Separated(s)
    decreases |s|
  {
    if s == [] {
    } else if Blank(s[0]) {
      SpacedIsSeparated(s[1..]);
    } else {
      var t, n, tail := LexUnfold(s);
      SpacedTail(t, tail);
      SpacedIsSeparated(s[n..]);
      if t.Atom() {
        NoAtomNext(s[n..]);
      }
    }
  }

  lemma MantissaHasNoBrace(s: string)
    ensures forall i :: 0 <= i < MantissaLength(s) ==> s[i] != '{'
  {
    var d := RunLength(s, Digit);
    if d < |s| && s[d] == '.' {
      forall i | d < i < MantissaLength(s)
        ensures s[i] != '{'
      {
        assert s[i] == s[d + 1..][i - d - 1];
      }
    }
  }

  lemma ExponentHasNoBrace(s: string)
    ensures forall i :: 0 <= i < ExponentLength(s) ==> s[i] != '{'
  {
    if ExponentLength(s) > 0 {
      var k := if |s| > 1 && (s[1] == '+' || s[1] == '-') then 2 else 1;
      forall i | k <= i < ExponentLength(s)
        ensures s[i] != '{'
      {
        assert s[i] == s[k..][i - k];
      }
    }
  }

  lemma NumeralHasNoBrace(s: string)
    ensures forall i :: 0 <= i < NumeralLength(s) ==> s[i] != '{'
  {
    var m := MantissaLength(s);
    MantissaHasNoBrace(s);
    ExponentHasNoBrace(s[m..]);
    forall i | m <= i < NumeralLength(s)
      ensures s[i] != '{'
    {
      assert s[i] == s[m..][i - m];
    }
  }

  /** A number keeps its extent under substitution of what follows. */
  lemma NumberStands(s: string, rest: string)
    requires StartsNumeral(s) && Boundary(rest)
    ensures NextToken(s[..NumeralLength(s)] + rest) == NumberToken(s)
  {
    var n := NumeralLength(s);
    var out := s[..n] + rest;
    NumeralBeforeBoundary(s, rest);
    NumeralNonEmpty(s);
    StartKept(s, rest);
    assert out[..n] == s[..n];
  }

  lemma StartKept(s: string, rest: string)
    requires StartsNumeral(s)
    ensures StartsNumeral(s[..NumeralLength(s)] + rest)
  {
    NumeralNonEmpty(s);
    if s[0] == '.' {
      assert s[1..][0] == s[1];
    }
  }

  lemma WordStands(s: string, rest: string)
    requires s != [] && WordStart(s[0]) && Boundary(rest)
    ensures NextToken(s[..RunLength(s, WordChar)] + rest) == Some(WordToken(s))
  {
    var n := RunLength(s, WordChar);
    var out := s[..n] + rest;
    RunLengthIs(out, WordChar, n);
    assert out[..n] == s[..n];
    assert out[0] == s[0];
  }

  /** Substitution never puts an operator character where there was none. */
  lemma FirstCharacter(s: string, show: Show)
    requires s != [] && AllWellPrinted(show)
    ensures var out := SubstituteText(s, show);
      out != [] && (out[0] == s[0] || (s[0] == '{' && out[0] != '*' && out[0] != '/'))
  {
    var n := PlaceholderLength(s);
    if n > 0 {
      var p := show(s[1..n - 1]);
      assert WellPrinted(p);
      if p.finite {
        NumeralNonEmpty(p.body);
      }
      assert SubstituteText(s, show)[0] == p.Text()[0];
    }
  }

  /** A text whose head is an operator starts nothing else. */
  lemma OperatorHead(s: string)
    requires s != [] && NextToken(s).Some? && !NextToken(s).value.0.Atom()
    ensures OperatorAt(s).Some? && NextToken(s) == Some((OperatorAt(s).value, 1))
    ensures s[0] in "+-*/()"
  {
  }

  lemma OperatorFirst(s: string)
    requires s != [] && s[0] in "+-*/()"
    ensures NextToken(s) == if OperatorAt(s).Some? then Some((OperatorAt(s).value, 1)) else None
  {
  }

  lemma OperatorStands(s: string, rest: string)
    requires s != [] && NextToken(s).Some? && !NextToken(s).value.0.Atom()
    requires rest != [] && (rest[0] == '*' || rest[0] == '/') ==> |s| > 1 && s[1] == rest[0]
    ensures NextToken([s[0]] + rest) == NextToken(s)
  {
    var out := [s[0]] + rest;
    OperatorHead(s);
    OperatorFirst(out);
    assert |out| > 1 ==> out[1] == rest[0];
    assert OperatorAt(out) == OperatorAt(s);
  }

  /** An operator is still read as itself: no printed value starts with `*` or `/`. */
  lemma OperatorCopied(s: string, show: Show)
    requires s != [] && NextToken(s).Some? && !NextToken(s).value.0.Atom()
    requires AllWellPrinted(show)
    ensures SubstituteText(s, show) == [s[0]] + SubstituteText(s[1..], show)
    ensures NextToken([s[0]] + SubstituteText(s[1..], show)) == NextToken(s)
  {
    assert PlaceholderLength(s) == 0;
    if |s| > 1 {
      FirstCharacter(s[1..], show);
    }
    OperatorStands(s, SubstituteText(s[1..], show));
  }

  lemma LexStep(out: string, t: Token, n: nat, tail: seq<Token>)
    requires out != [] && !Blank(out[0]) && NextToken(out) == Some((t, n))
    requires Lex(out[n..]) == Some(tail)
    ensures Lex(out) == Some([t] + tail)
  {
  }

  lemma SubstitutedVar(s: string, show: Show, tail: seq<Token>)
    requires PlaceholderLength(s) > 0 && AllWellPrinted(show)
    requires Boundary(SubstituteText(s[PlaceholderLength(s)..], show))
    requires Lex(SubstituteText(s[PlaceholderLength(s)..], show)) == Some(tail)
    ensures Lex(SubstituteText(s, show)) == Some(show(PlaceholderToken(s).0.name).Tokens() + tail)
  {
    var n := PlaceholderLength(s);
    PrintedIsTokens(show(s[1..n - 1]), SubstituteText(s[n..], show), tail);
  }

  lemma SubstitutedNumber(s: string, show: Show, tail: seq<Token>)
    requires StartsNumeral(s) && NumberToken(s).Some?
    requires Boundary(SubstituteText(s[NumeralLength(s)..], show))
    requires Lex(SubstituteText(s[NumeralLength(s)..], show)) == Some(tail)
    ensures Lex(SubstituteText(s, show)) == Some([NumberToken(s).value.0] + tail)
  {
    var n := NumeralLength(s);
    var rest := SubstituteText(s[n..], show);
    NumeralHasNoBrace(s);
    SubstituteCopies(s, n, show);
    NumberStands(s, rest);
    var out := s[..n] + rest;
    assert out[n..] == rest && out[0] == s[0];
    LexStep(out, NumberToken(s).value.0, n, tail);
  }

  lemma SubstitutedWord(s: string, show: Show, tail: seq<Token>)
    requires s != [] && WordStart(s[0])
    requires Boundary(SubstituteText(s[RunLength(s, WordChar)..], show))
    requires Lex(SubstituteText(s[RunLength(s, WordChar)..], show)) == Some(tail)
    ensures Lex(SubstituteText(s, show)) == Some([WordToken(s).0] + tail)
  {
    var n := RunLength(s, WordChar);
    var rest := SubstituteText(s[n..], show);
    SubstituteCopies(s, n, show);
    WordStands(s, rest);
    var out := s[..n] + rest;
    assert out[n..] == rest && out[0] == s[0];
    LexStep(out, WordToken(s).0, n, tail);
  }

  lemma SubstitutedOperator(s: string, show: Show, t: Token, n: nat, tail: seq<Token>)
    requires s != [] && !Blank(s[0]) && NextToken(s) == Some((t, n)) && !t.Atom() && AllWellPrinted(show)
    requires Lex(SubstituteText(s[n..], show)) == Some(tail)
    ensures Lex(SubstituteText(s, show)) == Some([t] + tail)
  {
    OperatorCopied(s, show);
    assert n == 1 && s[..1] == [s[0]];
    var rest := SubstituteText(s[1..], show);
    assert ([s[0]] + rest)[1..] == rest;
    LexStep([s[0]] + rest, t, 1, tail);
  }

  /** Which reader produced a token. */
  lemma TokenKinds(s: string, t: Token, n: nat)
    requires s != [] && NextToken(s) == Some((t, n))
    ensures t.Num? ==> StartsNumeral(s) && NumberToken(s) == Some((t, n))
    ensures t.Name? ==> WordStart(s[0]) && WordToken(s) == (t, n)
    ensures t.Var? ==> PlaceholderLength(s) > 0 && PlaceholderToken(s) == (t, n)
  {
  }

  lemma SubstitutedToken(s: string, show: Show, t: Token, n: nat, tail: seq<Token>)
    requires s != [] && !Blank(s[0]) && NextToken(s) == Some((t, n)) && AllWellPrinted(show)
    requires t.Atom() ==> Boundary(SubstituteText(s[n..], show))
    requires Lex(SubstituteText(s[n..], show)) == Some(tail)
    ensures Lex(SubstituteText(s, show)) == Some(TokenTokens(t, show) + tail)
  {
    TokenKinds(s, t, n);
    match t
    case Num(_) => SubstitutedNumber(s, show, tail);
    case Name(_) => SubstitutedWord(s, show, tail);
    case Var(_) => SubstitutedVar(s, show, tail);
    case _ => SubstitutedOperator(s, show, t, n, tail);
  }

  /** Reading tokens after replacing text is replacing tokens. */
  lemma {:induction false} LexSubstituted(s: string, show: Show)
    requires Lex(s).Some? && Separated(s) && AllWellPrinted(show)
    ensures Lex(SubstituteText(s, show)) == Some(SubstituteTokens(Lex(s).value, show))
    decreases |s|
  {
    if s == [] {
    } else if Blank(s[0]) {
      LexSubstituted(s[1..], show);
      assert SubstituteText(s, show)[1..] == SubstituteText(s[1..], show);
    } else {
      var t, n, tail := LexUnfold(s);
      LexSubstituted(s[n..], show);
      if t.Atom() {
        BoundaryKept(s[n..], show);
      }
      SubstitutedToken(s, show, t, n, SubstituteTokens(tail, show));
      assert ([t] + tail)[1..] == tail;
    }
  }

  /** Well-formed expressions have no two atoms side by side. */
  lemma ParsedIsSpaced(ts: seq<Token>)
    requires Parse(ts).Some?
    ensures Spaced(ts)
  {
    ParserDecidesGrammar(ts, Parse(ts).value);
    forall i | 0 <= i < |ts| - 1 && ts[i].Atom()
      ensures !ts[i + 1].Atom()
    {
      NoAdjacentOperands(ts, Parse(ts).value, i);
    }
  }

  lemma TokenizeSubstituted(text: string, show: Show)
    requires Tokenize(text).Some? && Separated(text) && AllWellPrinted(show)
    ensures Tokenize(SubstituteText(text, show)) == Some(SubstituteTokens(Tokenize(text).value, show))
  {
    LexSubstituted(text, show);
    if text != [] {
      var n := PlaceholderLength(text);
      if n > 0 {
        var p := show(text[1..n - 1]);
        BodyIsToken(p, []);
        assert p.body + [] == p.body;
        assert SubstituteText(text, show)[0] == p.Text()[0];
      } else {
        assert SubstituteText(text, show)[0] == text[0];
      }
    }
  }

  /** The text is read at all, and read as an expression whose operands may be placeholders. */
  ghost predicate WellFormed(text: string) {
    Tokenize(text).Some? && Parse(Tokenize(text).value).Some?
  }

  /**
   Exactly when a text is an expression with placeholders as operands: it is read at
   all, the substituted text is an expression, no operand touched another one, and no
   negative value stood directly behind an operand.
   */
  lemma TextWellFormedExactly(text: string, show: Show)
    requires AllWellPrinted(show)
    ensures WellFormed(text)
       <==> && Tokenize(text).Some? && Separated(text)
            && !SignClash(Tokenize(text).value, show)
            && WellFormed(SubstituteText(text, show))
  {
    if Tokenize(text).Some? {
      var ts := Tokenize(text).value;
      if Parse(ts).Some? {
        ParsedIsSpaced(ts);
        SpacedIsSeparated(text);
      }
      if Separated(text) {
        TokenizeSubstituted(text, show);
        WellFormedExactly(ts, show);
      }
    }
  }
}
