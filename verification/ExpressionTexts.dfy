/**
 Expressions written down as text and read back. Every tree has a text that parses
 to just that tree, so what `parse_and_evaluate` makes of a text can be said
 operator by operator.
 */
module ExpressionTexts {
  import opened Prelude
  import opened ExpressionGrammar
  import opened ExpressionSubstitution
  import opened ExpressionText
  import opened ExpressionParser

  // --- Writing a tree down ---

  predicate IsVariableName(s: string) {
    s != [] && forall i :: 0 <= i < |s| ==>
      'a' <= s[i] <= 'z' || 'A' <= s[i] <= 'Z' || '0' <= s[i] <= '9' || s[i] == '_'
  }

  predicate IsWord(s: string) {
    IsVariableName(s) && !('0' <= s[0] <= '9')
  }

  /** The leaves can be written as a number, a name or a placeholder. */
  predicate Writable(e: Expr) {
    match e
    case Lit(text) => IsNumeral(text)
    case NameRef(text) => IsWord(text)
    case VarRef(name) => IsVariableName(name)
    case Unary(_, operand) => Writable(operand)
    case Bin(_, left, right) => Writable(left) && Writable(right)
  }

  function Symbol(op: Op): char {
    match op
    case Add => '+'
    case Sub => '-'
    case Mul => '*'
    case Div => '/'
  }

  function SymbolToken(op: Op): Token {
    match op
    case Add => Plus
    case Sub => Minus
    case Mul => Star
    case Div => Slash
  }

  /** Binary expressions in parentheses, with a blank on each side of the operator. */
  function TextOf(e: Expr): string {
    match e
    case Lit(text) => text
    case NameRef(text) => text
    case VarRef(name) => ['{'] + name + ['}']
    case Unary(negate, operand) => [if negate then '-' else '+'] + TextOf(operand)
    case Bin(op, left, right) => ['('] + Joined(TextOf(left), op, TextOf(right)) + [')']
  }

  function Joined(left: string, op: Op, right: string): string {
    left + [' ', Symbol(op), ' '] + right
  }

  function TokensOf(e: Expr): seq<Token> {
    match e
    case Lit(text) => [Num(text)]
    case NameRef(text) => [Name(text)]
    case VarRef(name) => [Var(name)]
    case Unary(negate, operand) => [if negate then Minus else Plus] + TokensOf(operand)
    case Bin(op, left, right) => [LParen] + (TokensOf(left) + [SymbolToken(op)] + TokensOf(right)) + [RParen]
  }

  // --- Reading the text ---

  /** The text reads as the tokens, whatever boundary follows it. */
  ghost predicate Reads(text: string, ts: seq<Token>) {
    forall rest: string, tail: seq<Token> ::
      Boundary(rest) && Lex(rest) == Some(tail) ==> Lex(text + rest) == Some(ts + tail)
  }

  lemma ReadsOne(text: string, t: Token)
    requires text != [] && !Blank(text[0])
    requires forall rest: string :: Boundary(rest) ==> NextToken(text + rest) == Some((t, |text|))
    ensures Reads(text, [t])
  {
    forall rest: string, tail: seq<Token> | Boundary(rest) && Lex(rest) == Some(tail)
      ensures Lex(text + rest) == Some([t] + tail)
    {
      assert (text + rest)[|text|..] == rest && (text + rest)[0] == text[0];
      LexStep(text + rest, t, |text|, tail);
    }
  }

  lemma NumeralReads(text: string)
    requires IsNumeral(text)
    ensures text != [] && !Blank(text[0]) && Reads(text, [Num(text)])
  {
    var p := Printed(false, true, text);
    BodyIsToken(p, "");
    assert text + "" == text;
    forall rest: string | Boundary(rest)
      ensures NextToken(text + rest) == Some((Num(text), |text|))
    {
      BodyIsToken(p, rest);
    }
    ReadsOne(text, Num(text));
  }

  lemma WordReads(text: string)
    requires IsWord(text)
    ensures Reads(text, [Name(text)])
  {
    RunLengthIs(text, WordChar, |text|);
    assert text[..|text|] == text;
    forall rest: string | Boundary(rest)
      ensures NextToken(text + rest) == Some((Name(text), |text|))
    {
      WordStands(text, rest);
    }
    ReadsOne(text, Name(text));
  }

  lemma PlaceholderReads(name: string)
    requires IsVariableName(name)
    ensures Reads(['{'] + name + ['}'], [Var(name)])
  {
    var text := ['{'] + name + ['}'];
    forall rest: string | Boundary(rest)
      ensures NextToken(text + rest) == Some((Var(name), |text|))
    {
      var s := text + rest;
      assert s[1..] == name + (['}'] + rest);
      RunLengthIs(s[1..], WordChar, |name|);
      assert s[1..|name| + 1] == name;
    }
    ReadsOne(text, Var(name));
  }

  /** A sign or an opening parenthesis, before anything. */
  lemma OpensRead(c: char, t: Token, s: string, tail: seq<Token>)
    requires (c, t) == ('+', Plus) || (c, t) == ('-', Minus) || (c, t) == ('(', LParen)
    requires Lex(s) == Some(tail)
    ensures Lex([c] + s) == Some([t] + tail)
  {
    assert ([c] + s)[1..] == s;
    assert NextToken([c] + s) == Some((t, 1));
  }

  lemma ClosesRead(s: string, tail: seq<Token>)
    requires Lex(s) == Some(tail)
    ensures Lex([')'] + s) == Some([RParen] + tail)
  {
    assert ([')'] + s)[1..] == s;
    assert NextToken([')'] + s) == Some((RParen, 1));
  }

  /** Blanks and tabs between tokens are skipped. */
  lemma BlankReads(s: string)
    ensures Lex([' '] + s) == Lex(s) && Lex(['\t'] + s) == Lex(s)
  {
    assert ([' '] + s)[1..] == s && (['\t'] + s)[1..] == s;
  }

  /** But not at the head of the text, which Python takes for an indented line. */
  lemma LeadingBlankRefused<F(!new)>(fl: Floats<F>, text: string, variables: map<string, F>)
    requires text != [] && (text[0] == ' ' || text[0] == '\t') && !IsBlankText(text)
    ensures ParseAndEvaluate(fl, text, variables) == Err(SyntaxError)
  {
    assert SubstituteText(text, ShowVariables(fl, variables))[0] == text[0];
  }

  lemma SymbolReads(op: Op, s: string, tail: seq<Token>)
    requires s != [] && s[0] == ' ' && Lex(s) == Some(tail)
    ensures Lex([Symbol(op)] + s) == Some([SymbolToken(op)] + tail)
  {
    var at := [Symbol(op)] + s;
    assert at[1..] == s && at[1] == ' ';
    OperatorFirst(at);
    LexStep(at, SymbolToken(op), 1, tail);
  }

  lemma OperatorReads(op: Op, s: string, tail: seq<Token>)
    requires Lex(s) == Some(tail)
    ensures Lex([' ', Symbol(op), ' '] + s) == Some([SymbolToken(op)] + tail)
  {
    var spaced := [' '] + s;
    BlankReads(s);
    SymbolReads(op, spaced, tail);
    BlankReads([Symbol(op)] + spaced);
    assert [' '] + ([Symbol(op)] + spaced) == [' ', Symbol(op), ' '] + s;
  }

  lemma ReadsBefore(text: string, ts: seq<Token>, rest: string, tail: seq<Token>)
    requires Reads(text, ts) && Boundary(rest) && Lex(rest) == Some(tail)
    ensures Lex(text + rest) == Some(ts + tail)
  {
  }

  lemma Regrouped<T>(a: seq<T>, b: seq<T>, c: seq<T>, d: seq<T>)
    ensures a + (b + (c + d)) == a + b + c + d
  {
  }

  lemma JoinedBefore(
      left: string, ls: seq<Token>, op: Op, right: string, rs: seq<Token>, rest: string, tail: seq<Token>)
    requires Reads(left, ls) && Reads(right, rs) && Boundary(rest) && Lex(rest) == Some(tail)
    ensures Lex(left + ([' ', Symbol(op), ' '] + (right + rest))) == Some(ls + ([SymbolToken(op)] + (rs + tail)))
  {
    ReadsBefore(right, rs, rest, tail);
    OperatorReads(op, right + rest, rs + tail);
    ReadsBefore(left, ls, [' ', Symbol(op), ' '] + (right + rest), [SymbolToken(op)] + (rs + tail));
  }

  lemma JoinedReads(left: string, ls: seq<Token>, op: Op, right: string, rs: seq<Token>)
    requires Reads(left, ls) && Reads(right, rs)
    ensures Reads(Joined(left, op, right), ls + [SymbolToken(op)] + rs)
  {
    forall rest: string, tail: seq<Token> | Boundary(rest) && Lex(rest) == Some(tail)
      ensures Lex(Joined(left, op, right) + rest) == Some(ls + [SymbolToken(op)] + rs + tail)
    {
      JoinedBefore(left, ls, op, right, rs, rest, tail);
      Regrouped(left, [' ', Symbol(op), ' '], right, rest);
      Regrouped(ls, [SymbolToken(op)], rs, tail);
    }
  }

  lemma SignedReads(c: char, t: Token, text: string, ts: seq<Token>)
    requires (c, t) == ('+', Plus) || (c, t) == ('-', Minus)
    requires Reads(text, ts)
    ensures Reads([c] + text, [t] + ts)
  {
    forall rest: string, tail: seq<Token> | Boundary(rest) && Lex(rest) == Some(tail)
      ensures Lex([c] + text + rest) == Some([t] + ts + tail)
    {
      OpensRead(c, t, text + rest, ts + tail);
      assert [c] + text + rest == [c] + (text + rest);
      assert [t] + ts + tail == [t] + (ts + tail);
    }
  }

  lemma ParenthesizedBefore(text: string, ts: seq<Token>, rest: string, tail: seq<Token>)
    requires Reads(text, ts) && Boundary(rest) && Lex(rest) == Some(tail)
    ensures Lex(['('] + (text + ([')'] + rest))) == Some([LParen] + (ts + ([RParen] + tail)))
  {
    ClosesRead(rest, tail);
    ReadsBefore(text, ts, [')'] + rest, [RParen] + tail);
    OpensRead('(', LParen, text + ([')'] + rest), ts + ([RParen] + tail));
  }

  lemma ParenthesizedReads(text: string, ts: seq<Token>)
    requires Reads(text, ts)
    ensures Reads(['('] + text + [')'], [LParen] + ts + [RParen])
  {
    forall rest: string, tail: seq<Token> | Boundary(rest) && Lex(rest) == Some(tail)
      ensures Lex(['('] + text + [')'] + rest) == Some([LParen] + ts + [RParen] + tail)
    {
      ParenthesizedBefore(text, ts, rest, tail);
      Regrouped(['('], text, [')'], rest);
      Regrouped([LParen], ts, [RParen], tail);
    }
  }

  lemma {:induction false} TextReads(e: Expr)
    requires Writable(e)
    ensures Reads(TextOf(e), TokensOf(e))
  {
    match e
    case Lit(text) => NumeralReads(text);
    case NameRef(text) => WordReads(text);
    case VarRef(name) => PlaceholderReads(name);
    case Unary(negate, operand) =>
      TextReads(operand);
      SignedReads(if negate then '-' else '+', if negate then Minus else Plus, TextOf(operand), TokensOf(operand));
    case Bin(op, left, right) =>
      TextReads(left);
      TextReads(right);
      JoinedReads(TextOf(left), TokensOf(left), op, TextOf(right), TokensOf(right));
      ParenthesizedReads(Joined(TextOf(left), op, TextOf(right)), TokensOf(left) + [SymbolToken(op)] + TokensOf(right));
  }

  // --- Parsing it ---

  lemma BinIsSum(left: seq<Token>, op: Op, right: seq<Token>, l: Expr, r: Expr)
    requires IsFactor(left, l) && IsFactor(right, r)
    ensures IsSum(left + [SymbolToken(op)] + right, Bin(op, l, r))
  {
    if op.Add? || op.Sub? {
      SumStep(left, SymbolToken(op), right, l, r);
    } else {
      TermStep(left, SymbolToken(op), right, l, r);
    }
  }

  lemma {:induction false} TextParses(e: Expr)
    ensures IsFactor(TokensOf(e), e)
  {
    match e
    case Lit(_) | NameRef(_) | VarRef(_) =>
    case Unary(negate, operand) =>
      TextParses(operand);
      SignStep(if negate then Minus else Plus, TokensOf(operand), operand);
    case Bin(op, left, right) =>
      TextParses(left);
      TextParses(right);
      BinIsSum(TokensOf(left), op, TokensOf(right), left, right);
      ParenStep(TokensOf(left) + [SymbolToken(op)] + TokensOf(right), e);
  }

  lemma {:induction false} TextStarts(e: Expr)
    requires Writable(e)
    ensures TextOf(e) != [] && !Blank(TextOf(e)[0])
  {
    match e
    case Lit(text) => NumeralReads(text);
    case NameRef(_) =>
    case VarRef(_) =>
    case Unary(_, _) =>
    case Bin(_, _, _) =>
  }

  /** A text that starts with no blank and reads as an expression is one. */
  lemma ReadAndParsed(text: string, ts: seq<Token>, e: Expr)
    requires text != [] && !Blank(text[0]) && Reads(text, ts) && IsSum(ts, e)
    ensures Tokenize(text) == Some(ts) && Parse(ts) == Some(e)
  {
    assert Lex("") == Some([]);
    assert Lex(text + "") == Some(ts + []);
    assert text + "" == text && ts + [] == ts;
    ParserDecidesGrammar(ts, e);
  }

  /** Every expression can be written down so that it is read back as itself. */
  lemma TextReadsBack(e: Expr)
    requires Writable(e)
    ensures Tokenize(TextOf(e)).Some? && Parse(Tokenize(TextOf(e)).value) == Some(e)
  {
    TextReads(e);
    TextParses(e);
    TextStarts(e);
    ReadAndParsed(TextOf(e), TokensOf(e), e);
  }

  /** What it evaluates to is its meaning. */
  lemma TextEvaluates<F(!new)>(fl: Floats<F>, e: Expr, variables: map<string, F>)
    requires fl.Lawful() && Writable(e)
    ensures ParseAndEvaluate(fl, TextOf(e), variables) == Meaning(fl, e, variables)
  {
    TextReadsBack(e);
    EvaluationIsMeaning(fl, TextOf(e), variables);
  }

  // --- Without the outer parentheses ---

  lemma PairReadsBack(l: Expr, op: Op, r: Expr)
    requires Writable(l) && Writable(r)
    ensures var text := Joined(TextOf(l), op, TextOf(r));
      Tokenize(text).Some? && Parse(Tokenize(text).value) == Some(Bin(op, l, r))
  {
    var text, ts := Joined(TextOf(l), op, TextOf(r)), TokensOf(l) + [SymbolToken(op)] + TokensOf(r);
    TextReads(l);
    TextReads(r);
    JoinedReads(TextOf(l), TokensOf(l), op, TextOf(r), TokensOf(r));
    TextParses(l);
    TextParses(r);
    BinIsSum(TokensOf(l), op, TokensOf(r), l, r);
    TextStarts(l);
    assert text[0] == TextOf(l)[0];
    ReadAndParsed(text, ts, Bin(op, l, r));
  }

  predicate BindsTighter(a: Op, b: Op) {
    (a.Mul? || a.Div?) && (b.Add? || b.Sub?)
  }

  /** How two operators in a row group: `*` and `/` before `+` and `-`, else from the left. */
  function Grouped(a: Expr, op1: Op, b: Expr, op2: Op, c: Expr): Expr {
    if BindsTighter(op2, op1) then Bin(op1, a, Bin(op2, b, c)) else Bin(op2, Bin(op1, a, b), c)
  }

  lemma RightPairParses(a: seq<Token>, op1: Op, b: seq<Token>, op2: Op, c: seq<Token>, x: Expr, y: Expr, z: Expr)
    requires IsFactor(a, x) && IsFactor(b, y) && IsFactor(c, z) && BindsTighter(op2, op1)
    ensures IsSum(a + [SymbolToken(op1)] + (b + [SymbolToken(op2)] + c), Bin(op1, x, Bin(op2, y, z)))
  {
    TermStep(b, SymbolToken(op2), c, y, z);
    SumStep(a, SymbolToken(op1), b + [SymbolToken(op2)] + c, x, Bin(op2, y, z));
  }

  lemma LeftPairParses(pair: seq<Token>, op: Op, c: seq<Token>, p: Expr, z: Expr)
    requires IsFactor(c, z) && IsSum(pair, p) && (op.Add? || op.Sub? || IsTerm(pair, p))
    ensures IsSum(pair + [SymbolToken(op)] + c, Bin(op, p, z))
  {
    if op.Add? || op.Sub? {
      SumStep(pair, SymbolToken(op), c, p, z);
    } else {
      TermStep(pair, SymbolToken(op), c, p, z);
    }
  }

  lemma TripleParses(a: seq<Token>, op1: Op, b: seq<Token>, op2: Op, c: seq<Token>, x: Expr, y: Expr, z: Expr)
    requires IsFactor(a, x) && IsFactor(b, y) && IsFactor(c, z)
    ensures IsSum(a + [SymbolToken(op1)] + b + [SymbolToken(op2)] + c, Grouped(x, op1, y, op2, z))
  {
    if BindsTighter(op2, op1) {
      RightPairParses(a, op1, b, op2, c, x, y, z);
      RegroupedPair(a, [SymbolToken(op1)], b, [SymbolToken(op2)], c);
    } else {
      BinIsSum(a, op1, b, x, y);
      if op2.Mul? || op2.Div? {
        TermStep(a, SymbolToken(op1), b, x, y);
      }
      LeftPairParses(a + [SymbolToken(op1)] + b, op2, c, Bin(op1, x, y), z);
    }
  }

  lemma RegroupedPair<T>(a: seq<T>, b: seq<T>, c: seq<T>, d: seq<T>, e: seq<T>)
    ensures a + b + (c + d + e) == a + b + c + d + e
  {
  }

  /** Two operators in a row are read with Python's precedence, equal ones from the left. */
  lemma TripleReadsBack(a: Expr, op1: Op, b: Expr, op2: Op, c: Expr)
    requires Writable(a) && Writable(b) && Writable(c)
    ensures var text := Joined(Joined(TextOf(a), op1, TextOf(b)), op2, TextOf(c));
      Tokenize(text).Some? && Parse(Tokenize(text).value) == Some(Grouped(a, op1, b, op2, c))
  {
    var pair, text := Joined(TextOf(a), op1, TextOf(b)), Joined(Joined(TextOf(a), op1, TextOf(b)), op2, TextOf(c));
    TextReads(a);
    TextReads(b);
    TextReads(c);
    JoinedReads(TextOf(a), TokensOf(a), op1, TextOf(b), TokensOf(b));
    JoinedReads(pair, TokensOf(a) + [SymbolToken(op1)] + TokensOf(b), op2, TextOf(c), TokensOf(c));
    TextParses(a);
    TextParses(b);
    TextParses(c);
    TripleParses(TokensOf(a), op1, TokensOf(b), op2, TokensOf(c), a, b, c);
    TextStarts(a);
    assert text[0] == TextOf(a)[0];
    ReadAndParsed(text, TokensOf(a) + [SymbolToken(op1)] + TokensOf(b) + [SymbolToken(op2)] + TokensOf(c),
                  Grouped(a, op1, b, op2, c));
  }

  // --- What texts evaluate to ---

  /** The value of a variable that prints as a number. */
  ghost predicate Holds<F(!new)>(fl: Floats<F>, variables: map<string, F>, name: string, x: F) {
    IsVariableName(name) && Get(variables, name) == Some(x) && fl.show(x).finite
  }

  lemma OperatorTexts(a: string, b: string)
    ensures Joined(['{'] + a + ['}'], Add, ['{'] + b + ['}']) == "{" + a + "} + {" + b + "}"
    ensures Joined(['{'] + a + ['}'], Sub, ['{'] + b + ['}']) == "{" + a + "} - {" + b + "}"
    ensures Joined(['{'] + a + ['}'], Mul, ['{'] + b + ['}']) == "{" + a + "} * {" + b + "}"
    ensures Joined(['{'] + a + ['}'], Div, ['{'] + b + ['}']) == "{" + a + "} / {" + b + "}"
  {
  }

  lemma PairEvaluates<F(!new)>(fl: Floats<F>, variables: map<string, F>, a: string, op: Op, b: string, x: F, y: F)
    requires fl.Lawful() && Holds(fl, variables, a, x) && Holds(fl, variables, b, y)
    ensures ParseAndEvaluate(fl, Joined(['{'] + a + ['}'], op, ['{'] + b + ['}']), variables)
         == Ok(match op
               case Add => fl.add(x, y)
               case Sub => fl.sub(x, y)
               case Mul => fl.mul(x, y)
               case Div => if fl.isZero(y) then fl.lit("0.0") else fl.div(x, y))
  {
    var l, r := VarRef(a), VarRef(b);
    PairReadsBack(l, op, r);
    EvaluationIsMeaning(fl, Joined(TextOf(l), op, TextOf(r)), variables);
    VariableMeans(fl, variables, a, x);
    VariableMeans(fl, variables, b, y);
    PairMeans(fl, l, op, r, variables, x, y);
  }

  lemma VariableMeans<F(!new)>(fl: Floats<F>, variables: map<string, F>, a: string, x: F)
    requires Holds(fl, variables, a, x)
    ensures Meaning(fl, VarRef(a), variables) == Ok(x)
  {
  }

  lemma PairMeans<F(!new)>(fl: Floats<F>, l: Expr, op: Op, r: Expr, variables: map<string, F>, x: F, y: F)
    requires Meaning(fl, l, variables) == Ok(x) && Meaning(fl, r, variables) == Ok(y)
    ensures Meaning(fl, Bin(op, l, r), variables)
         == Ok(match op
               case Add => fl.add(x, y)
               case Sub => fl.sub(x, y)
               case Mul => fl.mul(x, y)
               case Div => if fl.isZero(y) then fl.lit("0.0") else fl.div(x, y))
  {
  }

  /** The four operators, on any two variables: a division by zero gives 0.0. */
  lemma OperatorsEvaluate<F(!new)>(fl: Floats<F>, variables: map<string, F>, a: string, b: string, x: F, y: F)
    requires fl.Lawful() && Holds(fl, variables, a, x) && Holds(fl, variables, b, y)
    ensures ParseAndEvaluate(fl, "{" + a + "} + {" + b + "}", variables) == Ok(fl.add(x, y))
    ensures ParseAndEvaluate(fl, "{" + a + "} - {" + b + "}", variables) == Ok(fl.sub(x, y))
    ensures ParseAndEvaluate(fl, "{" + a + "} * {" + b + "}", variables) == Ok(fl.mul(x, y))
    ensures ParseAndEvaluate(fl, "{" + a + "} / {" + b + "}", variables)
         == Ok(if fl.isZero(y) then fl.lit("0.0") else fl.div(x, y))
  {
    OperatorTexts(a, b);
    PairEvaluates(fl, variables, a, Add, b, x, y);
    PairEvaluates(fl, variables, a, Sub, b, x, y);
    PairEvaluates(fl, variables, a, Mul, b, x, y);
    PairEvaluates(fl, variables, a, Div, b, x, y);
  }

  /** A variable with or without a sign; a missing one counts as 0.0, and one that is no number is refused. */
  lemma VariablesEvaluate<F(!new)>(fl: Floats<F>, variables: map<string, F>, a: string)
    requires fl.Lawful() && IsVariableName(a)
    ensures a !in variables ==> ParseAndEvaluate(fl, "{" + a + "}", variables) == Ok(fl.lit("0.0"))
    ensures a in variables && fl.show(variables[a]).finite ==>
      && ParseAndEvaluate(fl, "{" + a + "}", variables) == Ok(variables[a])
      && ParseAndEvaluate(fl, "-{" + a + "}", variables) == Ok(fl.neg(variables[a]))
      && ParseAndEvaluate(fl, "+{" + a + "}", variables) == Ok(variables[a])
    ensures a in variables && !fl.show(variables[a]).finite ==>
      ParseAndEvaluate(fl, "{" + a + "}", variables) == Err(NotAllowed)
  {
    VariableTexts(a);
    TextEvaluates(fl, VarRef(a), variables);
    TextEvaluates(fl, Unary(true, VarRef(a)), variables);
    TextEvaluates(fl, Unary(false, VarRef(a)), variables);
  }

  lemma VariableTexts(a: string)
    ensures TextOf(VarRef(a)) == "{" + a + "}"
    ensures TextOf(Unary(true, VarRef(a))) == "-{" + a + "}"
    ensures TextOf(Unary(false, VarRef(a))) == "+{" + a + "}"
  {
    assert "-{" + a + "}" == ['-'] + (['{'] + a + ['}']);
    assert "+{" + a + "}" == ['+'] + (['{'] + a + ['}']);
  }

  /** Numerals are themselves, True and False are one and zero, and no other name is allowed. */
  lemma ConstantsEvaluate<F(!new)>(fl: Floats<F>, variables: map<string, F>, text: string)
    requires fl.Lawful() && (IsNumeral(text) || IsWord(text))
    ensures ParseAndEvaluate(fl, text, variables) ==
      if IsNumeral(text) then Ok(fl.lit(text))
      else if text == "True" then Ok(fl.lit("1.0"))
      else if text == "False" then Ok(fl.lit("0.0"))
      else Err(NotAllowed)
  {
    TextEvaluates(fl, if IsNumeral(text) then Lit(text) else NameRef(text), variables);
  }

  lemma BlankExactly(text: string)
    ensures IsBlankText(text) <==> forall c :: c in text ==> c == ' ' || '\t' <= c <= '\r'
  {
    if forall c :: c in text ==> c == ' ' || '\t' <= c <= '\r' {
      assert forall i :: 0 <= i < |text| ==> text[i] in text;
    }
  }

  /** Which error: a blank text is empty, any other one that is no expression has a syntax error. */
  lemma ErrorsExactly<F(!new)>(fl: Floats<F>, text: string, variables: map<string, F>)
    ensures ParseAndEvaluate(fl, text, variables) == Err(EmptyExpression)
       <==> forall c :: c in text ==> c == ' ' || '\t' <= c <= '\r'
    ensures ParseAndEvaluate(fl, text, variables) == Err(SyntaxError)
       <==> !IsBlankText(text) && !WellFormed(SubstituteText(text, ShowVariables(fl, variables)))
  {
    BlankExactly(text);
    var substituted := SubstituteText(text, ShowVariables(fl, variables));
    if WellFormed(substituted) {
      EvalErrors(fl, Parse(Tokenize(substituted).value).value);
    }
  }

  lemma {:induction false} EvalErrors<F(!new)>(fl: Floats<F>, e: Expr)
    ensures SafeEval(fl, e).Err? ==> SafeEval(fl, e).error == NotAllowed
  {
    match e
    case Lit(_) | NameRef(_) | VarRef(_) =>
    case Unary(_, operand) => EvalErrors(fl, operand);
    case Bin(_, left, right) =>
      EvalErrors(fl, left);
      EvalErrors(fl, right);
  }

  // --- The forms in which a float prints ---

  predicate AllDigits(s: string) {
    s != [] && forall i :: 0 <= i < |s| ==> '0' <= s[i] <= '9'
  }

  lemma FractionIsMantissa(w: string, f: string, rest: string)
    requires AllDigits(w) && AllDigits(f) && (rest == [] || (!Digit(rest[0]) && rest[0] != '.'))
    ensures MantissaLength(w + ['.'] + f + rest) == |w| + 1 + |f|
  {
    var s := w + ['.'] + f + rest;
    RunLengthIs(s, Digit, |w|);
    assert s[|w| + 1..] == f + rest;
    RunLengthIs(f + rest, Digit, |f|);
  }

  lemma ExponentIsRead(sign: char, x: string)
    requires (sign == '+' || sign == '-') && AllDigits(x)
    ensures ExponentLength(['e', sign] + x) == 2 + |x|
  {
    assert (['e', sign] + x)[2..] == x;
    RunLengthIs(x, Digit, |x|);
  }

  /** `repr` of a finite float, sign aside: a fraction, with or without an exponent, or digits with one. */
  lemma PrintedFormsAreNumerals(w: string, f: string, sign: char, x: string)
    requires AllDigits(w) && AllDigits(f) && AllDigits(x) && (sign == '+' || sign == '-')
    ensures IsNumeral(w + ['.'] + f)
    ensures IsNumeral(w + ['.'] + f + (['e', sign] + x))
    ensures IsNumeral(w + (['e', sign] + x))
  {
    var exponent := ['e', sign] + x;
    ExponentIsRead(sign, x);
    var plain := w + ['.'] + f;
    assert plain + [] == plain;
    FractionIsMantissa(w, f, []);
    assert plain[|plain|..] == [];
    NotAllDigits(plain, |w|);
    var full := plain + exponent;
    FractionIsMantissa(w, f, exponent);
    assert full[|plain|..] == exponent;
    NotAllDigits(full, |w|);
    var short := w + exponent;
    RunLengthIs(short, Digit, |w|);
    assert short[|w|..] == exponent;
    NotAllDigits(short, |w|);
  }

  lemma NotAllDigits(s: string, i: nat)
    requires i < |s| && !Digit(s[i])
    ensures !LeadingZeros(s)
  {
  }

  /** Python 3 refuses integers with leading zeros, zero itself excepted. */
  lemma LeadingZerosRefused(s: string)
    requires AllDigits(s)
    ensures IsNumeral(s) <==> s[0] != '0' || forall c :: c in s ==> c == '0'
  {
    RunLengthIs(s, Digit, |s|);
    assert s[|s|..] == [];
  }
}
