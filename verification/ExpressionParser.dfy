/**
 `parse_and_evaluate`: replace placeholders in the text, parse, evaluate. The
 arithmetic is a parameter, so the results hold for IEEE doubles with all their
 rounding: what they use is only that a printed finite float reads back as
 itself, which Python documents of `repr`.
 */
module ExpressionParser {
  import opened Prelude
  import opened ExpressionGrammar
  import opened ExpressionSubstitution
  import opened ExpressionText

  datatype ExpressionError = EmptyExpression | SyntaxError | NotAllowed

  /** A floating point arithmetic with its literals and its printing. */
  datatype Floats<!F(!new)> = Floats(
    lit: string -> F,
    neg: F -> F,
    add: (F, F) -> F,
    sub: (F, F) -> F,
    mul: (F, F) -> F,
    div: (F, F) -> F,
    isZero: F -> bool,
    show: F -> Printed
  ) {
    /** `float(str(x)) == x` for every finite x; the others print as words. */
    ghost predicate Lawful() {
      forall x: F :: PrintsBack(x)
    }

    ghost predicate PrintsBack(x: F) {
      var p := show(x);
      WellPrinted(p) && (p.finite ==> x == if p.negative then neg(lit(p.body)) else lit(p.body))
    }

    function Apply(op: Op, x: F, y: F): F {
      match op
      case Add => add(x, y)
      case Sub => sub(x, y)
      case Mul => mul(x, y)
      case Div => if isZero(y) then lit("0.0") else div(x, y)
    }
  }

  /** The placeholders' texts: a missing variable prints as 0.0. */
  function ShowVariables<F(!new)>(fl: Floats<F>, variables: map<string, F>): Show {
    (name: string) => if name in variables then fl.show(variables[name]) else Printed(false, true, "0.0")
  }

  /** What `str.strip` removes. */
  predicate Whitespace(c: char) {
    c == ' ' || '\t' <= c <= '\r'
  }

  predicate IsBlankText(text: string) {
    forall i :: 0 <= i < |text| ==> Whitespace(text[i])
  }

  /** `_safe_ast_eval`: numbers and the four operators; every other node is refused. */
  function SafeEval<F(!new)>(fl: Floats<F>, e: Expr): Result<F, ExpressionError> {
    match e
    case Lit(text) => Ok(fl.lit(text))
    case NameRef("True") => Ok(fl.lit("1.0"))
    case NameRef("False") => Ok(fl.lit("0.0"))
    case NameRef(_) => Err(NotAllowed)
    case VarRef(_) => Err(NotAllowed)
    case Unary(negate, operand) =>
      var x :- SafeEval(fl, operand);
      Ok(if negate then fl.neg(x) else x)
    case Bin(op, left, right) =>
      var x :- SafeEval(fl, left);
      var y :- SafeEval(fl, right);
      Ok(fl.Apply(op, x, y))
  }

  function ParseAndEvaluate<F(!new)>(fl: Floats<F>, expression: string, variables: map<string, F>)
    : Result<F, ExpressionError>
  {
    if IsBlankText(expression) then Err(EmptyExpression)
    else
      match Tokenize(SubstituteText(expression, ShowVariables(fl, variables)))
      case None => Err(SyntaxError)
      case Some(ts) =>
        match Parse(ts)
        case None => Err(SyntaxError)
        case Some(e) => SafeEval(fl, e)
  }

  /** The reference meaning: placeholders are variables of an environment. */
  function Meaning<F(!new)>(fl: Floats<F>, e: Expr, variables: map<string, F>): Result<F, ExpressionError> {
    match e
    case Lit(text) => Ok(fl.lit(text))
    case NameRef("True") => Ok(fl.lit("1.0"))
    case NameRef("False") => Ok(fl.lit("0.0"))
    case NameRef(_) => Err(NotAllowed)
    case VarRef(name) =>
      if name !in variables then Ok(fl.lit("0.0"))
      else if fl.show(variables[name]).finite then Ok(variables[name])
      else Err(NotAllowed)
    case Unary(negate, operand) =>
      var x :- Meaning(fl, operand, variables);
      Ok(if negate then fl.neg(x) else x)
    case Bin(op, left, right) =>
      var x :- Meaning(fl, left, variables);
      var y :- Meaning(fl, right, variables);
      (match op
       case Add => Ok(fl.add(x, y))
       case Sub => Ok(fl.sub(x, y))
       case Mul => Ok(fl.mul(x, y))
       case Div => Ok(if fl.isZero(y) then fl.lit("0.0") else fl.div(x, y)))
  }

  lemma ZeroIsNumeral()
    ensures IsNumeral("0.0")
  {
    var s := "0.0";
    RunLengthIs(s, Digit, 1);
    RunLengthIs(s[2..], Digit, 1);
    assert MantissaLength(s) == 3;
    assert s[3..] == "";
  }

  lemma VariablesWellPrinted<F(!new)>(fl: Floats<F>, variables: map<string, F>)
    requires fl.Lawful()
    ensures AllWellPrinted(ShowVariables(fl, variables))
  {
    ZeroIsNumeral();
    forall name
      ensures WellPrinted(ShowVariables(fl, variables)(name))
    {
      if name in variables {
        assert fl.PrintsBack(variables[name]);
      }
    }
  }

  lemma {:induction false} EvalSubstituted<F(!new)>(fl: Floats<F>, e: Expr, variables: map<string, F>)
    requires fl.Lawful()
    ensures SafeEval(fl, SubstituteTree(e, ShowVariables(fl, variables))) == Meaning(fl, e, variables)
  {
    match e
    case Lit(_) =>
    case NameRef(_) =>
    case VarRef(name) =>
      if name in variables {
        assert fl.PrintsBack(variables[name]);
      }
    case Unary(_, operand) =>
      EvalSubstituted(fl, operand, variables);
    case Bin(_, left, right) =>
      EvalSubstituted(fl, left, variables);
      EvalSubstituted(fl, right, variables);
  }

  /** An expression has a token, so its text is not blank. */
  lemma {:induction false} BlankHasNoTokens(text: string)
    requires IsBlankText(text) && Lex(text).Some?
    ensures Lex(text).value == []
    decreases |text|
  {
    if text != [] && Blank(text[0]) {
      BlankHasNoTokens(text[1..]);
    }
  }

  /**
   Textual substitution preserves meaning: for every text that parses with its
   placeholders as operands, and every set of variables, evaluating the
   substituted text gives what evaluating the tree under the variables gives,
   with the error of a non-finite value included.
   */
  lemma EvaluationIsMeaning<F(!new)>(fl: Floats<F>, text: string, variables: map<string, F>)
    requires fl.Lawful()
    requires Tokenize(text).Some? && Parse(Tokenize(text).value).Some?
    ensures ParseAndEvaluate(fl, text, variables)
         == Meaning(fl, Parse(Tokenize(text).value).value, variables)
  {
    var show := ShowVariables(fl, variables);
    var ts := Tokenize(text).value;
    VariablesWellPrinted(fl, variables);
    ParsedIsSpaced(ts);
    SpacedIsSeparated(text);
    TokenizeSubstituted(text, show);
    SubstitutionCommutesWithParsing(ts, show);
    EvalSubstituted(fl, Parse(ts).value, variables);
    if IsBlankText(text) {
      BlankHasNoTokens(text);
      assert false;
    }
  }

  /** The placeholders an expression mentions. */
  function Variables(e: Expr): set<string> {
    match e
    case Lit(_) | NameRef(_) => {}
    case VarRef(name) => {name}
    case Unary(_, operand) => Variables(operand)
    case Bin(_, left, right) => Variables(left) + Variables(right)
  }

  /** The value depends on nothing but the variables the expression mentions. */
  lemma {:induction false} MeaningDependsOnMentioned<F(!new)>(
      fl: Floats<F>, e: Expr, a: map<string, F>, b: map<string, F>)
    requires forall name <- Variables(e) :: Get(a, name) == Get(b, name)
    ensures Meaning(fl, e, a) == Meaning(fl, e, b)
  {
    match e
    case Lit(_) =>
    case NameRef(_) =>
    case VarRef(name) =>
      assert Get(a, name) == Get(b, name);
    case Unary(_, operand) =>
      MeaningDependsOnMentioned(fl, operand, a, b);
    case Bin(_, left, right) =>
      MeaningDependsOnMentioned(fl, left, a, b);
      MeaningDependsOnMentioned(fl, right, a, b);
  }

  // --- The converse fails ---

  /** A placeholder at the head of a text, before a blank or the end. */
  lemma PlaceholderRead(name: string, rest: string)
    requires |name| == 1 && WordChar(name[0]) && (rest == [] || rest[0] == ' ')
    ensures var s := "{" + name + "}" + rest;
      && Lex(s) == (if Lex(rest).Some? then Some([Var(name)] + Lex(rest).value) else None)
      && (Separated(s) <==> Separated(rest))
  {
    var s := "{" + name + "}" + rest;
    assert s[1..] == name + "}" + rest;
    RunLengthIs(s[1..], WordChar, 1);
    assert PlaceholderLength(s) == 3;
    assert s[1..2] == name && s[3..] == rest;
    assert NextToken(s) == Some((Var(name), 3));
    if rest != [] {
      assert !StartsNumeral(rest);
    }
  }

  lemma TwoPlaceholders()
    ensures Tokenize("{a} {b}") == Some([Var("a"), Var("b")]) && Separated("{a} {b}")
  {
    assert "{" + "b" + "}" + "" == "{b}";
    PlaceholderRead("b", "");
    assert [Var("b")] + [] == [Var("b")];
    assert " {b}"[1..] == "{b}";
    assert Lex(" {b}") == Some([Var("b")]);
    assert "{" + "a" + "}" + " {b}" == "{a} {b}";
    PlaceholderRead("a", " {b}");
    assert [Var("a")] + [Var("b")] == [Var("a"), Var("b")];
  }

  lemma TwoOperandsDoNotParse(a: Printed, b: Printed, show: Show)
    requires show("a") == a && show("b") == b && !a.negative && a.finite && b.negative && b.finite
    ensures var ts := [Var("a"), Var("b")];
      && Parse(ts).None?
      && Parse(SubstituteTokens(ts, show)) == Some(Bin(Sub, Lit(a.body), Lit(b.body)))
  {
    var ts := [Var("a"), Var("b")];
    assert ts[1..] == [Var("b")] && [Var("b")][1..] == [];
    assert ParseTerm(ts) == Some((VarRef("a"), ts[1..]));
    var out := [Num(a.body)] + [Minus] + [Num(b.body)];
    assert SubstituteTokens([Var("b")], show) == [Minus, Num(b.body)];
    assert SubstituteTokens(ts, show) == out;
    assert IsFactor([Num(a.body)], Lit(a.body)) && IsFactor([Num(b.body)], Lit(b.body));
    SumStep([Num(a.body)], Minus, [Num(b.body)], Lit(a.body), Lit(b.body));
    ParserDecidesGrammar(out, Bin(Sub, Lit(a.body), Lit(b.body)));
  }

  /** Of a text whose operands do not touch, the substituted tokens are evaluated. */
  lemma SeparatedEvaluates<F(!new)>(fl: Floats<F>, text: string, variables: map<string, F>)
    requires fl.Lawful() && Tokenize(text).Some? && Separated(text) && Tokenize(text).value != []
    ensures ParseAndEvaluate(fl, text, variables) ==
      match Parse(SubstituteTokens(Tokenize(text).value, ShowVariables(fl, variables)))
      case None => Err(SyntaxError)
      case Some(e) => SafeEval(fl, e)
  {
    VariablesWellPrinted(fl, variables);
    TokenizeSubstituted(text, ShowVariables(fl, variables));
    if IsBlankText(text) {
      BlankHasNoTokens(text);
    }
  }

  lemma TwoOperandsEvaluate<F(!new)>(fl: Floats<F>, text: string, variables: map<string, F>)
    requires fl.Lawful() && "a" in variables && "b" in variables
    requires fl.show(variables["a"]).finite && !fl.show(variables["a"]).negative
    requires fl.show(variables["b"]).finite && fl.show(variables["b"]).negative
    requires Tokenize(text) == Some([Var("a"), Var("b")]) && Separated(text)
    ensures Parse(Tokenize(text).value).None?
    ensures ParseAndEvaluate(fl, text, variables) ==
      Ok(fl.sub(variables["a"], fl.lit(fl.show(variables["b"]).body)))
  {
    var show := ShowVariables(fl, variables);
    var a, b := show("a"), show("b");
    TwoOperandsDoNotParse(a, b, show);
    SeparatedEvaluates(fl, text, variables);
    assert fl.PrintsBack(variables["a"]);
    assert SafeEval(fl, Bin(Sub, Lit(a.body), Lit(b.body))) == Ok(fl.sub(fl.lit(a.body), fl.lit(b.body)));
  }

  /**
   The forward direction does not reverse: "{a} {b}" is no expression, yet with a
   negative b it evaluates, to a minus the magnitude of b.
   */
  lemma IllFormedCanEvaluate<F(!new)>(fl: Floats<F>, variables: map<string, F>)
    requires fl.Lawful() && "a" in variables && "b" in variables
    requires fl.show(variables["a"]).finite && !fl.show(variables["a"]).negative
    requires fl.show(variables["b"]).finite && fl.show(variables["b"]).negative
    ensures Tokenize("{a} {b}").Some? && Parse(Tokenize("{a} {b}").value).None?
    ensures ParseAndEvaluate(fl, "{a} {b}", variables) ==
      Ok(fl.sub(variables["a"], fl.lit(fl.show(variables["b"]).body)))
  {
    TwoPlaceholders();
    TwoOperandsEvaluate(fl, "{a} {b}", variables);
  }
}
