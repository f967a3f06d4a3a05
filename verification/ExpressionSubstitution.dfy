/**
 Replacing every `{name}` by the printed value of a variable, on tokens and on
 trees. A negative value prints as two tokens, so an atom turns into a unary
 expression; the grammar stays intact because no operator of the fragment binds
 tighter than a sign.
 */
module ExpressionSubstitution {
  import opened Prelude
  import opened ExpressionGrammar

  /** How `str(value)` prints a float: a sign, then digits or one of the words inf and nan. */
  datatype Printed = Printed(negative: bool, finite: bool, body: string) {
    function Text(): string {
      if negative then "-" + body else body
    }

    function BodyToken(): Token {
      if finite then Num(body) else Name(body)
    }

    function Tokens(): (ts: seq<Token>)
      ensures |ts| == (if negative then 2 else 1)
    {
      if negative then [Minus, BodyToken()] else [BodyToken()]
    }

    function Tree(): Expr {
      if negative then Unary(true, AtomOf(BodyToken())) else AtomOf(BodyToken())
    }
  }

  type Show = string -> Printed

  function TokenTokens(t: Token, show: Show): (ts: seq<Token>)
    ensures ts != []
  {
    if t.Var? then show(t.name).Tokens() else [t]
  }

  function SubstituteTokens(ts: seq<Token>, show: Show): seq<Token> {
    if ts == [] then [] else TokenTokens(ts[0], show) + SubstituteTokens(ts[1..], show)
  }

  function SubstituteTree(e: Expr, show: Show): Expr {
    match e
    case Lit(_) | NameRef(_) => e
    case VarRef(name) => show(name).Tree()
    case Unary(negate, operand) => Unary(negate, SubstituteTree(operand, show))
    case Bin(op, left, right) => Bin(op, SubstituteTree(left, show), SubstituteTree(right, show))
  }

  lemma Associate(a: seq<Token>, b: seq<Token>, c: seq<Token>)
    ensures a + (b + c) == a + b + c
  {
  }

  lemma {:induction false} SubstituteAppend(xs: seq<Token>, ys: seq<Token>, show: Show)
    ensures SubstituteTokens(xs + ys, show) == SubstituteTokens(xs, show) + SubstituteTokens(ys, show)
  {
    if xs == [] {
      assert xs + ys == ys;
    } else {
      SubstituteAppend(xs[1..], ys, show);
      assert (xs + ys)[1..] == xs[1..] + ys;
      Associate(TokenTokens(xs[0], show), SubstituteTokens(xs[1..], show), SubstituteTokens(ys, show));
    }
  }

  lemma SubstituteAround(xs: seq<Token>, t: Token, ys: seq<Token>, show: Show)
    requires !t.Var?
    ensures SubstituteTokens(xs + [t] + ys, show)
         == SubstituteTokens(xs, show) + [t] + SubstituteTokens(ys, show)
  {
    SubstituteAppend(xs + [t], ys, show);
    SubstituteAppend(xs, [t], show);
    assert SubstituteTokens([t], show) == [t] + SubstituteTokens([t][1..], show);
  }

  /** Substitution carries every derivation over, tree and all. */
  lemma {:induction false} SubstituteSum(ts: seq<Token>, e: Expr, show: Show)
    requires IsSum(ts, e)
    ensures IsSum(SubstituteTokens(ts, show), SubstituteTree(e, show))
    decreases |ts|, 2
  {
    if IsTerm(ts, e) {
      SubstituteTerm(ts, e, show);
    } else {
      var left, op, right := SumSplit(ts, e);
      SubstituteSum(left, e.left, show);
      SubstituteTerm(right, e.right, show);
      SubstituteAround(left, op, right, show);
      SumStep(SubstituteTokens(left, show), op, SubstituteTokens(right, show),
        SubstituteTree(e.left, show), SubstituteTree(e.right, show));
    }
  }

  lemma {:induction false} SubstituteTerm(ts: seq<Token>, e: Expr, show: Show)
    requires IsTerm(ts, e)
    ensures IsTerm(SubstituteTokens(ts, show), SubstituteTree(e, show))
    decreases |ts|, 1
  {
    if IsFactor(ts, e) {
      SubstituteFactor(ts, e, show);
    } else {
      var left, op, right := TermSplit(ts, e);
      SubstituteTerm(left, e.left, show);
      SubstituteFactor(right, e.right, show);
      SubstituteAround(left, op, right, show);
      TermStep(SubstituteTokens(left, show), op, SubstituteTokens(right, show),
        SubstituteTree(e.left, show), SubstituteTree(e.right, show));
    }
  }

  lemma {:induction false} SubstituteFactor(ts: seq<Token>, e: Expr, show: Show)
    requires IsFactor(ts, e)
    ensures IsFactor(SubstituteTokens(ts, show), SubstituteTree(e, show))
    decreases |ts|, 0
  {
    if |ts| == 1 {
      SubstituteAtom(ts[0], show);
      assert ts == [ts[0]];
    } else if e.Unary? && SignOf(ts[0]) == Some(e.negate) && IsFactor(ts[1..], e.operand) {
      SubstituteFactor(ts[1..], e.operand, show);
      SignStep(ts[0], SubstituteTokens(ts[1..], show), SubstituteTree(e.operand, show));
    } else {
      var inner := ts[1..|ts| - 1];
      assert ts == [LParen] + inner + [RParen];
      SubstituteSum(inner, e, show);
      SubstituteParens(inner, show);
      ParenStep(SubstituteTokens(inner, show), SubstituteTree(e, show));
    }
  }

  lemma SubstituteAtom(t: Token, show: Show)
    requires t.Atom()
    ensures IsFactor(SubstituteTokens([t], show), SubstituteTree(AtomOf(t), show))
  {
    assert SubstituteTokens([t], show) == TokenTokens(t, show) + SubstituteTokens([t][1..], show);
    if t.Var? && show(t.name).negative {
      var body := show(t.name).BodyToken();
      SignStep(Minus, [body], AtomOf(body));
      assert [Minus] + [body] == [Minus, body];
    }
  }

  lemma SubstituteParens(inner: seq<Token>, show: Show)
    ensures SubstituteTokens([LParen] + inner + [RParen], show) == [LParen] + SubstituteTokens(inner, show) + [RParen]
  {
    SubstituteAround([LParen] + inner, RParen, [], show);
    SubstituteAround([], LParen, inner, show);
    assert [LParen] + inner + [RParen] == [LParen] + inner + [RParen] + [];
    assert [] + [LParen] + inner == [LParen] + inner;
    var substituted := SubstituteTokens(inner, show);
    assert SubstituteTokens([], show) + [LParen] + substituted == [LParen] + substituted;
  }

  /**
   Substituting and then parsing gives the tree that parsing and then
   substituting gives.
   */
  lemma {:induction false} SubstitutionCommutesWithParsing(ts: seq<Token>, show: Show)
    requires Parse(ts).Some?
    ensures Parse(SubstituteTokens(ts, show)) == Some(SubstituteTree(Parse(ts).value, show))
  {
    var e := Parse(ts).value;
    ParserDecidesGrammar(ts, e);
    SubstituteSum(ts, e, show);
    ParserDecidesGrammar(SubstituteTokens(ts, show), SubstituteTree(e, show));
  }

  // --- The converse ---

  predicate EndsOperand(t: Token) {
    t.Atom() || t == RParen
  }

  /** A negative value directly behind an operand: its sign would read as a subtraction. */
  ghost predicate SignClash(ts: seq<Token>, show: Show) {
    exists i :: ClashAt(ts, i, show)
  }

  ghost predicate ClashAt(ts: seq<Token>, i: int, show: Show) {
    0 <= i < |ts| - 1 && EndsOperand(ts[i]) && ts[i + 1].Var? && show(ts[i + 1].name).negative
  }

  lemma ClashInside(ts: seq<Token>, xs: seq<Token>, ys: seq<Token>, zs: seq<Token>, show: Show)
    requires ts == xs + ys + zs
    ensures SignClash(ys, show) ==> SignClash(ts, show)
  {
    if SignClash(ys, show) {
      var i :| ClashAt(ys, i, show);
      assert ClashAt(ts, |xs| + i, show);
    }
  }

  lemma {:induction false} DerivationEndsOperand(ts: seq<Token>, e: Expr)
    requires IsSum(ts, e)
    ensures ts != [] && EndsOperand(ts[|ts| - 1])
    decreases |ts|, 2
  {
    SumNonEmpty(ts, e);
    if IsTerm(ts, e) {
      TermEndsOperand(ts, e);
    } else {
      var left, op, right := SumSplit(ts, e);
      TermEndsOperand(right, e.right);
    }
  }

  lemma {:induction false} TermEndsOperand(ts: seq<Token>, e: Expr)
    requires IsTerm(ts, e)
    ensures ts != [] && EndsOperand(ts[|ts| - 1])
    decreases |ts|, 1
  {
    if IsFactor(ts, e) {
      FactorEndsOperand(ts, e);
    } else {
      var left, op, right := TermSplit(ts, e);
      FactorEndsOperand(right, e.right);
    }
  }

  lemma {:induction false} FactorEndsOperand(ts: seq<Token>, e: Expr)
    requires IsFactor(ts, e)
    ensures ts != [] && EndsOperand(ts[|ts| - 1])
    decreases |ts|, 0
  {
    if |ts| > 1 && e.Unary? && SignOf(ts[0]) == Some(e.negate) && IsFactor(ts[1..], e.operand) {
      FactorEndsOperand(ts[1..], e.operand);
    }
  }

  /** In a derivation, what follows an operand is never an atom. */
  lemma {:induction false} NoAdjacentOperands(ts: seq<Token>, e: Expr, i: nat)
    requires IsSum(ts, e) && i + 1 < |ts| && EndsOperand(ts[i])
    ensures !ts[i + 1].Atom()
    decreases |ts|, 2
  {
    if IsTerm(ts, e) {
      NoAdjacentInTerm(ts, e, i);
    } else {
      var left, op, right := SumSplit(ts, e);
      if i + 1 < |left| {
        NoAdjacentOperands(left, e.left, i);
      } else if i > |left| {
        NoAdjacentInTerm(right, e.right, i - |left| - 1);
      }
    }
  }

  lemma {:induction false} NoAdjacentInTerm(ts: seq<Token>, e: Expr, i: nat)
    requires IsTerm(ts, e) && i + 1 < |ts| && EndsOperand(ts[i])
    ensures !ts[i + 1].Atom()
    decreases |ts|, 1
  {
    if IsFactor(ts, e) {
      NoAdjacentInFactor(ts, e, i);
    } else {
      var left, op, right := TermSplit(ts, e);
      if i + 1 < |left| {
        NoAdjacentInTerm(left, e.left, i);
      } else if i > |left| {
        NoAdjacentInFactor(right, e.right, i - |left| - 1);
      }
    }
  }

  lemma {:induction false} NoAdjacentInFactor(ts: seq<Token>, e: Expr, i: nat)
    requires IsFactor(ts, e) && i + 1 < |ts| && EndsOperand(ts[i])
    ensures !ts[i + 1].Atom()
    decreases |ts|, 0
  {
    if e.Unary? && SignOf(ts[0]) == Some(e.negate) && IsFactor(ts[1..], e.operand) {
      NoAdjacentInFactor(ts[1..], e.operand, i - 1);
    } else {
      var inner := ts[1..|ts| - 1];
      if i + 1 < |ts| - 1 {
        NoAdjacentOperands(inner, e, i - 1);
      }
    }
  }

  /** An operator in the substituted list comes from an operator, or is the sign of a value. */
  lemma {:induction false} LocateOperator(ts: seq<Token>, show: Show, k: nat)
    returns (left: seq<Token>, t: Token, right: seq<Token>)
    requires k < |SubstituteTokens(ts, show)|
    requires !SubstituteTokens(ts, show)[k].Atom()
    ensures ts == left + [t] + right
    ensures SubstituteTokens(left, show) == SubstituteTokens(ts, show)[..k]
    ensures if t.Var? then show(t.name).negative
      else t == SubstituteTokens(ts, show)[k] && SubstituteTokens(right, show) == SubstituteTokens(ts, show)[k + 1..]
  {
    var first := TokenTokens(ts[0], show);
    var all := SubstituteTokens(ts, show);
    if k == 0 {
      left, t, right := [], ts[0], ts[1..];
    } else if k < |first| {
      assert false;
    } else {
      var rest := SubstituteTokens(ts[1..], show);
      var left', t', right' := LocateOperator(ts[1..], show, k - |first|);
      left, t, right := [ts[0]] + left', t', right';
      assert left[1..] == left';
      assert all[..k] == first + rest[..k - |first|];
      assert all[k + 1..] == rest[k - |first| + 1..];
    }
  }

  /** Behind a derivation there is no room for a negative value's sign. */
  lemma SignNeedsOperator(left: seq<Token>, t: Token, right: seq<Token>, show: Show)
    requires t.Var? && show(t.name).negative
    requires left != [] && EndsOperand(SubstituteTokens(left, show)[|SubstituteTokens(left, show)| - 1])
    ensures SignClash(left + [t] + right, show)
  {
    var n := |left| - 1;
    assert left == left[..n] + [left[n]];
    SubstituteAppend(left[..n], [left[n]], show);
    assert SubstituteTokens([left[n]], show) == TokenTokens(left[n], show) + SubstituteTokens([left[n]][1..], show);
    assert ClashAt(left + [t] + right, n, show);
  }

  /** A split at an operator behind an operand is a split of the original list. */
  lemma LocateSplit(ts: seq<Token>, show: Show, l: seq<Token>, op: Token, r: seq<Token>)
    returns (left: seq<Token>, right: seq<Token>)
    requires SubstituteTokens(ts, show) == l + [op] + r && !op.Atom()
    requires l != [] && EndsOperand(l[|l| - 1])
    requires !SignClash(ts, show)
    ensures ts == left + [op] + right
    ensures SubstituteTokens(left, show) == l && SubstituteTokens(right, show) == r
    ensures !SignClash(left, show) && !SignClash(right, show)
  {
    var t;
    left, t, right := LocateOperator(ts, show, |l|);
    assert (l + [op] + r)[..|l|] == l && (l + [op] + r)[|l| + 1..] == r;
    if t.Var? {
      SignNeedsOperator(left, t, right, show);
      assert false;
    }
    ClashInside(ts, [], left, [t] + right, show);
    ClashInside(ts, left + [t], right, [], show);
  }

  lemma {:induction false} UnsubstituteSum(ts: seq<Token>, show: Show, e: Expr) returns (origin: Expr)
    requires IsSum(SubstituteTokens(ts, show), e) && !SignClash(ts, show)
    ensures IsSum(ts, origin)
    decreases |ts|, 2
  {
    if IsTerm(SubstituteTokens(ts, show), e) {
      origin := UnsubstituteTerm(ts, show, e);
    } else {
      var l, op, r := SumSplit(SubstituteTokens(ts, show), e);
      DerivationEndsOperand(l, e.left);
      var left, right := LocateSplit(ts, show, l, op, r);
      var a := UnsubstituteSum(left, show, e.left);
      var b := UnsubstituteTerm(right, show, e.right);
      SumStep(left, op, right, a, b);
      origin := Bin(e.op, a, b);
    }
  }

  lemma {:induction false} UnsubstituteTerm(ts: seq<Token>, show: Show, e: Expr) returns (origin: Expr)
    requires IsTerm(SubstituteTokens(ts, show), e) && !SignClash(ts, show)
    ensures IsTerm(ts, origin)
    decreases |ts|, 1
  {
    if IsFactor(SubstituteTokens(ts, show), e) {
      origin := UnsubstituteFactor(ts, show, e);
    } else {
      var l, op, r := TermSplit(SubstituteTokens(ts, show), e);
      TermEndsOperand(l, e.left);
      var left, right := LocateSplit(ts, show, l, op, r);
      var a := UnsubstituteTerm(left, show, e.left);
      var b := UnsubstituteFactor(right, show, e.right);
      TermStep(left, op, right, a, b);
      origin := Bin(e.op, a, b);
    }
  }

  lemma {:induction false} UnsubstituteFactor(ts: seq<Token>, show: Show, e: Expr) returns (origin: Expr)
    requires IsFactor(SubstituteTokens(ts, show), e) && !SignClash(ts, show)
    ensures IsFactor(ts, origin)
    decreases |ts|, 0
  {
    var all := SubstituteTokens(ts, show);
    if ts[0].Atom() {
      AtomStandsAlone(ts, show, e);
      origin := AtomOf(ts[0]);
    } else if SignOf(all[0]).Some? {
      assert all[1..] == SubstituteTokens(ts[1..], show);
      ClashInside(ts, [ts[0]], ts[1..], [], show);
      var inner := UnsubstituteFactor(ts[1..], show, e.operand);
      SignStep(ts[0], ts[1..], inner);
      assert [ts[0]] + ts[1..] == ts;
      origin := Unary(SignOf(ts[0]).value, inner);
    } else {
      var mid := UnsubstituteParens(ts, show);
      ClashInside(ts, [LParen], mid, [RParen], show);
      origin := UnsubstituteSum(mid, show, e);
      ParenStep(mid, origin);
    }
  }

  /** An atom that starts a factor is the whole factor. */
  lemma FactorFromAtom(ts: seq<Token>, e: Expr)
    requires ts != [] && ts[0].Atom() && IsFactor(ts, e)
    ensures |ts| == 1
  {
  }

  lemma AtomStandsAlone(ts: seq<Token>, show: Show, e: Expr)
    requires ts != [] && ts[0].Atom() && IsFactor(SubstituteTokens(ts, show), e)
    ensures |ts| == 1
  {
    var all := SubstituteTokens(ts, show);
    if all[0] == Minus {
      FactorFromAtom(all[1..], e.operand);
    } else {
      FactorFromAtom(all, e);
    }
    assert SubstituteTokens(ts[1..], show) == [];
  }

  lemma UnsubstituteParens(ts: seq<Token>, show: Show) returns (mid: seq<Token>)
    requires ts != [] && !ts[0].Var?
    requires var all := SubstituteTokens(ts, show); |all| > 2 && all[0] == LParen && all[|all| - 1] == RParen
    ensures ts == [LParen] + mid + [RParen]
    ensures SubstituteTokens(mid, show)
         == SubstituteTokens(ts, show)[1..|SubstituteTokens(ts, show)| - 1]
  {
    var n := |ts| - 1;
    SubstituteAppend(ts[..n], [ts[n]], show);
    assert ts == ts[..n] + [ts[n]];
    assert SubstituteTokens([ts[n]], show) == TokenTokens(ts[n], show) + SubstituteTokens([ts[n]][1..], show);
    mid := ts[1..n];
    assert ts[..n] == [ts[0]] + mid;
    assert SubstituteTokens([ts[0]] + mid, show) == [LParen] + SubstituteTokens(([ts[0]] + mid)[1..], show);
  }

  /**
   Exactly when an expression with placeholders is well formed: its substituted
   form is, and no negative value stands directly behind an operand.
   */
  lemma {:induction false} WellFormedExactly(ts: seq<Token>, show: Show)
    ensures Parse(ts).Some? <==> Parse(SubstituteTokens(ts, show)).Some? && !SignClash(ts, show)
  {
    if Parse(ts).Some? {
      SubstitutionCommutesWithParsing(ts, show);
      ParserDecidesGrammar(ts, Parse(ts).value);
      forall i | ClashAt(ts, i, show)
        ensures false
      {
        NoAdjacentOperands(ts, Parse(ts).value, i);
      }
    }
    if Parse(SubstituteTokens(ts, show)).Some? && !SignClash(ts, show) {
      var e := Parse(SubstituteTokens(ts, show)).value;
      ParserDecidesGrammar(SubstituteTokens(ts, show), e);
      var origin := UnsubstituteSum(ts, show, e);
      ParserDecidesGrammar(ts, origin);
    }
  }
}
