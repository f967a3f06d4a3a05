/**
 The arithmetic fragment of the Python grammar that computed registers use:
 sections 6.6 (unary) and 6.7 (binary arithmetic operations) of the Python
 Language Reference. `Parse` is a recursive-descent parser; the `Is...`
 predicates are the reference's left-recursive grammar rules, and the two are
 shown to agree on every token list.
 */
module ExpressionGrammar {
  import opened Prelude

  datatype Token =
    | Num(text: string)
    | Name(text: string)
    | Var(name: string)
    | Plus | Minus | Star | Slash | LParen | RParen
  {
    predicate Atom() { Num? || Name? || Var? }
  }

  datatype Op = Add | Sub | Mul | Div

  /** What `ast.parse` builds; a `{name}` placeholder is an atom of its own. */
  datatype Expr =
    | Lit(text: string)
    | NameRef(text: string)
    | VarRef(name: string)
    | Unary(negate: bool, operand: Expr)
    | Bin(op: Op, left: Expr, right: Expr)

  function AdditiveOp(t: Token): Option<Op> {
    if t == Plus then Some(Add) else if t == Minus then Some(Sub) else None
  }

  function MultiplicativeOp(t: Token): Option<Op> {
    if t == Star then Some(Mul) else if t == Slash then Some(Div) else None
  }

  function SignOf(t: Token): Option<bool> {
    if t == Plus then Some(false) else if t == Minus then Some(true) else None
  }

  function AtomOf(t: Token): Expr
    requires t.Atom()
  {
    match t
    case Num(text) => Lit(text)
    case Name(text) => NameRef(text)
    case Var(name) => VarRef(name)
  }

  // --- The parser ---

  function ParseSum(ts: seq<Token>): (r: Option<(Expr, seq<Token>)>)
    ensures r.Some? ==> |r.value.1| < |ts|
    decreases |ts|, 4
  {
    var (e, rest) :- ParseTerm(ts);
    SumTail(e, rest)
  }

  function SumTail(acc: Expr, ts: seq<Token>): (r: Option<(Expr, seq<Token>)>)
    ensures r.Some? ==> |r.value.1| <= |ts|
    decreases |ts|, 3
  {
    if ts != [] && AdditiveOp(ts[0]).Some? then
      var (e, rest) :- ParseTerm(ts[1..]);
      SumTail(Bin(AdditiveOp(ts[0]).value, acc, e), rest)
    else
      Some((acc, ts))
  }

  function ParseTerm(ts: seq<Token>): (r: Option<(Expr, seq<Token>)>)
    ensures r.Some? ==> |r.value.1| < |ts|
    decreases |ts|, 2
  {
    var (e, rest) :- ParseFactor(ts);
    TermTail(e, rest)
  }

  function TermTail(acc: Expr, ts: seq<Token>): (r: Option<(Expr, seq<Token>)>)
    ensures r.Some? ==> |r.value.1| <= |ts|
    decreases |ts|, 1
  {
    if ts != [] && MultiplicativeOp(ts[0]).Some? then
      var (e, rest) :- ParseFactor(ts[1..]);
      TermTail(Bin(MultiplicativeOp(ts[0]).value, acc, e), rest)
    else
      Some((acc, ts))
  }

  function ParseFactor(ts: seq<Token>): (r: Option<(Expr, seq<Token>)>)
    ensures r.Some? ==> |r.value.1| < |ts|
    decreases |ts|, 0
  {
    if ts == [] then None
    else if SignOf(ts[0]).Some? then
      var (e, rest) :- ParseFactor(ts[1..]);
      Some((Unary(SignOf(ts[0]).value, e), rest))
    else if ts[0] == LParen then
      var (e, rest) :- ParseSum(ts[1..]);
      if rest != [] && rest[0] == RParen then Some((e, rest[1..])) else None
    else if ts[0].Atom() then Some((AtomOf(ts[0]), ts[1..]))
    else None
  }

  /** The whole token list must be one expression. */
  function Parse(ts: seq<Token>): Option<Expr> {
    var (e, rest) :- ParseSum(ts);
    if rest == [] then Some(e) else None
  }

  // --- The grammar ---

  /** a_expr ::= m_expr | a_expr "+" m_expr | a_expr "-" m_expr */
  ghost predicate IsSum(ts: seq<Token>, e: Expr)
    decreases |ts|, 4
  {
    IsTerm(ts, e) || exists k :: SumAt(ts, e, k)
  }

  ghost predicate SumAt(ts: seq<Token>, e: Expr, k: int)
    decreases |ts|, 3
  {
    && 0 <= k < |ts| && e.Bin? && AdditiveOp(ts[k]) == Some(e.op)
    && IsSum(ts[..k], e.left) && IsTerm(ts[k + 1..], e.right)
  }

  /** m_expr ::= u_expr | m_expr "*" u_expr | m_expr "/" u_expr */
  ghost predicate IsTerm(ts: seq<Token>, e: Expr)
    decreases |ts|, 2
  {
    IsFactor(ts, e) || exists k :: TermAt(ts, e, k)
  }

  ghost predicate TermAt(ts: seq<Token>, e: Expr, k: int)
    decreases |ts|, 1
  {
    && 0 <= k < |ts| && e.Bin? && MultiplicativeOp(ts[k]) == Some(e.op)
    && IsTerm(ts[..k], e.left) && IsFactor(ts[k + 1..], e.right)
  }

  /** u_expr ::= atom | "-" u_expr | "+" u_expr, with atom ::= literal | name | "(" a_expr ")" */
  ghost predicate IsFactor(ts: seq<Token>, e: Expr)
    decreases |ts|, 0
  {
    || (|ts| == 1 && ts[0].Atom() && e == AtomOf(ts[0]))
    || (|ts| > 1 && e.Unary? && SignOf(ts[0]) == Some(e.negate) && IsFactor(ts[1..], e.operand))
    || (|ts| > 2 && ts[0] == LParen && ts[|ts| - 1] == RParen && IsSum(ts[1..|ts| - 1], e))
  }

  lemma SumStep(left: seq<Token>, op: Token, right: seq<Token>, l: Expr, r: Expr)
    requires AdditiveOp(op).Some? && IsSum(left, l) && IsTerm(right, r)
    ensures IsSum(left + [op] + right, Bin(AdditiveOp(op).value, l, r))
  {
    var ts := left + [op] + right;
    var k := |left|;
    assert ts[..k] == left && ts[k] == op && ts[k + 1..] == right;
    assert SumAt(ts, Bin(AdditiveOp(op).value, l, r), k);
  }

  lemma TermStep(left: seq<Token>, op: Token, right: seq<Token>, l: Expr, r: Expr)
    requires MultiplicativeOp(op).Some? && IsTerm(left, l) && IsFactor(right, r)
    ensures IsTerm(left + [op] + right, Bin(MultiplicativeOp(op).value, l, r))
  {
    var ts := left + [op] + right;
    var k := |left|;
    assert ts[..k] == left && ts[k] == op && ts[k + 1..] == right;
    assert TermAt(ts, Bin(MultiplicativeOp(op).value, l, r), k);
  }

  lemma SignStep(sign: Token, ts: seq<Token>, e: Expr)
    requires SignOf(sign).Some? && IsFactor(ts, e)
    ensures IsFactor([sign] + ts, Unary(SignOf(sign).value, e))
  {
    assert ([sign] + ts)[1..] == ts;
  }

  lemma ParenStep(ts: seq<Token>, e: Expr)
    requires IsSum(ts, e)
    ensures IsFactor([LParen] + ts + [RParen], e)
  {
    var all := [LParen] + ts + [RParen];
    assert all[1..|all| - 1] == ts;
    SumNonEmpty(ts, e);
  }

  lemma SumNonEmpty(ts: seq<Token>, e: Expr)
    requires IsSum(ts, e)
    ensures ts != []
  {
    if ts == [] {
      assert IsTerm(ts, e);
    }
  }

  lemma Regroup(pre: seq<Token>, ts: seq<Token>, next: seq<Token>, rest: seq<Token>)
    requires ts != [] && ts[1..] == next + rest
    ensures pre + ts == pre + [ts[0]] + next + rest
  {
    assert ts == [ts[0]] + ts[1..];
  }

  // --- Soundness: what the parser reads, the grammar derives ---

  lemma {:induction false} ParseSumSound(ts: seq<Token>) returns (read: seq<Token>)
    requires ParseSum(ts).Some?
    ensures ts == read + ParseSum(ts).value.1 && IsSum(read, ParseSum(ts).value.0)
    decreases |ts|, 4
  {
    var first := ParseTermSound(ts);
    var (e, rest) := ParseTerm(ts).value;
    read := SumTailSound(first, e, rest);
    assert ts == read + ParseSum(ts).value.1;
  }

  lemma {:induction false} SumTailSound(pre: seq<Token>, acc: Expr, ts: seq<Token>) returns (read: seq<Token>)
    requires IsSum(pre, acc) && SumTail(acc, ts).Some?
    ensures pre + ts == read + SumTail(acc, ts).value.1 && IsSum(read, SumTail(acc, ts).value.0)
    decreases |ts|, 3
  {
    if ts != [] && AdditiveOp(ts[0]).Some? {
      var next := ParseTermSound(ts[1..]);
      var (e, rest) := ParseTerm(ts[1..]).value;
      SumStep(pre, ts[0], next, acc, e);
      read := SumTailSound(pre + [ts[0]] + next, Bin(AdditiveOp(ts[0]).value, acc, e), rest);
      Regroup(pre, ts, next, rest);
    } else {
      read := pre;
    }
  }

  lemma {:induction false} ParseTermSound(ts: seq<Token>) returns (read: seq<Token>)
    requires ParseTerm(ts).Some?
    ensures ts == read + ParseTerm(ts).value.1 && IsTerm(read, ParseTerm(ts).value.0)
    decreases |ts|, 2
  {
    var first := ParseFactorSound(ts);
    var (e, rest) := ParseFactor(ts).value;
    read := TermTailSound(first, e, rest);
    assert ts == read + ParseTerm(ts).value.1;
  }

  lemma {:induction false} TermTailSound(pre: seq<Token>, acc: Expr, ts: seq<Token>) returns (read: seq<Token>)
    requires IsTerm(pre, acc) && TermTail(acc, ts).Some?
    ensures pre + ts == read + TermTail(acc, ts).value.1 && IsTerm(read, TermTail(acc, ts).value.0)
    decreases |ts|, 1
  {
    if ts != [] && MultiplicativeOp(ts[0]).Some? {
      var next := ParseFactorSound(ts[1..]);
      var (e, rest) := ParseFactor(ts[1..]).value;
      TermStep(pre, ts[0], next, acc, e);
      read := TermTailSound(pre + [ts[0]] + next, Bin(MultiplicativeOp(ts[0]).value, acc, e), rest);
      Regroup(pre, ts, next, rest);
    } else {
      read := pre;
    }
  }

  lemma {:induction false} ParseFactorSound(ts: seq<Token>) returns (read: seq<Token>)
    requires ParseFactor(ts).Some?
    ensures ts == read + ParseFactor(ts).value.1 && IsFactor(read, ParseFactor(ts).value.0)
    decreases |ts|, 0
  {
    var (e, rest) := ParseFactor(ts).value;
    if SignOf(ts[0]).Some? {
      var inner := ParseFactorSound(ts[1..]);
      SignStep(ts[0], inner, e.operand);
      read := [ts[0]] + inner;
    } else if ts[0] == LParen {
      var inner := ParseSumSound(ts[1..]);
      ParenStep(inner, e);
      read := [LParen] + inner + [RParen];
      assert ts == read + rest;
    } else {
      read := [ts[0]];
    }
  }

  // --- Completeness: what the grammar derives, the parser reads ---

  lemma Rejoin(left: seq<Token>, op: Token, right: seq<Token>, rest: seq<Token>)
    ensures left + [op] + right + rest == left + ([op] + (right + rest))
  {
  }

  lemma SumTailUnfolds(op: Token, ts: seq<Token>, rest: seq<Token>, l: Expr, r: Expr)
    requires AdditiveOp(op).Some? && ParseTerm(ts) == Some((r, rest))
    ensures SumTail(l, [op] + ts) == SumTail(Bin(AdditiveOp(op).value, l, r), rest)
  {
    assert ([op] + ts)[1..] == ts;
  }

  lemma TermTailUnfolds(op: Token, ts: seq<Token>, rest: seq<Token>, l: Expr, r: Expr)
    requires MultiplicativeOp(op).Some? && ParseFactor(ts) == Some((r, rest))
    ensures TermTail(l, [op] + ts) == TermTail(Bin(MultiplicativeOp(op).value, l, r), rest)
  {
    assert ([op] + ts)[1..] == ts;
  }

  lemma SumTailStep(left: seq<Token>, op: Token, right: seq<Token>, rest: seq<Token>, l: Expr, r: Expr)
    requires AdditiveOp(op).Some?
    requires ParseSum(left + ([op] + (right + rest))) == SumTail(l, [op] + (right + rest))
    requires ParseTerm(right + rest) == Some((r, rest))
    ensures ParseSum(left + [op] + right + rest) == SumTail(Bin(AdditiveOp(op).value, l, r), rest)
  {
    SumTailUnfolds(op, right + rest, rest, l, r);
    Rejoin(left, op, right, rest);
  }

  lemma TermTailStep(left: seq<Token>, op: Token, right: seq<Token>, rest: seq<Token>, l: Expr, r: Expr)
    requires MultiplicativeOp(op).Some?
    requires ParseTerm(left + ([op] + (right + rest))) == TermTail(l, [op] + (right + rest))
    requires ParseFactor(right + rest) == Some((r, rest))
    ensures ParseTerm(left + [op] + right + rest) == TermTail(Bin(MultiplicativeOp(op).value, l, r), rest)
  {
    TermTailUnfolds(op, right + rest, rest, l, r);
    Rejoin(left, op, right, rest);
  }

  lemma SumSplit(ts: seq<Token>, e: Expr) returns (left: seq<Token>, op: Token, right: seq<Token>)
    requires IsSum(ts, e) && !IsTerm(ts, e)
    ensures ts == left + [op] + right && e.Bin? && AdditiveOp(op) == Some(e.op)
    ensures IsSum(left, e.left) && IsTerm(right, e.right)
  {
    var k :| SumAt(ts, e, k);
    left, op, right := ts[..k], ts[k], ts[k + 1..];
  }

  lemma TermSplit(ts: seq<Token>, e: Expr) returns (left: seq<Token>, op: Token, right: seq<Token>)
    requires IsTerm(ts, e) && !IsFactor(ts, e)
    ensures ts == left + [op] + right && e.Bin? && MultiplicativeOp(op) == Some(e.op)
    ensures IsTerm(left, e.left) && IsFactor(right, e.right)
  {
    var k :| TermAt(ts, e, k);
    left, op, right := ts[..k], ts[k], ts[k + 1..];
  }

  lemma {:induction false} SumComplete(pre: seq<Token>, e: Expr, rest: seq<Token>)
    requires IsSum(pre, e)
    requires rest == [] || MultiplicativeOp(rest[0]).None?
    ensures ParseSum(pre + rest) == SumTail(e, rest)
    decreases |pre|, 2
  {
    if IsTerm(pre, e) {
      TermComplete(pre, e, rest);
      assert TermTail(e, rest) == Some((e, rest));
    } else {
      var left, op, right := SumSplit(pre, e);
      TermComplete(right, e.right, rest);
      assert TermTail(e.right, rest) == Some((e.right, rest));
      SumComplete(left, e.left, [op] + (right + rest));
      SumTailStep(left, op, right, rest, e.left, e.right);
    }
  }

  lemma {:induction false} TermComplete(pre: seq<Token>, e: Expr, rest: seq<Token>)
    requires IsTerm(pre, e)
    ensures ParseTerm(pre + rest) == TermTail(e, rest)
    decreases |pre|, 1
  {
    if IsFactor(pre, e) {
      FactorComplete(pre, e, rest);
    } else {
      var left, op, right := TermSplit(pre, e);
      FactorComplete(right, e.right, rest);
      TermComplete(left, e.left, [op] + (right + rest));
      TermTailStep(left, op, right, rest, e.left, e.right);
    }
  }

  lemma {:induction false} FactorComplete(pre: seq<Token>, e: Expr, rest: seq<Token>)
    requires IsFactor(pre, e)
    ensures ParseFactor(pre + rest) == Some((e, rest))
    decreases |pre|, 0
  {
    var ts := pre + rest;
    if |pre| == 1 {
      assert ts[1..] == rest;
    } else if e.Unary? && SignOf(pre[0]) == Some(e.negate) && IsFactor(pre[1..], e.operand) {
      assert ts[1..] == pre[1..] + rest;
      FactorComplete(pre[1..], e.operand, rest);
    } else {
      var inner := pre[1..|pre| - 1];
      assert ts[1..] == inner + ([RParen] + rest);
      SumComplete(inner, e, [RParen] + rest);
      assert ([RParen] + rest)[1..] == rest;
    }
  }

  /** The parser accepts exactly the expressions of the grammar, and builds their tree. */
  lemma {:induction false} ParserDecidesGrammar(ts: seq<Token>, e: Expr)
    ensures Parse(ts) == Some(e) <==> IsSum(ts, e)
  {
    if IsSum(ts, e) {
      SumComplete(ts, e, []);
      assert ts + [] == ts;
    }
    if Parse(ts) == Some(e) {
      var read := ParseSumSound(ts);
      assert read + [] == read;
    }
  }

  /** The grammar is unambiguous: no token list has two trees. */
  lemma GrammarUnambiguous(ts: seq<Token>, e1: Expr, e2: Expr)
    requires IsSum(ts, e1) && IsSum(ts, e2)
    ensures e1 == e2
  {
    ParserDecidesGrammar(ts, e1);
    ParserDecidesGrammar(ts, e2);
  }
}
