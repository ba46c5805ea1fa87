/**
  Writing an expression with no more parentheses than its precedences require, and getting
  the same expression back from the parser.
 */
module Printing {
  import opened Wrappers
  import opened Grammar
  import opened ExpressionParsing

  /** Parentheses around an operand that binds less tightly than `k`. */
  function Fence(k: int, t: Tree): Tree {
    if TopPrec(t) < k then Paren(t) else t
  }

  function Bracketed(e: Expr): Tree {
    match e
    case NumberExpr(v) => Num(v)
    case VariableExpr(n) => Var(n)
    case CallExpr(n, args) => Call(n, BracketedAll(args))
    case BinaryExpr(op, l, r) =>
      Bin(op, Fence(Precedence(op), Bracketed(l)), Fence(Precedence(op) + 1, Bracketed(r)))
  }

  function BracketedAll(es: seq<Expr>): (ts: seq<Tree>)
    ensures |ts| == |es|
  {
    if es == [] then [] else [Bracketed(es[0])] + BracketedAll(es[1..])
  }

  /** All operators are installed ones. */
  predicate Printable(e: Expr) {
    match e
    case BinaryExpr(op, l, r) => Precedence(op) > 0 && Printable(l) && Printable(r)
    case CallExpr(_, args) => PrintableAll(args)
    case _ => true
  }

  predicate PrintableAll(es: seq<Expr>) {
    es == [] || (Printable(es[0]) && PrintableAll(es[1..]))
  }

  lemma {:induction false} BracketedFits(e: Expr)
    requires Printable(e)
    ensures WF(Bracketed(e)) && Strip(Bracketed(e)) == e
    decreases e, 0
  {
    match e
    case BinaryExpr(op, l, r) =>
      BracketedFits(l);
      BracketedFits(r);
    case CallExpr(n, args) => BracketedAllFits(args);
    case _ =>
  }

  lemma {:induction false} BracketedAllFits(es: seq<Expr>)
    requires PrintableAll(es)
    ensures AllWF(BracketedAll(es)) && StripAll(BracketedAll(es)) == es
    decreases es, 1
  {
    if es != [] {
      BracketedFits(es[0]);
      BracketedAllFits(es[1..]);
      assert BracketedAll(es)[1..] == BracketedAll(es[1..]);
    }
  }

  /** Printing and parsing again gives back the expression and stops where the printed
      tokens end. */
  lemma {:induction false} PrintThenParse(e: Expr, rest: seq<Token>)
    requires Printable(e) && TokPrecedence(rest) < 0 && Cur(rest) != Some(Char('('))
    ensures var o := Expression(Yield(Bracketed(e)) + rest);
            o.Parsed? && Strip(o.tree) == e && o.rest == rest
  {
    BracketedFits(e);
    ExpressionComplete(Bracketed(e), rest);
  }

  /** Every expression the parser returns can be printed; so parsing, printing and parsing
      again changes nothing. */
  lemma {:induction false} ParsePrintParse(s: seq<Token>, rest: seq<Token>)
    requires Expression(s).Parsed? && TokPrecedence(rest) < 0 && Cur(rest) != Some(Char('('))
    ensures var e := Strip(Expression(s).tree);
            var o := Expression(Yield(Bracketed(e)) + rest);
            o.Parsed? && Strip(o.tree) == e && o.rest == rest
  {
    ExpressionSound(s);
    FewestTokens(Expression(s).tree);
    PrintThenParse(Strip(Expression(s).tree), rest);
  }

  /** No well-formed way of writing an expression is shorter. */
  lemma {:induction false} FewestTokens(t: Tree)
    requires WF(t)
    ensures Printable(Strip(t)) && |Yield(Bracketed(Strip(t)))| <= |Yield(t)|
    decreases t, 0
  {
    match t
    case Num(_) =>
    case Var(_) =>
    case Paren(x) => FewestTokens(x);
    case Call(n, args) => FewestArgTokens(args);
    case Bin(op, l, r) =>
      FewestFenced(Precedence(op), l);
      FewestFenced(Precedence(op) + 1, r);
  }

  /** An operand that binds tightly enough is at least as long as its fenced minimum. */
  lemma {:induction false} FewestFenced(k: int, t: Tree)
    requires WF(t) && TopPrec(t) >= k && k <= ATOM
    ensures Printable(Strip(t)) && |Yield(Fence(k, Bracketed(Strip(t))))| <= |Yield(t)|
    decreases t, 1
  {
    FewestTokens(t);
    if t.Paren? { FewestTokens(t.inner); }
  }

  lemma {:induction false} FewestArgTokens(ts: seq<Tree>)
    requires AllWF(ts)
    ensures PrintableAll(StripAll(ts)) && |YieldArgs(BracketedAll(StripAll(ts)))| <= |YieldArgs(ts)|
    decreases ts, 2
  {
    if ts != [] {
      FewestTokens(ts[0]);
      FewestArgTokens(ts[1..]);
      assert StripAll(ts)[1..] == StripAll(ts[1..]);
      assert BracketedAll(StripAll(ts))[1..] == BracketedAll(StripAll(ts[1..]));
    }
  }
}
