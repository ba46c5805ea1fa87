/**
  Tokens, syntax trees, and what it takes for a tree to be the reading of its own tokens
  under operator precedence.
 */
module Grammar {
  import opened Wrappers

  /** What the lexer delivers. The end of input is no token: the current token is then `None`. */
  datatype Token =
    | Def
    | Extern
    | Identifier(name: string)
    | Number(value: real)
    | Char(c: char)

  /** The tree the parser builds. */
  datatype Expr =
    | NumberExpr(value: real)
    | VariableExpr(name: string)
    | BinaryExpr(op: char, left: Expr, right: Expr)
    | CallExpr(callee: string, args: seq<Expr>)

  /** The same with its parentheses still in place. */
  datatype Tree =
    | Num(value: real)
    | Var(name: string)
    | Call(callee: string, args: seq<Tree>)
    | Paren(inner: Tree)
    | Bin(op: char, left: Tree, right: Tree)

  function Cur(s: seq<Token>): Option<Token> {
    if s == [] then None else Some(s[0])
  }

  /** The token stream behind the current token; the end repeats. */
  function Next(s: seq<Token>): (r: seq<Token>)
    ensures s != [] ==> |r| == |s| - 1 && s == [s[0]] + r
    ensures s == [] ==> r == []
  {
    if s == [] then [] else s[1..]
  }

  /** The installed operators. */
  function Precedence(c: char): int {
    if c == '<' then 10 else if c == '+' || c == '-' then 20 else if c == '*' then 40 else -1
  }

  /** Precedence of the current token, -1 if it is no operator. */
  function TokPrecedence(s: seq<Token>): int {
    if s != [] && s[0].Char? then Precedence(s[0].c) else -1
  }

  // ----- trees and their tokens -----

  function Strip(t: Tree): Expr {
    match t
    case Num(v) => NumberExpr(v)
    case Var(n) => VariableExpr(n)
    case Call(n, args) => CallExpr(n, StripAll(args))
    case Paren(x) => Strip(x)
    case Bin(op, l, r) => BinaryExpr(op, Strip(l), Strip(r))
  }

  function StripAll(ts: seq<Tree>): (es: seq<Expr>)
    ensures |es| == |ts| && forall i :: 0 <= i < |ts| ==> es[i] == Strip(ts[i])
  {
    if ts == [] then [] else [Strip(ts[0])] + StripAll(ts[1..])
  }

  function Yield(t: Tree): (s: seq<Token>)
    ensures s != []
  {
    match t
    case Num(v) => [Number(v)]
    case Var(n) => [Identifier(n)]
    case Call(n, args) => [Identifier(n), Char('(')] + YieldArgs(args) + [Char(')')]
    case Paren(x) => [Char('(')] + Yield(x) + [Char(')')]
    case Bin(op, l, r) => Yield(l) + [Char(op)] + Yield(r)
  }

  function YieldArgs(ts: seq<Tree>): seq<Token> {
    if ts == [] then []
    else if |ts| == 1 then Yield(ts[0])
    else Yield(ts[0]) + [Char(',')] + YieldArgs(ts[1..])
  }

  /** Binds tighter than every operator. */
  const ATOM := 100

  function TopPrec(t: Tree): int {
    if t.Bin? then Precedence(t.op) else ATOM
  }

  /** Operators are operators, left operands bind at least as tightly as their operator
      and right operands more tightly. */
  predicate WF(t: Tree) {
    match t
    case Num(_) => true
    case Var(_) => true
    case Call(_, args) => AllWF(args)
    case Paren(x) => WF(x)
    case Bin(op, l, r) =>
      && Precedence(op) > 0 && WF(l) && WF(r)
      && TopPrec(l) >= Precedence(op) && TopPrec(r) > Precedence(op)
  }

  predicate AllWF(ts: seq<Tree>) {
    ts == [] || (WF(ts[0]) && AllWF(ts[1..]))
  }

  predicate EndsInVariable(t: Tree) {
    match t
    case Var(_) => true
    case Bin(_, _, r) => EndsInVariable(r)
    case _ => false
  }

  /** What follows does not turn the last variable of `t` into a call. */
  predicate Closed(t: Tree, rest: seq<Token>) {
    EndsInVariable(t) ==> Cur(rest) != Some(Char('('))
  }

  lemma {:induction false} Regroup(a: seq<Token>, b: seq<Token>, c: seq<Token>, rest: seq<Token>)
    ensures a + (b + (c + rest)) == a + b + c + rest
  {
  }

  lemma {:induction false} FrontAndNext(s: seq<Token>)
    requires s != []
    ensures s == [s[0]] + Next(s)
  {
  }
}
