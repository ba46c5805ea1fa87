/**
  How the four operators bind, said of tokens and trees: multiplication before addition and
  subtraction, these before comparison, and to the left among equals.
 */
module OperatorBinding {
  import opened Wrappers
  import opened Grammar
  import opened ExpressionParsing

  predicate IsOperator(c: char) {
    c == '<' || c == '+' || c == '-' || c == '*'
  }

  /** Binds more tightly than. */
  predicate Tighter(c: char, d: char) {
    (c == '*' && d != '*') || ((c == '+' || c == '-') && d == '<')
  }

  /** What can stand behind a whole expression: nothing, or a token that is no operator and no
      opening parenthesis. */
  predicate Ends(rest: seq<Token>) {
    rest == [] || !rest[0].Char? || (!IsOperator(rest[0].c) && rest[0].c != '(')
  }

  /** A number, a variable, a call, or an expression in parentheses. */
  predicate Operand(t: Tree) {
    WF(t) && !t.Bin?
  }

  lemma {:induction false} EndsAll(t: Tree, rest: seq<Token>)
    requires Ends(rest)
    ensures Closed(t, rest) && TokPrecedence(rest) < 0
  {
  }

  /** One operator. */
  lemma {:induction false} ParsesOne(a: Tree, op: char, b: Tree, rest: seq<Token>)
    requires Operand(a) && Operand(b) && IsOperator(op) && Ends(rest)
    ensures Expression(Yield(a) + [Char(op)] + Yield(b) + rest) == Parsed(Bin(op, a, b), rest)
  {
    var t := Bin(op, a, b);
    EndsAll(t, rest);
    ExpressionComplete(t, rest);
  }

  /** Two operators: the operand between them belongs to the second one exactly if that binds
      more tightly. */
  lemma {:induction false} ParsesTwo(a: Tree, op: char, b: Tree, op': char, c: Tree, rest: seq<Token>)
    requires Operand(a) && Operand(b) && Operand(c) && IsOperator(op) && IsOperator(op') && Ends(rest)
    ensures Expression(Yield(a) + [Char(op)] + Yield(b) + [Char(op')] + Yield(c) + rest) ==
            Parsed(if Tighter(op', op) then Bin(op, a, Bin(op', b, c)) else Bin(op', Bin(op, a, b), c), rest)
  {
    var t := if Tighter(op', op) then Bin(op, a, Bin(op', b, c)) else Bin(op', Bin(op, a, b), c);
    assert Yield(t) == Yield(a) + [Char(op)] + Yield(b) + [Char(op')] + Yield(c);
    EndsAll(t, rest);
    ExpressionComplete(t, rest);
  }

  /** Every other token ends an expression. */
  lemma {:induction false} ParsesUpTo(a: Tree, rest: seq<Token>)
    requires Operand(a) && Ends(rest)
    ensures Expression(Yield(a) + rest) == Parsed(a, rest)
  {
    EndsAll(a, rest);
    ExpressionComplete(a, rest);
  }

  /** In a parsed expression, whatever its size, an operand of an operator is itself an operation
      without parentheses only if that binds more tightly, or as tightly and stands on the left. */
  predicate Grouped(t: Tree) {
    match t
    case Num(_) => true
    case Var(_) => true
    case Call(_, args) => AllGrouped(args)
    case Paren(x) => Grouped(x)
    case Bin(op, l, r) =>
      && IsOperator(op) && Grouped(l) && Grouped(r)
      && (l.Bin? ==> !Tighter(op, l.op))
      && (r.Bin? ==> Tighter(r.op, op))
  }

  predicate AllGrouped(ts: seq<Tree>) {
    ts == [] || (Grouped(ts[0]) && AllGrouped(ts[1..]))
  }

  lemma {:induction false} GroupedIsWF(t: Tree)
    ensures Grouped(t) <==> WF(t)
  {
    match t
    case Num(_) =>
    case Var(_) =>
    case Call(_, args) => AllGroupedIsWF(args);
    case Paren(x) => GroupedIsWF(x);
    case Bin(op, l, r) =>
      GroupedIsWF(l);
      GroupedIsWF(r);
  }

  lemma {:induction false} AllGroupedIsWF(ts: seq<Tree>)
    ensures AllGrouped(ts) <==> AllWF(ts)
  {
    if ts != [] {
      GroupedIsWF(ts[0]);
      AllGroupedIsWF(ts[1..]);
    }
  }

  /** Parsing succeeds exactly with a tree so grouped that spells the input up to a token that
      cannot continue it. */
  lemma {:induction false} ParsesExactlyGrouped(s: seq<Token>, t: Tree, rest: seq<Token>)
    ensures Expression(s) == Parsed(t, rest) <==>
            && s == Yield(t) + rest && Grouped(t)
            && !(rest != [] && rest[0].Char? && IsOperator(rest[0].c))
            && (EndsInVariable(t) ==> Cur(rest) != Some(Char('(')))
  {
    GroupedIsWF(t);
    ParsesExactlyReadings(s, t, rest);
  }
}
