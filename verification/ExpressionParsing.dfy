/**
  Operator-precedence parsing as functions on token sequences, and what they mean: a parse
  is the one well-formed tree that spells a prefix of the input and cannot be continued.
 */
module ExpressionParsing {
  import opened Wrappers
  import opened Grammar

  /** A tree and the tokens behind it, or the tokens at which parsing gave up. */
  datatype Outcome =
    | Parsed(tree: Tree, rest: seq<Token>)
    | Failed(rest: seq<Token>)

  datatype ArgsOutcome =
    | ArgsParsed(args: seq<Tree>, rest: seq<Token>)
    | ArgsFailed(rest: seq<Token>)

  function Primary(s: seq<Token>): (o: Outcome)
    ensures |o.rest| <= |s| && (o.Parsed? ==> |o.rest| < |s|)
    decreases |s|, 1
  {
    match Cur(s)
    case Some(Identifier(n)) => IdentifierExpr(n, s)
    case Some(Number(v)) => Parsed(Num(v), Next(s))
    case Some(Char(c)) => if c == '(' then ParenExpr(s) else Failed(s)
    case _ => Failed(s)
  }

  function ParenExpr(s: seq<Token>): (o: Outcome)
    requires s != []
    ensures |o.rest| < |s|
    decreases |s|, 0
  {
    match Expression(Next(s))
    case Failed(r) => Failed(r)
    case Parsed(t, r) => if Cur(r) == Some(Char(')')) then Parsed(Paren(t), Next(r)) else Failed(r)
  }

  function IdentifierExpr(n: string, s: seq<Token>): (o: Outcome)
    requires s != []
    ensures |o.rest| < |s|
    decreases |s|, 0
  {
    var r := Next(s);
    if Cur(r) != Some(Char('(')) then Parsed(Var(n), r)
    else if Cur(Next(r)) == Some(Char(')')) then Parsed(Call(n, []), Next(Next(r)))
    else
      match Arguments(Next(r))
      case ArgsFailed(q) => Failed(q)
      case ArgsParsed(args, q) => Parsed(Call(n, args), Next(q))
  }

  /** One or more expressions with commas between; stops at the closing parenthesis. */
  function Arguments(s: seq<Token>): (o: ArgsOutcome)
    ensures |o.rest| <= |s|
    ensures o.ArgsParsed? ==> o.args != [] && Cur(o.rest) == Some(Char(')'))
    decreases |s|, 3
  {
    match Expression(s)
    case Failed(r) => ArgsFailed(r)
    case Parsed(t, r) =>
      if Cur(r) == Some(Char(')')) then ArgsParsed([t], r)
      else if Cur(r) != Some(Char(',')) then ArgsFailed(r)
      else
        match Arguments(Next(r))
        case ArgsFailed(q) => ArgsFailed(q)
        case ArgsParsed(ts, q) => ArgsParsed([t] + ts, q)
  }

  /** Continue `left` with operators of precedence `k` and up. */
  function BinOpRHS(k: nat, left: Tree, s: seq<Token>): (o: Outcome)
    ensures |o.rest| <= |s|
    decreases |s|, 0
  {
    if TokPrecedence(s) < k then Parsed(left, s)
    else
      match Primary(Next(s))
      case Failed(r) => Failed(r)
      case Parsed(p, r) =>
        if TokPrecedence(s) < TokPrecedence(r) then
          match BinOpRHS(TokPrecedence(s) + 1, p, r)
          case Failed(q) => Failed(q)
          case Parsed(p', r') => BinOpRHS(k, Bin(s[0].c, left, p'), r')
        else BinOpRHS(k, Bin(s[0].c, left, p), r)
  }

  /** A primary continued with operators of precedence `k` and up. */
  function Climb(k: nat, s: seq<Token>): (o: Outcome)
    ensures |o.rest| <= |s| && (o.Parsed? ==> |o.rest| < |s|)
    decreases |s|, 2
  {
    match Primary(s)
    case Failed(r) => Failed(r)
    case Parsed(p, r) => BinOpRHS(k, p, r)
  }

  function Expression(s: seq<Token>): (o: Outcome)
    ensures |o.rest| <= |s| && (o.Parsed? ==> |o.rest| < |s|)
    decreases |s|, 2
  {
    match Primary(s)
    case Failed(r) => Failed(r)
    case Parsed(p, r) => BinOpRHS(0, p, r)
  }

  // ----- soundness -----

  lemma {:induction false} PrimarySound(s: seq<Token>)
    requires Primary(s).Parsed?
    ensures var Parsed(t, r) := Primary(s);
            s == Yield(t) + r && WF(t) && !t.Bin? && Closed(t, r)
    decreases |s|, 1
  {
    match Cur(s)
    case Some(Identifier(n)) => IdentifierSound(n, s);
    case Some(Number(v)) =>
    case Some(Char(c)) => ParenSound(s);
  }

  lemma {:induction false} ParenSound(s: seq<Token>)
    requires Cur(s) == Some(Char('(')) && ParenExpr(s).Parsed?
    ensures var Parsed(t, r) := ParenExpr(s);
            s == Yield(t) + r && WF(t) && t.Paren?
    decreases |s|, 0
  {
    ExpressionSound(Next(s));
    var Parsed(t, r) := Expression(Next(s));
    assert s == [Char('(')] + Yield(t) + [Char(')')] + Next(r);
  }

  /** The tokens of a call, closed by the first token of `q`. */
  lemma {:induction false} CallSpells(n: string, args: seq<Tree>, s: seq<Token>, q: seq<Token>)
    requires Cur(s) == Some(Identifier(n)) && Cur(Next(s)) == Some(Char('(')) && Cur(q) == Some(Char(')'))
    requires Next(Next(s)) == YieldArgs(args) + q
    ensures s == Yield(Call(n, args)) + Next(q)
  {
    var a, b, c := [Identifier(n), Char('(')], YieldArgs(args), [Char(')')];
    assert s == [Identifier(n)] + ([Char('(')] + Next(Next(s)));
    assert s == a + (b + (c + Next(q)));
    Regroup(a, b, c, Next(q));
  }

  lemma {:induction false} IdentifierSound(n: string, s: seq<Token>)
    requires Cur(s) == Some(Identifier(n)) && IdentifierExpr(n, s).Parsed?
    ensures var Parsed(t, r) := IdentifierExpr(n, s);
            s == Yield(t) + r && WF(t) && !t.Bin? && Closed(t, r)
    decreases |s|, 0
  {
    var r := Next(s);
    if Cur(r) == Some(Char('(')) {
      var inside := Next(r);
      if Cur(inside) == Some(Char(')')) {
        assert YieldArgs([]) + inside == inside;
        CallSpells(n, [], s, inside);
      } else {
        ArgumentsSound(inside);
        var ArgsParsed(args, q) := Arguments(inside);
        CallSpells(n, args, s, q);
      }
    }
  }

  lemma {:induction false} ArgumentsSound(s: seq<Token>)
    requires Arguments(s).ArgsParsed?
    ensures var ArgsParsed(args, r) := Arguments(s);
            s == YieldArgs(args) + r && AllWF(args)
    decreases |s|, 3
  {
    ExpressionSound(s);
    var Parsed(t, r) := Expression(s);
    if Cur(r) == Some(Char(')')) {
      assert AllWF([t]);
    } else {
      ArgumentsSound(Next(r));
      var ArgsParsed(ts, q) := Arguments(Next(r));
      FrontAndNext(r);
      Regroup(Yield(t), [Char(',')], YieldArgs(ts), q);
    }
  }

  /** Started on a well-formed left operand that binds tightly enough, the loop ends with a
      well-formed tree for all it read, at a token that cannot continue it. */
  lemma {:induction false} BinOpRHSSound(k: nat, left: Tree, s: seq<Token>)
    requires BinOpRHS(k, left, s).Parsed?
    requires WF(left) && Closed(left, s) && TopPrec(left) >= k && TopPrec(left) >= TokPrecedence(s)
    ensures var Parsed(t, r) := BinOpRHS(k, left, s);
            && Yield(left) + s == Yield(t) + r
            && WF(t) && Closed(t, r) && TopPrec(t) >= k && TokPrecedence(r) < k
    decreases |s|, 1
  {
    if TokPrecedence(s) >= k {
      var right, q := RightSound(s);
      var op := s[0].c;
      BinYield(op, left, right, s, q);
      BinOpRHSSound(k, Bin(op, left, right), q);
    }
  }

  lemma {:induction false} BinYield(op: char, left: Tree, right: Tree, s: seq<Token>, rest: seq<Token>)
    requires s != [] && s[0] == Char(op) && Next(s) == Yield(right) + rest
    ensures Yield(left) + s == Yield(Bin(op, left, right)) + rest
  {
    assert s == [Char(op)] + (Yield(right) + rest);
  }

  /** The right operand read behind an operator binds more tightly than it, and what follows
      does not. */
  lemma {:induction false} RightSound(s: seq<Token>) returns (right: Tree, q: seq<Token>)
    requires TokPrecedence(s) >= 0 && Primary(Next(s)).Parsed?
    requires var Parsed(p, r) := Primary(Next(s));
             TokPrecedence(s) < TokPrecedence(r) ==> BinOpRHS(TokPrecedence(s) + 1, p, r).Parsed?
    ensures var Parsed(p, r) := Primary(Next(s));
            Parsed(right, q) ==
            if TokPrecedence(s) < TokPrecedence(r) then BinOpRHS(TokPrecedence(s) + 1, p, r) else Parsed(p, r)
    ensures Next(s) == Yield(right) + q
    ensures WF(right) && Closed(right, q) && TopPrec(right) > TokPrecedence(s) >= TokPrecedence(q)
    ensures |q| < |s|
    decreases |s|, 0
  {
    PrimarySound(Next(s));
    var Parsed(p, r) := Primary(Next(s));
    right, q := p, r;
    if TokPrecedence(s) < TokPrecedence(r) {
      BinOpRHSSound(TokPrecedence(s) + 1, p, r);
      var Parsed(p', r') := BinOpRHS(TokPrecedence(s) + 1, p, r);
      right, q := p', r';
    }
  }

  lemma {:induction false} ExpressionSound(s: seq<Token>)
    requires Expression(s).Parsed?
    ensures var Parsed(t, r) := Expression(s);
            s == Yield(t) + r && WF(t) && Closed(t, r) && TokPrecedence(r) < 0
    decreases |s|, 2
  {
    PrimarySound(s);
    var Parsed(p, r) := Primary(s);
    BinOpRHSSound(0, p, r);
  }

  // ----- completeness -----

  /** The primary a tree's tokens begin with. */
  function First(t: Tree): (p: Tree)
    ensures !p.Bin?
  {
    if t.Bin? then First(t.left) else t
  }

  /** The tokens behind it. */
  function Tail(t: Tree): seq<Token> {
    if t.Bin? then Tail(t.left) + [Char(t.op)] + Yield(t.right) else []
  }

  lemma {:induction false} FirstAndTail(t: Tree)
    requires WF(t)
    ensures Yield(t) == Yield(First(t)) + Tail(t) && WF(First(t))
    ensures t.Bin? ==> Tail(t) != [] && Tail(t)[0].Char? && Precedence(Tail(t)[0].c) >= TopPrec(t)
    decreases t
  {
    if t.Bin? { FirstAndTail(t.left); }
  }

  lemma {:induction false} FirstSmaller(t: Tree)
    ensures First(t) == t || First(t) < t
    decreases t
  {
    if t.Bin? { FirstSmaller(t.left); }
  }

  /** A well-formed primary is read back. */
  lemma {:induction false} PrimaryComplete(t: Tree, rest: seq<Token>)
    requires WF(t) && !t.Bin? && Closed(t, rest)
    ensures Primary(Yield(t) + rest) == Parsed(t, rest)
    decreases t, 0
  {
    var s := Yield(t) + rest;
    match t
    case Num(v) => assert Next(s) == rest;
    case Var(n) => assert Next(s) == rest;
    case Paren(x) => ParenComplete(x, rest);
    case Call(n, args) => CallComplete(n, args, rest);
  }

  lemma {:induction false} ParenComplete(x: Tree, rest: seq<Token>)
    requires WF(x)
    ensures Primary(Yield(Paren(x)) + rest) == Parsed(Paren(x), rest)
    decreases x, 4
  {
    var s := Yield(Paren(x)) + rest;
    var closing := [Char(')')] + rest;
    assert Next(s) == Yield(x) + closing;
    assert Next(closing) == rest;
    ExpressionComplete(x, closing);
  }

  lemma {:induction false} CallComplete(n: string, args: seq<Tree>, rest: seq<Token>)
    requires AllWF(args)
    ensures Primary(Yield(Call(n, args)) + rest) == Parsed(Call(n, args), rest)
    decreases args, 1
  {
    var s := Yield(Call(n, args)) + rest;
    var closing := [Char(')')] + rest;
    assert s == [Identifier(n)] + ([Char('(')] + (YieldArgs(args) + closing));
    assert Next(s) == [Char('(')] + (YieldArgs(args) + closing);
    assert Next(Next(s)) == YieldArgs(args) + closing;
    assert Next(closing) == rest;
    if args != [] {
      ArgsBegin(args);
      ArgumentsComplete(args, rest);
    }
  }

  /** No expression begins with a closing parenthesis. */
  lemma {:induction false} YieldBegins(t: Tree)
    ensures Yield(t)[0] != Char(')')
    decreases t
  {
    if t.Bin? { YieldBegins(t.left); }
  }

  lemma {:induction false} ArgsBegin(ts: seq<Tree>)
    requires ts != []
    ensures YieldArgs(ts) != [] && YieldArgs(ts)[0] != Char(')')
  {
    YieldBegins(ts[0]);
  }

  lemma {:induction false} ArgumentsComplete(ts: seq<Tree>, rest: seq<Token>)
    requires ts != [] && AllWF(ts)
    ensures Arguments(YieldArgs(ts) + ([Char(')')] + rest)) == ArgsParsed(ts, [Char(')')] + rest)
    decreases ts, 0
  {
    var closing := [Char(')')] + rest;
    var s := YieldArgs(ts) + closing;
    if |ts| == 1 {
      ExpressionComplete(ts[0], closing);
      assert ts == [ts[0]];
    } else {
      var more := [Char(',')] + (YieldArgs(ts[1..]) + closing);
      Regroup(Yield(ts[0]), [Char(',')], YieldArgs(ts[1..]), closing);
      ExpressionComplete(ts[0], more);
      ArgumentsComplete(ts[1..], rest);
      assert Next(more) == YieldArgs(ts[1..]) + closing;
      assert ts == [ts[0]] + ts[1..];
    }
  }

  /** Climbing over the tokens of a tree that binds tightly enough is the same as
      having that tree on the left already. */
  lemma {:induction false} ClimbThrough(k: nat, t: Tree, rest: seq<Token>)
    requires WF(t) && Closed(t, rest) && TopPrec(t) >= k && TokPrecedence(rest) <= TopPrec(t)
    ensures Climb(k, Yield(t) + rest) == BinOpRHS(k, t, rest)
    decreases t, 1
  {
    if !t.Bin? {
      PrimaryComplete(t, rest);
    } else {
      var prec := Precedence(t.op);
      var behind := [Char(t.op)] + (Yield(t.right) + rest);
      assert Yield(t) + rest == Yield(t.left) + behind;
      ClimbThrough(k, t.left, behind);
      assert Next(behind) == Yield(t.right) + rest;
      RightOperand(prec, t.right, rest);
    }
  }

  /** The right operand of an operator of precedence `prec`: its first primary, and the rest
      by a nested climb exactly when there is more. */
  lemma {:induction false} RightOperand(prec: nat, t: Tree, rest: seq<Token>)
    requires WF(t) && Closed(t, rest) && TopPrec(t) > prec && TokPrecedence(rest) <= prec
    ensures var o := Primary(Yield(t) + rest);
            && o.Parsed?
            && if prec < TokPrecedence(o.rest) then BinOpRHS(prec + 1, o.tree, o.rest) == Parsed(t, rest)
               else o == Parsed(t, rest)
    decreases t, 2
  {
    if !t.Bin? {
      PrimaryComplete(t, rest);
    } else {
      ClimbThrough(prec + 1, t, rest);
      FirstComplete(t, rest);
    }
  }

  lemma {:induction false} FirstComplete(t: Tree, rest: seq<Token>)
    requires WF(t) && t.Bin?
    ensures Primary(Yield(t) + rest) == Parsed(First(t), Tail(t) + rest)
    ensures TokPrecedence(Tail(t) + rest) >= TopPrec(t)
    decreases t, 0
  {
    FirstAndTail(t);
    FirstSmaller(t);
    assert Yield(t) + rest == Yield(First(t)) + (Tail(t) + rest);
    PrimaryComplete(First(t), Tail(t) + rest);
  }

  lemma {:induction false} ExpressionComplete(t: Tree, rest: seq<Token>)
    requires WF(t) && Closed(t, rest) && TokPrecedence(rest) < 0
    ensures Expression(Yield(t) + rest) == Parsed(t, rest)
    decreases t, 3
  {
    ClimbThrough(0, t, rest);
  }

  // ----- what a parse is -----

  /** `t` spells `s` up to `rest`, is well formed, and nothing in `rest` continues it. */
  predicate Reads(s: seq<Token>, t: Tree, rest: seq<Token>) {
    s == Yield(t) + rest && WF(t) && Closed(t, rest) && TokPrecedence(rest) < 0
  }

  /** Parsing succeeds exactly with the readings of the input. */
  lemma {:induction false} ParsesExactlyReadings(s: seq<Token>, t: Tree, rest: seq<Token>)
    ensures Expression(s) == Parsed(t, rest) <==> Reads(s, t, rest)
  {
    if Expression(s) == Parsed(t, rest) { ExpressionSound(s); }
    if Reads(s, t, rest) { ExpressionComplete(t, rest); }
  }

  /** Hence there is at most one, and failure means there is none. */
  lemma {:induction false} OneReading(s: seq<Token>, t: Tree, rest: seq<Token>, t': Tree, rest': seq<Token>)
    requires Reads(s, t, rest) && Reads(s, t', rest')
    ensures t == t' && rest == rest'
  {
    ParsesExactlyReadings(s, t, rest);
    ParsesExactlyReadings(s, t', rest');
  }

  lemma {:induction false} FailsWithoutReading(s: seq<Token>)
    ensures Expression(s).Failed? <==> forall t, rest :: !Reads(s, t, rest)
  {
    if Expression(s).Parsed? {
      ParsesExactlyReadings(s, Expression(s).tree, Expression(s).rest);
    } else {
      forall t, rest
        ensures !Reads(s, t, rest)
      {
        ParsesExactlyReadings(s, t, rest);
      }
    }
  }
}
