/**
  The recursive-descent parser itself: methods that advance the current token, each doing
  what the functions of `ExpressionParsing` and `TopLevelParsing` say.
 */
module KaleidoscopeParser {
  import opened Wrappers
  import opened Grammar
  import opened ExpressionParsing
  import opened TopLevelParsing

  datatype FunctionAST = FunctionAST(proto: Proto, body: Expr)

  /** The line a handler writes when it succeeds. */
  datatype Report = DefinitionParsed | ExternParsed | ExpressionParsed

  /** A null pointer for a failed parse, else the tree without its parentheses. */
  predicate Gives(o: Outcome, e: Option<Expr>, rest: seq<Token>) {
    && rest == o.rest
    && e == if o.Parsed? then Some(Strip(o.tree)) else None
  }

  /** `ts` in front of what an argument list still yields. */
  function Prepend(ts: seq<Tree>, o: ArgsOutcome): ArgsOutcome {
    match o
    case ArgsParsed(us, r) => ArgsParsed(ts + us, r)
    case ArgsFailed(r) => ArgsFailed(r)
  }

  lemma {:induction false} ArgumentsStep(ts: seq<Tree>, s: seq<Token>)
    requires Expression(s).Parsed?
    ensures var Parsed(t, r) := Expression(s);
            && StripAll(ts + [t]) == StripAll(ts) + [Strip(t)]
            && Prepend(ts, Arguments(s)) ==
               if Cur(r) == Some(Char(')')) then ArgsParsed(ts + [t], r)
               else if Cur(r) == Some(Char(',')) then Prepend(ts + [t], Arguments(Next(r)))
               else ArgsFailed(r)
  {
    var Parsed(t, r) := Expression(s);
    if Cur(r) == Some(Char(',')) && Arguments(Next(r)).ArgsParsed? {
      assert ts + ([t] + Arguments(Next(r)).args) == ts + [t] + Arguments(Next(r)).args;
    }
  }

  function ReportOf(item: Item): seq<Report> {
    match item
    case Definition(_, _) => [DefinitionParsed]
    case External(_) => [ExternParsed]
    case TopExpr(_) => [ExpressionParsed]
    case _ => []
  }

  function Reports(items: seq<Item>): seq<Report> {
    if items == [] then [] else ReportOf(items[0]) + Reports(items[1..])
  }

  lemma {:induction false} ReportsStep(s: seq<Token>)
    requires s != []
    ensures Reports(Items(s)) == ReportOf(ReadItem(s).item) + Reports(Items(ReadItem(s).rest))
  {
    ItemsStep(s);
  }

  lemma {:induction false} ItemsStep(s: seq<Token>)
    requires s != []
    ensures Items(s) != [] && Items(s)[0] == ReadItem(s).item && Items(s)[1..] == Items(ReadItem(s).rest)
  {
  }

  lemma {:induction false} NextName(s: seq<Token>, i: nat)
    requires i < |s| && s[i].Identifier?
    ensures Next(s[i..]) == s[i + 1..] && LeadingNames(s[i..]) == [s[i].name] + LeadingNames(s[i + 1..])
  {
    assert s[i..][1..] == s[i + 1..];
  }

  class Parser {
    /** The current token and everything the lexer will still deliver. */
    var rest: seq<Token>

    constructor (tokens: seq<Token>)
      ensures rest == tokens
    {
      rest := tokens;
    }

    method GetNextToken()
      modifies this
      ensures rest == Next(old(rest))
    {
      rest := Next(rest);
    }

    method ParseNumberExpr(value: real) returns (e: Option<Expr>)
      requires Cur(rest) == Some(Number(value))
      modifies this
      ensures Gives(Primary(old(rest)), e, rest)
      decreases |rest|, 0
    {
      e := Some(NumberExpr(value));
      GetNextToken();
    }

    method ParseParenExpr() returns (e: Option<Expr>)
      requires Cur(rest) == Some(Char('('))
      modifies this
      ensures Gives(ParenExpr(old(rest)), e, rest)
      decreases |rest|, 0
    {
      GetNextToken();
      e := ParseExpression();
      if e == None {
        return;
      }
      if Cur(rest) != Some(Char(')')) {
        return None;
      }
      GetNextToken();
    }

    method ParseIdentifierExpr(name: string) returns (e: Option<Expr>)
      requires Cur(rest) == Some(Identifier(name))
      modifies this
      ensures Gives(IdentifierExpr(name, old(rest)), e, rest)
      decreases |rest|, 0
    {
      GetNextToken();
      if Cur(rest) != Some(Char('(')) {
        return Some(VariableExpr(name));
      }
      GetNextToken();
      var args: seq<Expr> := [];
      if Cur(rest) != Some(Char(')')) {
        var ok;
        ok, args := ParseArguments();
        if !ok {
          return None;
        }
      }
      GetNextToken();
      e := Some(CallExpr(name, args));
    }

    /** The loop over the arguments of a call. */
    method ParseArguments() returns (ok: bool, args: seq<Expr>)
      modifies this
      ensures var o := Arguments(old(rest));
              rest == o.rest && ok == o.ArgsParsed? && (ok ==> args == StripAll(o.args))
      decreases |rest|, 3
    {
      args := [];
      ghost var trees: seq<Tree> := [];
      while true
        invariant |rest| <= |old(rest)|
        invariant args == StripAll(trees)
        invariant Arguments(old(rest)) == Prepend(trees, Arguments(rest))
        decreases |rest|
      {
        label L:
        ghost var tree := Expression(rest);
        var arg := ParseExpression();
        if arg == None {
          return false, args;
        }
        ArgumentsStep(trees, old@L(rest));
        args := args + [arg.value];
        trees := trees + [tree.tree];
        if Cur(rest) == Some(Char(')')) {
          return true, args;
        }
        if Cur(rest) != Some(Char(',')) {
          return false, args;
        }
        GetNextToken();
      }
    }

    method ParsePrimary() returns (e: Option<Expr>)
      modifies this
      ensures Gives(Primary(old(rest)), e, rest)
      decreases |rest|, 1
    {
      match Cur(rest)
      case Some(Identifier(name)) => e := ParseIdentifierExpr(name);
      case Some(Number(value)) => e := ParseNumberExpr(value);
      case Some(Char(c)) =>
        if c == '(' {
          e := ParseParenExpr();
        } else {
          e := None;
        }
      case _ => e := None;
    }

    /** Combines `lhs` with operators of precedence `exprPrec` and up. `left` is `lhs` with
        its parentheses. */
    method ParseBinOpRHS(exprPrec: nat, lhs: Expr, ghost left: Tree) returns (e: Option<Expr>)
      requires lhs == Strip(left)
      modifies this
      ensures Gives(BinOpRHS(exprPrec, left, old(rest)), e, rest)
      decreases |rest|, 0
    {
      var expr := lhs;
      ghost var tree := left;
      while true
        invariant |rest| <= |old(rest)|
        invariant expr == Strip(tree)
        invariant BinOpRHS(exprPrec, left, old(rest)) == BinOpRHS(exprPrec, tree, rest)
        decreases |rest|
      {
        var tokPrec := TokPrecedence(rest);
        if tokPrec < exprPrec {
          return Some(expr);
        }
        var binOp := rest[0].c;
        GetNextToken();
        ghost var right := Primary(rest);
        var rhs := ParsePrimary();
        if rhs == None {
          return None;
        }
        var nextPrec := TokPrecedence(rest);
        if tokPrec < nextPrec {
          ghost var inner := right.tree;
          right := BinOpRHS(tokPrec + 1, inner, rest);
          rhs := ParseBinOpRHS(tokPrec + 1, rhs.value, inner);
          if rhs == None {
            return None;
          }
        }
        expr := BinaryExpr(binOp, expr, rhs.value);
        tree := Bin(binOp, tree, right.tree);
      }
    }

    method ParseExpression() returns (e: Option<Expr>)
      modifies this
      ensures Gives(Expression(old(rest)), e, rest)
      decreases |rest|, 2
    {
      ghost var first := Primary(rest);
      e := ParsePrimary();
      if e == None {
        return;
      }
      e := ParseBinOpRHS(0, e.value, first.tree);
    }

    method ParsePrototype() returns (p: Option<Proto>)
      modifies this
      ensures var o := Prototype(old(rest));
              rest == o.rest && p == if o.ProtoParsed? then Some(o.proto) else None
    {
      if rest == [] || !rest[0].Identifier? {
        return None;
      }
      var name := rest[0].name;
      GetNextToken();
      if Cur(rest) != Some(Char('(')) {
        return None;
      }
      GetNextToken();
      var args := ParseNames();
      if Cur(rest) != Some(Char(')')) {
        return None;
      }
      GetNextToken();
      p := Some(Proto(name, args));
    }

    /** The loop over the argument names of a prototype. */
    method ParseNames() returns (args: seq<string>)
      modifies this
      ensures args == LeadingNames(old(rest)) && rest == old(rest)[|args|..]
    {
      args := [];
      while rest != [] && rest[0].Identifier?
        invariant |args| <= |old(rest)| && rest == old(rest)[|args|..]
        invariant LeadingNames(old(rest)) == args + LeadingNames(rest)
        decreases |rest|
      {
        NextName(old(rest), |args|);
        args := args + [rest[0].name];
        GetNextToken();
      }
    }

    method ParseDefinition() returns (f: Option<FunctionAST>)
      requires rest != []
      modifies this
      ensures var turn := ReadDefinition(old(rest));
              match f
              case Some(FunctionAST(p, e)) =>
                turn.item.Definition? && p == turn.item.proto && e == Strip(turn.item.body) && rest == turn.rest
              case None => turn.item.Skipped? && Next(rest) == turn.rest
      ensures ReportOf(ReadDefinition(old(rest)).item) == if f.Some? then [DefinitionParsed] else []
    {
      GetNextToken();
      var proto := ParsePrototype();
      if proto == None {
        return None;
      }
      var e := ParseExpression();
      if e != None {
        return Some(FunctionAST(proto.value, e.value));
      }
      f := None;
    }

    method ParseTopLevelExpr() returns (f: Option<FunctionAST>)
      requires rest != []
      modifies this
      ensures var turn := ReadTopExpr(old(rest));
              match f
              case Some(FunctionAST(p, e)) =>
                turn.item.TopExpr? && p == Proto("__anon_expr", []) && e == Strip(turn.item.body) && rest == turn.rest
              case None => turn.item.Skipped? && Next(rest) == turn.rest
      ensures ReportOf(ReadTopExpr(old(rest)).item) == if f.Some? then [ExpressionParsed] else []
    {
      var e := ParseExpression();
      if e != None {
        return Some(FunctionAST(Proto("__anon_expr", []), e.value));
      }
      f := None;
    }

    method ParseExtern() returns (p: Option<Proto>)
      requires rest != []
      modifies this
      ensures var turn := ReadExternal(old(rest));
              match p
              case Some(proto) => turn.item == External(proto) && rest == turn.rest
              case None => turn.item.Skipped? && Next(rest) == turn.rest
      ensures ReportOf(ReadExternal(old(rest)).item) == if p.Some? then [ExternParsed] else []
    {
      GetNextToken();
      p := ParsePrototype();
    }

    method HandleDefinition() returns (reports: seq<Report>)
      requires rest != []
      modifies this
      ensures rest == ReadDefinition(old(rest)).rest && reports == ReportOf(ReadDefinition(old(rest)).item)
    {
      reports := [];
      var f := ParseDefinition();
      if f != None {
        reports := [DefinitionParsed];
      } else {
        GetNextToken();
      }
    }

    method HandleExtern() returns (reports: seq<Report>)
      requires rest != []
      modifies this
      ensures rest == ReadExternal(old(rest)).rest && reports == ReportOf(ReadExternal(old(rest)).item)
    {
      reports := [];
      var p := ParseExtern();
      if p != None {
        reports := [ExternParsed];
      } else {
        GetNextToken();
      }
    }

    method HandleTopLevelExpression() returns (reports: seq<Report>)
      requires rest != []
      modifies this
      ensures rest == ReadTopExpr(old(rest)).rest && reports == ReportOf(ReadTopExpr(old(rest)).item)
    {
      reports := [];
      var f := ParseTopLevelExpr();
      if f != None {
        reports := [ExpressionParsed];
      } else {
        GetNextToken();
      }
    }

    /** The switch in the main loop. */
    method HandleItem() returns (reports: seq<Report>)
      requires rest != []
      modifies this
      ensures rest == ReadItem(old(rest)).rest && reports == ReportOf(ReadItem(old(rest)).item)
      ensures |rest| < |old(rest)| && Reports(Items(old(rest))) == reports + Reports(Items(rest))
    {
      ReportsStep(rest);
      if rest[0] == Char(';') {
        GetNextToken();
        reports := [];
      } else if rest[0] == Def {
        reports := HandleDefinition();
      } else if rest[0] == Extern {
        reports := HandleExtern();
      } else {
        reports := HandleTopLevelExpression();
      }
    }

    /** Ends on every input, at its end, having reported what it could read. */
    method MainLoop() returns (reports: seq<Report>)
      modifies this
      ensures rest == [] && reports == Reports(Items(old(rest)))
    {
      reports := [];
      while rest != []
        invariant Reports(Items(old(rest))) == reports + Reports(Items(rest))
        decreases |rest|
      {
        var more := HandleItem();
        reports := reports + more;
      }
    }
  }
}
