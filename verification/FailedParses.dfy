/**
  Where a failed parse gives up: at the first token that no reading can take. What it consumed
  before can still be continued to a reading, and with that token it cannot.
 */
module FailedParses {
  import opened Wrappers
  import opened Grammar
  import opened ExpressionParsing
  import opened TopLevelParsing

  /** The end, or a token that closes an argument or a parenthesis. */
  predicate Stops(y: seq<Token>) {
    Cur(y) == None || Cur(y) == Some(Char(')')) || Cur(y) == Some(Char(','))
  }

  /** `front` is what was consumed before `rest`, and `x` is to complete it. */
  predicate Split(s: seq<Token>, front: seq<Token>, rest: seq<Token>, x: seq<Token>) {
    s == front + rest && (front == [] ==> x == [Number(0.0)])
  }

  // ----- sequences -----

  lemma {:induction false} Nest(a: seq<Token>, b: seq<Token>, c: seq<Token>)
    ensures a + b + c == a + (b + c)
  {
  }

  lemma {:induction false} NestAll(a: seq<Token>, b: seq<Token>, c: seq<Token>, d: seq<Token>, e: seq<Token>)
    ensures a + b + (c + d + e) == a + (b + (c + (d + e)))
  {
    Nest(a, b, c + d + e);
    Nest(c, d, e);
  }

  lemma {:induction false} Ahead(t: Token, z: seq<Token>)
    ensures Cur([t] + z) == Some(t) && Next([t] + z) == z && |[t] + z| > 0 && ([t] + z)[0] == t
  {
  }

  /** The parser looks one token ahead. */
  lemma {:induction false} SameAhead(t: Tree, q: seq<Token>, r: seq<Token>)
    requires Cur(q) == Cur(r)
    ensures TokPrecedence(q) == TokPrecedence(r) && (Closed(t, q) <==> Closed(t, r))
  {
  }

  // ----- one step of each function -----

  lemma {:induction false} ParenOf(z: seq<Token>)
    ensures Primary([Char('(')] + z) ==
            match Expression(z)
            case Failed(r) => Failed(r)
            case Parsed(t, r) => if Cur(r) == Some(Char(')')) then Parsed(Paren(t), Next(r)) else Failed(r)
  {
    Ahead(Char('('), z);
  }

  lemma {:induction false} CallOf(n: string, z: seq<Token>)
    requires Cur(z) != Some(Char(')'))
    ensures Primary([Identifier(n), Char('(')] + z) ==
            match Arguments(z)
            case ArgsFailed(q) => Failed(q)
            case ArgsParsed(args, q) => Parsed(Call(n, args), Next(q))
  {
    assert [Identifier(n), Char('(')] + z == [Identifier(n)] + ([Char('(')] + z);
    Ahead(Identifier(n), [Char('(')] + z);
    Ahead(Char('('), z);
  }

  /** A whole tree, and then what follows it. */
  lemma {:induction false} ArgumentThen(t: Tree, q: seq<Token>)
    requires WF(t) && Closed(t, q) && TokPrecedence(q) < 0
    ensures Arguments(Yield(t) + q) ==
            if Cur(q) == Some(Char(')')) then ArgsParsed([t], q)
            else if Cur(q) != Some(Char(',')) then ArgsFailed(q)
            else
              match Arguments(Next(q))
              case ArgsFailed(r) => ArgsFailed(r)
              case ArgsParsed(ts, r) => ArgsParsed([t] + ts, r)
  {
    ExpressionComplete(t, q);
  }

  lemma {:induction false} RightFails(k: nat, left: Tree, op: char, z: seq<Token>)
    requires Precedence(op) >= k && Primary(z).Failed?
    ensures BinOpRHS(k, left, [Char(op)] + z) == Failed(Primary(z).rest)
  {
    Ahead(Char(op), z);
  }

  lemma {:induction false} RightStops(k: nat, left: Tree, op: char, z: seq<Token>)
    requires Precedence(op) >= k && Primary(z).Parsed? && TokPrecedence(Primary(z).rest) < 0
    ensures BinOpRHS(k, left, [Char(op)] + z) == Parsed(Bin(op, left, Primary(z).tree), Primary(z).rest)
  {
    Ahead(Char(op), z);
  }

  lemma {:induction false} RightClimbs(k: nat, left: Tree, op: char, p: Tree, q: seq<Token>)
    requires Precedence(op) >= k && WF(p) && !p.Bin? && Closed(p, q) && Precedence(op) < TokPrecedence(q)
    ensures var o := BinOpRHS(Precedence(op) + 1, p, q);
            BinOpRHS(k, left, [Char(op)] + (Yield(p) + q)) ==
            match o
            case Failed(r) => Failed(r)
            case Parsed(t, r) => BinOpRHS(k, Bin(op, left, t), r)
  {
    Ahead(Char(op), Yield(p) + q);
    PrimaryComplete(p, q);
  }

  lemma {:induction false} RightDone(k: nat, left: Tree, op: char, right: Tree, q: seq<Token>)
    requires Precedence(op) >= k && WF(right) && Closed(right, q) && TopPrec(right) > Precedence(op) >= TokPrecedence(q)
    ensures BinOpRHS(k, left, [Char(op)] + (Yield(right) + q)) == BinOpRHS(k, Bin(op, left, right), q)
  {
    Ahead(Char(op), Yield(right) + q);
    RightOperand(Precedence(op), right, q);
  }

  // ----- failing -----

  /** The parse fails in the same place whatever follows the token looked at, and what it has
      consumed can be completed. */
  lemma {:induction false} PrimaryStuck(s: seq<Token>, r: seq<Token>, y: seq<Token>) returns (front: seq<Token>, x: seq<Token>)
    requires Primary(s).Failed? && Cur(r) == Cur(Primary(s).rest) && Stops(y)
    ensures Split(s, front, Primary(s).rest, x)
    ensures Primary(front + r) == Failed(r)
    ensures var o := Primary(front + (x + y)); o.Parsed? && o.rest == y
    decreases |s|, 1
  {
    if s != [] && s[0].Identifier? {
      front, x := IdentifierStuck(s[0].name, s, r, y);
    } else if s != [] && s[0] == Char('(') {
      front, x := ParenStuck(s, r, y);
    } else {
      front, x := [], [Number(0.0)];
      assert front + r == r && front + s == s && front + (x + y) == x + y;
      Ahead(Number(0.0), y);
    }
  }

  lemma {:induction false} ParenStuck(s: seq<Token>, r: seq<Token>, y: seq<Token>) returns (front: seq<Token>, x: seq<Token>)
    requires Cur(s) == Some(Char('(')) && Primary(s).Failed? && Cur(r) == Cur(Primary(s).rest) && Stops(y)
    ensures Split(s, front, Primary(s).rest, x)
    ensures Primary(front + r) == Failed(r)
    ensures var o := Primary(front + (x + y)); o.Parsed? && o.rest == y
    decreases |s|, 0
  {
    var closing := [Char(')')] + y;
    var inner, more := InParen(Next(s), r, closing);
    front, x := [Char('(')] + inner, more + [Char(')')];
    Nest([Char('(')], inner, r);
    Nest([Char('(')], inner, Primary(s).rest);
    NestAll([Char('(')], inner, more, [Char(')')], y);
    ParenOf(inner + r);
    ParenOf(inner + (more + closing));
    Ahead(Char(')'), y);
  }

  lemma {:induction false} InParen(z: seq<Token>, r: seq<Token>, closing: seq<Token>) returns (inner: seq<Token>, more: seq<Token>)
    requires Expression(z).Parsed? ==> Cur(Expression(z).rest) != Some(Char(')'))
    requires Cur(r) == Cur(Expression(z).rest) && Cur(closing) == Some(Char(')'))
    ensures z == inner + Expression(z).rest
    ensures var o := Expression(inner + r); o.rest == r && (o.Parsed? ==> Cur(r) != Some(Char(')')))
    ensures var o := Expression(inner + (more + closing)); o.Parsed? && o.rest == closing
    decreases |z|, 4
  {
    if Expression(z).Failed? {
      inner, more := ExpressionStuck(z, r, closing);
    } else {
      ExpressionSound(z);
      var Parsed(t, q) := Expression(z);
      inner, more := Yield(t), [];
      assert more + closing == closing;
      SameAhead(t, q, r);
      ExpressionComplete(t, r);
      ExpressionComplete(t, closing);
    }
  }

  lemma {:induction false} IdentifierStuck(n: string, s: seq<Token>, r: seq<Token>, y: seq<Token>)
      returns (front: seq<Token>, x: seq<Token>)
    requires Cur(s) == Some(Identifier(n)) && Primary(s).Failed? && Cur(r) == Cur(Primary(s).rest) && Stops(y)
    ensures Split(s, front, Primary(s).rest, x)
    ensures Primary(front + r) == Failed(r)
    ensures var o := Primary(front + (x + y)); o.Parsed? && o.rest == y
    decreases |s|, 0
  {
    var begin := [Identifier(n), Char('(')];
    var inside := Next(Next(s));
    var inner, more := ArgumentsStuck(inside, r, y);
    front, x := begin + inner, more + [Char(')')];
    assert s == begin + inside;
    Nest(begin, inner, r);
    Nest(begin, inner, Primary(s).rest);
    NestAll(begin, inner, more, [Char(')')], y);
    if inner == [] { assert inner + r == r && inner + Primary(s).rest == inside; }
    CallOf(n, inner + r);
    CallOf(n, inner + (more + ([Char(')')] + y)));
    Ahead(Char(')'), y);
  }

  lemma {:induction false} ArgumentsStuck(s: seq<Token>, r: seq<Token>, y: seq<Token>) returns (front: seq<Token>, x: seq<Token>)
    requires Arguments(s).ArgsFailed? && Cur(r) == Cur(Arguments(s).rest)
    ensures Split(s, front, Arguments(s).rest, x)
    ensures Arguments(front + r) == ArgsFailed(r)
    ensures var o := Arguments(front + (x + ([Char(')')] + y))); o.ArgsParsed? && o.rest == [Char(')')] + y
    decreases |s|, 3
  {
    var closing := [Char(')')] + y;
    Ahead(Char(')'), y);
    if Expression(s).Failed? {
      front, x := ExpressionStuck(s, r, closing);
    } else {
      ExpressionSound(s);
      var Parsed(t, q) := Expression(s);
      if Cur(q) != Some(Char(',')) {
        front, x := Yield(t), [];
        assert x + closing == closing;
        SameAhead(t, q, r);
        ArgumentThen(t, r);
        ArgumentThen(t, closing);
      } else {
        front, x := LaterArgument(s, t, q, r, y);
      }
    }
  }

  lemma {:induction false} LaterArgument(s: seq<Token>, t: Tree, q: seq<Token>, r: seq<Token>, y: seq<Token>)
      returns (front: seq<Token>, x: seq<Token>)
    requires s == Yield(t) + q && WF(t) && Cur(q) == Some(Char(','))
    requires Arguments(Next(q)).ArgsFailed? && Cur(r) == Cur(Arguments(Next(q)).rest)
    ensures Split(s, front, Arguments(Next(q)).rest, x)
    ensures Arguments(front + r) == ArgsFailed(r)
    ensures var o := Arguments(front + (x + ([Char(')')] + y))); o.ArgsParsed? && o.rest == [Char(')')] + y
    decreases |q|, 2
  {
    var inner, more := ArgumentsStuck(Next(q), r, y);
    var comma := [Char(',')] + inner;
    front, x := Yield(t) + comma, more;
    var passing := more + ([Char(')')] + y);
    Ahead(Char(','), inner + r);
    Ahead(Char(','), inner + passing);
    Nest([Char(',')], inner, r);
    Nest([Char(',')], inner, passing);
    Nest([Char(',')], inner, Arguments(Next(q)).rest);
    Nest(Yield(t), comma, r);
    Nest(Yield(t), comma, passing);
    Nest(Yield(t), comma, Arguments(Next(q)).rest);
    ArgumentThen(t, comma + r);
    ArgumentThen(t, comma + passing);
  }

  lemma {:induction false} ExpressionStuck(s: seq<Token>, r: seq<Token>, y: seq<Token>) returns (front: seq<Token>, x: seq<Token>)
    requires Expression(s).Failed? && Cur(r) == Cur(Expression(s).rest) && Stops(y)
    ensures Split(s, front, Expression(s).rest, x)
    ensures Expression(front + r) == Failed(r)
    ensures var o := Expression(front + (x + y)); o.Parsed? && o.rest == y
    decreases |s|, 2
  {
    if Primary(s).Failed? {
      front, x := PrimaryStuck(s, r, y);
    } else {
      PrimarySound(s);
      var Parsed(p, q) := Primary(s);
      var inner, more := BinOpRHSStuck(0, p, q, r, y);
      front, x := Yield(p) + inner, more;
      Nest(Yield(p), inner, r);
      Nest(Yield(p), inner, more + y);
      Nest(Yield(p), inner, Expression(s).rest);
      SameAhead(p, q, inner + r);
      SameAhead(p, q, inner + (more + y));
      PrimaryComplete(p, inner + r);
      PrimaryComplete(p, inner + (more + y));
    }
  }

  lemma {:induction false} BinOpRHSStuck(k: nat, left: Tree, s: seq<Token>, r: seq<Token>, y: seq<Token>)
      returns (front: seq<Token>, x: seq<Token>)
    requires BinOpRHS(k, left, s).Failed? && Cur(r) == Cur(BinOpRHS(k, left, s).rest) && Stops(y)
    ensures front != [] && s == front + BinOpRHS(k, left, s).rest
    ensures Cur(front + r) == Cur(s) && Cur(front + (x + y)) == Cur(s)
    ensures BinOpRHS(k, left, front + r) == Failed(r)
    ensures var o := BinOpRHS(k, left, front + (x + y)); o.Parsed? && o.rest == y
    decreases |s|, 1
  {
    var op, rest := [s[0]], BinOpRHS(k, left, s).rest;
    var inner: seq<Token>;
    inner, x := RightStuck(k, left, s, r, y);
    front := op + inner;
    Nest(op, inner, r);
    Nest(op, inner, x + y);
    Nest(op, inner, rest);
  }

  /** The operator read, it fails in the right operand or behind it. */
  lemma {:induction false} RightStuck(k: nat, left: Tree, s: seq<Token>, r: seq<Token>, y: seq<Token>)
      returns (inner: seq<Token>, x: seq<Token>)
    requires BinOpRHS(k, left, s).Failed? && Cur(r) == Cur(BinOpRHS(k, left, s).rest) && Stops(y)
    ensures Next(s) == inner + BinOpRHS(k, left, s).rest
    ensures BinOpRHS(k, left, [s[0]] + (inner + r)) == Failed(r)
    ensures var o := BinOpRHS(k, left, [s[0]] + (inner + (x + y))); o.Parsed? && o.rest == y
    decreases |s|, 0
  {
    var op, z := s[0].c, Next(s);
    assert s == [Char(op)] + z && Precedence(op) >= k;
    if Primary(z).Failed? {
      RightFails(k, left, op, z);
      inner, x := FirstStuck(k, left, op, z, r, y);
    } else {
      PrimarySound(z);
      var Parsed(p, q) := Primary(z);
      if Precedence(op) < TokPrecedence(q) && BinOpRHS(Precedence(op) + 1, p, q).Failed? {
        RightClimbs(k, left, op, p, q);
        inner, x := ClimbStuck(k, left, op, p, q, r, y);
      } else {
        var right, behind := RightSound(s);
        RightDone(k, left, op, right, behind);
        inner, x := LoopStuck(k, left, op, right, behind, r, y);
      }
    }
  }

  /** The right operand fails at once. */
  lemma {:induction false} FirstStuck(k: nat, left: Tree, op: char, z: seq<Token>, r: seq<Token>, y: seq<Token>)
      returns (inner: seq<Token>, x: seq<Token>)
    requires Precedence(op) >= k && Primary(z).Failed? && Cur(r) == Cur(Primary(z).rest) && Stops(y)
    ensures z == inner + Primary(z).rest
    ensures BinOpRHS(k, left, [Char(op)] + (inner + r)) == Failed(r)
    ensures var o := BinOpRHS(k, left, [Char(op)] + (inner + (x + y))); o.Parsed? && o.rest == y
    decreases |z|, 2
  {
    inner, x := PrimaryStuck(z, r, y);
    RightFails(k, left, op, inner + r);
    RightStops(k, left, op, inner + (x + y));
  }

  lemma {:induction false} LoopEnds(k: nat, t: Tree, y: seq<Token>)
    requires Stops(y)
    ensures BinOpRHS(k, t, y) == Parsed(t, y)
  {
  }

  /** The right operand fails behind its first primary. */
  lemma {:induction false} ClimbStuck(k: nat, left: Tree, op: char, p: Tree, q: seq<Token>, r: seq<Token>, y: seq<Token>)
      returns (inner: seq<Token>, x: seq<Token>)
    requires Precedence(op) >= k && WF(p) && !p.Bin? && Closed(p, q) && Precedence(op) < TokPrecedence(q)
    requires var o := BinOpRHS(Precedence(op) + 1, p, q); o.Failed? && Cur(r) == Cur(o.rest) && Stops(y)
    ensures Yield(p) + q == inner + BinOpRHS(Precedence(op) + 1, p, q).rest
    ensures BinOpRHS(k, left, [Char(op)] + (inner + r)) == Failed(r)
    ensures var o := BinOpRHS(k, left, [Char(op)] + (inner + (x + y))); o.Parsed? && o.rest == y
    decreases |q|, 2
  {
    var more: seq<Token>;
    more, x := BinOpRHSStuck(Precedence(op) + 1, p, q, r, y);
    inner := Yield(p) + more;
    Nest(Yield(p), more, r);
    Nest(Yield(p), more, x + y);
    Nest(Yield(p), more, BinOpRHS(Precedence(op) + 1, p, q).rest);
    SameAhead(p, q, more + r);
    SameAhead(p, q, more + (x + y));
    RightClimbs(k, left, op, p, more + r);
    RightClimbs(k, left, op, p, more + (x + y));
    LoopEnds(k, Bin(op, left, BinOpRHS(Precedence(op) + 1, p, more + (x + y)).tree), y);
  }

  /** The loop fails behind the right operand. */
  lemma {:induction false} LoopStuck(k: nat, left: Tree, op: char, right: Tree, q: seq<Token>, r: seq<Token>, y: seq<Token>)
      returns (inner: seq<Token>, x: seq<Token>)
    requires Precedence(op) >= k && WF(right) && Closed(right, q) && TopPrec(right) > Precedence(op) >= TokPrecedence(q)
    requires var o := BinOpRHS(k, Bin(op, left, right), q); o.Failed? && Cur(r) == Cur(o.rest) && Stops(y)
    ensures Yield(right) + q == inner + BinOpRHS(k, Bin(op, left, right), q).rest
    ensures BinOpRHS(k, left, [Char(op)] + (inner + r)) == Failed(r)
    ensures var o := BinOpRHS(k, left, [Char(op)] + (inner + (x + y))); o.Parsed? && o.rest == y
    decreases |q|, 2
  {
    var t := Bin(op, left, right);
    var more: seq<Token>;
    more, x := BinOpRHSStuck(k, t, q, r, y);
    inner := Yield(right) + more;
    Nest(Yield(right), more, r);
    Nest(Yield(right), more, x + y);
    Nest(Yield(right), more, BinOpRHS(k, t, q).rest);
    SameAhead(right, q, more + r);
    SameAhead(right, q, more + (x + y));
    RightDone(k, left, op, right, more + r);
    RightDone(k, left, op, right, more + (x + y));
  }

  /** A failed parse has read a beginning of some expression, and no expression begins with that
      and the token it stopped at, or ends there if it stopped at the end. */
  lemma {:induction false} FailsAtFirstBadToken(s: seq<Token>)
    requires Expression(s).Failed?
    ensures var rest := Expression(s).rest;
            exists front ::
              && s == front + rest
              && (exists x, t :: Reads(front + x, t, []))
              && forall r, t, q :: Cur(r) == Cur(rest) ==> !Reads(front + r, t, q)
  {
    var rest := Expression(s).rest;
    var front, x := ExpressionStuck(s, rest, []);
    assert x + [] == x;
    ParsesExactlyReadings(front + x, Expression(front + x).tree, []);
    forall r, t, q | Cur(r) == Cur(rest)
      ensures !Reads(front + r, t, q)
    {
      var front', x' := ExpressionStuck(s, r, []);
      assert |front'| == |s| - |rest| == |front| && front' == s[..|front|] == front;
      FailsWithoutReading(front + r);
    }
  }

  // ----- prototypes -----

  /** The same for prototypes. */
  lemma {:induction false} PrototypeFailsAtFirstBadToken(s: seq<Token>)
    requires Prototype(s).ProtoFailed?
    ensures var rest := Prototype(s).rest;
            exists front ::
              && s == front + rest
              && (exists x, p :: front + x == YieldProto(p))
              && forall r :: Cur(r) == Cur(rest) ==> Prototype(front + r).ProtoFailed?
  {
    var rest := Prototype(s).rest;
    var front, x, p := ProtoStuck(s, rest);
    assert front + x == YieldProto(p);
    forall r | Cur(r) == Cur(rest)
      ensures Prototype(front + r).ProtoFailed?
    {
      var front', x', p' := ProtoStuck(s, r);
      assert |front'| == |s| - |rest| == |front| && front' == s[..|front|] == front;
    }
  }

  lemma {:induction false} ProtoStuck(s: seq<Token>, r: seq<Token>) returns (front: seq<Token>, x: seq<Token>, p: Proto)
    requires Prototype(s).ProtoFailed? && Cur(r) == Cur(Prototype(s).rest)
    ensures s == front + Prototype(s).rest && front + x == YieldProto(p)
    ensures Prototype(front + r) == ProtoFailed(r)
  {
    if s == [] || !s[0].Identifier? {
      p := Proto("", []);
      front, x := [], YieldProto(p);
      assert front + r == r && front + s == s;
    } else if Cur(Next(s)) != Some(Char('(')) {
      p := Proto(s[0].name, []);
      front, x := [s[0]], [Char('('), Char(')')];
      Ahead(s[0], r);
    } else {
      front, x, p := NamesStuck(s, r);
    }
  }

  lemma {:induction false} NamesStuck(s: seq<Token>, r: seq<Token>) returns (front: seq<Token>, x: seq<Token>, p: Proto)
    requires s != [] && s[0].Identifier? && Cur(Next(s)) == Some(Char('('))
    requires Prototype(s).ProtoFailed? && Cur(r) == Cur(Prototype(s).rest)
    ensures s == front + Prototype(s).rest && front + x == YieldProto(p)
    ensures Prototype(front + r) == ProtoFailed(r)
  {
    var begin := [s[0], Char('(')];
    var inside := Next(Next(s));
    var names := LeadingNames(inside);
    var q := inside[|names|..];
    assert s == begin + inside;
    NamesSpell(inside);
    NamesEnd(inside);
    p := Proto(s[0].name, names);
    front, x := begin + YieldNames(names), [Char(')')];
    Nest(begin, YieldNames(names), r);
    Nest(begin, YieldNames(names), q);
    ProtoOf(s[0].name, names, q);
    ProtoOf(s[0].name, names, r);
  }

  lemma {:induction false} ProtoOf(name: string, names: seq<string>, q: seq<Token>)
    requires q == [] || !q[0].Identifier?
    ensures Prototype([Identifier(name), Char('(')] + (YieldNames(names) + q)) ==
            if Cur(q) != Some(Char(')')) then ProtoFailed(q) else ProtoParsed(Proto(name, names), Next(q))
  {
    var inside := YieldNames(names) + q;
    assert [Identifier(name), Char('(')] + inside == [Identifier(name)] + ([Char('(')] + inside);
    Ahead(Identifier(name), [Char('(')] + inside);
    Ahead(Char('('), inside);
    NamesComplete(names, q);
    assert inside[|names|..] == q;
  }

  /** The names stop where there is none. */
  lemma {:induction false} NamesEnd(s: seq<Token>)
    ensures var q := s[|LeadingNames(s)|..]; q == [] || !q[0].Identifier?
  {
    if s != [] && s[0].Identifier? {
      NamesEnd(s[1..]);
      assert s[1..][|LeadingNames(s[1..])|..] == s[|LeadingNames(s)|..];
    }
  }

  // ----- recovery -----

  /** `front` was read of an item and could still have become one; with the first token of `r`
      it cannot. */
  ghost predicate GivesUp(front: seq<Token>, r: seq<Token>) {
    && (exists x :: front + x != [] && !ReadItem(front + x).item.Skipped?)
    && forall r' :: Cur(r') == Cur(r) && front + r' != [] ==> ReadItem(front + r').item.Skipped?
  }

  lemma {:induction false} DefinitionOf(z: seq<Token>)
    ensures ReadItem([Def] + z) == ReadDefinition([Def] + z) && Next([Def] + z) == z
    ensures ReadItem([Extern] + z) == ReadExternal([Extern] + z) && Next([Extern] + z) == z
  {
    Ahead(Def, z);
    Ahead(Extern, z);
  }

  /** A definition whose prototype is `p`, and one with no prototype. */
  lemma {:induction false} DefinitionThen(p: Proto, q: seq<Token>)
    ensures var s := [Def] + (YieldProto(p) + q);
            ReadDefinition(s) == match Expression(q) { case Failed(r) => Skip(s, r) case Parsed(t, r) => Turn(Definition(p, t), r) }
  {
    DefinitionOf(YieldProto(p) + q);
    PrototypeComplete(p, q);
  }

  lemma {:induction false} DefinitionFails(z: seq<Token>)
    requires Prototype(z).ProtoFailed?
    ensures ReadDefinition([Def] + z) == Skip([Def] + z, Prototype(z).rest)
  {
    DefinitionOf(z);
  }

  /** Where a definition fails. */
  function DefinitionRest(z: seq<Token>): seq<Token> {
    var o := Prototype(z);
    if o.ProtoFailed? then o.rest else Expression(o.rest).rest
  }

  lemma {:induction false} DefinitionStuck(z: seq<Token>, r: seq<Token>) returns (front: seq<Token>, x: seq<Token>)
    requires ReadDefinition([Def] + z).item.Skipped? && Cur(r) == Cur(DefinitionRest(z))
    ensures z == front + DefinitionRest(z)
    ensures ReadDefinition([Def] + (front + r)).item.Skipped? && !ReadDefinition([Def] + (front + x)).item.Skipped?
  {
    DefinitionOf(z);
    if Prototype(z).ProtoFailed? {
      var p: Proto;
      front, x, p := ProtoStuck(z, r);
      DefinitionFails(front + r);
      Nest(front, x, [Number(0.0)]);
      x := x + [Number(0.0)];
      Ahead(Number(0.0), []);
      assert Primary([Number(0.0)] + []) == Parsed(Num(0.0), []);
      assert Expression([Number(0.0)] + []).Parsed?;
      assert [Number(0.0)] + [] == [Number(0.0)];
      DefinitionThen(p, [Number(0.0)]);
    } else {
      PrototypeSound(z);
      front, x := BodyStuck(Prototype(z).proto, Prototype(z).rest, r);
    }
  }

  lemma {:induction false} BodyStuck(p: Proto, q: seq<Token>, r: seq<Token>) returns (front: seq<Token>, x: seq<Token>)
    requires Expression(q).Failed? && Cur(r) == Cur(Expression(q).rest)
    ensures YieldProto(p) + q == front + Expression(q).rest
    ensures ReadDefinition([Def] + (front + r)).item.Skipped? && !ReadDefinition([Def] + (front + x)).item.Skipped?
  {
    var inner;
    inner, x := ExpressionStuck(q, r, []);
    assert x + [] == x;
    front := YieldProto(p) + inner;
    Nest(YieldProto(p), inner, r);
    Nest(YieldProto(p), inner, x);
    Nest(YieldProto(p), inner, Expression(q).rest);
    DefinitionThen(p, inner + r);
    DefinitionThen(p, inner + x);
  }

  lemma {:induction false} ExternalStuck(z: seq<Token>, r: seq<Token>) returns (front: seq<Token>, x: seq<Token>)
    requires Prototype(z).ProtoFailed? && Cur(r) == Cur(Prototype(z).rest)
    ensures z == front + Prototype(z).rest
    ensures ReadExternal([Extern] + (front + r)).item.Skipped? && !ReadExternal([Extern] + (front + x)).item.Skipped?
  {
    var p: Proto;
    front, x, p := ProtoStuck(z, r);
    DefinitionOf(front + r);
    DefinitionOf(front + x);
    assert YieldProto(p) + [] == front + x;
    PrototypeComplete(p, []);
  }

  lemma {:induction false} SameFront(a: seq<Token>, b: seq<Token>, rest: seq<Token>)
    requires a + rest == b + rest
    ensures a == b
  {
    assert |a| == |b| && a == (a + rest)[..|a|] && b == (b + rest)[..|b|];
  }

  lemma {:induction false} DefinitionGivesUp(z: seq<Token>) returns (front: seq<Token>, rest: seq<Token>)
    requires ReadItem([Def] + z).item.Skipped?
    ensures [Def] + z == front + rest && GivesUp(front, rest) && ReadItem([Def] + z) == Skip([Def] + z, rest)
  {
    DefinitionOf(z);
    rest := DefinitionRest(z);
    var inner, x := DefinitionStuck(z, rest);
    front := [Def] + inner;
    Nest([Def], inner, rest);
    Nest([Def], inner, x);
    DefinitionOf(inner + x);
    assert front + x != [] && !ReadItem(front + x).item.Skipped?;
    forall r | Cur(r) == Cur(rest) && front + r != []
      ensures ReadItem(front + r).item.Skipped?
    {
      var inner', x' := DefinitionStuck(z, r);
      SameFront(inner, inner', rest);
      Nest([Def], inner, r);
      DefinitionOf(inner + r);
    }
  }

  lemma {:induction false} ExternalGivesUp(z: seq<Token>) returns (front: seq<Token>, rest: seq<Token>)
    requires ReadItem([Extern] + z).item.Skipped?
    ensures [Extern] + z == front + rest && GivesUp(front, rest) && ReadItem([Extern] + z) == Skip([Extern] + z, rest)
  {
    DefinitionOf(z);
    rest := Prototype(z).rest;
    var inner, x := ExternalStuck(z, rest);
    front := [Extern] + inner;
    Nest([Extern], inner, rest);
    Nest([Extern], inner, x);
    DefinitionOf(inner + x);
    assert front + x != [] && !ReadItem(front + x).item.Skipped?;
    forall r | Cur(r) == Cur(rest) && front + r != []
      ensures ReadItem(front + r).item.Skipped?
    {
      var inner', x' := ExternalStuck(z, r);
      SameFront(inner, inner', rest);
      Nest([Extern], inner, r);
      DefinitionOf(inner + r);
    }
  }

  /** No handler but that of expressions. */
  predicate Plain(s: seq<Token>) {
    s != [] && s[0] != Char(';') && s[0] != Def && s[0] != Extern
  }

  lemma {:induction false} ExpressionGivesUp(s: seq<Token>) returns (front: seq<Token>, rest: seq<Token>)
    requires Plain(s) && Expression(s).Failed?
    ensures s == front + rest && GivesUp(front, rest) && ReadItem(s) == Skip(s, rest)
  {
    rest := Expression(s).rest;
    var x: seq<Token>;
    front, x := ExpressionStuck(s, rest, []);
    assert x + [] == x;
    assert front + x != [] && Plain(front + x) && !ReadItem(front + x).item.Skipped?;
    forall r | Cur(r) == Cur(rest) && front + r != []
      ensures ReadItem(front + r).item.Skipped?
    {
      var front', x' := ExpressionStuck(s, r, []);
      SameFront(front, front', rest);
      assert Plain(front + r);
    }
  }

  lemma {:induction false} SkipFrom(front: seq<Token>, rest: seq<Token>)
    requires front + rest != []
    ensures Skip(front + rest, rest) == Turn(Skipped(front + if rest == [] then [] else [rest[0]]), Next(rest))
  {
    var s, q := front + rest, Next(rest);
    if rest == [] {
      assert s == front && s[..|s| - |q|] == front + [];
    } else {
      assert s == front + [rest[0]] + q;
      assert s[..|s| - |q|] == front + [rest[0]];
    }
  }

  /** The tokens skipped by a turn of the main loop are those read as long as they could become
      an item, and the one with which they could not, if there is one: no more and no fewer. */
  lemma {:induction false} SkipsUpToBadToken(s: seq<Token>)
    requires s != [] && ReadItem(s).item.Skipped?
    ensures exists front, rest ::
              && s == front + rest && GivesUp(front, rest)
              && ReadItem(s) == Turn(Skipped(front + if rest == [] then [] else [rest[0]]), Next(rest))
  {
    var front, rest: seq<Token>;
    assert s == [s[0]] + Next(s);
    if s[0] == Def {
      front, rest := DefinitionGivesUp(Next(s));
    } else if s[0] == Extern {
      front, rest := ExternalGivesUp(Next(s));
    } else {
      front, rest := ExpressionGivesUp(s);
    }
    SkipFrom(front, rest);
  }
}
