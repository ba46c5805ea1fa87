/**
  Prototypes, the handlers, and the main loop with its recovery, as functions on token
  sequences. The loop splits its input into items; nothing is lost and nothing is added.
 */
module TopLevelParsing {
  import opened Wrappers
  import opened Grammar
  import opened ExpressionParsing

  datatype Proto = Proto(name: string, args: seq<string>)

  datatype ProtoOutcome =
    | ProtoParsed(proto: Proto, rest: seq<Token>)
    | ProtoFailed(rest: seq<Token>)

  /** What one turn of the main loop reads. */
  datatype Item =
    | Semicolon
    | Definition(proto: Proto, body: Tree)
    | External(proto: Proto)
    | TopExpr(body: Tree)
    | Skipped(tokens: seq<Token>)

  /** An item and what is left. */
  datatype Turn = Turn(item: Item, rest: seq<Token>)

  function LeadingNames(s: seq<Token>): (names: seq<string>)
    ensures |names| <= |s|
  {
    if s != [] && s[0].Identifier? then [s[0].name] + LeadingNames(s[1..]) else []
  }

  function Prototype(s: seq<Token>): (o: ProtoOutcome)
    ensures |o.rest| <= |s| && (o.ProtoParsed? ==> |o.rest| < |s|)
  {
    if s == [] || !s[0].Identifier? then ProtoFailed(s)
    else if Cur(Next(s)) != Some(Char('(')) then ProtoFailed(Next(s))
    else
      var inside := Next(Next(s));
      var names := LeadingNames(inside);
      var q := inside[|names|..];
      if Cur(q) != Some(Char(')')) then ProtoFailed(q) else ProtoParsed(Proto(s[0].name, names), Next(q))
  }

  /** Recovery: give up at `r`, and drop one more token. */
  function Skip(s: seq<Token>, r: seq<Token>): (turn: Turn)
    requires |r| <= |s| && s != []
    ensures |turn.rest| < |s| || turn.rest == r
  {
    var q := Next(r);
    Turn(Skipped(s[..|s| - |q|]), q)
  }

  function ReadDefinition(s: seq<Token>): Turn
    requires s != []
  {
    match Prototype(Next(s))
    case ProtoFailed(r) => Skip(s, r)
    case ProtoParsed(p, r) =>
      match Expression(r)
      case Failed(q) => Skip(s, q)
      case Parsed(t, q) => Turn(Definition(p, t), q)
  }

  function ReadExternal(s: seq<Token>): Turn
    requires s != []
  {
    match Prototype(Next(s))
    case ProtoFailed(r) => Skip(s, r)
    case ProtoParsed(p, r) => Turn(External(p), r)
  }

  function ReadTopExpr(s: seq<Token>): Turn
    requires s != []
  {
    match Expression(s)
    case Failed(q) => Skip(s, q)
    case Parsed(t, q) => Turn(TopExpr(t), q)
  }

  function ReadItem(s: seq<Token>): (turn: Turn)
    requires s != []
    ensures |turn.rest| < |s|
  {
    if s[0] == Char(';') then Turn(Semicolon, Next(s))
    else if s[0] == Def then ReadDefinition(s)
    else if s[0] == Extern then ReadExternal(s)
    else ReadTopExpr(s)
  }

  function Items(s: seq<Token>): seq<Item>
    decreases |s|
  {
    if s == [] then []
    else
      var turn := ReadItem(s);
      [turn.item] + Items(turn.rest)
  }

  // ----- conservation -----

  function YieldNames(names: seq<string>): (s: seq<Token>)
    ensures |s| == |names|
  {
    if names == [] then [] else [Identifier(names[0])] + YieldNames(names[1..])
  }

  function YieldProto(p: Proto): seq<Token> {
    [Identifier(p.name), Char('(')] + YieldNames(p.args) + [Char(')')]
  }

  function YieldItem(i: Item): seq<Token> {
    match i
    case Semicolon => [Char(';')]
    case Definition(p, t) => [Def] + YieldProto(p) + Yield(t)
    case External(p) => [Extern] + YieldProto(p)
    case TopExpr(t) => Yield(t)
    case Skipped(ts) => ts
  }

  function YieldItems(items: seq<Item>): seq<Token> {
    if items == [] then [] else YieldItem(items[0]) + YieldItems(items[1..])
  }

  ghost predicate Suffix(r: seq<Token>, s: seq<Token>)
    decreases |s|
  {
    r == s || (s != [] && Suffix(r, Next(s)))
  }

  lemma {:induction false} SuffixTrans(a: seq<Token>, b: seq<Token>, c: seq<Token>)
    requires Suffix(a, b) && Suffix(b, c)
    ensures Suffix(a, c)
    decreases |c|
  {
    if b != c { SuffixTrans(a, b, Next(c)); }
  }

  lemma {:induction false} NextSuffix(r: seq<Token>, s: seq<Token>)
    requires Suffix(r, s)
    ensures Suffix(Next(r), s)
    decreases |s|
  {
    if r != s { NextSuffix(r, Next(s)); }
  }

  lemma {:induction false} SuffixFront(r: seq<Token>, s: seq<Token>)
    requires Suffix(r, s)
    ensures |r| <= |s| && s == s[..|s| - |r|] + r
    decreases |s|
  {
    if r != s { SuffixFront(r, Next(s)); }
  }

  /** A parse, failed or not, consumes from the front. */
  lemma {:induction false} PrimarySuffix(s: seq<Token>)
    ensures Suffix(Primary(s).rest, s)
    decreases |s|, 1
  {
    if s != [] && s[0] == Char('(') {
      ExpressionSuffix(Next(s));
      SuffixTrans(Expression(Next(s)).rest, Next(s), s);
      NextSuffix(Expression(Next(s)).rest, s);
    }
    if s != [] && s[0].Identifier? {
      var r := Next(s);
      NextSuffix(r, s);
      NextSuffix(Next(r), s);
      if Cur(r) == Some(Char('(')) && Cur(Next(r)) != Some(Char(')')) {
        ArgumentsSuffix(Next(r));
        SuffixTrans(Arguments(Next(r)).rest, Next(r), s);
        NextSuffix(Arguments(Next(r)).rest, s);
      }
    }
  }

  lemma {:induction false} ArgumentsSuffix(s: seq<Token>)
    ensures Suffix(Arguments(s).rest, s)
    decreases |s|, 3
  {
    ExpressionSuffix(s);
    var r := Expression(s).rest;
    NextSuffix(r, s);
    if Expression(s).Parsed? && Cur(r) == Some(Char(',')) {
      ArgumentsSuffix(Next(r));
      SuffixTrans(Arguments(Next(r)).rest, Next(r), s);
    }
  }

  lemma {:induction false} BinOpRHSSuffix(k: nat, left: Tree, s: seq<Token>)
    ensures Suffix(BinOpRHS(k, left, s).rest, s)
    decreases |s|, 0
  {
    if TokPrecedence(s) >= k {
      PrimarySuffix(Next(s));
      var o := Primary(Next(s));
      SuffixTrans(o.rest, Next(s), s);
      if o.Parsed? {
        if TokPrecedence(s) < TokPrecedence(o.rest) {
          BinOpRHSSuffix(TokPrecedence(s) + 1, o.tree, o.rest);
          var p := BinOpRHS(TokPrecedence(s) + 1, o.tree, o.rest);
          SuffixTrans(p.rest, o.rest, s);
          if p.Parsed? {
            BinOpRHSSuffix(k, Bin(s[0].c, left, p.tree), p.rest);
            SuffixTrans(BinOpRHS(k, left, s).rest, p.rest, s);
          }
        } else {
          BinOpRHSSuffix(k, Bin(s[0].c, left, o.tree), o.rest);
          SuffixTrans(BinOpRHS(k, left, s).rest, o.rest, s);
        }
      }
    }
  }

  lemma {:induction false} ExpressionSuffix(s: seq<Token>)
    ensures Suffix(Expression(s).rest, s)
    decreases |s|, 2
  {
    PrimarySuffix(s);
    var o := Primary(s);
    if o.Parsed? {
      BinOpRHSSuffix(0, o.tree, o.rest);
      SuffixTrans(Expression(s).rest, o.rest, s);
    }
  }

  lemma {:induction false} NamesSpell(s: seq<Token>)
    ensures s == YieldNames(LeadingNames(s)) + s[|LeadingNames(s)|..]
    ensures Suffix(s[|LeadingNames(s)|..], s)
  {
    if s != [] && s[0].Identifier? {
      NamesSpell(s[1..]);
      assert s[1..][|LeadingNames(s[1..])|..] == s[|LeadingNames(s)|..];
    }
  }

  lemma {:induction false} PrototypeSound(s: seq<Token>)
    ensures Suffix(Prototype(s).rest, s)
    ensures Prototype(s).ProtoParsed? ==> s == YieldProto(Prototype(s).proto) + Prototype(s).rest
  {
    if s != [] && s[0].Identifier? {
      NextSuffix(s, s);
      if Cur(Next(s)) == Some(Char('(')) {
        var inside := Next(Next(s));
        NextSuffix(Next(s), s);
        NamesSpell(inside);
        var q := inside[|LeadingNames(inside)|..];
        SuffixTrans(q, inside, s);
        NextSuffix(q, s);
        if Cur(q) == Some(Char(')')) { ProtoSpells(s, inside, q); }
      }
    }
  }

  lemma {:induction false} ProtoSpells(s: seq<Token>, inside: seq<Token>, q: seq<Token>)
    requires |s| >= 2 && s[0].Identifier? && s[1] == Char('(') && q != [] && q[0] == Char(')')
    requires inside == s[2..] && inside == YieldNames(LeadingNames(inside)) + q
    ensures s == YieldProto(Proto(s[0].name, LeadingNames(inside))) + Next(q)
  {
    assert q == [Char(')')] + Next(q);
    assert s == [s[0], s[1]] + inside;
  }

  /** What a turn may read off the front of `s`. */
  ghost predicate Takes(s: seq<Token>, turn: Turn) {
    && s == YieldItem(turn.item) + turn.rest
    && YieldItem(turn.item) != []
    && (turn.item.Definition? || turn.item.TopExpr? ==> WF(turn.item.body) && TokPrecedence(turn.rest) < 0)
  }

  lemma {:induction false} SkipTakes(s: seq<Token>, r: seq<Token>)
    requires s != [] && Suffix(r, s)
    ensures |r| <= |s| && Takes(s, Skip(s, r))
  {
    SuffixFront(r, s);
    NextSuffix(r, s);
    SuffixFront(Next(r), s);
  }

  lemma {:induction false} DefinitionTakes(s: seq<Token>)
    requires s != [] && s[0] == Def
    ensures Takes(s, ReadDefinition(s))
  {
    PrototypeSound(Next(s));
    var r := Prototype(Next(s)).rest;
    SuffixTrans(r, Next(s), s);
    if Prototype(Next(s)).ProtoFailed? {
      SkipTakes(s, r);
    } else {
      ExpressionSuffix(r);
      var q := Expression(r).rest;
      SuffixTrans(q, r, s);
      if Expression(r).Failed? { SkipTakes(s, q); } else { DefinitionSpells(s); }
    }
  }

  lemma {:induction false} DefinitionSpells(s: seq<Token>)
    requires s != [] && s[0] == Def && Prototype(Next(s)).ProtoParsed?
    requires Expression(Prototype(Next(s)).rest).Parsed?
    ensures Takes(s, ReadDefinition(s))
  {
    var ProtoParsed(p, r) := Prototype(Next(s));
    var Parsed(t, q) := Expression(r);
    PrototypeSound(Next(s));
    ExpressionSound(r);
    FrontAndNext(s);
    Regroup([Def], YieldProto(p), Yield(t), q);
  }

  lemma {:induction false} ExternalTakes(s: seq<Token>)
    requires s != [] && s[0] == Extern
    ensures Takes(s, ReadExternal(s))
  {
    PrototypeSound(Next(s));
    var r := Prototype(Next(s)).rest;
    SuffixTrans(r, Next(s), s);
    if Prototype(Next(s)).ProtoFailed? { SkipTakes(s, r); }
  }

  lemma {:induction false} TopExprTakes(s: seq<Token>)
    requires s != []
    ensures Takes(s, ReadTopExpr(s))
  {
    ExpressionSuffix(s);
    if Expression(s).Failed? { SkipTakes(s, Expression(s).rest); } else { ExpressionSound(s); }
  }

  /** One turn reads exactly its item, which is well formed. */
  lemma {:induction false} ItemSound(s: seq<Token>)
    requires s != []
    ensures Takes(s, ReadItem(s))
  {
    if s[0] == Char(';') {
    } else if s[0] == Def {
      DefinitionTakes(s);
    } else if s[0] == Extern {
      ExternalTakes(s);
    } else {
      TopExprTakes(s);
    }
  }

  /** The main loop accounts for every token of the input, in order. */
  lemma {:induction false} ItemsSpell(s: seq<Token>)
    ensures YieldItems(Items(s)) == s
    ensures |Items(s)| <= |s|
    decreases |s|
  {
    if s != [] {
      ItemSound(s);
      ItemsSpell(ReadItem(s).rest);
    }
  }

  // ----- programs -----

  /** A definition, external or expression that could be written down. */
  predicate Unit(i: Item) {
    match i
    case Definition(_, t) => WF(t)
    case External(_) => true
    case TopExpr(t) => WF(t)
    case _ => false
  }

  predicate Units(items: seq<Item>) {
    items == [] || (Unit(items[0]) && Units(items[1..]))
  }

  /** The units, each followed by a semicolon. */
  function Separated(units: seq<Item>): seq<Item> {
    if units == [] then [] else [units[0], Semicolon] + Separated(units[1..])
  }

  lemma {:induction false} NamesComplete(names: seq<string>, rest: seq<Token>)
    requires rest == [] || !rest[0].Identifier?
    ensures LeadingNames(YieldNames(names) + rest) == names
    decreases names
  {
    var s := YieldNames(names) + rest;
    if names != [] {
      NamesComplete(names[1..], rest);
      assert s[1..] == YieldNames(names[1..]) + rest;
    } else {
      assert s == rest;
    }
  }

  lemma {:induction false} PrototypeComplete(p: Proto, rest: seq<Token>)
    ensures Prototype(YieldProto(p) + rest) == ProtoParsed(p, rest)
  {
    var s := YieldProto(p) + rest;
    var closing := [Char(')')] + rest;
    assert Next(s) == [Char('(')] + (YieldNames(p.args) + closing);
    assert Next(Next(s)) == YieldNames(p.args) + closing;
    NamesComplete(p.args, closing);
    assert (YieldNames(p.args) + closing)[|p.args|..] == closing;
    assert Next(closing) == rest;
  }

  lemma {:induction false} BeginsExpression(t: Tree)
    ensures Yield(t)[0] != Char(';') && Yield(t)[0] != Def && Yield(t)[0] != Extern
    decreases t
  {
    if t.Bin? { BeginsExpression(t.left); }
  }

  lemma {:induction false} DefinitionComplete(p: Proto, t: Tree, rest: seq<Token>)
    requires WF(t) && Closed(t, rest) && TokPrecedence(rest) < 0
    ensures ReadItem([Def] + YieldProto(p) + Yield(t) + rest) == Turn(Definition(p, t), rest)
  {
    var s := [Def] + YieldProto(p) + Yield(t) + rest;
    assert s[0] == Def;
    assert Next(s) == YieldProto(p) + (Yield(t) + rest);
    PrototypeComplete(p, Yield(t) + rest);
    ExpressionComplete(t, rest);
  }

  lemma {:induction false} ExternalComplete(p: Proto, rest: seq<Token>)
    ensures ReadItem([Extern] + YieldProto(p) + rest) == Turn(External(p), rest)
  {
    var s := [Extern] + YieldProto(p) + rest;
    assert s[0] == Extern;
    assert Next(s) == YieldProto(p) + rest;
    PrototypeComplete(p, rest);
  }

  lemma {:induction false} TopExprComplete(t: Tree, rest: seq<Token>)
    requires WF(t) && Closed(t, rest) && TokPrecedence(rest) < 0
    ensures ReadItem(Yield(t) + rest) == Turn(TopExpr(t), rest)
  {
    BeginsExpression(t);
    ExpressionComplete(t, rest);
  }

  lemma {:induction false} UnitComplete(i: Item, rest: seq<Token>)
    requires Unit(i) && Cur(rest) == Some(Char(';'))
    ensures YieldItem(i) != [] && ReadItem(YieldItem(i) + rest) == Turn(i, rest)
  {
    match i
    case Definition(p, t) => DefinitionComplete(p, t, rest);
    case External(p) => ExternalComplete(p, rest);
    case TopExpr(t) => TopExprComplete(t, rest);
  }

  /** A program of well-formed units with semicolons behind them is read as just that,
      nothing skipped. */
  lemma {:induction false} ProgramRoundTrip(units: seq<Item>)
    requires Units(units)
    ensures Items(YieldItems(Separated(units))) == Separated(units)
    decreases units
  {
    if units != [] {
      var more := YieldItems(Separated(units[1..]));
      var behind := [Char(';')] + more;
      var items := Separated(units);
      assert items[1..] == [Semicolon] + Separated(units[1..]);
      assert items[1..][1..] == Separated(units[1..]);
      assert YieldItems(items[1..]) == behind;
      assert YieldItems(items) == YieldItem(units[0]) + behind;
      UnitComplete(units[0], behind);
      assert Next(behind) == more;
      ProgramRoundTrip(units[1..]);
      assert Items(behind) == [Semicolon] + Items(more);
    }
  }
}
