/**
  The grammar of the filter language as derivation trees, and the reading of a token list as
  such a tree.  `ParseOr`, `ParseAnd` and `ParseCondition` follow the recursive descent of the
  source over the remaining tokens; `YieldOr` and its companions write a tree out again.
 */
module FilterGrammar {
  import opened Results
  import opened FilterLexer

  // ----- filter expressions

  datatype Value = TextValue(text: string) | IntValue(number: int) | FloatValue(decimal: real)

  datatype Expr =
    | AndExpr(left: Expr, right: Expr)
    | OrExpr(left: Expr, right: Expr)
    | NotExpr(operand: Expr)
    | CompareExpr(field: string, op: CompareOp, value: Value)
    | HasExpr(argument: string)
    | MissingExpr(argument: string)
    | CountExpr(argument: string, op: CompareOp, value: Value)

  // ----- derivation trees, one constructor for each production

  /** An identifier or a quoted string; both denote their text. */
  datatype Name = Bare(text: string) | Quoted(text: string)

  datatype Literal = NameLiteral(name: Name) | IntLiteral(number: int) | DecimalLiteral(decimal: real)

  datatype Condition =
    | Negated(operand: Condition)
    | Group(inner: OrChain)
    | Comparison(field: string, op: CompareOp, literal: Literal)
    | HasCall(argument: Name)
    | MissingCall(argument: Name)
    | CountCall(argument: Name, op: CompareOp, literal: Literal)

  datatype AndChain = OneCondition(only: Condition) | AndMore(init: AndChain, last: Condition)

  datatype OrChain = OneAnd(only: AndChain) | OrMore(init: OrChain, last: AndChain)

  // ----- the tokens of a tree

  function YieldName(name: Name): Lexeme {
    match name
    case Bare(s) => Ident(s)
    case Quoted(s) => Str(s)
  }

  function YieldLiteral(literal: Literal): Lexeme {
    match literal
    case NameLiteral(name) => YieldName(name)
    case IntLiteral(n) => Num(n)
    case DecimalLiteral(r) => Dec(r)
  }

  function YieldCondition(c: Condition): (ls: seq<Lexeme>)
    ensures ls != [] && Eof !in ls
  {
    match c
    case Negated(operand) => [Not] + YieldCondition(operand)
    case Group(inner) => [LParen] + YieldOr(inner) + [RParen]
    case Comparison(field, op, literal) => [Ident(field), Op(op), YieldLiteral(literal)]
    case HasCall(argument) => [Has, LParen, YieldName(argument), RParen]
    case MissingCall(argument) => [Missing, LParen, YieldName(argument), RParen]
    case CountCall(argument, op, literal) =>
      [Count, LParen, YieldName(argument), RParen, Op(op), YieldLiteral(literal)]
  }

  function YieldAnd(a: AndChain): (ls: seq<Lexeme>)
    ensures ls != [] && Eof !in ls
  {
    match a
    case OneCondition(c) => YieldCondition(c)
    case AndMore(init, last) => YieldAnd(init) + [And] + YieldCondition(last)
  }

  function YieldOr(o: OrChain): (ls: seq<Lexeme>)
    ensures ls != [] && Eof !in ls
  {
    match o
    case OneAnd(a) => YieldAnd(a)
    case OrMore(init, last) => YieldOr(init) + [Or] + YieldAnd(last)
  }

  // ----- the expression of a tree

  function AstLiteral(literal: Literal): Value {
    match literal
    case NameLiteral(name) => TextValue(name.text)
    case IntLiteral(n) => IntValue(n)
    case DecimalLiteral(r) => FloatValue(r)
  }

  function AstCondition(c: Condition): Expr {
    match c
    case Negated(operand) => NotExpr(AstCondition(operand))
    case Group(inner) => AstOr(inner)
    case Comparison(field, op, literal) => CompareExpr(field, op, AstLiteral(literal))
    case HasCall(argument) => HasExpr(argument.text)
    case MissingCall(argument) => MissingExpr(argument.text)
    case CountCall(argument, op, literal) => CountExpr(argument.text, op, AstLiteral(literal))
  }

  function AstAnd(a: AndChain): Expr {
    match a
    case OneCondition(c) => AstCondition(c)
    case AndMore(init, last) => AndExpr(AstAnd(init), AstCondition(last))
  }

  function AstOr(o: OrChain): Expr {
    match o
    case OneAnd(a) => AstAnd(a)
    case OrMore(init, last) => OrExpr(AstOr(init), AstAnd(last))
  }

  // ----- recursive descent

  datatype ParseFault =
    | Expected(lexeme: Lexeme)
    | UnexpectedToken
    | ExpectedArgument
    | CountWithoutComparison
    | ExpectedOperator
    | ExpectedValue

  /** What was wrong, and how many tokens were left when it was found. */
  datatype Failure = Failure(fault: ParseFault, left: nat)

  datatype Parsed<+T> = Parsed(tree: T, rest: seq<Lexeme>)

  type Parsing<+T> = Result<Parsed<T>, Failure>

  function Head(ts: seq<Lexeme>): Lexeme {
    if ts == [] then Eof else ts[0]
  }

  function ParseName(ts: seq<Lexeme>): (r: Option<Name>)
    ensures r.Some? ==> ts != []
  {
    match Head(ts)
    case Ident(s) => Some(Bare(s))
    case Str(s) => Some(Quoted(s))
    case _ => None
  }

  function ParseLiteral(ts: seq<Lexeme>): (r: Option<Literal>)
    ensures r.Some? ==> ts != []
  {
    match Head(ts)
    case Ident(s) => Some(NameLiteral(Bare(s)))
    case Str(s) => Some(NameLiteral(Quoted(s)))
    case Num(n) => Some(IntLiteral(n))
    case Dec(r) => Some(DecimalLiteral(r))
    case _ => None
  }

  /** `op value`, after a field or a count; `missingOp` is the complaint when there is no operator. */
  function ParseRightSide(ts: seq<Lexeme>, missingOp: ParseFault): (r: Parsing<(CompareOp, Literal)>)
    ensures r.Ok? ==> |r.value.rest| < |ts|
  {
    if !Head(ts).Op? then Err(Failure(missingOp, |ts|))
    else
      var afterOp := ts[1..];
      var literal := ParseLiteral(afterOp);
      if literal.None? then Err(Failure(ExpectedValue, |afterOp|))
      else Ok(Parsed((ts[0].op, literal.value), afterOp[1..]))
  }

  /** `( name )`, after the name of a function. */
  function ParseArgument(ts: seq<Lexeme>): (r: Parsing<Name>)
    ensures r.Ok? ==> |r.value.rest| < |ts|
  {
    if Head(ts) != LParen then Err(Failure(Expected(LParen), |ts|))
    else
      var afterParen := ts[1..];
      var argument := ParseName(afterParen);
      if argument.None? then Err(Failure(ExpectedArgument, |afterParen|))
      else
        var afterName := afterParen[1..];
        if Head(afterName) != RParen then Err(Failure(Expected(RParen), |afterName|))
        else Ok(Parsed(argument.value, afterName[1..]))
  }

  function ParseCall(ts: seq<Lexeme>): (r: Parsing<Condition>)
    requires ts != [] && (ts[0].Has? || ts[0].Missing? || ts[0].Count?)
    ensures r.Ok? ==> |r.value.rest| < |ts|
  {
    var argument := ParseArgument(ts[1..]);
    if argument.Err? then Err(argument.error)
    else
      var Parsed(name, rest) := argument.value;
      if ts[0].Has? then Ok(Parsed(HasCall(name), rest))
      else if ts[0].Missing? then Ok(Parsed(MissingCall(name), rest))
      else
        var right := ParseRightSide(rest, CountWithoutComparison);
        if right.Err? then Err(right.error)
        else Ok(Parsed(CountCall(name, right.value.tree.0, right.value.tree.1), right.value.rest))
  }

  function ParseCondition(ts: seq<Lexeme>): (r: Parsing<Condition>)
    ensures r.Ok? ==> |r.value.rest| < |ts|
    decreases |ts|, 0
  {
    match Head(ts)
    case Not =>
      var operand := ParseCondition(ts[1..]);
      if operand.Err? then Err(operand.error)
      else Ok(Parsed(Negated(operand.value.tree), operand.value.rest))
    case LParen =>
      var inner := ParseOr(ts[1..]);
      if inner.Err? then Err(inner.error)
      else if Head(inner.value.rest) != RParen then Err(Failure(Expected(RParen), |inner.value.rest|))
      else Ok(Parsed(Group(inner.value.tree), inner.value.rest[1..]))
    case Has => ParseCall(ts)
    case Missing => ParseCall(ts)
    case Count => ParseCall(ts)
    case Ident(field) =>
      var right := ParseRightSide(ts[1..], ExpectedOperator);
      if right.Err? then Err(right.error)
      else Ok(Parsed(Comparison(field, right.value.tree.0, right.value.tree.1), right.value.rest))
    case _ => Err(Failure(UnexpectedToken, |ts|))
  }

  /** The loop of `_parse_and_expr`, entered with `init` already read. */
  function AndLoop(init: AndChain, ts: seq<Lexeme>): (r: Parsing<AndChain>)
    ensures r.Ok? ==> |r.value.rest| <= |ts|
    decreases |ts|, 1
  {
    if Head(ts) != And then Ok(Parsed(init, ts))
    else
      var next := ParseCondition(ts[1..]);
      if next.Err? then Err(next.error)
      else AndLoop(AndMore(init, next.value.tree), next.value.rest)
  }

  function ParseAnd(ts: seq<Lexeme>): (r: Parsing<AndChain>)
    ensures r.Ok? ==> |r.value.rest| < |ts|
    decreases |ts|, 2
  {
    var first := ParseCondition(ts);
    if first.Err? then Err(first.error)
    else AndLoop(OneCondition(first.value.tree), first.value.rest)
  }

  /** The loop of `_parse_or_expr`, entered with `init` already read. */
  function OrLoop(init: OrChain, ts: seq<Lexeme>): (r: Parsing<OrChain>)
    ensures r.Ok? ==> |r.value.rest| <= |ts|
    decreases |ts|, 3
  {
    if Head(ts) != Or then Ok(Parsed(init, ts))
    else
      var next := ParseAnd(ts[1..]);
      if next.Err? then Err(next.error)
      else OrLoop(OrMore(init, next.value.tree), next.value.rest)
  }

  function ParseOr(ts: seq<Lexeme>): (r: Parsing<OrChain>)
    ensures r.Ok? ==> |r.value.rest| < |ts|
    decreases |ts|, 4
  {
    var first := ParseAnd(ts);
    if first.Err? then Err(first.error)
    else OrLoop(OneAnd(first.value.tree), first.value.rest)
  }

  /** A whole token list: one filter, then the end marker. */
  function ParseAll(ts: seq<Lexeme>): Result<OrChain, Failure> {
    var r := ParseOr(ts);
    if r.Err? then Err(r.error)
    else if Head(r.value.rest) != Eof then Err(Failure(UnexpectedToken, |r.value.rest|))
    else Ok(r.value.tree)
  }

  // ----- soundness: what was read is what the tree yields

  ghost predicate Reads(ts: seq<Lexeme>, used: seq<Lexeme>, rest: seq<Lexeme>) {
    ts == used + rest
  }

  lemma RightSideSound(ts: seq<Lexeme>, missingOp: ParseFault)
    ensures var r := ParseRightSide(ts, missingOp);
            r.Ok? ==> Reads(ts, [Op(r.value.tree.0), YieldLiteral(r.value.tree.1)], r.value.rest)
  {
    if ParseRightSide(ts, missingOp).Ok? {
      assert ts[1..][1..] == ts[2..] && ts == ts[..2] + ts[2..];
    }
  }

  lemma ArgumentSound(ts: seq<Lexeme>)
    ensures var r := ParseArgument(ts);
            r.Ok? ==> Reads(ts, [LParen, YieldName(r.value.tree), RParen], r.value.rest)
  {
    if ParseArgument(ts).Ok? {
      assert ts[1..][1..] == ts[2..] && ts[2..][1..] == ts[3..] && ts == ts[..3] + ts[3..];
    }
  }

  lemma CallSound(ts: seq<Lexeme>)
    requires ts != [] && (ts[0].Has? || ts[0].Missing? || ts[0].Count?)
    ensures var r := ParseCall(ts);
            r.Ok? ==> Reads(ts, YieldCondition(r.value.tree), r.value.rest)
  {
    hide ParseArgument, ParseRightSide;
    var r := ParseCall(ts);
    if r.Ok? {
      ArgumentSound(ts[1..]);
      assert ts == [ts[0]] + ts[1..];
      if ts[0].Count? {
        RightSideSound(ParseArgument(ts[1..]).value.rest, CountWithoutComparison);
      }
    }
  }

  lemma {:induction false} ConditionSound(ts: seq<Lexeme>)
    ensures var r := ParseCondition(ts); r.Ok? ==> Reads(ts, YieldCondition(r.value.tree), r.value.rest)
    decreases |ts|, 0
  {
    var r := ParseCondition(ts);
    if r.Ok? {
      assert ts == [ts[0]] + ts[1..];
      match ts[0]
      case Not => ConditionSound(ts[1..]);
      case LParen =>
        OrSound(ts[1..]);
        var inner := ParseOr(ts[1..]).value;
        assert inner.rest == [RParen] + inner.rest[1..];
      case Ident(_) => RightSideSound(ts[1..], ExpectedOperator);
      case _ => CallSound(ts);
    }
  }

  lemma {:induction false} AndLoopSound(init: AndChain, before: seq<Lexeme>, ts: seq<Lexeme>)
    requires before == YieldAnd(init)
    ensures var r := AndLoop(init, ts); r.Ok? ==> Reads(before + ts, YieldAnd(r.value.tree), r.value.rest)
    decreases |ts|, 1
  {
    hide ParseCondition;
    if Head(ts) == And {
      ConditionSound(ts[1..]);
      var next := ParseCondition(ts[1..]);
      if next.Ok? {
        var longer := AndMore(init, next.value.tree);
        assert before + ts == YieldAnd(longer) + next.value.rest;
        AndLoopSound(longer, YieldAnd(longer), next.value.rest);
      }
    }
  }

  lemma {:induction false} AndSound(ts: seq<Lexeme>)
    ensures var r := ParseAnd(ts); r.Ok? ==> Reads(ts, YieldAnd(r.value.tree), r.value.rest)
    decreases |ts|, 2
  {
    ConditionSound(ts);
    var first := ParseCondition(ts);
    if first.Ok? {
      AndLoopSound(OneCondition(first.value.tree), YieldCondition(first.value.tree), first.value.rest);
    }
  }

  lemma {:induction false} OrLoopSound(init: OrChain, before: seq<Lexeme>, ts: seq<Lexeme>)
    requires before == YieldOr(init)
    ensures var r := OrLoop(init, ts); r.Ok? ==> Reads(before + ts, YieldOr(r.value.tree), r.value.rest)
    decreases |ts|, 3
  {
    hide ParseAnd;
    if Head(ts) == Or {
      AndSound(ts[1..]);
      var next := ParseAnd(ts[1..]);
      if next.Ok? {
        var longer := OrMore(init, next.value.tree);
        assert before + ts == YieldOr(longer) + next.value.rest;
        OrLoopSound(longer, YieldOr(longer), next.value.rest);
      }
    }
  }

  lemma {:induction false} OrSound(ts: seq<Lexeme>)
    ensures var r := ParseOr(ts); r.Ok? ==> Reads(ts, YieldOr(r.value.tree), r.value.rest)
    decreases |ts|, 4
  {
    AndSound(ts);
    var first := ParseAnd(ts);
    if first.Ok? {
      OrLoopSound(OneAnd(first.value.tree), YieldAnd(first.value.tree), first.value.rest);
    }
  }

  // ----- completeness: every tree is found again from what it yields

  lemma LiteralComplete(op: CompareOp, literal: Literal, rest: seq<Lexeme>, missingOp: ParseFault)
    ensures ParseRightSide([Op(op), YieldLiteral(literal)] + rest, missingOp) == Ok(Parsed((op, literal), rest))
  {
    var ts := [Op(op), YieldLiteral(literal)] + rest;
    assert ts[1..][0] == YieldLiteral(literal) && ts[1..][1..] == rest;
  }

  lemma ArgumentComplete(name: Name, rest: seq<Lexeme>)
    ensures ParseArgument([LParen, YieldName(name), RParen] + rest) == Ok(Parsed(name, rest))
  {
    var ts := [LParen, YieldName(name), RParen] + rest;
    assert ts[1..] == [YieldName(name), RParen] + rest && ts[1..][1..] == [RParen] + rest;
    assert ([RParen] + rest)[1..] == rest;
  }

  lemma CallComplete(c: Condition, rest: seq<Lexeme>)
    requires c.HasCall? || c.MissingCall? || c.CountCall?
    ensures ParseCondition(YieldCondition(c) + rest) == Ok(Parsed(c, rest))
  {
    hide ParseArgument, ParseRightSide;
    var ts := YieldCondition(c) + rest;
    var tail := if c.CountCall? then [Op(c.op), YieldLiteral(c.literal)] + rest else rest;
    assert ts[1..] == [LParen, YieldName(c.argument), RParen] + tail;
    ArgumentComplete(c.argument, tail);
    if c.CountCall? {
      LiteralComplete(c.op, c.literal, rest, CountWithoutComparison);
    }
  }

  lemma {:induction false} ConditionComplete(c: Condition, rest: seq<Lexeme>)
    ensures ParseCondition(YieldCondition(c) + rest) == Ok(Parsed(c, rest))
    decreases c
  {
    var ts := YieldCondition(c) + rest;
    match c
    case Negated(operand) =>
      assert ts[1..] == YieldCondition(operand) + rest;
      ConditionComplete(operand, rest);
    case Group(inner) =>
      assert ts[1..] == YieldOr(inner) + ([RParen] + rest);
      OrComplete(inner, [RParen] + rest);
      assert ([RParen] + rest)[1..] == rest;
    case Comparison(field, op, literal) =>
      assert ts[1..] == [Op(op), YieldLiteral(literal)] + rest;
      LiteralComplete(op, literal, rest, ExpectedOperator);
    case _ => CallComplete(c, rest);
  }

  lemma {:induction false} AndComplete(a: AndChain, rest: seq<Lexeme>)
    ensures ParseAnd(YieldAnd(a) + rest) == AndLoop(a, rest)
    decreases a
  {
    match a
    case OneCondition(c) => ConditionComplete(c, rest);
    case AndMore(init, last) =>
      var more := [And] + YieldCondition(last) + rest;
      assert YieldAnd(a) + rest == YieldAnd(init) + more;
      assert more[1..] == YieldCondition(last) + rest;
      AndComplete(init, more);
      ConditionComplete(last, rest);
  }

  lemma {:induction false} OrComplete(o: OrChain, rest: seq<Lexeme>)
    requires Head(rest) != And
    ensures ParseOr(YieldOr(o) + rest) == OrLoop(o, rest)
    decreases o
  {
    match o
    case OneAnd(a) => AndComplete(a, rest);
    case OrMore(init, last) =>
      var more := [Or] + YieldAnd(last) + rest;
      assert YieldOr(o) + rest == YieldOr(init) + more;
      assert more[1..] == YieldAnd(last) + rest;
      OrComplete(init, more);
      AndComplete(last, rest);
  }

  // ----- the language

  /** A token list as the tokenizer makes it: one end marker, at the end. */
  ghost predicate Terminated(ts: seq<Lexeme>) {
    ts != [] && ts[|ts| - 1] == Eof && Eof !in ts[..|ts| - 1]
  }

  lemma EndMarkerEnds(ts: seq<Lexeme>, used: seq<Lexeme>, rest: seq<Lexeme>)
    requires Terminated(ts) && ts == used + rest && Eof !in used && Head(rest) == Eof
    ensures rest == [Eof]
  {
    assert forall i :: 0 <= i < |used| ==> used[i] != Eof;
    var init := ts[..|ts| - 1];
    assert forall i :: 0 <= i < |init| ==> init[i] != Eof;
    assert ts[|ts| - 1] == Eof;
    assert rest[0] == ts[|used|];
  }

  /**
    Sound, complete and unambiguous: the parser accepts a token list with the tree `o` exactly
    when the list is what `o` yields.  So a list has a derivation if and only if it is accepted,
    and it never has two.
   */
  lemma ParsesExactlyItsYield(ts: seq<Lexeme>, o: OrChain)
    requires Terminated(ts)
    ensures ParseAll(ts) == Ok(o) <==> ts == YieldOr(o) + [Eof]
  {
    if ParseAll(ts) == Ok(o) {
      OrSound(ts);
      EndMarkerEnds(ts, YieldOr(o), ParseOr(ts).value.rest);
    }
    if ts == YieldOr(o) + [Eof] {
      OrComplete(o, [Eof]);
    }
  }

  lemma Unambiguous(o1: OrChain, o2: OrChain)
    requires YieldOr(o1) == YieldOr(o2)
    ensures o1 == o2
  {
    OrComplete(o1, [Eof]);
    OrComplete(o2, [Eof]);
  }

  /** Putting a filter in parentheses does not change the expression it denotes. */
  lemma ParenthesesTransparent(ts: seq<Lexeme>)
    requires Terminated(ts) && ParseAll(ts).Ok?
    ensures var wrapped := [LParen] + ts[..|ts| - 1] + [RParen, Eof];
            ParseAll(wrapped).Ok? && AstOr(ParseAll(wrapped).value) == AstOr(ParseAll(ts).value)
  {
    var o := ParseAll(ts).value;
    ParsesExactlyItsYield(ts, o);
    assert ts[..|ts| - 1] == YieldOr(o);
    var g := OneAnd(OneCondition(Group(o)));
    assert YieldOr(g) == YieldAnd(g.only) == YieldCondition(Group(o));
    assert AstOr(g) == AstAnd(g.only) == AstCondition(Group(o));
    assert [LParen] + ts[..|ts| - 1] + [RParen, Eof] == YieldOr(g) + [Eof];
    OrComplete(g, [Eof]);
  }

  /** Two filters, each in parentheses, joined by AND denote the conjunction of the two. */
  lemma JoinedByAnd(ts1: seq<Lexeme>, ts2: seq<Lexeme>)
    requires Terminated(ts1) && Terminated(ts2) && ParseAll(ts1).Ok? && ParseAll(ts2).Ok?
    ensures var joined := [LParen] + ts1[..|ts1| - 1] + [RParen, And, LParen] + ts2[..|ts2| - 1] + [RParen, Eof];
            ParseAll(joined).Ok? &&
            AstOr(ParseAll(joined).value) == AndExpr(AstOr(ParseAll(ts1).value), AstOr(ParseAll(ts2).value))
  {
    var o1, o2 := ParseAll(ts1).value, ParseAll(ts2).value;
    ParsesExactlyItsYield(ts1, o1);
    ParsesExactlyItsYield(ts2, o2);
    assert ts1[..|ts1| - 1] == YieldOr(o1) && ts2[..|ts2| - 1] == YieldOr(o2);
    var first := OneCondition(Group(o1));
    var both := OneAnd(AndMore(first, Group(o2)));
    assert YieldOr(both) == YieldAnd(first) + [And] + YieldCondition(Group(o2));
    assert YieldAnd(first) == YieldCondition(Group(o1));
    assert AstOr(both) == AstAnd(both.only) == AndExpr(AstAnd(first), AstCondition(Group(o2)));
    assert AstAnd(first) == AstCondition(Group(o1));
    var joined := [LParen] + ts1[..|ts1| - 1] + [RParen, And, LParen] + ts2[..|ts2| - 1] + [RParen, Eof];
    assert joined == YieldOr(both) + [Eof];
    OrComplete(both, [Eof]);
  }
}
