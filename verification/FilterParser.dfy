/**
  The recursive-descent parser of the filter language (`cli/filter_parser.py`, class `Parser`
  and `parse_filter`): a position moves over the tokens, and every method is proved against
  the function of `FilterGrammar` for its production.
 */
module FilterParser {
  import opened Results
  import opened FilterLexer
  import opened FilterGrammar

  datatype FilterError =
    | EmptyFilter
    | Lexical(error: LexerError)
    | Syntax(fault: ParseFault, position: nat)

  /** The parser is given what the tokenizer makes: an end marker, at the end and nowhere else. */
  ghost predicate EndsWithMarker(tokens: seq<Token>) {
    && tokens != [] && tokens[|tokens| - 1].lexeme == Eof
    && forall i :: 0 <= i < |tokens| - 1 ==> tokens[i].lexeme != Eof
  }

  class Parser {
    const tokens: seq<Token>
    ghost const lexemes: seq<Lexeme>
    var pos: nat

    constructor (tokens: seq<Token>)
      requires EndsWithMarker(tokens)
      ensures this.tokens == tokens && pos == 0 && Valid()
    {
      this.tokens := tokens;
      this.lexemes := Lexemes(tokens);
      pos := 0;
    }

    /** The position never moves past the end marker. */
    ghost predicate Valid()
      reads this
    {
      EndsWithMarker(tokens) && lexemes == Lexemes(tokens) && pos < |tokens|
    }

    /** The tokens not yet consumed. */
    ghost function Left(): (ls: seq<Lexeme>)
      requires Valid()
      reads this
      ensures |ls| == |tokens| - pos && Head(ls) == tokens[pos].lexeme
    {
      lexemes[pos..]
    }

    /** The error of a failure, with the position of the token it was found at. */
    ghost function At(failure: Failure): FilterError
      requires 0 < failure.left <= |tokens|
    {
      Syntax(failure.fault, tokens[|tokens| - failure.left].position)
    }

    /** The result `r`, with the tokens now left, is what `parsing` says, `ast` giving the value. */
    ghost predicate Agrees<T(!new), V(!new)>(parsing: Parsing<T>, ast: T -> V, r: Result<V, FilterError>)
      reads this
    {
      match parsing
      case Ok(parsed) => Valid() && Left() == parsed.rest && r == Ok(ast(parsed.tree))
      case Err(failure) => 0 < failure.left <= |tokens| && r == Err(At(failure))
    }

    method Advance() returns (token: Token)
      requires Valid() && tokens[pos].lexeme != Eof
      modifies this
      ensures Valid() && pos == old(pos) + 1 && token == tokens[old(pos)]
      ensures Left() == old(Left())[1..]
    {
      token := tokens[pos];
      pos := pos + 1;
    }

    method Expect(lexeme: Lexeme) returns (error: Option<FilterError>)
      requires Valid() && lexeme != Eof
      modifies this
      ensures Valid()
      ensures if Head(old(Left())) == lexeme then error == None && Left() == old(Left())[1..]
              else error == Some(At(Failure(Expected(lexeme), |old(Left())|)))
    {
      if tokens[pos].lexeme != lexeme {
        return Some(Syntax(Expected(lexeme), tokens[pos].position));
      }
      var token := Advance();
      return None;
    }

    /** `_parse_value` */
    method ParseValue() returns (r: Result<Value, FilterError>)
      requires Valid()
      modifies this
      ensures Valid()
      ensures match ParseLiteral(old(Left()))
              case Some(literal) => r == Ok(AstLiteral(literal)) && Left() == old(Left())[1..]
              case None => r == Err(At(Failure(ExpectedValue, |old(Left())|)))
    {
      match tokens[pos].lexeme
      case Str(s) => var token := Advance(); return Ok(TextValue(s));
      case Num(n) => var token := Advance(); return Ok(IntValue(n));
      case Dec(d) => var token := Advance(); return Ok(FloatValue(d));
      case Ident(name) => var token := Advance(); return Ok(TextValue(name));
      case _ => return Err(Syntax(ExpectedValue, tokens[pos].position));
    }

    /** An operator and a value, as `_parse_comparison` and the end of a `count` call read them. */
    method ParseOpAndValue(missingOp: ParseFault) returns (r: Result<(CompareOp, Value), FilterError>)
      requires Valid()
      modifies this
      ensures Valid() && Agrees(ParseRightSide(old(Left()), missingOp), RightSide, r)
    {
      var lexeme := tokens[pos].lexeme;
      if !lexeme.Op? {
        return Err(Syntax(missingOp, tokens[pos].position));
      }
      var token := Advance();
      var value := ParseValue();
      if value.Err? {
        return Err(value.error);
      }
      return Ok((lexeme.op, value.value));
    }

    /** An identifier or a string, in `_parse_function_call`. */
    method ParseNameToken() returns (r: Result<string, FilterError>)
      requires Valid()
      modifies this
      ensures Valid()
      ensures match ParseName(old(Left()))
              case Some(name) => r == Ok(name.text) && Left() == old(Left())[1..]
              case None => r == Err(At(Failure(ExpectedArgument, |old(Left())|)))
    {
      match tokens[pos].lexeme
      case Ident(name) => var token := Advance(); return Ok(name);
      case Str(s) => var token := Advance(); return Ok(s);
      case _ => return Err(Syntax(ExpectedArgument, tokens[pos].position));
    }

    /** The parenthesised argument in `_parse_function_call`. */
    method ParseCallArgument() returns (r: Result<string, FilterError>)
      requires Valid()
      modifies this
      ensures Valid() && Agrees(ParseArgument(old(Left())), (name: Name) => name.text, r)
    {
      var noParen := Expect(LParen);
      if noParen.Some? {
        return Err(noParen.value);
      }
      var argument := ParseNameToken();
      if argument.Err? {
        return argument;
      }
      noParen := Expect(RParen);
      if noParen.Some? {
        return Err(noParen.value);
      }
      return argument;
    }

    /** `_parse_function_call` */
    method ParseFunctionCall() returns (r: Result<Expr, FilterError>)
      requires Valid() && (tokens[pos].lexeme.Has? || tokens[pos].lexeme.Missing? || tokens[pos].lexeme.Count?)
      modifies this
      ensures Valid() && Agrees(ParseCall(old(Left())), AstCondition, r)
    {
      hide ParseArgument, ParseRightSide;
      var func := Advance();
      var argument := ParseCallArgument();
      if argument.Err? {
        return Err(argument.error);
      }
      if func.lexeme.Count? {
        var right := ParseOpAndValue(CountWithoutComparison);
        if right.Err? {
          return Err(right.error);
        }
        return Ok(CountExpr(argument.value, right.value.0, right.value.1));
      }
      return Ok(if func.lexeme.Has? then HasExpr(argument.value) else MissingExpr(argument.value));
    }

    /** `_parse_condition` */
    method ParseConditionExpr() returns (r: Result<Expr, FilterError>)
      requires Valid()
      modifies this
      ensures Valid() && Agrees(ParseCondition(old(Left())), AstCondition, r)
      decreases |tokens| - pos, 1
    {
      hide ParseCall, ParseOr, ParseRightSide;
      match tokens[pos].lexeme
      case Not =>
        var token := Advance();
        var operand := ParseConditionExpr();
        return if operand.Ok? then Ok(NotExpr(operand.value)) else operand;
      case LParen =>
        r := ParseGroup();
      case Has => r := ParseFunctionCall();
      case Missing => r := ParseFunctionCall();
      case Count => r := ParseFunctionCall();
      case Ident(field) =>
        var token := Advance();
        var right := ParseOpAndValue(ExpectedOperator);
        return if right.Ok? then Ok(CompareExpr(field, right.value.0, right.value.1)) else Err(right.error);
      case _ =>
        return Err(Syntax(UnexpectedToken, tokens[pos].position));
    }

    /** The parenthesised case of `_parse_condition`. */
    method ParseGroup() returns (r: Result<Expr, FilterError>)
      requires Valid() && tokens[pos].lexeme == LParen
      modifies this
      ensures Valid() && Agrees(ParseCondition(old(Left())), AstCondition, r)
      decreases |tokens| - pos, 0
    {
      hide ParseCondition, ParseOr, AstCondition, AstOr;
      GroupCase(Left());
      var token := Advance();
      r := ParseOrExpr();
      if r.Ok? {
        var noParen := Expect(RParen);
        if noParen.Some? {
          return Err(noParen.value);
        }
      }
    }

    /** `_parse_and_expr` */
    method ParseAndExpr() returns (r: Result<Expr, FilterError>)
      requires Valid()
      modifies this
      ensures Valid() && Agrees(ParseAnd(old(Left())), AstAnd, r)
      decreases |tokens| - pos, 2
    {
      hide ParseCondition;
      ghost var ts := Left();
      r := ParseConditionExpr();
      if r.Err? {
        return;
      }
      ghost var tree := OneCondition(ParseCondition(ts).value.tree);
      while tokens[pos].lexeme == And
        invariant Valid() && old(pos) < pos
        invariant r == Ok(AstAnd(tree)) && AndLoop(tree, Left()) == ParseAnd(ts)
        decreases |tokens| - pos
      {
        var token := Advance();
        ghost var more := Left();
        var right := ParseConditionExpr();
        if right.Err? {
          return right;
        }
        tree := AndMore(tree, ParseCondition(more).value.tree);
        r := Ok(AndExpr(r.value, right.value));
      }
    }

    /** `_parse_or_expr` */
    method ParseOrExpr() returns (r: Result<Expr, FilterError>)
      requires Valid()
      modifies this
      ensures Valid() && Agrees(ParseOr(old(Left())), AstOr, r)
      decreases |tokens| - pos, 3
    {
      hide ParseAnd;
      ghost var ts := Left();
      r := ParseAndExpr();
      if r.Err? {
        return;
      }
      ghost var tree := OneAnd(ParseAnd(ts).value.tree);
      while tokens[pos].lexeme == Or
        invariant Valid() && old(pos) < pos
        invariant r == Ok(AstOr(tree)) && OrLoop(tree, Left()) == ParseOr(ts)
        decreases |tokens| - pos
      {
        var token := Advance();
        ghost var more := Left();
        var right := ParseAndExpr();
        if right.Err? {
          return right;
        }
        tree := OrMore(tree, ParseAnd(more).value.tree);
        r := Ok(OrExpr(r.value, right.value));
      }
    }

    /** `parse` */
    method Parse() returns (r: Result<Expr, FilterError>)
      requires Valid()
      modifies this
      ensures match ParseAll(old(Left()))
              case Ok(tree) => r == Ok(AstOr(tree))
              case Err(failure) => 0 < failure.left <= |tokens| && r == Err(At(failure))
    {
      r := ParseOrExpr();
      if r.Ok? && tokens[pos].lexeme != Eof {
        return Err(Syntax(UnexpectedToken, tokens[pos].position));
      }
    }
  }

  lemma GroupCase(ts: seq<Lexeme>)
    requires Head(ts) == LParen
    ensures ts != []
    ensures ParseCondition(ts) ==
            match ParseOr(ts[1..])
            case Err(failure) => Err(failure)
            case Ok(inner) =>
              if Head(inner.rest) == RParen then Ok(Parsed(Group(inner.tree), inner.rest[1..]))
              else Err(Failure(Expected(RParen), |inner.rest|))
    ensures ParseOr(ts[1..]).Ok? ==> AstCondition(Group(ParseOr(ts[1..]).value.tree)) == AstOr(ParseOr(ts[1..]).value.tree)
  {
    hide ParseOr;
  }

  function RightSide(right: (CompareOp, Literal)): (CompareOp, Value) {
    (right.0, AstLiteral(right.1))
  }
}
