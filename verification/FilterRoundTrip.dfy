/**
  Filters as text: `parse_filter` as a whole, the text with the fewest parentheses that denotes
  an expression, and how the texts of two filters combine.
 */
module FilterRoundTrip {
  import opened Results
  import opened FilterEscapes
  import opened FilterLexer
  import opened FilterText
  import opened FilterGrammar
  import opened FilterParser

  // ----- parse_filter

  /** The expression a text denotes, if it is a filter at all. */
  function Meaning(text: string): Option<Expr> {
    var scanned := Scan(text);
    if SkipSpace(text) == "" || scanned.Err? then None
    else
      var parsed := ParseAll(scanned.value);
      if parsed.Ok? then Some(AstOr(parsed.value)) else None
  }

  ghost predicate IsFilter(text: string) {
    Meaning(text).Some?
  }

  lemma ScanTerminated(text: string)
    requires Scan(text).Ok?
    ensures Terminated(Scan(text).value)
  {
    var ls := Scan(text).value;
    assert forall i :: 0 <= i < |ls| - 1 ==> ls[..|ls| - 1][i] == ls[i];
  }

  /** A failure of the parser, `left` tokens before the end, names the place of its token. */
  ghost predicate PointsAt(text: string, failure: Failure, error: FilterError) {
    exists tokens: seq<Token> :: Located(text, tokens) && Ok(Lexemes(tokens)) == Scan(text)
                     && 0 < failure.left <= |tokens|
                     && error == Syntax(failure.fault, tokens[|tokens| - failure.left].position)
  }

  ghost predicate AnswersParsed(text: string, parsed: Result<OrChain, Failure>, r: Result<Expr, FilterError>) {
    match parsed
    case Ok(o) => r == Ok(AstOr(o))
    case Err(failure) => r.Err? && PointsAt(text, failure, r.error)
  }

  /** The end of `parse_filter`, from the tokens on. */
  method ParseTokens(ghost text: string, tokens: seq<Token>) returns (r: Result<Expr, FilterError>)
    requires Located(text, tokens) && Ok(Lexemes(tokens)) == Scan(text)
    ensures AnswersParsed(text, ParseAll(Lexemes(tokens)), r)
  {
    hide Parser.Valid, Parser.Left, Parser.At, Located, Scan, Lexemes, ParseAll, PointsAt, AstOr, Terminated, EndsWithMarker;
    var parser := new Parser(tokens);
    ghost var left := parser.Left();
    assert left == Lexemes(tokens) by { LeftAtStart(parser); }
    r := parser.Parse();
    if ParseAll(left).Err? {
      ErrorPointsAt(text, parser, ParseAll(left).error);
    }
  }

  lemma LeftAtStart(parser: Parser)
    requires parser.Valid() && parser.pos == 0
    ensures parser.Left() == Lexemes(parser.tokens)
  {
  }

  lemma ErrorPointsAt(text: string, parser: Parser, failure: Failure)
    requires Located(text, parser.tokens) && Ok(Lexemes(parser.tokens)) == Scan(text)
    requires 0 < failure.left <= |parser.tokens|
    ensures PointsAt(text, failure, parser.At(failure))
  {
  }

  /** What a text is answered with: its meaning, or an error: which one, and where in the text. */
  ghost predicate Answers(text: string, r: Result<Expr, FilterError>) {
    if Meaning(text).Some? then r == Ok(Meaning(text).value)
    else if SkipSpace(text) == "" then r == Err(EmptyFilter)
    else
      match Scan(text)
      case Err(e) => r == Err(Lexical(LexerError(e.fault, |text| - e.left)))
      case Ok(ls) => ParseAll(ls).Err? && r.Err? && PointsAt(text, ParseAll(ls).error, r.error)
  }

  method ParseFilter(text: string) returns (r: Result<Expr, FilterError>)
    ensures Answers(text, r)
  {
    hide Scan, ParseAll, SkipSpace, LexOne, Located, PointsAt, AstOr;
    if IsBlank(text) {
      return Err(EmptyFilter);
    }
    var lexer := new Lexer(text);
    assert text[0..] == text;
    var tokens := lexer.Tokenize();
    if tokens.Err? {
      return Err(Lexical(tokens.error));
    }
    r := ParseTokens(text, tokens.value);
  }

  /** `not filter_str or not filter_str.strip()` */
  predicate IsBlank(text: string)
    ensures IsBlank(text) <==> SkipSpace(text) == ""
  {
    text == "" || (IsSpace(text[0]) && IsBlank(text[1..]))
  }

  // ----- writing an expression with the fewest parentheses

  ghost predicate WritableValue(v: Value) {
    match v
    case TextValue(s) => Writable(s)
    case IntValue(_) => true
    case FloatValue(r) => IsDecimal(r)
  }

  /** Every field is an identifier, every string can be quoted, every decimal is finite. */
  ghost predicate WritableExpr(e: Expr) {
    match e
    case AndExpr(l, r) => WritableExpr(l) && WritableExpr(r)
    case OrExpr(l, r) => WritableExpr(l) && WritableExpr(r)
    case NotExpr(x) => WritableExpr(x)
    case CompareExpr(field, _, value) => IsIdentifier(field) && WritableValue(value)
    case HasExpr(argument) => Writable(argument)
    case MissingExpr(argument) => Writable(argument)
    case CountExpr(argument, _, value) => Writable(argument) && WritableValue(value)
  }

  function LiteralFor(v: Value): Literal {
    match v
    case TextValue(s) => NameLiteral(Quoted(s))
    case IntValue(n) => IntLiteral(n)
    case FloatValue(r) => DecimalLiteral(r)
  }

  function ConditionFor(e: Expr): Condition
    decreases e, 0
  {
    match e
    case AndExpr(l, r) => Group(OneAnd(AndMore(AndFor(l), ConditionFor(r))))
    case OrExpr(l, r) => Group(OrMore(OrFor(l), AndFor(r)))
    case NotExpr(x) => Negated(ConditionFor(x))
    case CompareExpr(field, op, value) => Comparison(field, op, LiteralFor(value))
    case HasExpr(argument) => HasCall(Quoted(argument))
    case MissingExpr(argument) => MissingCall(Quoted(argument))
    case CountExpr(argument, op, value) => CountCall(Quoted(argument), op, LiteralFor(value))
  }

  function AndFor(e: Expr): AndChain
    decreases e, 1
  {
    match e
    case AndExpr(l, r) => AndMore(AndFor(l), ConditionFor(r))
    case OrExpr(l, r) => OneCondition(Group(OrMore(OrFor(l), AndFor(r))))
    case _ => OneCondition(ConditionFor(e))
  }

  function OrFor(e: Expr): OrChain
    decreases e, 2
  {
    match e
    case AndExpr(l, r) => OneAnd(AndMore(AndFor(l), ConditionFor(r)))
    case OrExpr(l, r) => OrMore(OrFor(l), AndFor(r))
    case _ => OneAnd(OneCondition(ConditionFor(e)))
  }

  /** The text for `e`. */
  ghost function Text(e: Expr): string
    requires WritableExpr(e)
  {
    ChainsPrintable(e);
    Render(YieldOr(OrFor(e)))
  }

  lemma PrintableAppend(a: seq<Lexeme>, b: seq<Lexeme>)
    requires AllPrintable(a) && AllPrintable(b)
    ensures AllPrintable(a + b)
  {
  }

  /** The tree of a chain, spelled out down to the condition in it. */
  lemma Unfold(e: Expr)
    ensures match e
            case AndExpr(l, r) =>
              && YieldAnd(AndFor(e)) == YieldAnd(AndFor(l)) + [And] + YieldCondition(ConditionFor(r))
              && YieldOr(OrFor(e)) == YieldAnd(AndFor(e))
              && YieldCondition(ConditionFor(e)) == [LParen] + YieldAnd(AndFor(e)) + [RParen]
              && AstAnd(AndFor(e)) == AndExpr(AstAnd(AndFor(l)), AstCondition(ConditionFor(r)))
              && AstOr(OrFor(e)) == AstAnd(AndFor(e)) == AstCondition(ConditionFor(e))
            case OrExpr(l, r) =>
              && YieldOr(OrFor(e)) == YieldOr(OrFor(l)) + [Or] + YieldAnd(AndFor(r))
              && YieldAnd(AndFor(e)) == YieldCondition(ConditionFor(e))
              && YieldCondition(ConditionFor(e)) == [LParen] + YieldOr(OrFor(e)) + [RParen]
              && AstOr(OrFor(e)) == OrExpr(AstOr(OrFor(l)), AstAnd(AndFor(r)))
              && AstAnd(AndFor(e)) == AstOr(OrFor(e)) == AstCondition(ConditionFor(e))
            case _ =>
              && YieldOr(OrFor(e)) == YieldAnd(AndFor(e)) == YieldCondition(ConditionFor(e))
              && AstOr(OrFor(e)) == AstAnd(AndFor(e)) == AstCondition(ConditionFor(e))
  {
    match e {
      case AndExpr(l, r) =>
        assert OrFor(e) == OneAnd(AndFor(e)) && ConditionFor(e) == Group(OrFor(e));
        assert YieldOr(OrFor(e)) == YieldAnd(AndFor(e)) && AstOr(OrFor(e)) == AstAnd(AndFor(e));
      case OrExpr(l, r) =>
        assert ConditionFor(e) == Group(OrFor(e)) && AndFor(e) == OneCondition(ConditionFor(e));
        assert YieldAnd(AndFor(e)) == YieldCondition(ConditionFor(e));
        assert AstAnd(AndFor(e)) == AstCondition(ConditionFor(e));
      case _ =>
        assert OrFor(e) == OneAnd(AndFor(e)) && AndFor(e) == OneCondition(ConditionFor(e));
        assert YieldOr(OrFor(e)) == YieldAnd(AndFor(e)) && AstOr(OrFor(e)) == AstAnd(AndFor(e));
    }
  }

  lemma {:induction false} ChainsPrintable(e: Expr)
    requires WritableExpr(e)
    ensures AllPrintable(YieldCondition(ConditionFor(e)))
    ensures AllPrintable(YieldAnd(AndFor(e)))
    ensures AllPrintable(YieldOr(OrFor(e)))
  {
    hide AllPrintable, AndFor, OrFor, YieldAnd, YieldOr;
    Unfold(e);
    assert forall l :: Printable(l) ==> AllPrintable([l]) by { SinglesPrintable(); }
    match e
    case AndExpr(l, r) =>
      ChainsPrintable(l);
      ChainsPrintable(r);
      PrintableAppend(YieldAnd(AndFor(l)), [And]);
      PrintableAppend(YieldAnd(AndFor(l)) + [And], YieldCondition(ConditionFor(r)));
      PrintableAppend([LParen], YieldAnd(AndFor(e)));
      PrintableAppend([LParen] + YieldAnd(AndFor(e)), [RParen]);
    case OrExpr(l, r) =>
      ChainsPrintable(l);
      ChainsPrintable(r);
      PrintableAppend(YieldOr(OrFor(l)), [Or]);
      PrintableAppend(YieldOr(OrFor(l)) + [Or], YieldAnd(AndFor(r)));
      PrintableAppend([LParen], YieldOr(OrFor(e)));
      PrintableAppend([LParen] + YieldOr(OrFor(e)), [RParen]);
    case NotExpr(x) =>
      ChainsPrintable(x);
      PrintableAppend([Not], YieldCondition(ConditionFor(x)));
    case _ => LeafPrintable(e);
  }

  lemma SinglesPrintable()
    ensures forall l :: Printable(l) ==> AllPrintable([l])
  {
  }

  lemma LeafPrintable(e: Expr)
    requires WritableExpr(e) && !e.AndExpr? && !e.OrExpr? && !e.NotExpr?
    ensures AllPrintable(YieldCondition(ConditionFor(e)))
  {
    hide Writable, IsDecimal, IsIdentifier;
  }

  lemma {:induction false} ChainsDenote(e: Expr)
    ensures AstCondition(ConditionFor(e)) == e
    ensures AstAnd(AndFor(e)) == e
    ensures AstOr(OrFor(e)) == e
  {
    Unfold(e);
    match e
    case AndExpr(l, r) =>
      ChainsDenote(l);
      ChainsDenote(r);
    case OrExpr(l, r) =>
      ChainsDenote(l);
      ChainsDenote(r);
    case NotExpr(x) =>
      ChainsDenote(x);
    case _ =>
  }

  // ----- no derivation is shorter

  lemma {:induction false} ConditionMinimal(c: Condition)
    ensures |YieldCondition(ConditionFor(AstCondition(c)))| <= |YieldCondition(c)|
  {
    var e := AstCondition(c);
    match c
    case Negated(x) => ConditionMinimal(x);
    case Group(inner) =>
      OrMinimal(inner);
      Unfold(e);
    case _ =>
  }

  lemma {:induction false} AndMinimal(a: AndChain)
    ensures |YieldAnd(AndFor(AstAnd(a)))| <= |YieldAnd(a)|
  {
    match a
    case OneCondition(c) =>
      ConditionMinimal(c);
      Unfold(AstAnd(a));
    case AndMore(init, last) =>
      AndMinimal(init);
      ConditionMinimal(last);
      Unfold(AstAnd(a));
  }

  /** Of all token lists that denote an expression, the one written has the fewest tokens. */
  lemma {:induction false} OrMinimal(o: OrChain)
    ensures |YieldOr(OrFor(AstOr(o)))| <= |YieldOr(o)|
  {
    match o
    case OneAnd(a) =>
      AndMinimal(a);
      Unfold(AstOr(o));
    case OrMore(init, last) =>
      OrMinimal(init);
      AndMinimal(last);
      Unfold(AstOr(o));
  }

  // ----- round trips

  lemma MeaningOfScan(text: string, o: OrChain)
    requires Scan(text) == Ok(YieldOr(o) + [Eof])
    ensures Meaning(text) == Some(AstOr(o))
  {
    hide ParseOr, AstOr, LexOne;
    assert |YieldOr(o) + [Eof]| > 1;
    assert SkipSpace(text) == "" ==> Scan(text) == Ok([Eof]);
    OrComplete(o, [Eof]);
  }

  /** Writing an expression and reading the text gives the expression back. */
  lemma RoundTrip(e: Expr)
    requires WritableExpr(e)
    ensures Meaning(Text(e)) == Some(e)
  {
    hide Scan, Render, OrFor, AllPrintable, YieldOr, AstOr, Meaning;
    ChainsPrintable(e);
    ScanRender(YieldOr(OrFor(e)));
    MeaningOfScan(Text(e), OrFor(e));
    ChainsDenote(e);
  }

  lemma LiteralWritable(literal: Literal)
    requires Printable(YieldLiteral(literal))
    ensures WritableValue(AstLiteral(literal))
  {
    if literal.NameLiteral? {
      NameWritable(literal.name);
    }
  }

  lemma NameWritable(name: Name)
    requires Printable(YieldName(name))
    ensures Writable(name.text)
  {
    assert name.Bare? ==> IsIdentifier(name.text);
  }

  lemma PrintableParts(a: seq<Lexeme>, b: seq<Lexeme>)
    requires AllPrintable(a + b)
    ensures AllPrintable(a) && AllPrintable(b)
  {
    forall i | 0 <= i < |a| ensures Printable(a[i]) {
      assert (a + b)[i] == a[i];
    }
    forall i | 0 <= i < |b| ensures Printable(b[i]) {
      assert (a + b)[|a| + i] == b[i];
    }
  }

  lemma LeafWritable(c: Condition)
    requires AllPrintable(YieldCondition(c)) && !c.Negated? && !c.Group?
    ensures WritableExpr(AstCondition(c))
  {
    hide Printable, Writable, IsDecimal, IsIdentifier, WritableValue;
    var ls := YieldCondition(c);
    match c
    case Comparison(field, op, literal) =>
      assert Printable(ls[0]) && Printable(ls[2]);
      FieldPrintable(field);
      LiteralWritable(literal);
    case HasCall(argument) => assert Printable(ls[2]); NameWritable(argument);
    case MissingCall(argument) => assert Printable(ls[2]); NameWritable(argument);
    case CountCall(argument, op, literal) =>
      assert Printable(ls[2]) && Printable(ls[5]);
      NameWritable(argument);
      LiteralWritable(literal);
  }

  lemma FieldPrintable(field: string)
    ensures Printable(Ident(field)) == IsIdentifier(field)
  {
  }

  lemma {:induction false} ConditionWritable(c: Condition)
    requires AllPrintable(YieldCondition(c))
    ensures WritableExpr(AstCondition(c))
  {
    hide AllPrintable;
    match c
    case Negated(x) =>
      PrintableParts([Not], YieldCondition(x));
      ConditionWritable(x);
    case Group(inner) =>
      PrintableParts([LParen] + YieldOr(inner), [RParen]);
      PrintableParts([LParen], YieldOr(inner));
      OrWritable(inner);
    case _ => LeafWritable(c);
  }

  lemma {:induction false} AndWritable(a: AndChain)
    requires AllPrintable(YieldAnd(a))
    ensures WritableExpr(AstAnd(a))
  {
    hide AllPrintable;
    match a
    case OneCondition(c) => ConditionWritable(c);
    case AndMore(init, last) =>
      PrintableParts(YieldAnd(init) + [And], YieldCondition(last));
      PrintableParts(YieldAnd(init), [And]);
      AndWritable(init);
      ConditionWritable(last);
  }

  lemma {:induction false} OrWritable(o: OrChain)
    requires AllPrintable(YieldOr(o))
    ensures WritableExpr(AstOr(o))
  {
    hide AllPrintable;
    match o
    case OneAnd(a) => AndWritable(a);
    case OrMore(init, last) =>
      PrintableParts(YieldOr(init) + [Or], YieldAnd(last));
      PrintableParts(YieldOr(init), [Or]);
      OrWritable(init);
      AndWritable(last);
  }

  lemma MeaningWritable(text: string)
    requires IsFilter(text)
    ensures WritableExpr(Meaning(text).value)
  {
    hide Scan, SkipSpace, ParseAll, AllPrintable, AstOr, YieldOr, Terminated;
    var ls := Scan(text).value;
    var o := ParseAll(ls).value;
    ScanTerminated(text);
    ParsesExactlyItsYield(ls, o);
    ScanPrintable(text);
    assert ls[..|ls| - 1] == YieldOr(o);
    OrWritable(o);
  }

  /** Exactly the writable expressions are denoted by some text. */
  lemma DenotableIffWritable(e: Expr)
    ensures (exists text :: Meaning(text) == Some(e)) <==> WritableExpr(e)
  {
    hide Meaning, Text, WritableExpr;
    if WritableExpr(e) {
      RoundTrip(e);
    }
    forall text | Meaning(text) == Some(e) ensures WritableExpr(e) {
      MeaningWritable(text);
    }
  }

  /** Rewriting a filter keeps its meaning and never makes it longer. */
  lemma RewriteKeepsMeaning(text: string)
    requires IsFilter(text)
    ensures WritableExpr(Meaning(text).value)
    ensures var rewritten := Text(Meaning(text).value);
            Meaning(rewritten) == Meaning(text) && |Scan(rewritten).value| <= |Scan(text).value|
  {
    hide Scan, SkipSpace, ParseAll, AllPrintable, WritableExpr, AstOr, YieldOr, Terminated, OrFor, Render;
    MeaningWritable(text);
    var e := Meaning(text).value;
    RoundTrip(e);
    var ls := Scan(text).value;
    var o := ParseAll(ls).value;
    ScanTerminated(text);
    ParsesExactlyItsYield(ls, o);
    OrMinimal(o);
    ChainsPrintable(e);
    ScanRender(YieldOr(OrFor(e)));
  }

  // ----- combining the texts of filters

  function Parenthesised(text: string): string {
    "(" + text + ")"
  }

  function JoinedAnd(s1: string, s2: string): string {
    Parenthesised(s1) + " AND " + Parenthesised(s2)
  }

  /** Scanning `( text )` and then something that starts with a delimiter. */
  lemma ScanParenthesised(text: string, after: string)
    requires Scan(text).Ok? && Delimited(after)
    ensures var ls := Scan(text).value;
            Scan(Parenthesised(text) + after) == Prefixed([LParen] + ls[..|ls| - 1] + [RParen], Scan(after))
  {
    hide Scan, Prefixed;
    var ls := Scan(text).value;
    var init := ls[..|ls| - 1];
    var closing := [')'] + after;
    assert Parenthesised(text) + after == ['('] + (text + closing);
    ScanParenthesis('(', text + closing);
    ScanConcat(text, closing);
    ScanParenthesis(')', after);
    PrefixedTwice(init, [RParen], Scan(after));
    PrefixedTwice([LParen], init + [RParen], Scan(after));
    assert [LParen] + (init + [RParen]) == [LParen] + init + [RParen];
  }

  lemma ScanAndWord(after: string)
    ensures Scan(" AND " + after) == Prefixed([And], Scan(after))
  {
    hide Scan, Prefixed;
    assert " AND " + after == " " + ("AND" + (" " + after));
    ScanAfterBlank("AND" + (" " + after));
    ScanAfterBlank(after);
    ScanShow(And);
    ScanOneThen("AND", And, " " + after);
  }

  lemma ScanJoinedAnd(s1: string, s2: string)
    requires Scan(s1).Ok? && Scan(s2).Ok?
    ensures var ls1, ls2 := Scan(s1).value, Scan(s2).value;
            Scan(JoinedAnd(s1, s2)) ==
            Ok([LParen] + ls1[..|ls1| - 1] + [RParen, And, LParen] + ls2[..|ls2| - 1] + [RParen, Eof])
  {
    hide Scan;
    var ls1, ls2 := Scan(s1).value, Scan(s2).value;
    var p1 := [LParen] + ls1[..|ls1| - 1] + [RParen];
    var p2 := [LParen] + ls2[..|ls2| - 1] + [RParen];
    var right := Parenthesised(s2);
    assert JoinedAnd(s1, s2) == Parenthesised(s1) + (" AND " + right) && right + "" == right;
    ScanParenthesised(s1, " AND " + right);
    ScanAndWord(right);
    ScanParenthesised(s2, "");
    ScanNothing();
    assert p1 + ([And] + (p2 + [Eof])) ==
           [LParen] + ls1[..|ls1| - 1] + [RParen, And, LParen] + ls2[..|ls2| - 1] + [RParen, Eof];
  }

  /** For filters `s1` and `s2`, the text `(s1) AND (s2)` denotes their conjunction. */
  lemma MeaningJoinedAnd(s1: string, s2: string)
    requires IsFilter(s1) && IsFilter(s2)
    ensures Meaning(JoinedAnd(s1, s2)) == Some(AndExpr(Meaning(s1).value, Meaning(s2).value))
  {
    hide Scan, SkipSpace, ParseAll, AstOr, Terminated;
    ScanTerminated(s1);
    ScanTerminated(s2);
    ScanJoinedAnd(s1, s2);
    JoinedByAnd(Scan(s1).value, Scan(s2).value);
    NotBlank(JoinedAnd(s1, s2));
  }

  lemma NotBlank(text: string)
    requires text != "" && text[0] == '('
    ensures SkipSpace(text) != ""
  {
  }

  /** For a filter `s`, the text `(s)` denotes the same expression. */
  lemma MeaningParenthesised(s: string)
    requires IsFilter(s)
    ensures Meaning(Parenthesised(s)) == Meaning(s)
  {
    hide Scan, SkipSpace, ParseAll, AstOr, Terminated;
    var ls := Scan(s).value;
    ScanTerminated(s);
    ScanParenthesised(s, "");
    ScanNothing();
    assert Parenthesised(s) + "" == Parenthesised(s);
    assert [LParen] + ls[..|ls| - 1] + [RParen] + [Eof] == [LParen] + ls[..|ls| - 1] + [RParen, Eof];
    ParenthesesTransparent(ls);
    NotBlank(Parenthesised(s));
  }
}
