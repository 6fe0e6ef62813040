/**
  Which filters parentheses can be put around: a filter in parentheses is the same filter, but a text
  that is no filter can become one when its own parentheses meet the new ones.
 */
module FilterParentheses {
  import opened Results
  import opened FilterEscapes
  import opened FilterLexer
  import opened FilterText
  import opened FilterGrammar
  import opened FilterParser
  import opened FilterRoundTrip

  // ----- counting parentheses

  /** Opening parentheses less closing ones. */
  function Depth(ts: seq<Lexeme>): int {
    if ts == [] then 0
    else Depth(ts[..|ts| - 1]) + (if ts[|ts| - 1] == LParen then 1 else if ts[|ts| - 1] == RParen then -1 else 0)
  }

  /** No parenthesis is closed that the tokens have not opened. */
  ghost predicate NeverClosesEarly(ts: seq<Lexeme>) {
    forall k :: 0 <= k <= |ts| ==> Depth(ts[..k]) >= 0
  }

  ghost predicate Balanced(ts: seq<Lexeme>) {
    Depth(ts) == 0 && NeverClosesEarly(ts)
  }

  lemma {:induction false} DepthConcat(a: seq<Lexeme>, b: seq<Lexeme>)
    ensures Depth(a + b) == Depth(a) + Depth(b)
  {
    if b == [] {
      assert a + b == a;
    } else {
      DepthConcat(a, b[..|b| - 1]);
      assert (a + b)[..|a + b| - 1] == a + b[..|b| - 1];
    }
  }

  lemma BalancedConcat(a: seq<Lexeme>, b: seq<Lexeme>)
    requires Balanced(a) && Balanced(b)
    ensures Balanced(a + b)
  {
    DepthConcat(a, b);
    forall k | 0 <= k <= |a + b|
      ensures Depth((a + b)[..k]) >= 0
    {
      if k <= |a| {
        assert (a + b)[..k] == a[..k];
      } else {
        assert (a + b)[..k] == a + b[..k - |a|];
        DepthConcat(a, b[..k - |a|]);
      }
    }
  }

  lemma BalancedOne(l: Lexeme)
    requires l != LParen && l != RParen
    ensures Balanced([l])
  {
    assert [l][..0] == [] && [l][..1] == [l];
  }

  lemma BalancedGroup(ts: seq<Lexeme>)
    requires Balanced(ts)
    ensures Balanced([LParen] + ts + [RParen])
  {
    var all := [LParen] + ts + [RParen];
    DepthConcat([LParen], ts);
    DepthConcat([LParen] + ts, [RParen]);
    forall k | 0 <= k <= |all|
      ensures Depth(all[..k]) >= 0
    {
      if k == 0 {
        assert all[..k] == [];
      } else if k <= |ts| + 1 {
        assert all[..k] == [LParen] + ts[..k - 1];
        DepthConcat([LParen], ts[..k - 1]);
      } else {
        assert all[..k] == all;
      }
    }
  }

  lemma NameBalanced(name: Name)
    ensures Balanced([YieldName(name)]) && Balanced([LParen] + [YieldName(name)] + [RParen])
  {
    BalancedOne(YieldName(name));
    BalancedGroup([YieldName(name)]);
  }

  lemma LeafBalanced(c: Condition)
    requires !c.Negated? && !c.Group?
    ensures Balanced(YieldCondition(c))
  {
    hide Balanced;
    match c {
      case Comparison(field, op, literal) =>
        BalancedOne(Ident(field));
        BalancedOne(Op(op));
        BalancedOne(YieldLiteral(literal));
        BalancedConcat([Ident(field)], [Op(op)]);
        BalancedConcat([Ident(field)] + [Op(op)], [YieldLiteral(literal)]);
        assert YieldCondition(c) == [Ident(field)] + [Op(op)] + [YieldLiteral(literal)];
      case HasCall(argument) =>
        CallBalanced(Has, argument);
        assert YieldCondition(c) == [Has] + ([LParen] + [YieldName(argument)] + [RParen]);
      case MissingCall(argument) =>
        CallBalanced(Missing, argument);
        assert YieldCondition(c) == [Missing] + ([LParen] + [YieldName(argument)] + [RParen]);
      case CountCall(argument, op, literal) =>
        CallBalanced(Count, argument);
        BalancedOne(Op(op));
        BalancedOne(YieldLiteral(literal));
        var call := [Count] + ([LParen] + [YieldName(argument)] + [RParen]);
        BalancedConcat(call, [Op(op)]);
        BalancedConcat(call + [Op(op)], [YieldLiteral(literal)]);
        assert YieldCondition(c) == call + [Op(op)] + [YieldLiteral(literal)];
    }
  }

  lemma CallBalanced(func: Lexeme, name: Name)
    requires func != LParen && func != RParen
    ensures Balanced([func] + ([LParen] + [YieldName(name)] + [RParen]))
  {
    NameBalanced(name);
    BalancedOne(func);
    BalancedConcat([func], [LParen] + [YieldName(name)] + [RParen]);
  }

  lemma {:induction false} ConditionBalanced(c: Condition)
    ensures Balanced(YieldCondition(c))
  {
    hide Balanced;
    match c {
      case Negated(operand) =>
        ConditionBalanced(operand);
        BalancedOne(Not);
        BalancedConcat([Not], YieldCondition(operand));
      case Group(inner) =>
        OrBalanced(inner);
        BalancedGroup(YieldOr(inner));
      case _ => LeafBalanced(c);
    }
  }

  lemma {:induction false} AndBalanced(a: AndChain)
    ensures Balanced(YieldAnd(a))
  {
    hide Balanced;
    match a {
      case OneCondition(c) => ConditionBalanced(c);
      case AndMore(init, last) =>
        AndBalanced(init);
        ConditionBalanced(last);
        BalancedOne(And);
        BalancedConcat(YieldAnd(init), [And]);
        BalancedConcat(YieldAnd(init) + [And], YieldCondition(last));
    }
  }

  lemma {:induction false} OrBalanced(o: OrChain)
    ensures Balanced(YieldOr(o))
  {
    hide Balanced;
    match o {
      case OneAnd(a) => AndBalanced(a);
      case OrMore(init, last) =>
        OrBalanced(init);
        AndBalanced(last);
        BalancedOne(Or);
        BalancedConcat(YieldOr(init), [Or]);
        BalancedConcat(YieldOr(init) + [Or], YieldAnd(last));
    }
  }

  // ----- the condition a filter starts with

  function FirstOfAnd(a: AndChain): Condition {
    match a
    case OneCondition(c) => c
    case AndMore(init, _) => FirstOfAnd(init)
  }

  function FirstOfOr(o: OrChain): Condition {
    match o
    case OneAnd(a) => FirstOfAnd(a)
    case OrMore(init, _) => FirstOfOr(init)
  }

  lemma {:induction false} AndStarts(a: AndChain)
    ensures YieldCondition(FirstOfAnd(a)) <= YieldAnd(a)
  {
    if a.AndMore? {
      AndStarts(a.init);
    }
  }

  lemma {:induction false} OrStarts(o: OrChain)
    ensures YieldCondition(FirstOfOr(o)) <= YieldOr(o)
  {
    match o {
      case OneAnd(a) => AndStarts(a);
      case OrMore(init, last) => OrStarts(init);
    }
  }

  /** If parentheses around the tokens make a filter, and the tokens close none of their own, they are one filter. */
  lemma InsideParentheses(o: OrChain, ts: seq<Lexeme>)
    requires YieldOr(o) == [LParen] + ts + [RParen] && NeverClosesEarly(ts)
    ensures FirstOfOr(o).Group? && YieldOr(FirstOfOr(o).inner) == ts
  {
    var c := FirstOfOr(o);
    OrStarts(o);
    assert YieldCondition(c)[0] == YieldOr(o)[0];
    var y := YieldOr(c.inner);
    OrBalanced(c.inner);
    var all := [LParen] + ts + [RParen];
    assert [LParen] + y + [RParen] <= all;
    forall k | 0 <= k < |y|
      ensures y[k] == ts[k]
    {
      assert ([LParen] + y + [RParen])[k + 1] == all[k + 1];
    }
    if |y| < |ts| {
      assert ([LParen] + y + [RParen])[|y| + 1] == all[|y| + 1];
      assert ts[..|y| + 1] == y + [RParen];
      DepthConcat(y, [RParen]);
    }
    assert y == ts;
  }

  /** A token list parses if and only if it parses in parentheses and closes none that it has not opened. */
  lemma ParenthesesIff(ts: seq<Lexeme>)
    requires Terminated(ts)
    ensures var inner := ts[..|ts| - 1];
            ParseAll(ts).Ok? <==> ParseAll([LParen] + inner + [RParen, Eof]).Ok? && NeverClosesEarly(inner)
  {
    var inner := ts[..|ts| - 1];
    var wrapped := [LParen] + inner + [RParen, Eof];
    hide ParseAll;
    if ParseAll(ts).Ok? {
      var o := ParseAll(ts).value;
      ParenthesesTransparent(ts);
      ParsesExactlyItsYield(ts, o);
      assert inner == YieldOr(o);
      OrBalanced(o);
    }
    if ParseAll(wrapped).Ok? && NeverClosesEarly(inner) {
      var o := ParseAll(wrapped).value;
      assert Terminated(wrapped) by {
        assert wrapped[..|wrapped| - 1] == [LParen] + inner + [RParen];
      }
      ParsesExactlyItsYield(wrapped, o);
      assert (YieldOr(o) + [Eof])[..|wrapped| - 1] == YieldOr(o);
      assert wrapped[..|wrapped| - 1] == [LParen] + inner + [RParen];
      InsideParentheses(o, inner);
      assert ts == inner + [Eof];
      ParsesExactlyItsYield(ts, FirstOfOr(o).inner);
    }
  }

  // ----- texts

  lemma {:induction false} NotClosedByParenthesis(s: string, quote: char)
    requires (quote == '"' || quote == '\'') && StringEnd(s, quote).None?
    ensures StringEnd(s + ")", quote).None?
  {
    var t := s + ")";
    if s == "" {
      assert t == ")" && t[1..] == "";
    } else if s[0] == BACKSLASH && 1 < |s| {
      assert t[2..] == s[2..] + ")";
      NotClosedByParenthesis(s[2..], quote);
    } else if |s| == 1 && s[0] == BACKSLASH {
      assert t[2..] == "";
    } else {
      assert t[1..] == s[1..] + ")";
      NotClosedByParenthesis(s[1..], quote);
    }
  }

  lemma FaultStays(s: string)
    requires s != "" && LexOne(s).Err?
    ensures LexOne(s + ")").Err?
  {
    hide StringEnd, Unescape, NumberLexeme, WordLexeme, IdentRun, NumberLength;
    var t, c := s + ")", s[0];
    assert t[0] == c && t[1..] == s[1..] + ")";
    if c == '"' || c == '\'' {
      NotClosedByParenthesis(s[1..], c);
    } else {
      assert 1 < |t| ==> t[1] == if 1 < |s| then s[1] else ')';
    }
  }

  /** A text that does not scan does not scan in parentheses either. */
  lemma {:induction false} ScanFaultStays(s: string)
    requires Scan(s).Err?
    ensures Scan(s + ")").Err?
    decreases |s|
  {
    hide LexOne, SkipSpace;
    SkipSpaceExtends(s, ")");
    var t := SkipSpace(s);
    if LexOne(t).Err? {
      FaultStays(t);
    } else {
      LexOneExtends(t, ")");
      var one := LexOne(t).value;
      var rest := t[one.length..];
      assert (t + ")")[one.length..] == rest + ")";
      ScanStep(s);
      ScanStep(s + ")");
      ScanFaultStays(rest);
    }
  }

  lemma ParenthesisedScans(s: string)
    ensures Scan(Parenthesised(s)).Ok? <==> Scan(s).Ok?
    ensures Scan(s).Ok? ==>
              var ls := Scan(s).value; Scan(Parenthesised(s)) == Ok([LParen] + ls[..|ls| - 1] + [RParen, Eof])
  {
    hide Scan;
    assert Parenthesised(s) == ['('] + (s + ")");
    ScanParenthesis('(', s + ")");
    if Scan(s).Err? {
      ScanFaultStays(s);
    } else {
      var ls := Scan(s).value;
      ScanParenthesised(s, "");
      ScanNothing();
      assert Parenthesised(s) + "" == Parenthesised(s);
      assert [LParen] + ls[..|ls| - 1] + [RParen] + [Eof] == [LParen] + ls[..|ls| - 1] + [RParen, Eof];
    }
  }

  /** The tokens of the text close a parenthesis that they have not opened. */
  ghost predicate ClosesEarly(s: string) {
    Scan(s).Ok? && !NeverClosesEarly(Scan(s).value[..|Scan(s).value| - 1])
  }

  /**
    `s` is a filter if and only if `(s)` is one and `s` closes no parenthesis that it has not
    opened.  So `(s)` is a filter and `s` is not exactly when `(s)` is one and `s` closes early.
   */
  lemma FilterIffParenthesised(s: string)
    ensures IsFilter(s) <==> IsFilter(Parenthesised(s)) && !ClosesEarly(s)
  {
    ParenthesisedScans(s);
    FilterWhen(s);
    FilterWhen(Parenthesised(s));
    NotBlank(Parenthesised(s));
    if Scan(s).Ok? {
      ScanTerminated(s);
      ParenthesesIff(Scan(s).value);
    }
    hide Scan, ParseAll, SkipSpace, AstOr, NeverClosesEarly, Parenthesised, Terminated, IsFilter;
  }

  lemma FilterWhen(text: string)
    ensures IsFilter(text) <==> SkipSpace(text) != "" && Scan(text).Ok? && ParseAll(Scan(text).value).Ok?
  {
    hide Scan, ParseAll, SkipSpace, AstOr;
  }

  // ----- a text that only parentheses make a filter

  lemma ShownSymbols()
    ensures Show(Op(Eq)) == "=" && Show(LParen) == "(" && Show(RParen) == ")" && Show(Or) == "OR"
    ensures Show(Num(1)) == "1" && Show(Num(2)) == "2"
  {
  }

  lemma ShownNames()
    ensures Printable(Ident("a")) && Show(Ident("a")) == "a"
    ensures Printable(Ident("b")) && Show(Ident("b")) == "b"
  {
  }

  lemma LastComparison()
    ensures Scan("(b = 2") == Ok([LParen, Ident("b"), Op(Eq), Num(2), Eof])
  {
    hide *;
    ShownSymbols();
    ShownNames();
    ScanShow(Num(2));
    var t1 := ScanWord(Op(Eq), "=", Num(2), "2", "2", "= 2", [Num(2), Eof]);
    var t2 := ScanWord(Ident("b"), "b", Op(Eq), "=", "= 2", "b = 2", t1);
    var t3 := ScanWord(LParen, "(", Ident("b"), "b", "b = 2", "(b = 2", t2);
    assert t3 == [LParen, Ident("b"), Op(Eq), Num(2), Eof];
  }

  lemma FromFirstParenthesis()
    ensures Scan(") OR (b = 2") == Ok([RParen, Or] + [LParen, Ident("b"), Op(Eq), Num(2), Eof])
  {
    hide *;
    ShownSymbols();
    LastComparison();
    var t3 := [LParen, Ident("b"), Op(Eq), Num(2), Eof];
    var t4 := ScanWord(Or, "OR", LParen, "(", "(b = 2", "OR (b = 2", t3);
    var t5 := ScanWord(RParen, ")", Or, "OR", "OR (b = 2", ") OR (b = 2", t4);
    assert t5 == [RParen, Or] + t3;
  }

  lemma CrossedTokens()
    ensures Scan("a = 1) OR (b = 2") ==
            Ok([Ident("a"), Op(Eq), Num(1)] + ([RParen, Or] + [LParen, Ident("b"), Op(Eq), Num(2), Eof]))
  {
    hide *;
    ShownSymbols();
    ShownNames();
    FromFirstParenthesis();
    var t5 := [RParen, Or] + [LParen, Ident("b"), Op(Eq), Num(2), Eof];
    var t6 := ScanWord(Num(1), "1", RParen, ")", ") OR (b = 2", "1) OR (b = 2", t5);
    var t7 := ScanWord(Op(Eq), "=", Num(1), "1", "1) OR (b = 2", "= 1) OR (b = 2", t6);
    var t8 := ScanWord(Ident("a"), "a", Op(Eq), "=", "= 1) OR (b = 2", "a = 1) OR (b = 2", t7);
    assert t8 == [Ident("a"), Op(Eq), Num(1)] + t5;
  }

  /** One more token in front of a text. */
  lemma ScanWord(l: Lexeme, shown: string, next: Lexeme, nextShown: string, rest: string, whole: string, ls: seq<Lexeme>)
    returns (more: seq<Lexeme>)
    requires Printable(l) && Printable(next) && Show(l) == shown && Show(next) == nextShown
    requires nextShown != "" && nextShown <= rest && Scan(rest) == Ok(ls)
    requires whole == shown + (if l == LParen || next == RParen then "" else " ") + rest
    requires l != Has && l != Missing && l != Count
    ensures more == [l] + ls && Scan(whole) == Ok(more)
  {
    ScanCons(l, next, rest);
    more := [l] + ls;
  }

  /** `a = 1) OR (b = 2` is no filter, and in parentheses it is one. */
  lemma CrossedParentheses()
    ensures var s := "a = 1) OR (b = 2"; !IsFilter(s) && IsFilter(Parenthesised(s))
  {
    hide *;
    CrossedTokens();
    var s := "a = 1) OR (b = 2";
    var inner := [Ident("a"), Op(Eq), Num(1)] + ([RParen, Or] + [LParen, Ident("b"), Op(Eq), Num(2)]);
    var ls := Scan(s).value;
    assert ls == inner + [Eof] && ls[..|ls| - 1] == inner;
    CrossedCloses(inner);
    ClosesWhen(s, inner);
    FilterIffParenthesised(s);
    ParenthesisedScans(s);
    CrossedParses(inner);
    assert [LParen] + inner + [RParen, Eof] == [LParen] + inner + [RParen] + [Eof];
    FilterWhen(Parenthesised(s));
    assert SkipSpace(Parenthesised(s)) != "" by {
      StartsParenthesised(s);
    }
  }

  lemma StartsParenthesised(s: string)
    ensures SkipSpace(Parenthesised(s)) != ""
  {
    NotBlank(Parenthesised(s));
  }

  lemma ClosesWhen(s: string, inner: seq<Lexeme>)
    requires Scan(s).Ok? && Scan(s).value[..|Scan(s).value| - 1] == inner
    ensures ClosesEarly(s) <==> !NeverClosesEarly(inner)
  {
    hide Scan, NeverClosesEarly;
  }

  lemma CrossedParses(inner: seq<Lexeme>)
    requires inner == [Ident("a"), Op(Eq), Num(1), RParen, Or, LParen, Ident("b"), Op(Eq), Num(2)]
    ensures ParseAll([LParen] + inner + [RParen] + [Eof]).Ok?
  {
    hide *;
    var a, b := Comparison("a", Eq, IntLiteral(1)), Comparison("b", Eq, IntLiteral(2));
    CrossedYield(inner);
    AtTheEnd(OrMore(Single(Group(Single(a))), OneCondition(Group(Single(b)))));
  }

  function Single(c: Condition): OrChain {
    OneAnd(OneCondition(c))
  }

  lemma AtTheEnd(o: OrChain)
    ensures ParseAll(YieldOr(o) + [Eof]) == Ok(o)
  {
    var ts := YieldOr(o) + [Eof];
    assert ts[..|ts| - 1] == YieldOr(o);
    ParsesExactlyItsYield(ts, o);
  }

  lemma CrossedYield(inner: seq<Lexeme>)
    requires inner == [Ident("a"), Op(Eq), Num(1), RParen, Or, LParen, Ident("b"), Op(Eq), Num(2)]
    ensures var a, b := Comparison("a", Eq, IntLiteral(1)), Comparison("b", Eq, IntLiteral(2));
            YieldOr(OrMore(Single(Group(Single(a))), OneCondition(Group(Single(b))))) == [LParen] + inner + [RParen]
  {
    var a, b := Comparison("a", Eq, IntLiteral(1)), Comparison("b", Eq, IntLiteral(2));
    assert YieldCondition(a) == [Ident("a"), Op(Eq), Num(1)] && YieldCondition(b) == [Ident("b"), Op(Eq), Num(2)];
  }

  lemma CrossedCloses(inner: seq<Lexeme>)
    requires |inner| > 4 && inner[..4] == [Ident("a"), Op(Eq), Num(1), RParen]
    ensures !NeverClosesEarly(inner)
  {
    var first, close := [Ident("a"), Op(Eq), Num(1)], [RParen];
    BalancedOne(Ident("a"));
    BalancedOne(Op(Eq));
    BalancedOne(Num(1));
    BalancedConcat([Ident("a")], [Op(Eq)]);
    BalancedConcat([Ident("a")] + [Op(Eq)], [Num(1)]);
    assert [Ident("a")] + [Op(Eq)] + [Num(1)] == first && inner[..4] == first + close;
    DepthConcat(first, close);
  }
}
