/**
  Evaluating filters against scan results (`cli/filter_executor.py`), and what the text-level
  combination of two filters selects.
 */
module FilterExecutor {
  import opened Results
  import opened Ordering
  import opened FilterLexer
  import opened FilterGrammar
  import opened FilterRoundTrip

  // ----- scan results

  /** A Python value: dictionaries and objects keep their entries in order. */
  datatype Data =
    | Null
    | Bool(b: bool)
    | Number(r: real)
    | String(s: string)
    | List(items: seq<Data>)
    | Dict(entries: seq<(string, Data)>)
    | Object(attributes: seq<(string, Data)>)

  /** The regular-expression search and Python's `str` of values that are not strings. */
  datatype Environment = Environment(search: (string, string) -> bool, show: Data -> string)

  /** Python's complaint about an order between values that have none. */
  datatype TypeError = TypeError

  datatype ExecutionError = NotAFilter | Raised(error: TypeError)

  function Lookup(entries: seq<(string, Data)>, key: string): Option<Data> {
    if entries == [] then None
    else if entries[0].0 == key then Some(entries[0].1)
    else Lookup(entries[1..], key)
  }

  function Upper(s: string): string {
    if s == "" then ""
    else [if 'a' <= s[0] <= 'z' then s[0] - 'a' + 'A' else s[0]] + Upper(s[1..])
  }

  function Lower(s: string): string {
    if s == "" then ""
    else [if 'A' <= s[0] <= 'Z' then s[0] - 'A' + 'a' else s[0]] + Lower(s[1..])
  }

  const FIELD_MAP: map<string, string> :=
    map["score" := "risk_score", "tier" := "risk_tier", "exposure" := "exposure_level",
        "path" := "file_path", "name" := "file_name", "filename" := "file_name",
        "entities" := "total_entities", "total" := "total_entities"]

  function Normalized(field: string): string {
    var lower := Lower(field);
    if lower in FIELD_MAP then FIELD_MAP[lower] else field
  }

  /** An attribute that itself has an attribute `value` stands for that value. */
  function Unwrapped(value: Data): Data {
    if value.Object? && Lookup(value.attributes, "value").Some? then Lookup(value.attributes, "value").value
    else value
  }

  function GetFieldValue(result: Data, field: string): Data
    decreases |field|
  {
    var normalized := Normalized(field);
    match result
    case Dict(entries) =>
      if Lookup(entries, normalized).Some? then Lookup(entries, normalized).value
      else if Lookup(entries, field).Some? then Lookup(entries, field).value
      else
        var dot := DotIndex(field);
        if dot == |field| then Null
        else
          var nested := Lookup(entries, field[..dot]);
          if nested.Some? && nested.value.Dict? then GetFieldValue(nested.value, field[dot + 1..]) else Null
    case Object(attributes) =>
      if Lookup(attributes, normalized).Some? then Unwrapped(Lookup(attributes, normalized).value)
      else if Lookup(attributes, field).Some? then Unwrapped(Lookup(attributes, field).value)
      else Null
    case _ => Null
  }

  // ----- comparisons

  function LiteralData(v: Value): Data {
    match v
    case TextValue(s) => String(Upper(s))
    case IntValue(n) => Number(n as real)
    case FloatValue(r) => Number(r)
  }

  /** Booleans count as the numbers 0 and 1. */
  function AsNumber(d: Data): Option<real> {
    match d
    case Bool(b) => Some(if b then 1.0 else 0.0)
    case Number(r) => Some(r)
    case _ => None
  }

  function Equal(left: Data, right: Data): bool {
    if AsNumber(left).Some? && AsNumber(right).Some? then AsNumber(left) == AsNumber(right)
    else left == right
  }

  /** `left < right` (or the other order relations through `holds`), or a type error. */
  function Ordered(left: Data, right: Data, orEqual: bool, less: bool): Result<bool, TypeError> {
    if left == Null then Ok(false)
    else if left.String? && right.String? then
      Ok((orEqual && left.s == right.s) || (if less then Less(left.s, right.s) else Less(right.s, left.s)))
    else
      match (AsNumber(left), AsNumber(right))
      case (Some(x), Some(y)) => Ok((orEqual && x == y) || (if less then x < y else x > y))
      case _ => Err(TypeError)
  }

  function Shown(d: Data, env: Environment): string {
    if d.String? then d.s else env.show(d)
  }

  predicate IsSubstring(part: string, whole: string) {
    part <= whole || (whole != "" && IsSubstring(part, whole[1..]))
  }

  function Compare(value: Data, op: CompareOp, literal: Value, env: Environment): Result<bool, TypeError> {
    var left := if value.String? then String(Upper(value.s)) else value;
    var right := LiteralData(literal);
    match op
    case Eq => Ok(Equal(left, right))
    case Ne => Ok(!Equal(left, right))
    case Gt => Ordered(left, right, false, false)
    case Lt => Ordered(left, right, false, true)
    case Ge => Ordered(left, right, true, false)
    case Le => Ordered(left, right, true, true)
    case Regex =>
      Ok(left != Null && |Shown(right, env)| <= 500 && env.search(Shown(right, env), Shown(left, env)))
    case Contains =>
      Ok(left != Null && IsSubstring(Lower(Shown(right, env)), Lower(Shown(left, env))))
  }

  function FirstWithUpper(entries: seq<(string, Data)>, upper: string): Option<Data> {
    if entries == [] then None
    else if Upper(entries[0].0) == upper then Some(entries[0].1)
    else FirstWithUpper(entries[1..], upper)
  }

  function GetEntityCount(result: Data, entityType: string): Data {
    var counts := GetFieldValue(result, "entity_counts");
    if !counts.Dict? then Number(0.0)
    else
      var exact := Lookup(counts.entries, entityType);
      var upper := Lookup(counts.entries, Upper(entityType));
      var anyCase := FirstWithUpper(counts.entries, Upper(entityType));
      if exact.Some? then exact.value
      else if upper.Some? then upper.value
      else if anyCase.Some? then anyCase.value
      else Number(0.0)
  }

  function IsMissing(value: Data): bool {
    match value
    case Null => true
    case String(s) => SkipSpace(s) == ""
    case List(items) => items == []
    case Dict(entries) => entries == []
    case _ => false
  }

  /** `count > 0` for `has`: there is no test for None here, so only numbers are in order. */
  function Positive(count: Data): Result<bool, TypeError> {
    match AsNumber(count)
    case Some(x) => Ok(x > 0.0)
    case None => Err(TypeError)
  }

  function Evaluate(e: Expr, result: Data, env: Environment): Result<bool, TypeError> {
    match e
    case AndExpr(left, right) =>
      var l := Evaluate(left, result, env);
      if l.Err? || !l.value then l else Evaluate(right, result, env)
    case OrExpr(left, right) =>
      var l := Evaluate(left, result, env);
      if l.Err? || l.value then l else Evaluate(right, result, env)
    case NotExpr(operand) =>
      var x := Evaluate(operand, result, env);
      if x.Err? then x else Ok(!x.value)
    case CompareExpr(field, op, value) => Compare(GetFieldValue(result, field), op, value, env)
    case HasExpr(argument) => Positive(GetEntityCount(result, argument))
    case MissingExpr(argument) => Ok(IsMissing(GetFieldValue(result, argument)))
    case CountExpr(argument, op, value) => Compare(GetEntityCount(result, argument), op, value, env)
  }

  // ----- selecting results

  /** The list comprehension of `filter_scan_results`: the first type error ends it. */
  function Select(results: seq<Data>, e: Expr, env: Environment): Result<seq<Data>, TypeError> {
    if results == [] then Ok([])
    else
      var first := Evaluate(e, results[0], env);
      if first.Err? then Err(first.error)
      else
        var rest := Select(results[1..], e, env);
        if rest.Err? then rest
        else Ok(if first.value then [results[0]] + rest.value else rest.value)
  }

  function FilterScanResults(results: seq<Data>, text: string, env: Environment): Result<seq<Data>, ExecutionError> {
    match Meaning(text)
    case None => Err(NotAFilter)
    case Some(e) =>
      match Select(results, e, env)
      case Ok(selected) => Ok(selected)
      case Err(error) => Err(Raised(error))
  }

  /** One filter after another selects, and fails, as their conjunction does. */
  lemma {:induction false} SelectConjunction(results: seq<Data>, e1: Expr, e2: Expr, env: Environment)
    ensures Select(results, AndExpr(e1, e2), env) ==
            var first := Select(results, e1, env);
            if first.Err? then first else Select(first.value, e2, env)
  {
    if results != [] {
      hide Evaluate;
      var x, rest := results[0], results[1..];
      SelectConjunction(rest, e1, e2, env);
      ConjunctionStep(e1, e2, x, env);
      var here, first := Evaluate(e1, x, env), Select(rest, e1, env);
      var both, all := Evaluate(AndExpr(e1, e2), x, env), Select(rest, AndExpr(e1, e2), env);
      assert both.Err? ==> both.error == TypeError.TypeError;
      assert first.Err? ==> first.error == TypeError.TypeError;
      assert all.Err? ==> all.error == TypeError.TypeError;
      if here.Ok? && here.value && first.Ok? {
        assert ([x] + first.value)[1..] == first.value;
      }
    }
  }

  lemma ConjunctionStep(e1: Expr, e2: Expr, x: Data, env: Environment)
    ensures Evaluate(AndExpr(e1, e2), x, env) ==
            if Evaluate(e1, x, env) == Ok(true) then Evaluate(e2, x, env) else Evaluate(e1, x, env)
  {
  }

  /** A filter and its negation fail together, and otherwise share out the results between them. */
  lemma {:induction false} SelectComplement(results: seq<Data>, e: Expr, env: Environment)
    ensures Select(results, e, env).Ok? <==> Select(results, NotExpr(e), env).Ok?
    ensures Select(results, e, env).Ok? ==>
              multiset(Select(results, e, env).value) + multiset(Select(results, NotExpr(e), env).value)
              == multiset(results)
  {
    hide Evaluate;
    if results != [] {
      var x, rest := results[0], results[1..];
      SelectComplement(rest, e, env);
      NegationStep(e, x, env);
      assert results == [x] + rest;
    }
  }

  lemma NegationStep(e: Expr, x: Data, env: Environment)
    ensures Evaluate(NotExpr(e), x, env) ==
            match Evaluate(e, x, env) case Ok(b) => Ok(!b) case Err(error) => Err(error)
  {
  }

  /**
    Filtering composes through text: for filters `s1` and `s2`, filtering by `(s1) AND (s2)` is
    filtering by `s1` and then by `s2`, and it fails exactly when one of the two steps fails.
   */
  lemma FilteringComposes(results: seq<Data>, s1: string, s2: string, env: Environment)
    requires IsFilter(s1) && IsFilter(s2)
    ensures FilterScanResults(results, JoinedAnd(s1, s2), env) ==
            var first := FilterScanResults(results, s1, env);
            if first.Err? then first else FilterScanResults(first.value, s2, env)
  {
    hide Meaning, Select, JoinedAnd;
    MeaningJoinedAnd(s1, s2);
    SelectConjunction(results, Meaning(s1).value, Meaning(s2).value, env);
  }

  /** The two laws of De Morgan, with what is short-cut and what is raised. */
  lemma DeMorgan(e1: Expr, e2: Expr, x: Data, env: Environment)
    ensures Evaluate(NotExpr(AndExpr(e1, e2)), x, env) == Evaluate(OrExpr(NotExpr(e1), NotExpr(e2)), x, env)
    ensures Evaluate(NotExpr(OrExpr(e1, e2)), x, env) == Evaluate(AndExpr(NotExpr(e1), NotExpr(e2)), x, env)
  {
    var l, r := Evaluate(e1, x, env), Evaluate(e2, x, env);
    NegationStep(e1, x, env);
    NegationStep(e2, x, env);
  }

  /** A value that the literal can be ordered with: two strings, or two numbers. */
  predicate Comparable(value: Data, literal: Value) {
    if literal.TextValue? then value.String? else AsNumber(value).Some?
  }

  /**
    The order relations of a filter: over what can be ordered exactly one of `<`, `=`, `>` holds, `<=` and
    `>=` are what they say, and numbers are ordered as numbers.  An absent value is in no order relation,
    and everything else raises.
   */
  lemma OrderLaws(value: Data, literal: Value, env: Environment)
    ensures var lt, eq, gt := Compare(value, Lt, literal, env), Compare(value, Eq, literal, env), Compare(value, Gt, literal, env);
            var le, ne, ge := Compare(value, Le, literal, env), Compare(value, Ne, literal, env), Compare(value, Ge, literal, env);
            && eq.Ok? && ne == Ok(!eq.value)
            && (Comparable(value, literal) ==>
                  && lt.Ok? && gt.Ok?
                  && (lt.value || eq.value || gt.value)
                  && !(lt.value && eq.value) && !(lt.value && gt.value) && !(eq.value && gt.value)
                  && le == Ok(lt.value || eq.value) && ge == Ok(gt.value || eq.value)
                  && (literal.IntValue? ==> lt.value == (AsNumber(value).value < literal.number as real)))
            && (value == Null ==> lt == le == gt == ge == Ok(false))
            && (!Comparable(value, literal) && value != Null ==> lt.Err? && le.Err? && gt.Err? && ge.Err?)
  {
    if value.String? && literal.TextValue? {
      Trichotomy(Upper(value.s), Upper(literal.text));
    }
  }

  /** `has(T)` is `count(T) > 0`, raising alike, exactly when the stored count is not null. */
  lemma HasIsPositiveCount(entity: string, x: Data, env: Environment)
    ensures Evaluate(HasExpr(entity), x, env) == Evaluate(CountExpr(entity, Gt, IntValue(0)), x, env) <==>
            GetEntityCount(x, entity) != Null
  {
    hide GetEntityCount;
  }

  /** Writing a filter anew, with the fewest parentheses, selects the same results. */
  lemma RewrittenFilterSelectsSame(results: seq<Data>, text: string, env: Environment)
    requires IsFilter(text)
    ensures WritableExpr(Meaning(text).value)
    ensures FilterScanResults(results, Text(Meaning(text).value), env) == FilterScanResults(results, text, env)
  {
    hide Meaning, Select, Text, WritableExpr;
    RewriteKeepsMeaning(text);
  }

  /**
    The parentheses are needed: without them `s1 AND s2` is another filter as soon as `s1` ends
    in a disjunction.
   */
  lemma ParenthesesNeeded(a: Condition, b: Condition, c: Condition)
    ensures ParseAll(YieldCondition(a) + [Or] + YieldCondition(b) + [And] + YieldCondition(c) + [Eof]) ==
            Ok(OrMore(OneAnd(OneCondition(a)), AndMore(OneCondition(b), c)))
  {
    var o := OrMore(OneAnd(OneCondition(a)), AndMore(OneCondition(b), c));
    var right := AndMore(OneCondition(b), c);
    hide ParseOr, YieldCondition;
    assert YieldOr(o) == YieldOr(OneAnd(OneCondition(a))) + [Or] + YieldAnd(right);
    assert YieldOr(OneAnd(OneCondition(a))) == YieldAnd(OneCondition(a)) == YieldCondition(a);
    assert YieldAnd(right) == YieldAnd(OneCondition(b)) + [And] + YieldCondition(c);
    assert YieldAnd(OneCondition(b)) == YieldCondition(b);
    assert YieldCondition(a) + [Or] + YieldCondition(b) + [And] + YieldCondition(c) + [Eof] == YieldOr(o) + [Eof];
    OrComplete(o, [Eof]);
  }
}
