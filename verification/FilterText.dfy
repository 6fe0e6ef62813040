/**
  How filter text composes: scanning a text does not depend on what follows a delimiter, and
  every list of printable tokens can be written so that scanning gives exactly that list back.
 */
module FilterText {
  import opened Results
  import opened FilterEscapes
  import opened FilterLexer

  // ----- a token does not depend on what follows it

  /** What follows cannot extend a token: nothing, a blank or a parenthesis. */
  predicate Delimited(after: string) {
    after == "" || after[0] == ' ' || after[0] == '(' || after[0] == ')'
  }

  lemma {:induction false} IdentRunExtends(s: string, after: string)
    requires Delimited(after)
    ensures IdentRun(s + after) == IdentRun(s)
  {
    if s != "" {
      assert (s + after)[1..] == s[1..] + after;
      IdentRunExtends(s[1..], after);
    } else {
      assert s + after == after;
    }
  }

  lemma {:induction false} NumberRunExtends(s: string, hasDot: bool, after: string)
    requires Delimited(after)
    ensures NumberRun(s + after, hasDot) == NumberRun(s, hasDot)
  {
    if s != "" {
      assert (s + after)[1..] == s[1..] + after;
      NumberRunExtends(s[1..], hasDot, after);
      NumberRunExtends(s[1..], true, after);
    } else {
      assert s + after == after;
    }
  }

  lemma NumberLengthExtends(s: string, after: string)
    requires Delimited(after) && s != "" && (IsDigit(s[0]) || s[0] == '-')
    ensures NumberLength(s + after) == NumberLength(s)
  {
    assert (s + after)[1..] == s[1..] + after;
    NumberRunExtends(s[1..], false, after);
    NumberRunExtends(s, false, after);
  }

  lemma LexOneExtends(s: string, after: string)
    requires s != "" && LexOne(s).Ok? && Delimited(after)
    ensures LexOne(s + after) == LexOne(s)
  {
    hide StringEnd, Unescape, NumberLexeme, WordLexeme, IdentRun, NumberLength;
    var t, c := s + after, s[0];
    assert t[0] == c && t[1..] == s[1..] + after;
    if c == '"' || c == '\'' {
      StringEndExtends(s[1..], c, after);
      var end := StringEnd(s[1..], c).value;
      assert t[1..][..end] == s[1..][..end];
    } else if IsDigit(c) || (c == '-' && 1 < |s| && IsDigit(s[1])) {
      NumberLengthExtends(s, after);
      assert t[..NumberLength(s)] == s[..NumberLength(s)];
    } else {
      IdentRunExtends(s, after);
      assert t[..IdentRun(s)] == s[..IdentRun(s)];
    }
  }

  lemma {:induction false} SkipSpaceExtends(s: string, after: string)
    ensures SkipSpace(s + after) == if SkipSpace(s) == "" then SkipSpace(after) else SkipSpace(s) + after
  {
    if s == "" {
      assert s + after == after;
    } else if IsSpace(s[0]) {
      assert (s + after)[1..] == s[1..] + after;
      SkipSpaceExtends(s[1..], after);
    }
  }

  /** Prefixes the tokens of a scan. */
  function Prefixed(ls: seq<Lexeme>, r: Scanned): Scanned {
    if r.Ok? then Ok(ls + r.value) else r
  }

  lemma PrefixedTwice(a: seq<Lexeme>, b: seq<Lexeme>, r: Scanned)
    ensures Prefixed(a, Prefixed(b, r)) == Prefixed(a + b, r)
  {
    if r.Ok? {
      assert a + (b + r.value) == a + b + r.value;
    }
  }

  /** One step of `Scan`. */
  lemma ScanStep(s: string)
    requires SkipSpace(s) != "" && LexOne(SkipSpace(s)).Ok?
    ensures var t := SkipSpace(s); var one := LexOne(t).value;
            Scan(s) == Prefixed([one.lexeme], Scan(t[one.length..]))
  {
  }

  /**
    Lexing is compositional: if `s` scans, then `s` followed by anything that starts with a
    delimiter scans to the tokens of `s`, without its end marker, and those of the rest.
   */
  lemma {:induction false} ScanConcat(s: string, after: string)
    requires Scan(s).Ok? && Delimited(after)
    ensures Scan(s + after) == Prefixed(Scan(s).value[..|Scan(s).value| - 1], Scan(after))
    decreases |s|
  {
    hide LexOne, SkipSpace;
    SkipSpaceExtends(s, after);
    var t := SkipSpace(s);
    if t == "" {
      ScanBlank(s + after, after);
    } else {
      LexOneExtends(t, after);
      var one := LexOne(t).value;
      var rest := t[one.length..];
      assert (t + after)[one.length..] == rest + after;
      ScanStep(s);
      ScanStep(s + after);
      ScanConcat(rest, after);
      var ls := Scan(rest).value;
      PrefixedTwice([one.lexeme], ls[..|ls| - 1], Scan(after));
      assert ([one.lexeme] + ls)[..|ls|] == [one.lexeme] + ls[..|ls| - 1];
    }
  }

  lemma ScanBlank(s: string, t: string)
    requires SkipSpace(s) == SkipSpace(t)
    ensures Scan(s) == Scan(t) && Scan(s) == Prefixed([], Scan(t))
  {
    if Scan(t).Ok? {
      assert [] + Scan(t).value == Scan(t).value;
    }
  }

  lemma ScanParenthesis(paren: char, after: string)
    requires paren == '(' || paren == ')'
    ensures Scan([paren] + after) == Prefixed([if paren == '(' then LParen else RParen], Scan(after))
  {
    var s := [paren] + after;
    assert s[0] == paren && SkipSpace(s) == s && s[1..] == after;
    ScanStep(s);
  }

  lemma ScanAfterBlank(after: string)
    ensures Scan(" " + after) == Scan(after)
  {
    assert (" " + after)[1..] == after;
    ScanBlank(" " + after, after);
  }

  // ----- writing tokens

  predicate AllDigits(s: string) {
    forall i :: 0 <= i < |s| ==> IsDigit(s[i])
  }

  function DigitChar(d: nat): (c: char)
    requires d < 10
    ensures IsDigit(c) && c as int - '0' as int == d
  {
    '0' + d as char
  }

  function DigitsOf(n: nat): (s: string)
    ensures s != "" && AllDigits(s) && DigitsValue(s) == n
  {
    if n < 10 then [DigitChar(n)]
    else
      var init := DigitsOf(n / 10);
      var s := init + [DigitChar(n % 10)];
      assert s[..|s| - 1] == init;
      s
  }

  function Padded(s: string, width: nat): (p: string)
    requires AllDigits(s)
    ensures AllDigits(p) && |p| >= width && |p| >= |s| && DigitsValue(p) == DigitsValue(s)
    decreases width - |s|
  {
    if |s| >= width then s
    else
      LeadingZero(s);
      assert AllDigits("0" + s);
      Padded("0" + s, width)
  }

  lemma {:induction false} LeadingZero(s: string)
    ensures DigitsValue("0" + s) == DigitsValue(s)
  {
    var t := "0" + s;
    if s == "" {
      assert t == "0" && t[..0] == "" && DigitsValue("") == 0;
    } else {
      LeadingZero(s[..|s| - 1]);
      assert t[..|t| - 1] == "0" + s[..|s| - 1];
    }
  }

  function Scaled(r: real, k: nat): real {
    r * Pow10(k) as real
  }

  /** The decimal `r` has at most `k` digits after the point. */
  ghost predicate HasScale(r: real, k: nat) {
    Scaled(r, k).Floor as real == Scaled(r, k)
  }

  ghost predicate IsDecimal(r: real) {
    exists k: nat :: HasScale(r, k)
  }

  ghost function ScaleOf(r: real): (k: nat)
    requires IsDecimal(r)
    ensures HasScale(r, k)
  {
    var k: nat :| HasScale(r, k);
    k
  }

  function Sign(negative: bool): string {
    if negative then "-" else ""
  }

  ghost function ShowDecimal(r: real): string
    requires IsDecimal(r)
  {
    var k := ScaleOf(r);
    var m := Scaled(r, k).Floor;
    Sign(m < 0) + WithPoint(Padded(DigitsOf(if m < 0 then -m else m), k + 1), k)
  }

  /** Puts a point before the last `k` digits. */
  function WithPoint(digits: string, k: nat): string
    requires k <= |digits|
  {
    digits[..|digits| - k] + "." + digits[|digits| - k..]
  }

  predicate IsIdentifier(s: string) {
    s != "" && IsIdentStart(s[0]) && (forall i :: 0 <= i < |s| ==> IsIdentChar(s[i])) && s !in KEYWORDS
  }

  ghost predicate Printable(l: Lexeme) {
    match l
    case Str(s) => Writable(s)
    case Dec(r) => IsDecimal(r)
    case Ident(name) => IsIdentifier(name)
    case Eof => false
    case _ => true
  }

  function ShowOp(op: CompareOp): string {
    match op
    case Eq => "="
    case Ne => "!="
    case Gt => ">"
    case Lt => "<"
    case Ge => ">="
    case Le => "<="
    case Regex => "~"
    case Contains => "contains"
  }

  /** The words that are not identifiers. */
  function KeywordText(l: Lexeme): string {
    match l
    case And => "AND"
    case Or => "OR"
    case Not => "NOT"
    case Has => "has"
    case Missing => "missing"
    case Count => "count"
    case _ => "contains"
  }

  ghost function Show(l: Lexeme): string
    requires Printable(l)
  {
    match l
    case Str(s) => "\"" + Escape(s) + "\""
    case Num(n) => Sign(n < 0) + DigitsOf(if n < 0 then -n else n)
    case Dec(r) => ShowDecimal(r)
    case Ident(name) => name
    case Op(op) => ShowOp(op)
    case LParen => "("
    case RParen => ")"
    case _ => KeywordText(l)
  }

  lemma {:induction false} NumberRunDigits(s: string, hasDot: bool, after: string)
    requires AllDigits(s)
    ensures NumberRun(s + after, hasDot) == |s| + NumberRun(after, hasDot)
  {
    if s == "" {
      assert s + after == after;
    } else {
      assert (s + after)[1..] == s[1..] + after;
      NumberRunDigits(s[1..], hasDot, after);
    }
  }

  lemma {:induction false} DotIndexDigits(s: string, after: string)
    requires AllDigits(s)
    ensures DotIndex(s + after) == |s| + DotIndex(after)
  {
    if s == "" {
      assert s + after == after;
    } else {
      assert (s + after)[1..] == s[1..] + after;
      DotIndexDigits(s[1..], after);
    }
  }

  /** Written digits, with a sign and at most one point, are read as one number token. */
  lemma LexNumber(negative: bool, s: string)
    requires s != "" && IsDigit(s[0]) && NumberRun(s, false) == |s|
    ensures var t := Sign(negative) + s;
            LexOne(t) == Ok(Lexed(UnsignedNumber(s, if negative then -1 else 1), |t|))
  {
    var t := Sign(negative) + s;
    if negative {
      assert t[0] == '-' && t[1..] == s && t[1] == s[0];
    } else {
      assert t == s;
    }
    assert NumberLength(t) == |t| && t[..|t|] == t;
  }

  lemma LexInteger(n: int)
    ensures LexesWhole(Num(n))
  {
    var s := DigitsOf(if n < 0 then -n else n);
    assert s + "" == s;
    NumberRunDigits(s, false, "");
    DotIndexDigits(s, "");
    LexNumber(n < 0, s);
  }

  lemma ScaledBack(r: real, k: nat, m: int)
    requires Scaled(r, k) == m as real
    ensures m as real / Pow10(k) as real == r
  {
  }

  lemma PointSplit(whole: string, fraction: string)
    requires AllDigits(whole)
    ensures var s := whole + "." + fraction;
            DotIndex(s) == |whole| && s[..|whole|] == whole && s[|whole| + 1..] == fraction
  {
    assert whole + "." + fraction == whole + ("." + fraction);
    DotIndexDigits(whole, "." + fraction);
  }

  lemma PointValue(whole: string, fraction: string, sign: int, r: real, m: int)
    requires AllDigits(whole)
    requires m == sign * DigitsValue(whole + fraction) && Scaled(r, |fraction|) == m as real
    ensures UnsignedNumber(whole + "." + fraction, sign) == Dec(r)
  {
    PointSplit(whole, fraction);
    ScaledBack(r, |fraction|, m);
  }

  lemma PointRun(whole: string, fraction: string)
    requires AllDigits(whole) && AllDigits(fraction)
    ensures var s := whole + "." + fraction; NumberRun(s, false) == |s|
  {
    assert whole + "." + fraction == whole + ("." + fraction);
    assert fraction + "" == fraction && ("." + fraction)[1..] == fraction;
    NumberRunDigits(fraction, true, "");
    NumberRunDigits(whole, false, "." + fraction);
  }

  /** Digits with a point before the last `k` are one number token, worth the digits over 10^k. */
  lemma LexWithPoint(negative: bool, digits: string, k: nat, r: real)
    requires AllDigits(digits) && k < |digits|
    requires Scaled(r, k) == ((if negative then -1 else 1) * DigitsValue(digits)) as real
    ensures var t := Sign(negative) + WithPoint(digits, k);
            t != "" && LexOne(t) == Ok(Lexed(Dec(r), |t|))
  {
    var whole, fraction := digits[..|digits| - k], digits[|digits| - k..];
    assert whole + fraction == digits;
    PointRun(whole, fraction);
    PointValue(whole, fraction, if negative then -1 else 1, r, (if negative then -1 else 1) * DigitsValue(digits));
    LexNumber(negative, WithPoint(digits, k));
  }

  lemma LexDecimal(r: real)
    requires IsDecimal(r)
    ensures LexesWhole(Dec(r))
  {
    hide LexOne, DigitsOf, DigitsValue, Padded, WithPoint;
    var k := ScaleOf(r);
    var m := Scaled(r, k).Floor;
    var digits := Padded(DigitsOf(if m < 0 then -m else m), k + 1);
    LexWithPoint(m < 0, digits, k, r);
  }

  lemma LexWord(s: string)
    requires s != "" && IsIdentStart(s[0]) && forall i :: 0 <= i < |s| ==> IsIdentChar(s[i])
    ensures LexOne(s) == Ok(Lexed(WordLexeme(s), |s|))
  {
    assert s[..|s|] == s;
  }

  lemma LexString(v: string)
    requires Writable(v)
    ensures LexesWhole(Str(v))
  {
    var s := "\"" + Escape(v) + "\"";
    StringEndOfEscape(v, '"', "");
    assert s[1..] == Escape(v) + ['"'] + "";
    assert s[1..][..|Escape(v)|] == Escape(v);
    UnescapeEscape(v);
  }

  lemma LexIdentifier(name: string)
    requires IsIdentifier(name)
    ensures LexesWhole(Ident(name))
  {
    LexWord(name);
  }

  lemma LexKeyword(l: Lexeme)
    requires l in {And, Or, Not, Has, Missing, Count, Op(Contains)}
    ensures LexesWhole(l)
  {
    assert KEYWORDS["AND"] == And && KEYWORDS["OR"] == Or && KEYWORDS["NOT"] == Not;
    assert KEYWORDS["has"] == Has && KEYWORDS["missing"] == Missing && KEYWORDS["count"] == Count;
    assert KEYWORDS["contains"] == Op(Contains);
    LexWord(Show(l));
  }

  lemma LexSingle(c: char)
    requires SingleCharacter(c).Some?
    ensures LexOne([c]) == Ok(Lexed(SingleCharacter(c).value, 1))
  {
  }

  lemma LexDouble(c: char)
    requires c == '!' || c == '>' || c == '<'
    ensures LexOne([c, '=']) == Ok(Lexed(Op(if c == '!' then Ne else if c == '>' then Ge else Le), 2))
  {
  }

  lemma LexSymbol(l: Lexeme)
    requires l == LParen || l == RParen || (l.Op? && l != Op(Contains))
    ensures LexesWhole(l)
  {
    hide LexOne;
    match l
    case LParen => LexSingle('(');
    case RParen => LexSingle(')');
    case Op(op) =>
      var s := ShowOp(op);
      if |s| == 1 {
        LexSingle(s[0]);
      } else {
        LexDouble(s[0]);
        assert s == [s[0], '='];
      }
  }

  /** The text of `l` is one token, and that token is `l`. */
  ghost predicate LexesWhole(l: Lexeme)
    requires Printable(l)
  {
    Show(l) != "" && LexOne(Show(l)) == Ok(Lexed(l, |Show(l)|))
  }

  lemma NotSpaceIfLexed(s: string)
    requires s != "" && LexOne(s).Ok?
    ensures !IsSpace(s[0])
  {
  }

  /** Every printable token is read back, whole, from what is written for it. */
  lemma LexShow(l: Lexeme)
    requires Printable(l)
    ensures LexesWhole(l) && !IsSpace(Show(l)[0])
  {
    hide LexOne, Show, LexesWhole;
    match l {
      case Str(s) => LexString(s);
      case Num(n) => LexInteger(n);
      case Dec(r) => LexDecimal(r);
      case Ident(name) => LexIdentifier(name);
      case Op(op) =>
        if op == Contains {
          LexKeyword(l);
        } else {
          LexSymbol(l);
        }
      case LParen => LexSymbol(l);
      case RParen => LexSymbol(l);
      case _ => LexKeyword(l);
    }
    LexesNotSpace(l);
  }

  lemma LexesNotSpace(l: Lexeme)
    requires Printable(l) && LexesWhole(l)
    ensures !IsSpace(Show(l)[0])
  {
    hide LexOne, Show;
    NotSpaceIfLexed(Show(l));
  }

  ghost predicate AllPrintable(ls: seq<Lexeme>) {
    forall i :: 0 <= i < |ls| ==> Printable(ls[i])
  }

  /** A blank between two tokens, except inside parentheses and after a function name. */
  function Gap(l: Lexeme, next: Lexeme): string {
    if l == LParen || next == RParen || (l in {Has, Missing, Count} && next == LParen) then "" else " "
  }

  ghost function Render(ls: seq<Lexeme>): string
    requires AllPrintable(ls)
  {
    if ls == [] then ""
    else if |ls| == 1 then Show(ls[0])
    else Show(ls[0]) + Gap(ls[0], ls[1]) + Render(ls[1..])
  }

  lemma ScanShow(l: Lexeme)
    requires Printable(l)
    ensures Scan(Show(l)) == Ok([l, Eof])
  {
    LexShow(l);
    var s := Show(l);
    assert SkipSpace(s) == s && s[|s|..] == "";
    ScanStep(s);
    assert [l] + [Eof] == [l, Eof];
  }

  lemma ScanNothing()
    ensures Scan("") == Ok([Eof])
  {
  }

  lemma RenderHead(ls: seq<Lexeme>)
    requires ls != [] && AllPrintable(ls)
    ensures Show(ls[0]) <= Render(ls) && Show(ls[0]) != ""
  {
    LexShow(ls[0]);
  }

  lemma RenderGap(l: Lexeme, next: Lexeme, rest: string)
    requires l != LParen && Printable(next) && Show(next) <= rest
    ensures Delimited(Gap(l, next) + rest) && Scan(Gap(l, next) + rest) == Scan(rest)
  {
    if Gap(l, next) == " " {
      ScanAfterBlank(rest);
    } else {
      assert rest[0] == Show(next)[0];
      assert "" + rest == rest;
    }
  }

  lemma ScanOneThen(s: string, l: Lexeme, after: string)
    requires Scan(s) == Ok([l, Eof]) && Delimited(after)
    ensures Scan(s + after) == Prefixed([l], Scan(after))
  {
    ScanConcat(s, after);
    assert [l, Eof][..1] == [l];
  }

  lemma ScanCons(l: Lexeme, next: Lexeme, rest: string)
    requires Printable(l) && Printable(next) && Show(next) != "" && Show(next) <= rest
    ensures Scan(Show(l) + Gap(l, next) + rest) == Prefixed([l], Scan(rest))
  {
    var gap := Gap(l, next);
    if l == LParen {
      assert Show(l) + gap + rest == "(" + rest;
      ScanParenthesis('(', rest);
    } else {
      assert Show(l) + gap + rest == Show(l) + (gap + rest);
      RenderGap(l, next, rest);
      ScanShow(l);
      ScanOneThen(Show(l), l, gap + rest);
    }
  }

  /** Tokens written with this spacing are scanned back as they were. */
  lemma {:induction false} ScanRender(ls: seq<Lexeme>)
    requires AllPrintable(ls)
    ensures Scan(Render(ls)) == Ok(ls + [Eof])
  {
    hide Scan, LexOne, SkipSpace, Show;
    if ls == [] {
      ScanNothing();
      assert ls + [Eof] == [Eof];
    } else if |ls| == 1 {
      ScanShow(ls[0]);
      assert ls + [Eof] == [ls[0], Eof];
    } else {
      ScanRender(ls[1..]);
      RenderHead(ls[1..]);
      ScanCons(ls[0], ls[1], Render(ls[1..]));
      assert ls + [Eof] == [ls[0]] + (ls[1..] + [Eof]);
    }
  }

  // ----- only printable tokens are ever read

  lemma DecimalHasScale(m: int, k: nat)
    ensures HasScale(m as real / Pow10(k) as real, k)
  {
    QuotientTimes(m as real, Pow10(k) as real);
    assert Scaled(m as real / Pow10(k) as real, k) == m as real;
  }

  lemma QuotientTimes(a: real, p: real)
    requires p != 0.0
    ensures a / p * p == a
  {
  }

  lemma NumberPrintable(s: string)
    ensures Printable(NumberLexeme(s))
  {
    var negative := s != "" && s[0] == '-';
    var t := if negative then s[1..] else s;
    var dot := DotIndex(t);
    if dot < |t| {
      var fraction := t[dot + 1..];
      DecimalHasScale((if negative then -1 else 1) * DigitsValue(t[..dot] + fraction), |fraction|);
    }
  }

  lemma WordPrintable(s: string)
    requires s != "" && IsIdentStart(s[0]) && IdentRun(s) > 0
    ensures Printable(WordLexeme(s[..IdentRun(s)]))
  {
    var word := s[..IdentRun(s)];
    assert forall i :: 0 <= i < |word| ==> IsIdentChar(word[i]);
  }

  lemma LexOnePrintable(s: string)
    requires s != "" && LexOne(s).Ok?
    ensures Printable(LexOne(s).value.lexeme)
  {
    hide StringEnd, Unescape, NumberLexeme, WordLexeme, IdentRun, NumberLength, Writable;
    var c := s[0];
    if c == '"' || c == '\'' {
      UnescapeIsWritable(s[1..][..StringEnd(s[1..], c).value]);
    } else if IsDigit(c) || (c == '-' && 1 < |s| && IsDigit(s[1])) {
      NumberPrintable(s[..NumberLength(s)]);
    } else if IsIdentStart(c) {
      assert IdentRun(s) > 0;
      WordPrintable(s);
    }
  }

  /** Whatever the text, its tokens before the end marker can be written again. */
  lemma {:induction false} ScanPrintable(s: string)
    requires Scan(s).Ok?
    ensures AllPrintable(Scan(s).value[..|Scan(s).value| - 1])
    decreases |s|
  {
    hide LexOne, SkipSpace, Printable;
    var t := SkipSpace(s);
    if t != "" {
      var one := LexOne(t).value;
      LexOnePrintable(t);
      ScanPrintable(t[one.length..]);
      var rest := Scan(t[one.length..]).value;
      assert ([one.lexeme] + rest)[..|rest|] == [one.lexeme] + rest[..|rest| - 1];
    }
  }
}
