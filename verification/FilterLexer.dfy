/**
  The tokenizer of the filter language (`cli/filter_parser.py`, class `Lexer`).

  `LexOne` and `Scan` say what the remaining text is read as; the class `Lexer` moves a
  position over the text the way the source does and is proved against them.
 */
module FilterLexer {
  import opened Results
  import opened FilterEscapes

  datatype CompareOp = Eq | Ne | Gt | Lt | Ge | Le | Regex | Contains

  /** A token's type together with the part of its value that the parser uses. */
  datatype Lexeme =
    | Str(text: string)
    | Num(number: int)
    | Dec(decimal: real)
    | Ident(name: string)
    | Op(op: CompareOp)
    | And | Or | Not
    | Has | Missing | Count
    | LParen | RParen
    | Eof

  datatype Token = Token(lexeme: Lexeme, position: nat)

  datatype LexFault = UnterminatedString | UnexpectedCharacter

  datatype LexerError = LexerError(fault: LexFault, position: nat)

  // ----- character classes, as Python has them on ASCII characters

  predicate IsSpace(c: char) {
    9 <= c as int <= 13 || 28 <= c as int <= 32
  }

  predicate IsDigit(c: char) {
    '0' <= c <= '9'
  }

  predicate IsAlpha(c: char) {
    'a' <= c <= 'z' || 'A' <= c <= 'Z'
  }

  predicate IsIdentStart(c: char) {
    IsAlpha(c) || c == '_'
  }

  predicate IsIdentChar(c: char) {
    IsAlpha(c) || IsDigit(c) || c == '_' || c == '-' || c == '.'
  }

  // ----- what the remaining text is read as

  function SkipSpace(s: string): (rest: string)
    ensures |rest| <= |s| && (rest != "" ==> !IsSpace(rest[0]))
  {
    if s != "" && IsSpace(s[0]) then SkipSpace(s[1..]) else s
  }

  function IdentRun(s: string): (n: nat)
    ensures n <= |s| && forall i :: 0 <= i < n ==> IsIdentChar(s[i])
    ensures n < |s| ==> !IsIdentChar(s[n])
  {
    if s != "" && IsIdentChar(s[0]) then 1 + IdentRun(s[1..]) else 0
  }

  /** The length of the digits, with at most one dot unless one was seen before. */
  function NumberRun(s: string, hasDot: bool): (n: nat)
    ensures n <= |s|
  {
    if s == "" then 0
    else if IsDigit(s[0]) then 1 + NumberRun(s[1..], hasDot)
    else if s[0] == '.' && !hasDot then 1 + NumberRun(s[1..], true)
    else 0
  }

  function NumberLength(s: string): (n: nat)
    requires s != "" && (IsDigit(s[0]) || s[0] == '-')
    ensures 0 < n <= |s|
  {
    if s[0] == '-' then 1 + NumberRun(s[1..], false) else NumberRun(s, false)
  }

  function DigitsValue(s: string): nat {
    if s == "" then 0
    else 10 * DigitsValue(s[..|s| - 1]) + (if IsDigit(s[|s| - 1]) then s[|s| - 1] as int - '0' as int else 0)
  }

  function Pow10(k: nat): (p: nat)
    ensures p > 0
  {
    if k == 0 then 1 else 10 * Pow10(k - 1)
  }

  function DotIndex(s: string): (i: nat)
    ensures i <= |s| && (i < |s| ==> s[i] == '.') && '.' !in s[..i]
  {
    if s == "" || s[0] == '.' then 0 else 1 + DotIndex(s[1..])
  }

  /** Python's `int(text)` without a dot and `float(text)` with one, the latter without rounding. */
  function UnsignedNumber(s: string, sign: int): Lexeme {
    var dot := DotIndex(s);
    if dot == |s| then Num(sign * DigitsValue(s))
    else
      var fraction := s[dot + 1..];
      Dec((sign * DigitsValue(s[..dot] + fraction)) as real / Pow10(|fraction|) as real)
  }

  function NumberLexeme(s: string): Lexeme {
    if s != "" && s[0] == '-' then UnsignedNumber(s[1..], -1) else UnsignedNumber(s, 1)
  }

  const KEYWORDS: map<string, Lexeme> :=
    map["AND" := And, "and" := And, "OR" := Or, "or" := Or, "NOT" := Not, "not" := Not,
        "has" := Has, "missing" := Missing, "count" := Count, "contains" := Op(Contains)]

  function WordLexeme(word: string): (l: Lexeme)
    ensures l != Eof
  {
    if word in KEYWORDS then KEYWORDS[word] else Ident(word)
  }

  function SingleCharacter(c: char): (l: Option<Lexeme>)
    ensures l != Some(Eof)
  {
    match c
    case '=' => Some(Op(Eq))
    case '>' => Some(Op(Gt))
    case '<' => Some(Op(Lt))
    case '~' => Some(Op(Regex))
    case '(' => Some(LParen)
    case ')' => Some(RParen)
    case _ => None
  }

  datatype Lexed = Lexed(lexeme: Lexeme, length: nat)

  /** The first token of a text that does not start with white space, and its length. */
  function LexOne(s: string): (r: Result<Lexed, LexFault>)
    requires s != ""
    ensures r.Ok? ==> 0 < r.value.length <= |s| && r.value.lexeme != Eof
  {
    var c := s[0];
    if c == '"' || c == '\'' then
      var end := StringEnd(s[1..], c);
      if end.Some? then Ok(Lexed(Str(Unescape(s[1..][..end.value])), end.value + 2))
      else Err(UnterminatedString)
    else if IsDigit(c) || (c == '-' && 1 < |s| && IsDigit(s[1])) then
      Ok(Lexed(NumberLexeme(s[..NumberLength(s)]), NumberLength(s)))
    else if 1 < |s| && c == '!' && s[1] == '=' then Ok(Lexed(Op(Ne), 2))
    else if 1 < |s| && c == '>' && s[1] == '=' then Ok(Lexed(Op(Ge), 2))
    else if 1 < |s| && c == '<' && s[1] == '=' then Ok(Lexed(Op(Le), 2))
    else if SingleCharacter(c).Some? then Ok(Lexed(SingleCharacter(c).value, 1))
    else if IsIdentStart(c) then Ok(Lexed(WordLexeme(s[..IdentRun(s)]), IdentRun(s)))
    else Err(UnexpectedCharacter)
  }

  /** Where in the text scanning failed, counted from its end. */
  datatype ScanError = ScanError(fault: LexFault, left: nat)

  /** All tokens of the text, or the first fault. */
  function Scan(s: string): (r: Result<seq<Lexeme>, ScanError>)
    ensures r.Ok? ==> r.value != [] && r.value[|r.value| - 1] == Eof
    ensures r.Ok? ==> forall i :: 0 <= i < |r.value| - 1 ==> r.value[i] != Eof
    ensures r.Err? ==> 0 < r.error.left <= |s|
    decreases |s|
  {
    var t := SkipSpace(s);
    if t == "" then Ok([Eof])
    else
      var one := LexOne(t);
      if one.Err? then Err(ScanError(one.error, |t|))
      else
        var rest := Scan(t[one.value.length..]);
        if rest.Ok? then Ok([one.value.lexeme] + rest.value) else rest
  }

  function Lexemes(tokens: seq<Token>): (ls: seq<Lexeme>)
    ensures |ls| == |tokens| && forall i :: 0 <= i < |ls| ==> ls[i] == tokens[i].lexeme
  {
    seq(|tokens|, i requires 0 <= i < |tokens| => tokens[i].lexeme)
  }

  /** The token's position is where its text starts; the last token is at the end. */
  ghost predicate LocatedAt(text: string, token: Token) {
    var p := token.position;
    if token.lexeme == Eof then p == |text|
    else p < |text| && LexOne(text[p..]).Ok? && LexOne(text[p..]).value.lexeme == token.lexeme
  }

  ghost predicate Located(text: string, tokens: seq<Token>) {
    && (forall i, j :: 0 <= i < j < |tokens| ==> tokens[i].position < tokens[j].position)
    && (forall i :: 0 <= i < |tokens| ==> LocatedAt(text, tokens[i]))
  }

  type Scanned = Result<seq<Lexeme>, ScanError>

  /** Having read `tokens`, what is left reads as the rest of `all`. */
  ghost predicate Continues(all: Scanned, tokens: seq<Token>, left: Scanned) {
    match left
    case Ok(ls) => all == Ok(Lexemes(tokens) + ls)
    case Err(e) => all == Err(e)
  }

  // ----- the lexer itself

  /** The position of the closing quote, searched from `pos`. */
  ghost function EndFrom(text: string, pos: nat, quote: char): Option<nat>
    requires pos <= |text|
  {
    var end := StringEnd(text[pos..], quote);
    if end.Some? then Some(pos + end.value) else None
  }

  lemma EndFromStep(text: string, pos: nat, quote: char)
    requires pos < |text|
    ensures EndFrom(text, pos, quote) ==
            if text[pos] == BACKSLASH && pos + 1 < |text| then EndFrom(text, pos + 2, quote)
            else if text[pos] == quote then Some(pos)
            else EndFrom(text, pos + 1, quote)
  {
    assert text[pos..][1..] == text[pos + 1..];
    if pos + 1 < |text| {
      assert text[pos..][2..] == text[pos + 2..];
    }
  }

  lemma EndFromEnd(text: string, quote: char)
    ensures EndFrom(text, |text|, quote) == None
  {
  }

  lemma LexOneString(text: string, pos: nat)
    requires pos < |text| && (text[pos] == '"' || text[pos] == '\'')
    ensures LexOne(text[pos..]) ==
            match EndFrom(text, pos + 1, text[pos])
            case Some(end) => Ok(Lexed(Str(Unescape(text[pos + 1..end])), end + 1 - pos))
            case None => Err(UnterminatedString)
  {
    assert text[pos..][1..] == text[pos + 1..];
    var end := EndFrom(text, pos + 1, text[pos]);
    if end.Some? {
      assert text[pos + 1..][..end.value - pos - 1] == text[pos + 1..end.value];
    }
  }

  /** The outcome of reading one token from `from`: white space is skipped, then `LexOne` decides. */
  ghost predicate IsNext(text: string, from: nat, r: Result<Token, LexerError>, pos: nat)
    requires from <= |text| && pos <= |text|
  {
    var t := SkipSpace(text[from..]);
    var start := |text| - |t|;
    && from <= start
    && text[start..] == t
    && if t == "" then r == Ok(Token(Eof, |text|)) && pos == |text|
       else match LexOne(t)
         case Err(fault) => r == Err(LexerError(fault, start))
         case Ok(one) => r == Ok(Token(one.lexeme, start)) && pos == start + one.length
  }

  lemma LexemesSnoc(tokens: seq<Token>, token: Token)
    ensures Lexemes(tokens + [token]) == Lexemes(tokens) + [token.lexeme]
  {
  }

  /** One token of `Scan`, in terms of the token read. */
  lemma ContinuesNext(all: Scanned, tokens: seq<Token>, left: Scanned, token: Token, rest: Scanned)
    requires Continues(all, tokens, left)
    requires match rest
             case Ok(ls) => left == Ok([token.lexeme] + ls)
             case Err(e) => left == Err(e)
    ensures Continues(all, tokens + [token], rest)
  {
    LexemesSnoc(tokens, token);
    if rest.Ok? {
      assert Lexemes(tokens) + ([token.lexeme] + rest.value) == Lexemes(tokens) + [token.lexeme] + rest.value;
    }
  }

  /** Adding the next token keeps the tokens located and the rest of the scan on course. */
  lemma AddNext(all: Scanned, text: string, tokens: seq<Token>, from: nat,
                r: Result<Token, LexerError>, pos: nat)
    requires from <= |text| && pos <= |text| && Continues(all, tokens, Scan(text[from..]))
    requires IsNext(text, from, r, pos)
    ensures match r
            case Err(e) => e.position <= |text| && all == Err(ScanError(e.fault, |text| - e.position))
            case Ok(token) =>
              && LocatedAt(text, token) && from <= token.position
              && if token.lexeme == Eof then all == Ok(Lexemes(tokens + [token]))
                 else token.position < pos && Continues(all, tokens + [token], Scan(text[pos..]))
  {
    hide LexOne, SkipSpace;
    var left := text[from..];
    var t := SkipSpace(left);
    if t == "" {
      LexemesSnoc(tokens, r.value);
    } else if r.Ok? {
      assert t[LexOne(t).value.length..] == text[pos..];
      ContinuesNext(all, tokens, Scan(left), r.value, Scan(text[pos..]));
    }
  }

  class Lexer {
    const text: string
    var pos: nat

    constructor (text: string)
      ensures this.text == text && pos == 0
    {
      this.text := text;
      pos := 0;
    }

    method SkipWhitespace()
      requires pos <= |text|
      modifies this
      ensures old(pos) <= pos <= |text| && text[pos..] == SkipSpace(text[old(pos)..])
    {
      while pos < |text| && IsSpace(text[pos])
        invariant old(pos) <= pos <= |text|
        invariant SkipSpace(text[pos..]) == SkipSpace(text[old(pos)..])
      {
        assert text[pos..][1..] == text[pos + 1..];
        pos := pos + 1;
      }
    }

    method ReadString() returns (r: Result<string, LexerError>)
      requires pos < |text| && (text[pos] == '"' || text[pos] == '\'')
      modifies this
      ensures pos <= |text|
      ensures match EndFrom(text, old(pos) + 1, text[old(pos)])
              case Some(end) => r == Ok(Unescape(text[old(pos) + 1..end])) && pos == end + 1
              case None => r == Err(LexerError(UnterminatedString, old(pos)))
    {
      hide EndFrom, Unescape;
      var quote := text[pos];
      pos := pos + 1;
      var start := pos;
      while pos < |text|
        invariant start <= pos <= |text|
        invariant EndFrom(text, start, quote) == EndFrom(text, pos, quote)
      {
        EndFromStep(text, pos, quote);
        if text[pos] == BACKSLASH && pos + 1 < |text| {
          pos := pos + 2;
        } else if text[pos] == quote {
          var value := text[start..pos];
          pos := pos + 1;
          return Ok(Unescape(value));
        } else {
          pos := pos + 1;
        }
      }
      EndFromEnd(text, quote);
      return Err(LexerError(UnterminatedString, start - 1));
    }

    method ReadNumber() returns (l: Lexeme)
      requires pos < |text| && (IsDigit(text[pos]) || text[pos] == '-')
      modifies this
      ensures var s := text[old(pos)..];
              pos == old(pos) + NumberLength(s) && l == NumberLexeme(s[..NumberLength(s)])
    {
      hide NumberLexeme;
      var start := pos;
      var hasDot := false;
      if text[pos] == '-' {
        assert text[pos..][1..] == text[pos + 1..];
        pos := pos + 1;
      }
      while pos < |text|
        invariant start <= pos <= |text|
        invariant NumberLength(text[start..]) == pos - start + NumberRun(text[pos..], hasDot)
      {
        var c := text[pos];
        assert text[pos..][1..] == text[pos + 1..];
        if IsDigit(c) {
          pos := pos + 1;
        } else if c == '.' && !hasDot {
          hasDot := true;
          pos := pos + 1;
        } else {
          break;
        }
      }
      assert text[start..pos] == text[start..][..pos - start];
      l := NumberLexeme(text[start..pos]);
    }

    method ReadIdentifier() returns (word: string)
      requires pos <= |text|
      modifies this
      ensures var s := text[old(pos)..];
              pos == old(pos) + IdentRun(s) && word == s[..IdentRun(s)]
    {
      var start := pos;
      while pos < |text|
        invariant start <= pos <= |text|
        invariant IdentRun(text[start..]) == pos - start + IdentRun(text[pos..])
      {
        assert text[pos..][1..] == text[pos + 1..];
        if IsIdentChar(text[pos]) {
          pos := pos + 1;
        } else {
          break;
        }
      }
      word := text[start..pos];
    }

    method NextToken() returns (r: Result<Token, LexerError>)
      requires pos <= |text|
      modifies this
      ensures pos <= |text|
      ensures IsNext(text, old(pos), r, pos)
    {
      SkipWhitespace();
      if pos >= |text| {
        return Ok(Token(Eof, pos));
      }
      r := ReadToken();
    }

    /** The part of `next_token` after the white space. */
    method ReadToken() returns (r: Result<Token, LexerError>)
      requires pos < |text|
      modifies this
      ensures pos <= |text|
      ensures match LexOne(text[old(pos)..])
              case Err(fault) => r == Err(LexerError(fault, old(pos)))
              case Ok(one) => r == Ok(Token(one.lexeme, old(pos))) && pos == old(pos) + one.length
    {
      var start := pos;
      var c := text[pos];
      ghost var s := text[pos..];
      assert s[0] == c;
      if c == '"' || c == '\'' {
        LexOneString(text, pos);
        var value := ReadString();
        return if value.Ok? then Ok(Token(Str(value.value), start)) else Err(value.error);
      }
      if IsDigit(c) || (c == '-' && pos + 1 < |text| && IsDigit(text[pos + 1])) {
        var number := ReadNumber();
        return Ok(Token(number, start));
      }
      if pos + 1 < |text| {
        var next := text[pos + 1];
        assert s[1] == next;
        if c == '!' && next == '=' {
          pos := pos + 2;
          return Ok(Token(Op(Ne), start));
        }
        if c == '>' && next == '=' {
          pos := pos + 2;
          return Ok(Token(Op(Ge), start));
        }
        if c == '<' && next == '=' {
          pos := pos + 2;
          return Ok(Token(Op(Le), start));
        }
      }
      var single := SingleCharacter(c);
      if single.Some? {
        pos := pos + 1;
        return Ok(Token(single.value, start));
      }
      if IsIdentStart(c) {
        var word := ReadIdentifier();
        return Ok(Token(WordLexeme(word), start));
      }
      return Err(LexerError(UnexpectedCharacter, pos));
    }

    /** Reads the rest of the text: the tokens of `Scan` with their positions, or its first fault. */
    method Tokenize() returns (r: Result<seq<Token>, LexerError>)
      requires pos <= |text|
      modifies this
      ensures match Scan(text[old(pos)..])
              case Ok(ls) => r.Ok? && Lexemes(r.value) == ls && Located(text, r.value)
              case Err(e) => r == Err(LexerError(e.fault, |text| - e.left))
    {
      hide SkipSpace, LexOne, Scan;
      var tokens: seq<Token> := [];
      ghost var all := Scan(text[pos..]);
      assert Continues(all, tokens, Scan(text[pos..])) by {
        assert Lexemes(tokens) == [] && (all.Ok? ==> [] + all.value == all.value);
      }
      while true
        invariant pos <= |text| && Located(text, tokens)
        invariant forall i :: 0 <= i < |tokens| ==> tokens[i].position < pos
        invariant old(pos) <= pos
        invariant Continues(all, tokens, Scan(text[pos..]))
        decreases |text| - pos
      {
        ghost var from := pos;
        var token := NextToken();
        AddNext(all, text, tokens, from, token, pos);
        if token.Err? {
          return Err(token.error);
        }
        tokens := tokens + [token.value];
        if token.value.lexeme == Eof {
          break;
        }
      }
      return Ok(tokens);
    }
  }
}
