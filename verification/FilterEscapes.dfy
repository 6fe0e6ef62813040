/**
  Quoted strings of the filter language: where a string literal ends, and what the chain of
  replacements in `Lexer._read_string` makes of the text between the quotes.
 */
module FilterEscapes {
  import opened Results

  const BACKSLASH: char := '\\'

  // ----- finding the closing quote

  /** The offset of the closing quote in `s`, the text after the opening quote. */
  function StringEnd(s: string, quote: char): (end: Option<nat>)
    ensures end.Some? ==> end.value < |s| && s[end.value] == quote
  {
    if s == "" then None
    else if s[0] == BACKSLASH && 1 < |s| then
      var end := StringEnd(s[2..], quote);
      if end.Some? then Some(2 + end.value) else None
    else if s[0] == quote then Some(0)
    else
      var end := StringEnd(s[1..], quote);
      if end.Some? then Some(1 + end.value) else None
  }

  // ----- Python's str.replace for a pattern of two characters

  function Replace(s: string, a: char, b: char, c: char): string {
    if |s| < 2 then s
    else if s[0] == a && s[1] == b then [c] + Replace(s[2..], a, b, c)
    else [s[0]] + Replace(s[1..], a, b, c)
  }

  /** What the lexer stores for the raw text between the quotes: five replacements, in order. */
  function Unescape(raw: string): string {
    var s1 := Replace(raw, BACKSLASH, 'n', '\n');
    var s2 := Replace(s1, BACKSLASH, 't', '\t');
    var s3 := Replace(s2, BACKSLASH, '"', '"');
    var s4 := Replace(s3, BACKSLASH, '\'', '\'');
    Replace(s4, BACKSLASH, BACKSLASH, BACKSLASH)
  }

  // ----- the values a literal can denote

  ghost predicate HasPair(s: string, a: char, b: char) {
    exists i {:trigger s[i]} :: 0 <= i && i + 1 < |s| && s[i] == a && s[i + 1] == b
  }

  /** No backslash stands directly before an `n` or a `t`. */
  ghost predicate Writable(v: string) {
    !HasPair(v, BACKSLASH, 'n') && !HasPair(v, BACKSLASH, 't')
  }

  /** Puts a backslash before every character of `v` that is in `escaped`. */
  function Enc(v: string, escaped: set<char>): string {
    if v == "" then ""
    else if v[0] in escaped then [BACKSLASH, v[0]] + Enc(v[1..], escaped)
    else [v[0]] + Enc(v[1..], escaped)
  }

  const SPECIAL: set<char> := {BACKSLASH, '"', '\''}

  /** The text to write between quotes, of either kind, for the value `v`. */
  function Escape(v: string): string {
    Enc(v, SPECIAL)
  }

  lemma HasPairTail(s: string, a: char, b: char)
    requires s != "" && !HasPair(s, a, b)
    ensures !HasPair(s[1..], a, b)
    ensures |s| >= 2 ==> !(s[0] == a && s[1] == b)
  {
    forall i | 0 <= i && i + 1 < |s[1..]| ensures !(s[1..][i] == a && s[1..][i + 1] == b) {
      assert !(s[i + 1] == a && s[(i + 1) + 1] == b);
    }
    if |s| >= 2 {
      assert !(s[0] == a && s[0 + 1] == b);
    }
  }

  lemma HasPairCons(x: char, s: string, a: char, b: char)
    requires !HasPair(s, a, b)
    requires s != "" ==> !(x == a && s[0] == b)
    ensures !HasPair([x] + s, a, b)
  {
    var t := [x] + s;
    forall i | 0 <= i && i + 1 < |t| ensures !(t[i] == a && t[i + 1] == b) {
      if i > 0 {
        assert !(s[i - 1] == a && s[(i - 1) + 1] == b);
      }
    }
  }

  /** A pattern that does not occur is not replaced. */
  lemma {:induction false} ReplaceAbsent(s: string, a: char, b: char, c: char)
    requires !HasPair(s, a, b)
    ensures Replace(s, a, b, c) == s
  {
    if |s| >= 2 {
      HasPairTail(s, a, b);
      ReplaceAbsent(s[1..], a, b, c);
    }
  }

  lemma EncHead(v: string, escaped: set<char>)
    requires v != ""
    ensures Enc(v, escaped) != ""
    ensures Enc(v, escaped)[0] == if v[0] in escaped then BACKSLASH else v[0]
  {
  }

  /** Encoding brings no new pair of a backslash and an unescaped letter. */
  lemma {:induction false} EncKeepsPairAbsent(v: string, escaped: set<char>, b: char)
    requires BACKSLASH in escaped && b !in escaped && !HasPair(v, BACKSLASH, b)
    ensures !HasPair(Enc(v, escaped), BACKSLASH, b)
  {
    if v != "" {
      HasPairTail(v, BACKSLASH, b);
      EncKeepsPairAbsent(v[1..], escaped, b);
      var rest := Enc(v[1..], escaped);
      if v[1..] != "" {
        EncHead(v[1..], escaped);
      }
      HasPairCons(v[0], rest, BACKSLASH, b);
      if v[0] in escaped {
        HasPairCons(BACKSLASH, [v[0]] + rest, BACKSLASH, b);
        assert [BACKSLASH, v[0]] + rest == [BACKSLASH] + ([v[0]] + rest);
      }
    }
  }

  /** Replacing an escaped quote takes that quote, and only it, out of the encoding. */
  lemma {:induction false} ReplaceUnescapesOne(v: string, escaped: set<char>, b: char)
    requires BACKSLASH in escaped && b in escaped && b != BACKSLASH
    ensures Replace(Enc(v, escaped), BACKSLASH, b, b) == Enc(v, escaped - {b})
  {
    if v != "" {
      var rest := Enc(v[1..], escaped);
      var s := Enc(v, escaped);
      ReplaceUnescapesOne(v[1..], escaped, b);
      if v[1..] != "" {
        EncHead(v[1..], escaped);
      }
      if v[0] == b {
        assert s[2..] == rest;
      } else if v[0] in escaped {
        assert s[1..] == [v[0]] + rest && s[1..][1..] == rest;
        assert Replace(s[1..], BACKSLASH, b, b) == [v[0]] + Replace(rest, BACKSLASH, b, b);
      } else {
        assert s[1..] == rest;
        if |s| < 2 {
          assert v[1..] == "";
        }
      }
    }
  }

  lemma {:induction false} ReplaceHalvesBackslashes(v: string)
    ensures Replace(Enc(v, {BACKSLASH}), BACKSLASH, BACKSLASH, BACKSLASH) == v
  {
    if v != "" {
      var s := Enc(v, {BACKSLASH});
      ReplaceHalvesBackslashes(v[1..]);
      if v[0] == BACKSLASH {
        assert s[2..] == Enc(v[1..], {BACKSLASH});
      } else {
        assert s[1..] == Enc(v[1..], {BACKSLASH});
        if |s| < 2 {
          assert v[1..] == "";
        }
      }
    }
  }

  /** Escaping and reading back gives the value again, for every writable value. */
  lemma UnescapeEscape(v: string)
    requires Writable(v)
    ensures Unescape(Escape(v)) == v
  {
    var e := Escape(v);
    EncKeepsPairAbsent(v, SPECIAL, 'n');
    ReplaceAbsent(e, BACKSLASH, 'n', '\n');
    EncKeepsPairAbsent(v, SPECIAL, 't');
    ReplaceAbsent(e, BACKSLASH, 't', '\t');
    ReplaceUnescapesOne(v, SPECIAL, '"');
    assert SPECIAL - {'"'} == {BACKSLASH, '\''};
    ReplaceUnescapesOne(v, {BACKSLASH, '\''}, '\'');
    assert {BACKSLASH, '\''} - {'\''} == {BACKSLASH};
    ReplaceHalvesBackslashes(v);
  }

  lemma ReplaceHead(s: string, a: char, b: char, c: char)
    requires s != ""
    ensures Replace(s, a, b, c) != ""
    ensures Replace(s, a, b, c)[0] == s[0] || (Replace(s, a, b, c)[0] == c && |s| >= 2 && s[0] == a && s[1] == b)
  {
  }

  /** A pair that is absent stays absent when other pairs are replaced. */
  lemma {:induction false} ReplaceKeepsPairAbsent(s: string, a: char, b: char, c: char, y: char)
    requires !HasPair(s, BACKSLASH, y) && a == BACKSLASH && y != BACKSLASH && c != y
    requires c == BACKSLASH ==> b == BACKSLASH
    ensures !HasPair(Replace(s, a, b, c), BACKSLASH, y)
  {
    if |s| >= 2 {
      HasPairTail(s, BACKSLASH, y);
      var k := if s[0] == a && s[1] == b then 2 else 1;
      if k == 2 {
        HasPairTail(s[1..], BACKSLASH, y);
        assert s[1..][1..] == s[2..];
      }
      ReplaceKeepsPairAbsent(s[k..], a, b, c, y);
      if s[k..] != "" {
        ReplaceHead(s[k..], a, b, c);
        assert k == 2 && |s| > 2 ==> s[1..][1] == s[2];
      }
      HasPairCons(if k == 2 then c else s[0], Replace(s[k..], a, b, c), BACKSLASH, y);
    }
  }

  /** After replacing a pair, no occurrence of it is left. */
  lemma {:induction false} ReplaceRemovesPair(s: string, b: char, c: char)
    requires b != BACKSLASH && c != BACKSLASH && c != b
    ensures !HasPair(Replace(s, BACKSLASH, b, c), BACKSLASH, b)
  {
    if |s| >= 2 {
      var k := if s[0] == BACKSLASH && s[1] == b then 2 else 1;
      ReplaceRemovesPair(s[k..], b, c);
      if s[k..] != "" {
        ReplaceHead(s[k..], BACKSLASH, b, c);
      }
      HasPairCons(if k == 2 then c else s[0], Replace(s[k..], BACKSLASH, b, c), BACKSLASH, b);
    }
  }

  /** Whatever stands between the quotes, the value read is writable. */
  lemma UnescapeIsWritable(raw: string)
    ensures Writable(Unescape(raw))
  {
    var s1 := Replace(raw, BACKSLASH, 'n', '\n');
    var s2 := Replace(s1, BACKSLASH, 't', '\t');
    var s3 := Replace(s2, BACKSLASH, '"', '"');
    var s4 := Replace(s3, BACKSLASH, '\'', '\'');
    ReplaceRemovesPair(raw, 'n', '\n');
    ReplaceKeepsPairAbsent(s1, BACKSLASH, 't', '\t', 'n');
    ReplaceRemovesPair(s1, 't', '\t');
    ReplaceKeepsPairAbsent(s2, BACKSLASH, '"', '"', 'n');
    ReplaceKeepsPairAbsent(s2, BACKSLASH, '"', '"', 't');
    ReplaceKeepsPairAbsent(s3, BACKSLASH, '\'', '\'', 'n');
    ReplaceKeepsPairAbsent(s3, BACKSLASH, '\'', '\'', 't');
    ReplaceKeepsPairAbsent(s4, BACKSLASH, BACKSLASH, BACKSLASH, 'n');
    ReplaceKeepsPairAbsent(s4, BACKSLASH, BACKSLASH, BACKSLASH, 't');
  }

  /** The text between the quotes ends exactly where the closing quote was put. */
  lemma {:induction false} StringEndOfEscape(v: string, quote: char, after: string)
    requires quote == '"' || quote == '\''
    ensures StringEnd(Escape(v) + [quote] + after, quote) == Some(|Escape(v)|)
  {
    var s := Escape(v) + [quote] + after;
    if v != "" {
      var rest := Escape(v[1..]) + [quote] + after;
      StringEndOfEscape(v[1..], quote, after);
      if v[0] in SPECIAL {
        assert s[2..] == rest;
      } else {
        assert s[1..] == rest;
      }
    }
  }

  /** A literal that ends inside `s` ends at the same place whatever follows `s`. */
  lemma {:induction false} StringEndExtends(s: string, quote: char, after: string)
    requires quote != BACKSLASH && StringEnd(s, quote).Some?
    ensures StringEnd(s + after, quote) == StringEnd(s, quote)
  {
    var t := s + after;
    if s[0] == BACKSLASH && 1 < |s| {
      assert t[2..] == s[2..] + after;
      StringEndExtends(s[2..], quote, after);
    } else if s[0] != quote {
      assert t[1..] == s[1..] + after;
      StringEndExtends(s[1..], quote, after);
    }
  }

  /**
    The exact domain of string literals: a value can be written, between quotes of either kind,
    if and only if no backslash in it stands before an `n` or a `t`.
   */
  lemma LiteralDomain(v: string, quote: char)
    requires quote == '"' || quote == '\''
    ensures Writable(v) <==>
            exists raw :: StringEnd(raw + [quote], quote) == Some(|raw|) && Unescape(raw) == v
  {
    if Writable(v) {
      var raw := Escape(v);
      StringEndOfEscape(v, quote, "");
      assert raw + [quote] + "" == raw + [quote];
      UnescapeEscape(v);
      assert StringEnd(raw + [quote], quote) == Some(|raw|) && Unescape(raw) == v;
    }
    forall raw | Unescape(raw) == v ensures Writable(v) {
      UnescapeIsWritable(raw);
    }
  }

  /**
    A Windows path such as `C:\temp` has no literal, and doubling its backslash does not help:
    the two characters written as `\\t` read back as a backslash and a tab.
   */
  lemma PathWithoutLiteral()
    ensures !Writable("C:\\temp")
    ensures Unescape("\\\\t") == "\\\t"
  {
    var v := "C:\\temp";
    assert v[2] == BACKSLASH && v[2 + 1] == 't';
    var raw, read := "\\\\t", "\\\t";
    assert raw[1..] == "\\t" && raw[1..][1..] == "t" && read[1..] == "\t";
    ReplaceAbsent(raw, BACKSLASH, 'n', '\n');
    assert Replace(raw[1..], BACKSLASH, 't', '\t') == "\t" + Replace(raw[1..][2..], BACKSLASH, 't', '\t');
    assert Replace(raw, BACKSLASH, 't', '\t') == read;
    ReplaceAbsent(read, BACKSLASH, '"', '"');
    ReplaceAbsent(read, BACKSLASH, '\'', '\'');
    ReplaceAbsent(read, BACKSLASH, BACKSLASH, BACKSLASH);
  }
}
