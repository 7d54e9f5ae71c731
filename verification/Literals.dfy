/** String literals and delimited identifiers, with the quote doubled or, in
    MySQL, escaped with a backslash. */
module Literals {
  import opened Wrappers
  import opened SqlSplit

  /** Every quote doubled, as in section 5.3 of ISO/IEC 9075-2 (SQL/Foundation). */
  function Doubled(s: string, q: char): string {
    if s == "" then "" else (if s[0] == q then [q, q] else [s[0]]) + Doubled(s[1..], q)
  }

  function QuoteWith(s: string, q: char): string {
    [q] + Doubled(s, q) + [q]
  }

  /** A standard string literal. */
  function QuoteString(s: string): string {
    QuoteWith(s, '\'')
  }

  /** The text a quoted text stands for: doubled quotes are read as one. */
  function Undoubled(t: string, q: char): string {
    if t == "" then ""
    else if t[0] == q && |t| > 1 && t[1] == q then [q] + Undoubled(t[2..], q)
    else [t[0]] + Undoubled(t[1..], q)
  }

  lemma {:induction false} UndoubledDoubled(s: string, q: char)
    ensures Undoubled(Doubled(s, q), q) == s
  {
    if s != "" {
      var d := Doubled(s[1..], q);
      UndoubledDoubled(s[1..], q);
      if s[0] == q {
        assert ([q, q] + d)[2..] == d;
      } else {
        assert ([s[0]] + d)[1..] == d;
      }
      assert [s[0]] + s[1..] == s;
    }
  }

  lemma {:induction false} ScanDoubled(s: string, q: char, o: SplitOptions, rest: string)
    requires (q == '\'' ==> !o.backslashEscapes) && (rest == "" || rest[0] != q)
    ensures ScanQuote(Doubled(s, q) + ([q] + rest), q, o) == |Doubled(s, q)|
  {
    var tail := [q] + rest;
    if s == "" {
      assert "" + tail == tail;
    } else {
      var d := Doubled(s[1..], q);
      ScanDoubled(s[1..], q, o, rest);
      if s[0] == q {
        assert ([q, q] + d + tail)[2..] == d + tail;
      } else {
        assert ([s[0]] + d + tail)[1..] == d + tail;
      }
    }
  }

  /** Text quoted by doubling is scanned as one unit, whatever is in it. */
  lemma QuotedIsOneUnit(s: string, q: char, o: SplitOptions, rest: string)
    requires IsQuote(q, o) && (q == '\'' ==> !o.backslashEscapes) && (rest == "" || rest[0] != q)
    ensures Unit(QuoteWith(s, q) + rest, o) == |QuoteWith(s, q)|
    ensures UnitClosed(QuoteWith(s, q) + rest, o)
  {
    ScanDoubled(s, q, o, rest);
    assert (QuoteWith(s, q) + rest)[1..] == Doubled(s, q) + ([q] + rest);
  }

  // --- MySQL ---

  /** How a character is written inside a MySQL literal. */
  function Escaped(c: char): string {
    if c == '\\' then "\\\\"
    else if c == '\'' then "\\'"
    else if c == '"' then "\\\""
    else if c == '\0' then "\\0"
    else if c == '\n' then "\\n"
    else if c == '\r' then "\\r"
    else if c == '\U{001A}' then "\\Z"
    else [c]
  }

  function EscapedAll(s: string): string {
    if s == "" then "" else Escaped(s[0]) + EscapedAll(s[1..])
  }

  function MySqlQuoteString(s: string): string {
    "'" + EscapedAll(s) + "'"
  }

  /** The character a backslash and c stand for. */
  function Unescape(c: char): char {
    if c == '0' then '\0' else if c == 'n' then '\n' else if c == 'r' then '\r' else if c == 'Z' then '\U{001A}' else c
  }

  function UnescapedAll(t: string): string {
    if t == "" then ""
    else if t[0] == '\\' && |t| > 1 then [Unescape(t[1])] + UnescapedAll(t[2..])
    else [t[0]] + UnescapedAll(t[1..])
  }

  lemma {:induction false} UnescapedEscaped(s: string)
    ensures UnescapedAll(EscapedAll(s)) == s
  {
    if s != "" {
      UnescapedEscaped(s[1..]);
      var e, d := Escaped(s[0]), EscapedAll(s[1..]);
      assert (e + d)[|e|..] == d && [s[0]] + s[1..] == s;
      assert |e| == 2 ==> e[0] == '\\' && Unescape(e[1]) == s[0];
    }
  }

  lemma {:induction false} ScanEscaped(s: string, o: SplitOptions, rest: string)
    requires o.backslashEscapes && (rest == "" || rest[0] != '\'')
    ensures ScanQuote(EscapedAll(s) + ("'" + rest), '\'', o) == |EscapedAll(s)|
  {
    var tail := "'" + rest;
    if s == "" {
      assert "" + tail == tail;
    } else {
      ScanEscaped(s[1..], o, rest);
      var e, d := Escaped(s[0]), EscapedAll(s[1..]);
      assert (e + d + tail)[|e|..] == d + tail;
      assert |e| == 2 ==> e[0] == '\\';
    }
  }

  /** A MySQL literal is scanned as one unit, whatever is in it. */
  lemma MySqlLiteralIsOneUnit(s: string, o: SplitOptions, rest: string)
    requires o.backslashEscapes && (rest == "" || rest[0] != '\'')
    ensures Unit(MySqlQuoteString(s) + rest, o) == |MySqlQuoteString(s)|
    ensures UnitClosed(MySqlQuoteString(s) + rest, o)
  {
    ScanEscaped(s, o, rest);
    assert (MySqlQuoteString(s) + rest)[1..] == EscapedAll(s) + ("'" + rest);
  }

  // --- Doubled quotes where backslashes escape ---

  /** Read in pairs with what follows them, no backslash stands before a quote or at
      the end: each run of backslashes there has an even length. */
  predicate NoneSwallowed(s: string) {
    if s == "" then true
    else if s[0] == '\\' then |s| > 1 && s[1] != '\'' && NoneSwallowed(s[2..])
    else NoneSwallowed(s[1..])
  }

  /** With a quote too many before it, a doubled text does not end where it should. */
  lemma {:induction false} QuoteTooMany(s: string, o: SplitOptions, rest: string)
    ensures ScanQuote("'" + Doubled(s, '\'') + ("'" + rest), '\'', o) != |Doubled(s, '\'')| + 1
  {
    var d, tail := Doubled(s, '\''), "'" + rest;
    var t := "'" + d + tail;
    if s == "" {
      assert t[1] == '\'';
    } else if s[0] == '\'' {
      QuoteTooMany(s[1..], o, rest);
      var d1 := Doubled(s[1..], '\'');
      assert d == "''" + d1;
      assert t[2..] == "'" + d1 + tail;
    } else {
      assert t[1] == s[0];
    }
  }

  lemma {:induction false} ScanDoubledEscaping(s: string, o: SplitOptions, rest: string)
    requires o.backslashEscapes && (rest == "" || rest[0] != '\'')
    ensures ScanQuote(Doubled(s, '\'') + ("'" + rest), '\'', o) == |Doubled(s, '\'')| <==> NoneSwallowed(s)
    decreases |s|
  {
    var d, tail := Doubled(s, '\''), "'" + rest;
    if s == "" {
      assert "" + tail == tail;
    } else if s[0] == '\\' {
      AfterBackslash(s, o, rest);
      if |s| > 1 && s[1] != '\'' {
        ScanDoubledEscaping(s[2..], o, rest);
      }
    } else {
      var d1 := Doubled(s[1..], '\'');
      ScanDoubledEscaping(s[1..], o, rest);
      if s[0] == '\'' {
        assert (d + tail)[2..] == d1 + tail;
      } else {
        assert (d + tail)[1..] == d1 + tail;
      }
    }
  }

  /** A backslash takes the next character with it; half of a doubled quote, if it is
      one. */
  lemma AfterBackslash(s: string, o: SplitOptions, rest: string)
    requires o.backslashEscapes && s != "" && s[0] == '\\'
    ensures |s| > 1 && s[1] != '\'' ==>
      && |Doubled(s, '\'')| == 2 + |Doubled(s[2..], '\'')|
      && ScanQuote(Doubled(s, '\'') + ("'" + rest), '\'', o) == 2
        + ScanQuote(Doubled(s[2..], '\'') + ("'" + rest), '\'', o)
    ensures |s| == 1 || s[1] == '\'' ==> ScanQuote(Doubled(s, '\'') + ("'" + rest), '\'', o) != |Doubled(s, '\'')|
  {
    var d, tail := Doubled(s, '\''), "'" + rest;
    var d1 := Doubled(s[1..], '\'');
    assert d == "\\" + d1;
    if |s| > 1 {
      var d2 := Doubled(s[2..], '\'');
      assert s[1..][1..] == s[2..] && s[1..][0] == s[1];
      if s[1] == '\'' {
        assert d1 == "''" + d2;
        assert (d + tail)[2..] == "'" + d2 + tail;
        QuoteTooMany(s[2..], o, rest);
      } else {
        assert d1 == [s[1]] + d2;
        assert (d + tail)[2..] == d2 + tail;
      }
    } else {
      assert s[1..] == "" && d == "\\";
    }
  }

  /** Where backslashes escape, a literal with doubled quotes is one unit exactly when
      no backslash in it swallows a quote or the end. */
  lemma DoubledWhereEscaping(s: string, o: SplitOptions, rest: string)
    requires o.backslashEscapes && IsQuote('\'', o) && (rest == "" || rest[0] != '\'')
    ensures UnitClosed(QuoteString(s) + rest, o) && Unit(QuoteString(s) + rest, o) == |QuoteString(s)| <==>
      NoneSwallowed(s)
  {
    ScanDoubledEscaping(s, o, rest);
    assert (QuoteString(s) + rest)[1..] == Doubled(s, '\'') + ("'" + rest);
  }

  /** One backslash is enough. */
  lemma WrongDialect(o: SplitOptions)
    requires o.backslashEscapes
    ensures Unit(QuoteString("\\") + ";" + QuoteString("x"), o) != |QuoteString("\\")| && !NoneSwallowed("\\")
  {
    var s := QuoteString("\\") + ";" + QuoteString("x");
    assert "\\"[1..] == "" && "x"[1..] == "" && s == "'\\';'x'";
    var t := s[1..];
    assert t == "\\';'x'" && t[2..] == ";'x'" && t[2..][1..] == "'x'";
  }

  // --- Statements with literals ---

  /** A literal, or another unit that ends before b, between self-contained texts makes
      self-contained text. */
  lemma {:induction false} LiteralKeepsSelfContained(a: string, lit: string, b: string, o: SplitOptions)
    requires SelfContained(a, o) && SelfContained(b, o)
    requires lit != "" && lit[0] != ';' && Separate(a, lit)
    requires UnitClosed(lit + b, o) && Unit(lit + b, o) == |lit|
    ensures SelfContained(a + (lit + b), o)
    decreases |a|
  {
    var rest := lit + b;
    if a == "" {
      assert a + rest == rest && rest[|lit|..] == b;
    } else {
      assert rest[0] == lit[0];
      SelfContainedStep(a, rest, o);
      SelfContainedStep(a, lit, o);
      UnitExtends(a, o, rest);
      ClosedExtends(a, o, rest);
      var n := Unit(a, o);
      hide Unit, UnitClosed, Separate;
      DropConcat(a, rest, n);
      LiteralKeepsSelfContained(a[n..], lit, b, o);
    }
  }

  /** The same for literals: one that its own dialect quoted fits anywhere, and one with
      doubled quotes fits where backslashes escape as well if none of them swallows
      anything. */
  lemma LiteralsFit(a: string, s: string, b: string, o: SplitOptions)
    requires SelfContained(a, o) && SelfContained(b, o)
    requires (a == "" || a[|a| - 1] != '\'') && (b == "" || b[0] != '\'')
    ensures !o.backslashEscapes || NoneSwallowed(s) ==> SelfContained(a + (QuoteString(s) + b), o)
    ensures o.backslashEscapes ==> SelfContained(a + (MySqlQuoteString(s) + b), o)
  {
    hide SelfContained, Unit, UnitClosed, Doubled, EscapedAll, NoneSwallowed;
    if !o.backslashEscapes {
      QuotedIsOneUnit(s, '\'', o, b);
    } else {
      DoubledWhereEscaping(s, o, b);
      MySqlLiteralIsOneUnit(s, o, b);
      LiteralKeepsSelfContained(a, MySqlQuoteString(s), b, o);
    }
    if !o.backslashEscapes || NoneSwallowed(s) {
      LiteralKeepsSelfContained(a, QuoteString(s), b, o);
    }
  }

  lemma DropConcat(s: string, rest: string, n: nat)
    requires n <= |s|
    ensures (s + rest)[n..] == s[n..] + rest && (s + rest)[..n] == s[..n]
  {}

  lemma QuoteClosedExtends(s: string, o: SplitOptions, rest: string)
    requires s != "" && IsQuote(s[0], o) && UnitClosed(s, o) && Separate(s, rest)
    ensures UnitClosed(s + rest, o)
  {
    DropConcat(s, rest, 1);
    ScanExtends(s[1..], s[0], o, "");
    assert s[1 + ScanQuote(s[1..], s[0], o)] == s[0];
    ScanExtends(s[1..], s[0], o, rest);
  }

  lemma CommentClosedExtends(s: string, o: SplitOptions, rest: string)
    requires s != "" && !IsQuote(s[0], o) && (StartsWith(s, "--") || StartsWith(s, "/*")) && UnitClosed(s, o)
    ensures UnitClosed(s + rest, o)
  {
    DropConcat(s, rest, 2);
    if StartsWith(s, "--") {
      LineExtends(s, rest);
    } else {
      FindExtends(s[2..], "*/", rest);
    }
  }

  lemma ClosedExtends(s: string, o: SplitOptions, rest: string)
    requires s != "" && UnitClosed(s, o) && Separate(s, rest)
    ensures UnitClosed(s + rest, o)
  {
    if IsQuote(s[0], o) {
      QuoteClosedExtends(s, o, rest);
    } else if StartsWith(s, "--") || StartsWith(s, "/*") {
      CommentClosedExtends(s, o, rest);
    } else {
      NoCommentStarts(s, o, rest);
      if s[0] == '$' {
        DollarClosedExtends(s, rest);
      }
    }
  }

  lemma DollarClosedExtends(s: string, rest: string)
    requires s != "" && s[0] == '$'
    requires rest == "" || (!IsTagChar(rest[0]) && (rest[0] != '$' || !EndsInTag(s)))
    ensures DollarClosed(s) ==> DollarClosed(s + rest)
  {
    TagExtends(s, rest);
    var tag := OpeningTag(s);
    if tag.Some? && DollarClosed(s) {
      DropConcat(s, rest, |tag.value|);
      FindExtends(s[|tag.value|..], tag.value, rest);
    }
  }
}
