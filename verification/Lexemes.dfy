/** What the tokenizer makes of any text: comments and blanks are passed over, a quoted
    run is one token that says what was quoted, words and punctuation are taken as they
    are. */
module Lexemes {
  import opened Wrappers
  import opened SqlSplit
  import opened Literals
  import opened Blocks
  import opened Tokens

  lemma StepOver(head: string, rest: string, token: Option<Token>)
    requires head != "" && NextStep(head + rest) == Step(token, |head|)
    ensures TokensOf(head + rest) == Listed(token) + TokensOf(rest)
  {
    hide NextStep;
    assert (head + rest)[|head|..] == rest;
  }

  /** A comment between slashes and stars says nothing. */
  lemma CommentSkipped(body: string, rest: string)
    requires EndsFirstAt(body, "*/")
    ensures TokensOf("/*" + body + "*/" + rest) == TokensOf(rest)
  {
    var head := "/*" + body + "*/";
    EndFound(body, "*/", rest);
    assert (head + rest)[..2] == "/*" && (head + rest)[2..] == body + ("*/" + rest);
    assert NextStep(head + rest) == Step(None, |head|);
    StepOver(head, rest, None);
    assert [] + TokensOf(rest) == TokensOf(rest);
  }

  /** Nor does one up to the end of its line. */
  lemma LineCommentSkipped(line: string, rest: string)
    requires '\n' !in line
    ensures TokensOf("--" + line + "\n" + rest) == TokensOf(rest)
  {
    var head, tail := "--" + line, "\n" + rest;
    assert head + tail == "--" + line + "\n" + rest;
    LineIs(head, tail);
    assert (head + tail)[..2] == "--";
    StepOver(head, tail, None);
    StepOver("\n", rest, None);
    assert [] + TokensOf(tail) == TokensOf(tail) && [] + TokensOf(rest) == TokensOf(rest);
  }

  /** One more character of a quoted text. */
  lemma UnquoteOne(c: char, q: char, t: string)
    ensures var s := (if c == q then [q, q] else [c]) + t;
      Unquote(s, q, true) == Run([c] + Unquote(t, q, true).text, (if c == q then 2 else 1) + Unquote(t, q, true).used)
  {
    if c == q {
      assert ([q, q] + t)[2..] == t && ([q, q] + t)[1] == q;
    } else {
      assert ([c] + t)[1..] == t;
    }
  }

  lemma UnquoteLast(q: char, rest: string)
    requires rest == "" || rest[0] != q
    ensures Unquote([q] + rest, q, true) == Run("", 1)
  {
    var s := [q] + rest;
    assert |s| > 1 ==> s[1] == rest[0];
  }

  lemma {:induction false} UnquoteDoubled(s: string, q: char, rest: string)
    requires rest == "" || rest[0] != q
    ensures Unquote(Doubled(s, q) + ([q] + rest), q, true) == Run(s, |Doubled(s, q)| + 1)
    decreases |s|
  {
    hide Unquote;
    var tail := [q] + rest;
    if s == "" {
      assert "" + tail == tail;
      UnquoteLast(q, rest);
    } else {
      var d, more := Doubled(s[1..], q), if s[0] == q then [q, q] else [s[0]];
      UnquoteDoubled(s[1..], q, rest);
      UnquoteOne(s[0], q, d + tail);
      assert more + d + tail == more + (d + tail) && [s[0]] + s[1..] == s;
    }
  }

  lemma QuoteParts(d: string, q: char, rest: string)
    ensures var t := [q] + d + [q] + rest; t[0] == q && t[1..] == d + ([q] + rest)
  {}

  /** A quoted run says the text that was quoted, doubled quotes read as one. */
  lemma QuotedToken(s: string, q: char, rest: string)
    requires IsQuoteChar(q) && (rest == "" || rest[0] != q)
    ensures TokensOf(QuoteWith(s, q) + rest) == [Token(s, if q == '\'' then Text else Quoted)] + TokensOf(rest)
  {
    hide Unquote, Doubled, NextStep;
    UnquoteDoubled(s, q, rest);
    QuoteParts(Doubled(s, q), q, rest);
    var head := QuoteWith(s, q);
    QuoteStarts(head + rest, q);
    StepOver(head, rest, Some(Token(s, if q == '\'' then Text else Quoted)));
  }

  lemma QuoteStarts(s: string, q: char)
    requires s != "" && s[0] == q && IsQuoteChar(q)
    ensures NextStep(s) == QuotedStep(s, q, true, if q == '\'' then Text else Quoted)
  {
    hide QuotedStep;
  }

  lemma {:induction false} UnquoteBracket(s: string, rest: string)
    requires ']' !in s
    ensures Unquote(s + ("]" + rest), ']', false) == Run(s, |s| + 1)
    decreases |s|
  {
    var tail := "]" + rest;
    if s == "" {
      assert "" + tail == tail;
    } else {
      UnquoteBracket(s[1..], rest);
      assert (s + tail)[1..] == s[1..] + tail && [s[0]] + s[1..] == s;
    }
  }

  /** So does a name in brackets, which nothing escapes. */
  lemma BracketToken(s: string, rest: string)
    requires ']' !in s
    ensures TokensOf("[" + s + "]" + rest) == [Token(s, Quoted)] + TokensOf(rest)
  {
    var head := "[" + s + "]";
    UnquoteBracket(s, rest);
    assert (head + rest)[1..] == s + ("]" + rest) && (head + rest)[0] == '[';
    hide Unquote;
    StepOver(head, rest, Some(Token(s, Quoted)));
  }

  lemma {:induction false} RunOfWord(w: string, rest: string)
    requires (forall i :: 0 <= i < |w| ==> IsWordChar(w[i])) && (rest == "" || !IsWordChar(rest[0]))
    ensures WordLength(w + rest) == |w|
    decreases |w|
  {
    if w == "" {
      assert w + rest == rest;
    } else {
      assert (w + rest)[1..] == w[1..] + rest;
      RunOfWord(w[1..], rest);
    }
  }

  /** A word is a token of its own. */
  lemma WordToken(w: string, rest: string)
    requires w != "" && !IsDigit(w[0]) && (forall i :: 0 <= i < |w| ==> IsWordChar(w[i]))
    requires rest == "" || !IsWordChar(rest[0])
    ensures TokensOf(w + rest) == [Token(w, Word)] + TokensOf(rest)
  {
    RunOfWord(w, rest);
    assert (w + rest)[..|w|] == w && (w + rest)[0] == w[0];
    assert IsWordChar(w[0]);
    hide WordLength;
    StepOver(w, rest, Some(Token(w, Word)));
  }

  /** A blank says nothing; a parenthesis or comma is a token of its own. */
  lemma BlankOrPunct(c: char, rest: string)
    ensures IsBlank(c) ==> TokensOf([c] + rest) == TokensOf(rest)
    ensures c == '(' || c == ')' || c == ',' ==> TokensOf([c] + rest) == [Token([c], Punct)] + TokensOf(rest)
  {
    var s := [c] + rest;
    assert s[0] == c && s[1..] == rest;
    if IsBlank(c) {
      StepOver([c], rest, None);
      assert [] + TokensOf(rest) == TokensOf(rest);
    } else if c == '(' || c == ')' || c == ',' {
      StepOver([c], rest, Some(Token([c], Punct)));
    }
  }

  lemma {:induction false} RunOfOthers(w: string, rest: string)
    requires (forall i :: 0 <= i < |w| ==> !EndsOther(w[i])) && (rest == "" || EndsOther(rest[0]))
    ensures OtherLength(w + rest) == |w|
    decreases |w|
  {
    if w == "" {
      assert w + rest == rest;
    } else {
      assert (w + rest)[1..] == w[1..] + rest;
      RunOfOthers(w[1..], rest);
    }
  }

  /** A run of other characters is one token, up to a character that begins or ends
      something else. */
  lemma OtherToken(w: string, rest: string)
    requires w != "" && (forall i :: 0 <= i < |w| ==> !EndsOther(w[i])) && !IsBlank(w[0])
    requires rest == "" || EndsOther(rest[0])
    requires !StartsWith(w + rest, "--") && !StartsWith(w + rest, "/*")
    ensures TokensOf(w + rest) == [Token(w, Other)] + TokensOf(rest)
  {
    RunOfOthers(w, rest);
    assert (w + rest)[..|w|] == w && (w + rest)[0] == w[0];
    hide OtherLength;
    StepOver(w, rest, Some(Token(w, Other)));
  }
}
