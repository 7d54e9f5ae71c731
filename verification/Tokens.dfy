/** The tokens of a CREATE TABLE statement. */
module Tokens {
  import opened Wrappers
  import opened SqlSplit

  datatype Kind = Word | Quoted | Text | Punct | Other

  datatype Token = Token(s: string, kind: Kind)

  predicate IsIdent(t: Token) {
    t.kind == Word || t.kind == Quoted
  }

  predicate IsDigit(c: char) {
    '0' <= c <= '9'
  }

  predicate IsWordChar(c: char) {
    c == '_' || c == '$' || IsDigit(c) || 'a' <= c <= 'z' || 'A' <= c <= 'Z' || c as int >= 0x80
  }

  predicate IsBlank(c: char) {
    c == ' ' || c == '\t' || c == '\n' || c == '\r' || c == '\U{000C}'
  }

  predicate IsPunct(c: char) {
    c == '(' || c == ')' || c == ','
  }

  // --- Quoted runs ---

  /** What a quoted run says, and how much is read of it after the opening quote. */
  datatype Run = Run(text: string, used: nat)

  function Unquote(s: string, close: char, doubles: bool): (r: Run)
    ensures r.used <= |s|
  {
    if s == "" then Run("", 0)
    else if s[0] == close then
      if doubles && |s| > 1 && s[1] == close then
        var r := Unquote(s[2..], close, doubles);
        Run([close] + r.text, 2 + r.used)
      else Run("", 1)
    else
      var r := Unquote(s[1..], close, doubles);
      Run([s[0]] + r.text, 1 + r.used)
  }

  /** The run ends with its closing quote. */
  predicate Ends(s: string, close: char, doubles: bool) {
    if s == "" then false
    else if s[0] == close then if doubles && |s| > 1 && s[1] == close then Ends(s[2..], close, doubles) else true
    else Ends(s[1..], close, doubles)
  }

  // --- One token ---

  function WordLength(s: string): (n: nat)
    ensures n <= |s| && (n < |s| ==> !IsWordChar(s[n])) && forall i :: 0 <= i < n ==> IsWordChar(s[i])
  {
    if s == "" || !IsWordChar(s[0]) then 0 else 1 + WordLength(s[1..])
  }

  /** A character that ends a run of others. */
  predicate EndsOther(c: char) {
    IsWordChar(c) || IsPunct(c) || c == ' ' || c == '\t' || c == '\n' || c == '\r' || IsQuoteChar(c) || c == '['
  }

  function OtherLength(s: string): (n: nat)
    ensures n <= |s| && (n < |s| ==> EndsOther(s[n])) && forall i :: 0 <= i < n ==> !EndsOther(s[i])
  {
    if s == "" || EndsOther(s[0]) then 0 else 1 + OtherLength(s[1..])
  }

  function Max(a: nat, b: nat): nat {
    if a >= b then a else b
  }

  datatype Step = Step(token: Option<Token>, length: nat)

  predicate IsQuoteChar(c: char) {
    c == '"' || c == '`' || c == '\''
  }

  function QuotedStep(s: string, close: char, doubles: bool, kind: Kind): (r: Step)
    requires s != ""
    ensures 0 < r.length <= |s|
  {
    var run := Unquote(s[1..], close, doubles);
    Step(Some(Token(run.text, kind)), 1 + run.used)
  }

  /** What s starts with, and how long it is. */
  function NextStep(s: string): (r: Step)
    requires s != ""
    ensures 0 < r.length <= |s|
  {
    var c := s[0];
    if IsBlank(c) then Step(None, 1)
    else if StartsWith(s, "--") then Step(None, LineLength(s))
    else if StartsWith(s, "/*") then
      match Find(s[2..], "*/")
      case Some(i) => Step(None, i + 4)
      case None => Step(None, |s|)
    else if IsQuoteChar(c) then QuotedStep(s, c, true, if c == '\'' then Text else Quoted)
    else if c == '[' then QuotedStep(s, ']', false, Quoted)
    else if IsWordChar(c) && !IsDigit(c) then Step(Some(Token(s[..WordLength(s)], Word)), WordLength(s))
    else if IsPunct(c) then Step(Some(Token([c], Punct)), 1)
    else
      var n := Max(OtherLength(s), 1);
      Step(Some(Token(s[..n], Other)), n)
  }

  function Listed(t: Option<Token>): seq<Token> {
    match t
    case Some(x) => [x]
    case None => []
  }

  function TokensOf(s: string): seq<Token>
    decreases |s|
  {
    if s == "" then [] else Listed(NextStep(s).token) + TokensOf(s[NextStep(s).length..])
  }

  lemma TokensFrom(s: string, i: nat)
    requires i < |s|
    ensures var step := NextStep(s[i..]);
      i + step.length <= |s| && TokensOf(s[i..]) == Listed(step.token) + TokensOf(s[i + step.length..])
  {
    hide NextStep;
    var step := NextStep(s[i..]);
    assert s[i..][step.length..] == s[i + step.length..];
  }

  lemma OneTokenMore(s: string, i: nat, out: seq<Token>)
    requires i < |s| && ReadUpTo(s, i, out)
    ensures var step := NextStep(s[i..]);
      i + step.length <= |s| && ReadUpTo(s, i + step.length, out + Listed(step.token))
  {
    hide NextStep, TokensOf, Listed;
    TokensFrom(s, i);
    var step := NextStep(s[i..]);
    Associates(out, Listed(step.token), TokensOf(s[i + step.length..]));
  }

  lemma Associates<T>(a: seq<T>, b: seq<T>, c: seq<T>)
    ensures a + b + c == a + (b + c)
  {}

  /** Split a fragment into tokens. */
  method Tokenize(sql: string) returns (out: seq<Token>)
    ensures out == TokensOf(sql)
  {
    hide TokensOf, NextStep, Listed;
    out := [];
    var i := 0;
    NoneRead(sql);
    while i < |sql|
      invariant 0 <= i <= |sql| && ReadUpTo(sql, i, out)
    {
      var token, n := ReadToken(sql, i);
      OneTokenMore(sql, i, out);
      out := out + Listed(token);
      i := i + n;
    }
    AllRead(sql, out);
  }

  /** out are the tokens of s before i. */
  ghost predicate ReadUpTo(s: string, i: nat, out: seq<Token>)
    requires i <= |s|
  {
    out + TokensOf(s[i..]) == TokensOf(s)
  }

  lemma NoneRead(s: string)
    ensures ReadUpTo(s, 0, [])
  {
    assert s[0..] == s;
  }

  lemma AllRead(s: string, out: seq<Token>)
    requires ReadUpTo(s, |s|, out)
    ensures out == TokensOf(s)
  {
    assert s[|s|..] == "" && out + [] == out;
  }

  method ReadToken(sql: string, i: nat) returns (token: Option<Token>, n: nat)
    requires i < |sql|
    ensures token == NextStep(sql[i..]).token && n == NextStep(sql[i..]).length
  {
    var s := sql[i..];
    var c := s[0];
    if IsBlank(c) {
      return None, 1;
    }
    if StartsWith(s, "--") {
      n := LineEnd(s);
      return None, n;
    }
    if StartsWith(s, "/*") {
      match Find(s[2..], "*/")
      case Some(k) => return None, k + 4;
      case None => return None, |s|;
    }
    if IsQuoteChar(c) || c == '[' {
      var text, used := ReadQuoted(s, c, if c == '[' then ']' else c);
      return Some(Token(text, if c == '\'' then Text else Quoted)), used;
    }
    if IsWordChar(c) && !IsDigit(c) {
      n := WordEnd(s);
      return Some(Token(s[..n], Word)), n;
    }
    if IsPunct(c) {
      return Some(Token([c], Punct)), 1;
    }
    n := OtherEnd(s);
    if n == 0 {
      n := 1;
    }
    return Some(Token(s[..n], Other)), n;
  }

  method LineEnd(s: string) returns (n: nat)
    ensures n == LineLength(s)
  {
    n := 0;
    while n < |s| && s[n] != '\n'
      invariant n <= |s| && n + LineLength(s[n..]) == LineLength(s)
    {
      assert s[n..][1..] == s[n + 1..];
      n := n + 1;
    }
  }

  method WordEnd(s: string) returns (n: nat)
    ensures n == WordLength(s)
  {
    n := 0;
    while n < |s| && IsWordChar(s[n])
      invariant n <= |s| && n + WordLength(s[n..]) == WordLength(s)
    {
      assert s[n..][1..] == s[n + 1..];
      n := n + 1;
    }
  }

  method OtherEnd(s: string) returns (n: nat)
    ensures n == OtherLength(s)
  {
    n := 0;
    while n < |s| && !EndsOther(s[n])
      invariant n <= |s| && n + OtherLength(s[n..]) == OtherLength(s)
    {
      assert s[n..][1..] == s[n + 1..];
      n := n + 1;
    }
  }

  /** The text of a quoted run, and its length with its quotes. A doubled closing
      quote is an escaped one, except in brackets. */
  method ReadQuoted(s: string, open: char, close: char) returns (text: string, n: nat)
    requires s != ""
    ensures text == Unquote(s[1..], close, open != '[').text && n == 1 + Unquote(s[1..], close, open != '[').used
  {
    text := "";
    var i := 1;
    ghost var doubles := open != '[';
    UnquoteEnd(s, |s|, close, doubles);
    hide Unquote;
    while i < |s|
      invariant 1 <= i <= |s| && UnquotedUpTo(s, i, close, doubles, text)
    {
      UnquoteFrom(s, i, close, doubles, text);
      if s[i] == close {
        if i + 1 < |s| && s[i + 1] == close && open != '[' {
          text, i := text + [close], i + 2;
        } else {
          return text, i + 1;
        }
      } else {
        text, i := text + [s[i]], i + 1;
      }
    }
    n := |s|;
  }

  /** text is what the run after the opening quote says before i. */
  ghost predicate UnquotedUpTo(s: string, i: nat, close: char, doubles: bool, text: string)
    requires 1 <= i <= |s|
  {
    var r := Unquote(s[i..], close, doubles);
    Unquote(s[1..], close, doubles) == Run(text + r.text, i - 1 + r.used)
  }

  lemma UnquoteEnd(s: string, i: nat, close: char, doubles: bool)
    requires i == |s| > 0
    ensures UnquotedUpTo(s, 1, close, doubles, "")
    ensures forall text :: UnquotedUpTo(s, i, close, doubles, text) ==>
      Unquote(s[1..], close, doubles) == Run(text, i - 1)
  {
    var r := Unquote(s[1..], close, doubles);
    assert "" + r.text == r.text;
    assert s[i..] == "";
    forall text | UnquotedUpTo(s, i, close, doubles, text) ensures Unquote(s[1..], close, doubles) == Run(text, i - 1) {
      assert text + "" == text;
    }
  }

  lemma UnquoteFrom(s: string, i: nat, close: char, doubles: bool, text: string)
    requires 1 <= i < |s| && UnquotedUpTo(s, i, close, doubles, text)
    ensures if s[i] != close then UnquotedUpTo(s, i + 1, close, doubles, text + [s[i]])
      else if i + 1 < |s| && s[i + 1] == close && doubles then UnquotedUpTo(s, i + 2, close, doubles, text + [close])
      else Unquote(s[1..], close, doubles) == Run(text, i)
  {
    var rest := s[i..];
    assert rest[0] == s[i] && (i + 1 < |s| ==> rest[1] == s[i + 1]);
    if s[i] != close {
      assert rest[1..] == s[i + 1..];
      Associates(text, [s[i]], Unquote(s[i + 1..], close, doubles).text);
    } else if i + 1 < |s| && s[i + 1] == close && doubles {
      assert rest[2..] == s[i + 2..];
      Associates(text, [close], Unquote(s[i + 2..], close, doubles).text);
    } else {
      assert text + "" == text;
    }
  }

  // --- Text that ends where it seems to ---

  /** What s starts with ends in s. */
  predicate StepEnds(s: string)
    requires s != ""
  {
    var c := s[0];
    if IsBlank(c) then true
    else if StartsWith(s, "--") then LineLength(s) < |s|
    else if StartsWith(s, "/*") then Find(s[2..], "*/").Some?
    else if IsQuoteChar(c) then Ends(s[1..], c, true)
    else if c == '[' then Ends(s[1..], ']', false)
    else true
  }

  /** Every quote and comment that starts in s ends in s. */
  predicate Closed(s: string)
    decreases |s|
  {
    s == "" || (StepEnds(s) && Closed(s[NextStep(s).length..]))
  }

  /** What may follow such text without becoming part of it. */
  predicate Separates(rest: string) {
    rest == "" || rest[0] == ' ' || rest[0] == ',' || rest[0] == ')'
  }

  lemma {:induction false} UnquoteExtends(s: string, close: char, doubles: bool, rest: string)
    requires Ends(s, close, doubles) && (rest == "" || rest[0] != close)
    ensures Unquote(s + rest, close, doubles) == Unquote(s, close, doubles) && Ends(s + rest, close, doubles)
  {
    var all := s + rest;
    if s[0] == close && doubles && |s| > 1 && s[1] == close {
      assert all[2..] == s[2..] + rest;
      UnquoteExtends(s[2..], close, doubles, rest);
    } else if s[0] != close {
      assert all[1..] == s[1..] + rest;
      UnquoteExtends(s[1..], close, doubles, rest);
    }
  }

  lemma {:induction false} WordExtends(s: string, rest: string)
    requires rest == "" || !IsWordChar(rest[0])
    ensures WordLength(s + rest) == WordLength(s)
  {
    if s == "" {
      assert s + rest == rest;
    } else {
      assert (s + rest)[1..] == s[1..] + rest;
      WordExtends(s[1..], rest);
    }
  }

  lemma {:induction false} OtherExtends(s: string, rest: string)
    requires rest == "" || EndsOther(rest[0])
    ensures OtherLength(s + rest) == OtherLength(s)
  {
    if s == "" {
      assert s + rest == rest;
    } else {
      assert (s + rest)[1..] == s[1..] + rest;
      OtherExtends(s[1..], rest);
    }
  }

  /** A step of closed text stays the same whatever separate text follows. */
  lemma StepExtends(s: string, rest: string)
    requires s != "" && StepEnds(s) && Separates(rest)
    ensures NextStep(s + rest) == NextStep(s) && StepEnds(s + rest)
  {
    var c, all := s[0], s + rest;
    assert all[0] == c;
    StartsExtend(s, rest);
    hide StartsWith, WordLength, OtherLength, LineLength, Find, Unquote, Ends;
    if IsBlank(c) {
    } else if StartsWith(s, "--") {
      LineExtends(s, rest);
    } else if StartsWith(s, "/*") {
      StartsLong(s, "/*");
      assert all[2..] == s[2..] + rest;
      FindExtends(s[2..], "*/", rest);
    } else if IsQuoteChar(c) || c == '[' {
      QuotedExtends(s, rest);
    } else {
      BareExtends(s, rest);
    }
  }

  lemma QuotedExtends(s: string, rest: string)
    requires s != "" && StepEnds(s) && Separates(rest) && (IsQuoteChar(s[0]) || s[0] == '[')
    requires !StartsWith(s, "--") && !StartsWith(s, "/*") && !StartsWith(s + rest, "--") && !StartsWith(s + rest, "/*")
    ensures NextStep(s + rest) == NextStep(s) && StepEnds(s + rest)
  {
    var all := s + rest;
    hide StartsWith, WordLength, OtherLength, LineLength, Find, Unquote, Ends;
    assert all[1..] == s[1..] + rest && all[0] == s[0];
    if s[0] == '[' {
      UnquoteExtends(s[1..], ']', false, rest);
    } else {
      UnquoteExtends(s[1..], s[0], true, rest);
    }
  }

  lemma BareExtends(s: string, rest: string)
    requires s != "" && Separates(rest) && !IsBlank(s[0]) && !IsQuoteChar(s[0]) && s[0] != '['
    requires !StartsWith(s, "--") && !StartsWith(s, "/*") && !StartsWith(s + rest, "--") && !StartsWith(s + rest, "/*")
    ensures NextStep(s + rest) == NextStep(s) && StepEnds(s + rest)
  {
    var c, all := s[0], s + rest;
    WordExtends(s, rest);
    OtherExtends(s, rest);
    TakeExtends(s, rest, WordLength(s));
    TakeExtends(s, rest, Max(OtherLength(s), 1));
    assert all[0] == c;
    hide StartsWith, WordLength, OtherLength, LineLength, Find, Unquote, Ends, IsWordChar, IsDigit, IsPunct, IsBlank;
  }

  lemma TakeExtends(s: string, rest: string, n: nat)
    requires n <= |s|
    ensures (s + rest)[..n] == s[..n]
  {}

  lemma StartsLong(s: string, p: string)
    requires StartsWith(s, p)
    ensures |p| <= |s|
  {}

  lemma StartsExtend(s: string, rest: string)
    requires s != "" && Separates(rest)
    ensures StartsWith(s + rest, "--") <==> StartsWith(s, "--")
    ensures StartsWith(s + rest, "/*") <==> StartsWith(s, "/*")
  {
    var all := s + rest;
    if |s| >= 2 {
      assert all[..2] == s[..2];
    } else if rest != "" {
      assert all[..2] == [s[0], rest[0]];
    }
  }

  // --- Putting texts together ---

  /** s is closed and has the tokens ts. */
  predicate Lexes(s: string, ts: seq<Token>) {
    Closed(s) && TokensOf(s) == ts
  }

  /** A step, and then the rest. */
  lemma LexStep(head: string, rest: string, token: Option<Token>, ts: seq<Token>)
    requires Lexes(rest, ts) && head != ""
    requires NextStep(head + rest) == Step(token, |head|) && StepEnds(head + rest)
    ensures Lexes(head + rest, Listed(token) + ts)
  {
    assert (head + rest)[|head|..] == rest;
    hide NextStep, StepEnds;
  }

  lemma LexBlank(rest: string, ts: seq<Token>)
    requires Lexes(rest, ts)
    ensures Lexes(" " + rest, ts)
  {
    LexStep(" ", rest, None, ts);
  }

  lemma LexPunct(c: char, rest: string, ts: seq<Token>)
    requires Lexes(rest, ts) && IsPunct(c)
    ensures Lexes([c] + rest, [Token([c], Punct)] + ts)
  {
    PunctStep(c, rest);
    hide NextStep, StepEnds, TokensOf, Closed, IsPunct;
    LexStep([c], rest, Some(Token([c], Punct)), ts);
  }

  lemma PunctStep(c: char, rest: string)
    requires IsPunct(c)
    ensures NextStep([c] + rest) == Step(Some(Token([c], Punct)), 1) && StepEnds([c] + rest)
  {
    var s := [c] + rest;
    assert s[0] == c;
    StartsNot(s, "--");
    StartsNot(s, "/*");
    hide StartsWith, WordLength, OtherLength, LineLength, Find, Unquote, Ends;
  }

  predicate IsWord(w: string) {
    w != "" && !IsDigit(w[0]) && forall i :: 0 <= i < |w| ==> IsWordChar(w[i])
  }

  lemma {:induction false} AllWord(w: string)
    requires forall i :: 0 <= i < |w| ==> IsWordChar(w[i])
    ensures WordLength(w) == |w|
  {
    if w != "" {
      AllWord(w[1..]);
    }
  }

  lemma LexWord(w: string, rest: string, ts: seq<Token>)
    requires Lexes(rest, ts) && IsWord(w) && (rest == "" || !IsWordChar(rest[0]))
    ensures Lexes(w + rest, [Token(w, Word)] + ts)
  {
    WordStep(w, rest);
    hide NextStep, StepEnds, TokensOf, Closed;
    LexStep(w, rest, Some(Token(w, Word)), ts);
  }

  lemma StartsNot(s: string, p: string)
    requires s != "" && p != "" && s[0] != p[0]
    ensures !StartsWith(s, p)
  {
    if |p| <= |s| {
      assert s[..|p|][0] == s[0];
    }
  }

  lemma WordStep(w: string, rest: string)
    requires IsWord(w) && (rest == "" || !IsWordChar(rest[0]))
    ensures NextStep(w + rest) == Step(Some(Token(w, Word)), |w|) && StepEnds(w + rest)
  {
    AllWord(w);
    WordExtends(w, rest);
    var s := w + rest;
    assert s[0] == w[0] && s[..|w|] == w;
    StartsNot(s, "--");
    StartsNot(s, "/*");
    hide StartsWith, WordLength, OtherLength, LineLength, Find, Unquote, Ends;
  }

  lemma LexTextStep(s: string, rest: string, more: string, ts: seq<Token>)
    requires s != "" && StepEnds(s) && NextStep(s + rest) == NextStep(s) && StepEnds(s + rest)
    requires more == s[NextStep(s).length..] && Lexes(more + rest, TokensOf(more) + ts)
    ensures Lexes(s + rest, TokensOf(s) + ts)
  {
    hide NextStep, StepEnds, TokensOf, Closed;
    var step := NextStep(s);
    TokensStart(s);
    TokensStart(s + rest);
    assert (s + rest)[step.length..] == more + rest;
    assert Listed(step.token) + TokensOf(more) + ts == Listed(step.token) + (TokensOf(more) + ts);
  }

  lemma TokensStart(s: string)
    requires s != ""
    ensures TokensOf(s) == Listed(NextStep(s).token) + TokensOf(s[NextStep(s).length..])
    ensures Closed(s) <==> StepEnds(s) && Closed(s[NextStep(s).length..])
  {
    hide NextStep, StepEnds;
  }

  /** Closed text, and separate text after it. */
  lemma {:induction false} LexText(s: string, rest: string, ss: seq<Token>, ts: seq<Token>)
    requires Lexes(s, ss) && Lexes(rest, ts) && Separates(rest)
    ensures Lexes(s + rest, ss + ts)
    decreases |s|
  {
    if s == "" {
      assert s + rest == rest && ss + ts == ts;
    } else {
      StepExtends(s, rest);
      var more := s[NextStep(s).length..];
      LexText(more, rest, TokensOf(more), ts);
      LexTextStep(s, rest, more, ts);
    }
  }
}
