/** What the splitter keeps whole, said of the text itself: dollar-quoted bodies and
    comments, closed or not; and what it makes of everything else. */
module Blocks {
  import opened Wrappers
  import opened SqlSplit
  import opened Literals

  predicate OccursAt(s: string, p: string, i: nat) {
    i + |p| <= |s| && s[i..i + |p|] == p
  }

  predicate NowhereIn(s: string, p: string) {
    forall i :: 0 <= i <= |s| ==> !OccursAt(s, p, i)
  }

  /** The first place where end occurs in body and end is behind the body. */
  predicate EndsFirstAt(body: string, end: string) {
    forall i :: 0 <= i < |body| ==> !OccursAt(body + end, end, i)
  }

  predicate TagChars(tag: string) {
    forall i :: 0 <= i < |tag| ==> IsTagChar(tag[i])
  }

  /** Reading the block, after any text that does not run into it, takes the whole of it
      into the chunk that is being read. */
  predicate KeptWhole(a: string, block: string, rest: string, cur: string, o: SplitOptions) {
    Chunks(a + (block + rest), cur, o) == Chunks(rest, cur + (a + block), o)
  }

  lemma UnitBetween(a: string, block: string, rest: string, cur: string, o: SplitOptions)
    requires SelfContained(a, o) && block != "" && block[0] != ';' && Separate(a, block)
    requires Unit(block + rest, o) == |block|
    ensures KeptWhole(a, block, rest, cur, o)
  {
    hide Unit, SelfContained, EndsInTag;
    assert (block + rest)[0] == block[0];
    ChunksThrough(a, block + rest, cur, o);
    assert (block + rest)[|block|..] == rest && (block + rest)[..|block|] == block;
    assert cur + a + block == cur + (a + block);
  }

  lemma {:induction false} FoundFirst(s: string, p: string, i: nat)
    requires OccursAt(s, p, i) && forall j :: 0 <= j < i ==> !OccursAt(s, p, j)
    ensures Find(s, p) == Some(i)
    decreases i
  {
    if i == 0 {
      assert s[..|p|] == s[0..0 + |p|];
    } else {
      assert !StartsWith(s, p) by {
        assert !OccursAt(s, p, 0);
      }
      assert s[1..][i - 1..i - 1 + |p|] == s[i..i + |p|];
      forall j | 0 <= j < i - 1
        ensures !OccursAt(s[1..], p, j)
      {
        assert !OccursAt(s, p, j + 1);
        if j + |p| <= |s[1..]| {
          assert s[1..][j..j + |p|] == s[j + 1..j + 1 + |p|];
        }
      }
      FoundFirst(s[1..], p, i - 1);
    }
  }

  lemma EndFound(body: string, end: string, rest: string)
    requires EndsFirstAt(body, end)
    ensures Find(body + (end + rest), end) == Some(|body|)
  {
    var s := body + (end + rest);
    assert s[|body|..|body| + |end|] == end;
    forall j | 0 <= j < |body|
      ensures !OccursAt(s, end, j)
    {
      assert !OccursAt(body + end, end, j);
      assert s[j..j + |end|] == (body + end)[j..j + |end|];
    }
    FoundFirst(s, end, |body|);
  }

  lemma {:induction false} TagRunIs(tag: string, rest: string)
    requires TagChars(tag) && rest != "" && !IsTagChar(rest[0])
    ensures TagRun(tag + rest) == |tag|
    decreases |tag|
  {
    if tag == "" {
      assert tag + rest == rest;
    } else {
      assert (tag + rest)[1..] == tag[1..] + rest;
      assert TagChars(tag[1..]);
      TagRunIs(tag[1..], rest);
    }
  }

  function Delimiter(tag: string): string {
    "$" + tag + "$"
  }

  lemma OpensWith(tag: string, rest: string)
    requires TagChars(tag)
    ensures OpeningTag(Delimiter(tag) + rest) == Some(Delimiter(tag))
  {
    var d := Delimiter(tag);
    assert (d + rest)[1..] == tag + ("$" + rest);
    TagRunIs(tag, "$" + rest);
    assert (d + rest)[..|d|] == d;
  }

  lemma DollarUnitIs(tag: string, body: string, rest: string, o: SplitOptions)
    requires o.dollarQuotes && TagChars(tag) && EndsFirstAt(body, Delimiter(tag))
    ensures var d := Delimiter(tag);
      Unit(d + body + d + rest, o) == |d + body + d| && UnitClosed(d + body + d + rest, o)
  {
    var d := Delimiter(tag);
    var s := d + body + d + rest;
    assert s == d + (body + d + rest) && s[|d|..] == body + (d + rest) && s[0] == '$';
    OpensWith(tag, body + d + rest);
    EndFound(body, d, rest);
    hide Delimiter, OpeningTag, EndsFirstAt, TagChars, Find;
    assert DollarUnit(s) == |body| + 2 * |d| && DollarClosed(s);
    DollarFirst(s, o);
  }

  lemma DollarFirst(s: string, o: SplitOptions)
    requires s != "" && s[0] == '$' && o.dollarQuotes
    ensures Unit(s, o) == DollarUnit(s) && UnitClosed(s, o) == DollarClosed(s)
  {
    hide DollarUnit, DollarClosed;
  }

  /** A dollar-quoted body is kept whole, whatever semicolons, quotes and comments it
      holds, as long as it does not hold its own end. */
  lemma DollarBodyKept(a: string, tag: string, body: string, b: string, cur: string, o: SplitOptions)
    requires o.dollarQuotes && TagChars(tag) && EndsFirstAt(body, "$" + tag + "$")
    requires SelfContained(a, o) && !EndsInTag(a)
    ensures Chunks(a + ("$" + tag + "$" + body + "$" + tag + "$" + b), cur, o)
         == Chunks(b, cur + (a + ("$" + tag + "$" + body + "$" + tag + "$")), o)
    ensures SelfContained(b, o) ==> SelfContained(a + ("$" + tag + "$" + body + "$" + tag + "$" + b), o)
  {
    var d := Delimiter(tag);
    var block := d + body + d;
    assert "$" + tag + "$" + body + "$" + tag + "$" == block;
    assert "$" + tag + "$" + body + "$" + tag + "$" + b == block + b;
    DollarUnitIs(tag, body, b, o);
    assert block[0] == '$';
    hide Unit, UnitClosed, EndsInTag, EndsFirstAt, SelfContained, Delimiter;
    UnitBetween(a, block, b, cur, o);
    if SelfContained(b, o) {
      LiteralKeepsSelfContained(a, block, b, o);
    }
  }

  /** So is a comment between slashes and stars. */
  lemma CommentKept(a: string, body: string, b: string, cur: string, o: SplitOptions)
    requires EndsFirstAt(body, "*/") && SelfContained(a, o)
    ensures Chunks(a + ("/*" + body + "*/" + b), cur, o) == Chunks(b, cur + (a + ("/*" + body + "*/")), o)
    ensures SelfContained(b, o) ==> SelfContained(a + ("/*" + body + "*/" + b), o)
  {
    var block := "/*" + body + "*/";
    assert block + b == "/*" + body + "*/" + b;
    EndFound(body, "*/", b);
    assert (block + b)[..2] == "/*" && (block + b)[2..] == body + ("*/" + b);
    assert Unit(block + b, o) == |block| && UnitClosed(block + b, o);
    hide Unit, UnitClosed, EndsInTag, EndsFirstAt, SelfContained;
    UnitBetween(a, block, b, cur, o);
    if SelfContained(b, o) {
      LiteralKeepsSelfContained(a, block, b, o);
    }
  }

  lemma {:induction false} LineIs(line: string, rest: string)
    requires '\n' !in line && (rest == "" || rest[0] == '\n')
    ensures LineLength(line + rest) == |line|
    decreases |line|
  {
    if line == "" {
      assert line + rest == rest;
    } else {
      assert (line + rest)[1..] == line[1..] + rest;
      LineIs(line[1..], rest);
    }
  }

  lemma LineUnitIs(line: string, rest: string, o: SplitOptions)
    requires '\n' !in line && (rest == "" || rest[0] == '\n')
    ensures Unit("--" + line + rest, o) == |"--" + line|
    ensures rest != "" ==> UnitClosed("--" + line + rest, o)
  {
    var s := "--" + line + rest;
    assert s[..2] == "--" && s == ("--" + line) + rest;
    LineIs("--" + line, rest);
  }

  /** So is a comment up to the end of its line. */
  lemma LineCommentKept(a: string, line: string, b: string, cur: string, o: SplitOptions)
    requires '\n' !in line && SelfContained(a, o) && (a == "" || a[|a| - 1] != '-')
    ensures Chunks(a + ("--" + line + "\n" + b), cur, o) == Chunks(b, cur + (a + ("--" + line + "\n")), o)
    ensures SelfContained(b, o) ==> SelfContained(a + ("--" + line + "\n" + b), o)
  {
    var block, rest := "--" + line, "\n" + b;
    assert block + rest == "--" + line + "\n" + b && rest[1..] == b;
    LineUnitIs(line, rest, o);
    assert block[0] == '-' && block != "";
    assert Unit(rest, o) == 1 && UnitClosed(rest, o);
    var more := cur + (a + block);
    assert more + rest[..1] == cur + (a + ("--" + line + "\n"));
    assert Chunks(rest, more, o) == Chunks(b, more + rest[..1], o);
    hide Unit, UnitClosed, EndsInTag, Chunks;
    UnitBetween(a, block, rest, cur, o);
    if SelfContained(b, o) {
      assert SelfContained(rest, o);
      LiteralKeepsSelfContained(a, block, rest, o);
    }
  }

  // --- What is not closed ---

  lemma NotFound(s: string, p: string)
    requires NowhereIn(s, p)
    ensures Find(s, p).None?
  {
    assert Find(s, p).Some? ==> OccursAt(s, p, Find(s, p).value);
  }

  /** No tag that opens at a dollar sign before s is closed in s. */
  ghost predicate OpensNothing(s: string) {
    forall tag: string :: TagChars(tag) && StartsWith(s, tag + "$") ==> NowhereIn(s[|tag| + 1..], "$" + tag + "$")
  }

  /** A dollar sign that opens no closed body is a character like others. */
  lemma LooseDollar(s: string, cur: string, o: SplitOptions)
    requires OpensNothing(s)
    ensures Chunks("$" + s, cur, o) == Chunks(s, cur + "$", o)
  {
    var t := "$" + s;
    assert t[0] == '$' && t[1..] == s && t[..1] == "$";
    DollarAlone(s);
    hide OpensNothing;
    LooseUnit(t, o);
    hide Unit;
  }

  lemma LooseUnit(t: string, o: SplitOptions)
    requires t != "" && t[0] == '$' && DollarUnit(t) == 1
    ensures Unit(t, o) == 1
  {
    hide DollarUnit;
  }

  lemma TagOpened(s: string)
    requires TagRun(s) < |s| && s[TagRun(s)] == '$'
    ensures var tag := s[..TagRun(s)];
      && OpeningTag("$" + s) == Some("$" + tag + "$") && TagChars(tag) && StartsWith(s, tag + "$")
      && ("$" + s)[|tag| + 2..] == s[|tag| + 1..]
  {
    RunIsTag(s);
    var n := TagRun(s);
    hide TagRun;
    assert ("$" + s)[1..] == s;
    assert ("$" + s)[..n + 2] == "$" + s[..n] + "$" && s[..n + 1] == s[..n] + "$";
  }

  lemma DollarAlone(s: string)
    requires OpensNothing(s)
    ensures DollarUnit("$" + s) == 1
  {
    assert ("$" + s)[1..] == s;
    var n := TagRun(s);
    if n < |s| && s[n] == '$' {
      TagOpened(s);
      hide OpeningTag, StartsWith, TagChars, Find, NowhereIn, TagRun;
      NotFound(s[n + 1..], "$" + s[..n] + "$");
    }
  }

  /** A comment that is not closed takes the rest of the script. */
  lemma OpenComment(s: string, cur: string, o: SplitOptions)
    requires NowhereIn(s, "*/")
    ensures Chunks("/*" + s, cur, o) == [cur + ("/*" + s)]
  {
    var t := "/*" + s;
    NotFound(s, "*/");
    assert t[..2] == "/*" && t[2..] == s;
    assert Unit(t, o) == |t| && t[|t|..] == "" && t[..|t|] == t;
  }

  lemma OpenLine(line: string, cur: string, o: SplitOptions)
    requires '\n' !in line
    ensures Chunks("--" + line, cur, o) == [cur + ("--" + line)]
  {
    var t := "--" + line;
    LineUnitIs(line, "", o);
    assert t + "" == t && t[|t|..] == "" && t[..|t|] == t;
  }

  lemma {:induction false} ScanOpen(s: string, q: char, o: SplitOptions)
    requires q == '\'' ==> !o.backslashEscapes
    ensures ScanQuote(Doubled(s, q), q, o) == |Doubled(s, q)|
    decreases |s|
  {
    if s != "" {
      var d, d1 := Doubled(s, q), Doubled(s[1..], q);
      ScanOpen(s[1..], q, o);
      if s[0] == q {
        assert d[2..] == d1;
      } else {
        assert d[1..] == d1;
      }
    }
  }

  /** So does a quote that is not closed. */
  lemma OpenQuote(s: string, q: char, cur: string, o: SplitOptions)
    requires IsQuote(q, o) && (q == '\'' ==> !o.backslashEscapes)
    ensures Chunks([q] + Doubled(s, q), cur, o) == [cur + ([q] + Doubled(s, q))]
  {
    var t := [q] + Doubled(s, q);
    ScanOpen(s, q, o);
    assert t[1..] == Doubled(s, q) && t[|t|..] == "" && t[..|t|] == t;
    assert Unit(t, o) == |t|;
  }

  /** Any other character is taken as it is. */
  lemma OrdinaryCharacter(c: char, rest: string, cur: string, o: SplitOptions)
    requires c != ';' && c != '\'' && c != '"' && (c == '`' ==> !o.backtickQuotes) && (c == '$' ==> !o.dollarQuotes)
    requires (c == '-' ==> rest == "" || rest[0] != '-') && (c == '/' ==> rest == "" || rest[0] != '*')
    ensures Chunks([c] + rest, cur, o) == Chunks(rest, cur + [c], o)
  {
    var s := [c] + rest;
    assert s[1..] == rest && s[..1] == [c];
    assert |s| > 1 ==> s[1] == rest[0];
    assert Unit(s, o) == 1;
  }

  // --- From chunks to statements ---

  /** Self-contained texts joined with semicolons are the chunks. */
  lemma {:induction false} ChunksOfJoin(parts: seq<string>, o: SplitOptions)
    requires parts != [] && forall i :: 0 <= i < |parts| ==> SelfContained(parts[i], o)
    ensures Chunks(Join(parts, ";"), "", o) == parts
    decreases |parts|
  {
    hide SelfContained;
    var s := parts[0];
    assert "" + s == s;
    if |parts| == 1 {
      ChunksThrough(s, "", "", o);
      assert s + "" == s && parts == [s];
      ChunksAtSemicolon("", s, o);
    } else {
      var rest := Join(parts[1..], ";");
      assert s + ";" + rest == s + (";" + rest);
      ChunksThrough(s, ";" + rest, "", o);
      ChunksAtSemicolon(rest, s, o);
      ChunksOfJoin(parts[1..], o);
      assert parts == [s] + parts[1..];
    }
  }

  predicate AllSpace(s: string) {
    forall i :: 0 <= i < |s| ==> IsSpace(s[i])
  }

  lemma {:induction false} TrimLeftIs(s: string) returns (left: string)
    ensures AllSpace(left) && s == left + TrimLeft(s) && (TrimLeft(s) == "" || !IsSpace(TrimLeft(s)[0]))
    decreases |s|
  {
    left := "";
    if s != "" && IsSpace(s[0]) {
      left := TrimLeftIs(s[1..]);
      left := [s[0]] + left;
    }
  }

  lemma {:induction false} TrimRightIs(s: string) returns (right: string)
    ensures AllSpace(right) && s == TrimRight(s) + right
    ensures TrimRight(s) == "" || !IsSpace(TrimRight(s)[|TrimRight(s)| - 1])
    decreases |s|
  {
    right := "";
    if s != "" && IsSpace(s[|s| - 1]) {
      right := TrimRightIs(s[..|s| - 1]);
      right := right + [s[|s| - 1]];
    }
  }

  /** A text is spaces, its trimmed part and spaces, and that part neither starts nor
      ends with one. */
  lemma TrimIs(s: string) returns (left: string, right: string)
    ensures AllSpace(left) && AllSpace(right) && s == left + Trim(s) + right
    ensures Trim(s) == "" || (!IsSpace(Trim(s)[0]) && !IsSpace(Trim(s)[|Trim(s)| - 1]))
  {
    left := TrimLeftIs(s);
    right := TrimRightIs(TrimLeft(s));
    assert s == left + (Trim(s) + right);
    assert Trim(s) != "" ==> Trim(s)[0] == TrimLeft(s)[0];
  }

  /** A text has only comments when each of its lines is blank or a comment. */
  lemma {:induction false} OnlyCommentsIs(lines: seq<string>)
    requires lines != [] && forall i :: 0 <= i < |lines| ==> '\n' !in lines[i]
    ensures OnlyComments(Join(lines, "\n")) <==>
      forall i :: 0 <= i < |lines| ==> Trim(lines[i]) == "" || StartsWith(Trim(lines[i]), "--")
    decreases |lines|
  {
    hide Trim;
    var line := lines[0];
    if |lines| == 1 {
      LineIs(line, "");
      assert line + "" == line && line[..|line|] == line;
    } else {
      var rest := Join(lines[1..], "\n");
      var s := line + ("\n" + rest);
      assert Join(lines, "\n") == s;
      LineIs(line, "\n" + rest);
      assert s[..|line|] == line && s[|line| + 1..] == rest;
      OnlyCommentsIs(lines[1..]);
      assert forall i :: 1 <= i < |lines| ==> lines[i] == lines[1..][i - 1];
      assert forall i :: 0 <= i < |lines[1..]| ==> lines[1..][i] == lines[i + 1];
    }
  }

  /** The statements of self-contained texts joined with semicolons: each text without
      the spaces around it, but not the empty ones and those that hold only comments. */
  lemma {:induction false} StatementsOf(parts: seq<string>)
    ensures forall t :: t in Statements(parts) <==>
      t != "" && !OnlyComments(t) && exists i :: 0 <= i < |parts| && Trim(parts[i]) == t
    decreases |parts|
  {
    if parts != [] {
      hide Trim, OnlyComments;
      StatementsOf(parts[1..]);
      assert parts == [parts[0]] + parts[1..];
      assert forall i :: 1 <= i < |parts| ==> parts[i] == parts[1..][i - 1];
      assert forall i :: 0 <= i < |parts[1..]| ==> parts[1..][i] == parts[i + 1];
    }
  }

  lemma {:induction false} StatementsConcat(a: seq<string>, b: seq<string>)
    ensures Statements(a + b) == Statements(a) + Statements(b)
    decreases |a|
  {
    hide Trim, Kept;
    if a == [] {
      assert a + b == b;
    } else {
      assert (a + b)[1..] == a[1..] + b;
      StatementsConcat(a[1..], b);
    }
  }
}
