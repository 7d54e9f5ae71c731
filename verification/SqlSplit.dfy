/** Splitting a script into statements, and the literals a script is made of. */
module SqlSplit {
  import opened Wrappers

  /** What a dialect adds to standard quoting. */
  datatype SplitOptions = SplitOptions(backslashEscapes: bool, backtickQuotes: bool, dollarQuotes: bool)

  // --- Lexical units ---

  predicate IsQuote(c: char, o: SplitOptions) {
    c == '\'' || c == '"' || (c == '`' && o.backtickQuotes)
  }

  /** How far into s, which follows an opening quote c, the closing one is; the
      length of s, or more, when there is none. */
  function ScanQuote(s: string, c: char, o: SplitOptions): nat
    decreases |s|
  {
    if s == "" then 0
    else if s[0] == c then if |s| > 1 && s[1] == c then 2 + ScanQuote(s[2..], c, o) else 0
    else if s[0] == '\\' && c == '\'' && o.backslashEscapes then
      2 + ScanQuote(if |s| > 1 then s[2..] else "", c, o)
    else 1 + ScanQuote(s[1..], c, o)
  }

  /** The length of the first line of s, without its end. */
  function LineLength(s: string): (n: nat)
    ensures n <= |s| && forall i :: 0 <= i < n ==> s[i] != '\n'
    ensures n < |s| ==> s[n] == '\n'
  {
    if s == "" || s[0] == '\n' then 0 else 1 + LineLength(s[1..])
  }

  predicate StartsWith(s: string, p: string) {
    |p| <= |s| && s[..|p|] == p
  }

  /** The first place in s where p starts. */
  function Find(s: string, p: string): (r: Option<nat>)
    ensures r.Some? ==> r.value + |p| <= |s| && s[r.value..r.value + |p|] == p
  {
    if StartsWith(s, p) then Some(0)
    else if s == "" then None
    else
      match Find(s[1..], p)
      case Some(i) => Some(i + 1)
      case None => None
  }

  predicate IsTagChar(c: char) {
    c == '_' || 'a' <= c <= 'z' || 'A' <= c <= 'Z' || '0' <= c <= '9'
  }

  function TagRun(s: string): (n: nat)
    ensures n <= |s|
  {
    if s == "" || !IsTagChar(s[0]) then 0 else 1 + TagRun(s[1..])
  }

  /** The opening $tag$ of s, which starts with '$', if it is one. */
  function OpeningTag(s: string): (t: Option<string>)
    requires s != ""
    ensures t.Some? ==> 2 <= |t.value| <= |s| && StartsWith(s, t.value)
  {
    var n := TagRun(s[1..]);
    if n + 1 < |s| && s[n + 1] == '$' then Some(s[..n + 2]) else None
  }

  function Min(a: nat, b: nat): nat {
    if a < b then a else b
  }

  /** The length of the dollar-quoted body s starts with, or of the dollar sign. */
  function DollarUnit(s: string): (n: nat)
    requires s != ""
    ensures 0 < n <= |s|
  {
    match OpeningTag(s)
    case None => 1
    case Some(tag) =>
      match Find(s[|tag|..], tag)
      case Some(i) => i + 2 * |tag|
      case None => 1
  }

  /** The length of the first lexical unit of s: a quoted text, a comment, a
      dollar-quoted body, or a single character. */
  function Unit(s: string, o: SplitOptions): (n: nat)
    requires s != ""
    ensures 0 < n <= |s|
  {
    var c := s[0];
    if IsQuote(c, o) then Min(2 + ScanQuote(s[1..], c, o), |s|)
    else if StartsWith(s, "--") then LineLength(s)
    else if StartsWith(s, "/*") then
      match Find(s[2..], "*/")
      case Some(i) => i + 4
      case None => |s|
    else if c == '$' && o.dollarQuotes then DollarUnit(s)
    else 1
  }

  // --- Chunks ---

  /** The text between the semicolons that stand outside every unit; cur is what
      has been read of the first chunk. */
  function Chunks(s: string, cur: string, o: SplitOptions): seq<string>
    decreases |s|
  {
    if s == "" then [cur]
    else if s[0] == ';' then [cur] + Chunks(s[1..], "", o)
    else
      var n := Unit(s, o);
      Chunks(s[n..], cur + s[..n], o)
  }

  function Join(parts: seq<string>, sep: string): string {
    if parts == [] then ""
    else if |parts| == 1 then parts[0]
    else parts[0] + sep + Join(parts[1..], sep)
  }

  /** Nothing of the script is lost: the chunks, joined with semicolons, are the
      script. */
  lemma {:induction false} ChunksLossless(s: string, cur: string, o: SplitOptions)
    ensures Chunks(s, cur, o) != [] && Join(Chunks(s, cur, o), ";") == cur + s
    decreases |s|
  {
    if s != "" {
      if s[0] == ';' {
        ChunksLossless(s[1..], "", o);
        var rest := Chunks(s[1..], "", o);
        assert ([cur] + rest)[1..] == rest;
        assert cur + ";" + s[1..] == cur + s;
      } else {
        var n := Unit(s, o);
        ChunksLossless(s[n..], cur + s[..n], o);
        assert cur + s[..n] + s[n..] == cur + s;
      }
    }
  }

  // --- Trimming and comments ---

  predicate IsSpace(c: char) {
    || '\t' <= c <= '\r' || c == ' ' || c == '\U{0085}' || c == '\U{00A0}' || c == '\U{1680}'
    || '\U{2000}' <= c <= '\U{200A}' || c == '\U{2028}' || c == '\U{2029}' || c == '\U{202F}' || c == '\U{205F}' ||
      c == '\U{3000}'
  }

  function TrimLeft(s: string): string {
    if s != "" && IsSpace(s[0]) then TrimLeft(s[1..]) else s
  }

  function TrimRight(s: string): string {
    if s != "" && IsSpace(s[|s| - 1]) then TrimRight(s[..|s| - 1]) else s
  }

  function Trim(s: string): string {
    TrimRight(TrimLeft(s))
  }

  /** Every line of s is blank or starts with --. */
  predicate OnlyComments(s: string)
    decreases |s|
  {
    var n := LineLength(s);
    var line := Trim(s[..n]);
    (line == "" || StartsWith(line, "--")) && (n < |s| ==> OnlyComments(s[n + 1..]))
  }

  predicate Kept(chunk: string) {
    Trim(chunk) != "" && !OnlyComments(Trim(chunk))
  }

  /** The statements of a script: its chunks, trimmed, without those that are
      empty or only comments. */
  function Statements(chunks: seq<string>): seq<string> {
    if chunks == [] then []
    else (if Kept(chunks[0]) then [Trim(chunks[0])] else []) + Statements(chunks[1..])
  }

  function Split(script: string, o: SplitOptions): seq<string> {
    Statements(Chunks(script, "", o))
  }

  // --- Self-contained text ---

  predicate DollarClosed(s: string)
    requires s != ""
  {
    match OpeningTag(s)
    case None => true
    case Some(tag) => Find(s[|tag|..], tag).Some?
  }

  /** The first unit of s ends inside s, whatever may follow. */
  predicate UnitClosed(s: string, o: SplitOptions)
    requires s != ""
  {
    var c := s[0];
    if IsQuote(c, o) then 1 + ScanQuote(s[1..], c, o) < |s|
    else if StartsWith(s, "--") then LineLength(s) < |s|
    else if StartsWith(s, "/*") then Find(s[2..], "*/").Some?
    else if c == '$' && o.dollarQuotes then DollarClosed(s)
    else c != ';'
  }

  /** Quotes, comments and dollar quotes that start in s end in s, and no semicolon
      stands outside them. */
  predicate SelfContained(s: string, o: SplitOptions)
    decreases |s|
  {
    s == "" || (UnitClosed(s, o) && SelfContained(s[Unit(s, o)..], o))
  }

  /** s ends in a dollar sign and characters of a tag. */
  predicate EndsInTag(s: string)
    decreases |s|
  {
    s != "" && (s[|s| - 1] == '$' || (IsTagChar(s[|s| - 1]) && EndsInTag(s[..|s| - 1])))
  }

  /** rest cannot continue the last unit of s: it starts with a semicolon, with a
      slash, with a quote or a dash that s does not end in, or with a dollar sign that
      does not close a tag begun in s. */
  predicate Separate(s: string, rest: string) {
    || rest == "" || rest[0] == ';' || rest[0] == '/'
    || ((rest[0] == '\'' || rest[0] == '-') && (s == "" || s[|s| - 1] != rest[0]))
    || (rest[0] == '$' && !EndsInTag(s))
  }

  lemma {:induction false} SuffixEndsInTag(s: string, n: nat)
    requires n <= |s| && EndsInTag(s[n..])
    ensures EndsInTag(s)
    decreases |s|
  {
    if s[|s| - 1] != '$' {
      assert s[n..][..|s[n..]| - 1] == s[..|s| - 1][n..];
      SuffixEndsInTag(s[..|s| - 1], n);
    }
  }

  lemma {:induction false} RunEndsInTag(s: string, n: nat)
    requires 0 < n <= |s| && s[n - 1] == '$' && forall i :: n <= i < |s| ==> IsTagChar(s[i])
    ensures EndsInTag(s)
    decreases |s|
  {
    if n < |s| {
      RunEndsInTag(s[..|s| - 1], n);
    }
  }

  lemma {:induction false} RunIsTag(s: string)
    ensures forall i :: 0 <= i < TagRun(s) ==> IsTagChar(s[i])
    ensures TagRun(s) < |s| ==> !IsTagChar(s[TagRun(s)])
  {
    if s != "" && IsTagChar(s[0]) {
      RunIsTag(s[1..]);
      assert forall i :: 1 <= i < TagRun(s) ==> s[i] == s[1..][i - 1];
    }
  }

  lemma {:induction false} ScanExtends(s: string, c: char, o: SplitOptions, rest: string)
    requires ScanQuote(s, c, o) < |s|
    requires ScanQuote(s, c, o) == |s| - 1 ==> rest == "" || rest[0] != c
    ensures ScanQuote(s + rest, c, o) == ScanQuote(s, c, o) && s[ScanQuote(s, c, o)] == c
    decreases |s|
  {
    if s[0] == c {
      if |s| > 1 && s[1] == c {
        assert (s + rest)[2..] == s[2..] + rest;
        ScanExtends(s[2..], c, o, rest);
      }
    } else if s[0] == '\\' && c == '\'' && o.backslashEscapes {
      if |s| > 1 {
        assert (s + rest)[2..] == s[2..] + rest;
        ScanExtends(s[2..], c, o, rest);
      }
    } else {
      assert (s + rest)[1..] == s[1..] + rest;
      ScanExtends(s[1..], c, o, rest);
    }
  }

  lemma {:induction false} LineExtends(s: string, rest: string)
    requires LineLength(s) < |s|
    ensures LineLength(s + rest) == LineLength(s)
  {
    if s[0] != '\n' {
      assert (s + rest)[1..] == s[1..] + rest;
      LineExtends(s[1..], rest);
    }
  }

  lemma {:induction false} FindExtends(s: string, p: string, rest: string)
    requires Find(s, p).Some?
    ensures Find(s + rest, p) == Find(s, p)
  {
    assert (s + rest)[..|p|] == s[..|p|];
    if !StartsWith(s, p) {
      assert (s + rest)[1..] == s[1..] + rest;
      FindExtends(s[1..], p, rest);
    }
  }

  lemma {:induction false} TagRunExtends(s: string, rest: string)
    requires rest == "" || !IsTagChar(rest[0]) || TagRun(s) < |s|
    ensures TagRun(s + rest) == TagRun(s)
  {
    if s == "" {
      assert s + rest == rest;
    } else if IsTagChar(s[0]) {
      assert (s + rest)[1..] == s[1..] + rest;
      TagRunExtends(s[1..], rest);
    }
  }

  lemma TagExtends(s: string, rest: string)
    requires s != "" && s[0] == '$' && (rest == "" || (!IsTagChar(rest[0]) && (rest[0] != '$' || !EndsInTag(s))))
    ensures OpeningTag(s + rest) == OpeningTag(s)
  {
    if TagRun(s[1..]) == |s| - 1 {
      RunIsTag(s[1..]);
      assert forall i :: 1 <= i < |s| ==> s[i] == s[1..][i - 1];
      RunEndsInTag(s, 1);
    }
    assert (s + rest)[1..] == s[1..] + rest;
    TagRunExtends(s[1..], rest);
    var n := TagRun(s[1..]);
    if n + 1 < |s| {
      assert (s + rest)[..n + 2] == s[..n + 2];
    }
  }

  lemma QuoteUnitExtends(s: string, o: SplitOptions, rest: string)
    requires s != "" && IsQuote(s[0], o) && UnitClosed(s, o) && Separate(s, rest)
    ensures Unit(s + rest, o) == Unit(s, o)
  {
    assert (s + rest)[1..] == s[1..] + rest;
    var k := ScanQuote(s[1..], s[0], o);
    ScanExtends(s[1..], s[0], o, "");
    assert s[k + 1] == s[0];
    ScanExtends(s[1..], s[0], o, rest);
  }

  lemma CommentUnitExtends(s: string, o: SplitOptions, rest: string)
    requires s != "" && !IsQuote(s[0], o) && (StartsWith(s, "--") || StartsWith(s, "/*")) && UnitClosed(s, o)
    ensures Unit(s + rest, o) == Unit(s, o)
  {
    assert (s + rest)[..2] == s[..2] && (s + rest)[2..] == s[2..] + rest;
    if StartsWith(s, "--") {
      LineExtends(s, rest);
    } else {
      FindExtends(s[2..], "*/", rest);
    }
  }

  lemma NoCommentStarts(s: string, o: SplitOptions, rest: string)
    requires s != "" && !StartsWith(s, "--") && !StartsWith(s, "/*") && Separate(s, rest)
    ensures !StartsWith(s + rest, "--") && !StartsWith(s + rest, "/*")
  {
    if |s| > 1 {
      assert (s + rest)[..2] == s[..2];
    } else if rest != "" {
      assert (s + rest)[..2] == [s[0], rest[0]];
    }
  }

  lemma DollarUnitExtends(s: string, rest: string)
    requires s != "" && s[0] == '$' && DollarClosed(s)
    requires rest == "" || (!IsTagChar(rest[0]) && (rest[0] != '$' || !EndsInTag(s)))
    ensures DollarUnit(s + rest) == DollarUnit(s)
  {
    TagExtends(s, rest);
    hide EndsInTag, OpeningTag;
    var tag := OpeningTag(s);
    if tag.Some? {
      assert (s + rest)[|tag.value|..] == s[|tag.value|..] + rest;
      FindExtends(s[|tag.value|..], tag.value, rest);
    }
  }

  lemma UnitExtends(s: string, o: SplitOptions, rest: string)
    requires s != "" && UnitClosed(s, o) && Separate(s, rest)
    ensures Unit(s + rest, o) == Unit(s, o)
  {
    if IsQuote(s[0], o) {
      QuoteUnitExtends(s, o, rest);
    } else if StartsWith(s, "--") || StartsWith(s, "/*") {
      CommentUnitExtends(s, o, rest);
    } else {
      NoCommentStarts(s, o, rest);
      if s[0] == '$' {
        if o.dollarQuotes {
          DollarUnitExtends(s, rest);
        }
      }
    }
  }

  lemma SelfContainedStep(s: string, rest: string, o: SplitOptions)
    requires s != "" && SelfContained(s, o) && Separate(s, rest)
    ensures s[0] != ';' && UnitClosed(s, o) && SelfContained(s[Unit(s, o)..], o) && Separate(s[Unit(s, o)..], rest)
  {
    hide Unit, EndsInTag;
    if EndsInTag(s[Unit(s, o)..]) {
      SuffixEndsInTag(s, Unit(s, o));
    }
    assert s[Unit(s, o)..] != "" ==> s[Unit(s, o)..][|s| - Unit(s, o) - 1] == s[|s| - 1];
  }

  /** Self-contained text is read to its end as part of one chunk. */
  lemma {:induction false} ChunksThrough(s: string, rest: string, cur: string, o: SplitOptions)
    requires SelfContained(s, o) && Separate(s, rest)
    ensures Chunks(s + rest, cur, o) == Chunks(rest, cur + s, o)
    decreases |s|
  {
    if s == "" {
      assert s + rest == rest && cur + s == cur;
    } else {
      SelfContainedStep(s, rest, o);
      UnitExtends(s, o, rest);
      hide Unit, UnitClosed, SelfContained, Separate;
      var n := Unit(s, o);
      assert (s + rest)[..n] == s[..n] && (s + rest)[n..] == s[n..] + rest;
      ChunksThrough(s[n..], rest, cur + s[..n], o);
      assert cur + s[..n] + s[n..] == cur + s;
    }
  }

  lemma ChunksAtSemicolon(rest: string, cur: string, o: SplitOptions)
    ensures Chunks(";" + rest, cur, o) == [cur] + Chunks(rest, "", o)
    ensures Chunks("", cur, o) == [cur]
  {
    assert (";" + rest)[1..] == rest;
  }

  lemma StatementsCons(s: string, chunks: seq<string>)
    requires Trim(s) == s && Kept(s)
    ensures Statements([s] + chunks) == [s] + Statements(chunks)
  {
    assert ([s] + chunks)[1..] == chunks;
  }

  /** A statement that splitting keeps as it is. */
  predicate WellWritten(s: string, o: SplitOptions) {
    SelfContained(s, o) && Trim(s) == s && Kept(s)
  }

  lemma SplitFirst(s: string, rest: string, o: SplitOptions)
    requires WellWritten(s, o)
    ensures Split(s + ";" + rest, o) == [s] + Split(rest, o)
  {
    assert s + ";" + rest == s + (";" + rest) && "" + s == s;
    ChunksThrough(s, ";" + rest, "", o);
    ChunksAtSemicolon(rest, s, o);
    StatementsCons(s, Chunks(rest, "", o));
  }

  lemma SplitLast(s: string, o: SplitOptions)
    requires WellWritten(s, o)
    ensures Split(s, o) == [s]
  {
    assert s + "" == s && "" + s == s;
    ChunksThrough(s, "", "", o);
    ChunksAtSemicolon("", s, o);
    StatementsCons(s, []);
    assert [s] + [] == [s];
  }

  lemma SplitNothing(o: SplitOptions)
    ensures Split("", o) == []
  {
    assert Chunks("", "", o) == [""] && Trim("") == "";
    assert Statements([""]) == [];
  }

  /** Splitting the statements of a script joined with semicolons returns exactly
      the statements. */
  lemma {:induction false} SplitOfJoin(stmts: seq<string>, o: SplitOptions)
    requires forall i :: 0 <= i < |stmts| ==> WellWritten(stmts[i], o)
    ensures Split(Join(stmts, ";"), o) == stmts
    decreases |stmts|
  {
    hide WellWritten, Split;
    if stmts == [] {
      SplitNothing(o);
    } else if |stmts| == 1 {
      SplitLast(stmts[0], o);
      assert stmts == [stmts[0]];
    } else {
      SplitOfJoin(stmts[1..], o);
      SplitFirst(stmts[0], Join(stmts[1..], ";"), o);
      assert stmts == [stmts[0]] + stmts[1..];
    }
  }

  // --- The scanning loop ---

  function Tail(rs: string, j: nat): string {
    if j <= |rs| then rs[j..] else ""
  }

  /** Scanning from i on comes to the same place as scanning from j on. */
  predicate SameScan(rs: string, i: nat, j: nat, c: char, o: SplitOptions) {
    i + ScanQuote(Tail(rs, i), c, o) == j + ScanQuote(Tail(rs, j), c, o)
  }

  predicate Escape(c: char, quote: char, o: SplitOptions) {
    c != quote && c == '\\' && quote == '\'' && o.backslashEscapes
  }

  predicate Doubles(rs: string, j: nat, c: char)
    requires j < |rs|
  {
    rs[j] == c && j + 1 < |rs| && rs[j + 1] == c
  }

  /** The end of the quoted text at i. */
  method QuoteEnd(rs: string, i: nat, o: SplitOptions) returns (end: nat)
    requires i < |rs| && IsQuote(rs[i], o)
    ensures end == i + Unit(rs[i..], o)
  {
    var c := rs[i];
    var j := i + 1;
    while j < |rs|
      invariant i + 1 <= j <= |rs| + 1 && SameScan(rs, i + 1, j, c, o)
    {
      ScanStep(rs, i + 1, j, c, o);
      hide SameScan;
      if rs[j] == c {
        if j + 1 < |rs| && rs[j + 1] == c {
          j := j + 2;
          continue;
        }
        break;
      }
      if rs[j] == '\\' && c == '\'' && o.backslashEscapes {
        j := j + 1;
      }
      j := j + 1;
    }
    QuoteUnitAt(rs, i, j, o);
    end := if j >= |rs| then |rs| else j + 1;
  }

  lemma QuoteUnitAt(rs: string, i: nat, j: nat, o: SplitOptions)
    requires i < |rs| && IsQuote(rs[i], o) && i < j && SameScan(rs, i + 1, j, rs[i], o)
    requires j < |rs| ==> rs[j] == rs[i] && !Doubles(rs, j, rs[i])
    ensures i + Unit(rs[i..], o) == if j >= |rs| then |rs| else j + 1
  {
    assert rs[i..][1..] == Tail(rs, i + 1);
    if j < |rs| {
      ScanStep(rs, i + 1, j, rs[i], o);
    } else {
      assert Tail(rs, j) == "";
    }
  }

  lemma ScanStep(rs: string, i: nat, j: nat, c: char, o: SplitOptions)
    requires j < |rs| && SameScan(rs, i, j, c, o)
    ensures Doubles(rs, j, c) || Escape(rs[j], c, o) ==> SameScan(rs, i, j + 2, c, o)
    ensures rs[j] == c && !Doubles(rs, j, c) ==> ScanQuote(Tail(rs, j), c, o) == 0
    ensures rs[j] != c && !Escape(rs[j], c, o) ==> SameScan(rs, i, j + 1, c, o)
  {
    var t := Tail(rs, j);
    assert t[1..] == Tail(rs, j + 1);
    if j + 1 < |rs| {
      assert t[2..] == Tail(rs, j + 2);
    }
  }

  method LineEnd(rs: string, i: nat) returns (end: nat)
    requires i <= |rs|
    ensures end == i + LineLength(rs[i..])
  {
    end := i;
    while end < |rs| && rs[end] != '\n'
      invariant i <= end <= |rs| && i + LineLength(rs[i..]) == end + LineLength(rs[end..])
    {
      assert rs[end..][1..] == rs[end + 1..];
      end := end + 1;
    }
  }

  /** The end of the dollar-quoted body at i, or of the dollar sign alone. */
  method DollarEnd(rs: string, i: nat) returns (end: nat)
    requires i < |rs| && rs[i] == '$'
    ensures end == i + DollarUnit(rs[i..])
  {
    var j := i + 1;
    assert rs[i..][1..] == rs[i + 1..];
    while j < |rs| && IsTagChar(rs[j])
      invariant i + 1 <= j <= |rs| && i + 1 + TagRun(rs[i + 1..]) == j + TagRun(rs[j..])
    {
      assert rs[j..][1..] == rs[j + 1..];
      j := j + 1;
    }
    if j < |rs| && rs[j] == '$' {
      var tag := rs[i..j + 1];
      assert OpeningTag(rs[i..]) == Some(tag) by { assert rs[i..][..j + 1 - i] == tag; }
      assert rs[i..][|tag|..] == rs[j + 1..];
      var body := Find(rs[j + 1..], tag);
      if body.Some? {
        return j + 1 + body.value + |tag|;
      }
    }
    return i + 1;
  }

  /** The end of the lexical unit at i. */
  method UnitEnd(script: string, i: nat, o: SplitOptions) returns (end: nat)
    requires i < |script|
    ensures end == i + Unit(script[i..], o)
  {
    var c, rest := script[i], script[i..];
    if IsQuote(c, o) {
      end := QuoteEnd(script, i, o);
    } else if StartsWith(rest, "--") {
      end := LineEnd(script, i);
    } else if StartsWith(rest, "/*") {
      var close := Find(script[i + 2..], "*/");
      assert rest[2..] == script[i + 2..];
      end := if close.Some? then i + 4 + close.value else |script|;
    } else if c == '$' && o.dollarQuotes {
      end := DollarEnd(script, i);
    } else {
      end := i + 1;
    }
  }

  /** The statements of the script. */
  method SplitSql(script: string, o: SplitOptions) returns (out: seq<string>)
    ensures out == Split(script, o)
  {
    out := [];
    var cur, i := "", 0;
    assert script[0..] == script && [] + Split(script, o) == Split(script, o);
    hide Unit, Kept, Trim;
    while i < |script|
      invariant 0 <= i <= |script|
      invariant out + Statements(Chunks(script[i..], cur, o)) == Split(script, o)
    {
      if script[i] == ';' {
        FlushFirst(out, script[i..], cur, o);
        assert script[i..][1..] == script[i + 1..];
        out := Flushed(out, cur);
        cur, i := "", i + 1;
      } else {
        var end := UnitEnd(script, i, o);
        NextUnit(script, i, end, cur, o);
        cur, i := cur + script[i..end], end;
      }
    }
    FlushLast(out, cur, o);
    out := Flushed(out, cur);
  }

  /** The output with the chunk read so far, if it is a statement. */
  function Flushed(out: seq<string>, cur: string): seq<string> {
    if Kept(cur) then out + [Trim(cur)] else out
  }

  lemma FlushFirst(out: seq<string>, rest: string, cur: string, o: SplitOptions)
    requires rest != "" && rest[0] == ';'
    ensures out + Statements(Chunks(rest, cur, o)) == Flushed(out, cur) + Statements(Chunks(rest[1..], "", o))
  {
    hide Kept, Trim;
    var more := Chunks(rest[1..], "", o);
    assert ([cur] + more)[1..] == more;
    assert out + ([Trim(cur)] + Statements(more)) == out + [Trim(cur)] + Statements(more);
    assert [] + Statements(more) == Statements(more);
  }

  lemma FlushLast(out: seq<string>, cur: string, o: SplitOptions)
    ensures out + Statements(Chunks("", cur, o)) == Flushed(out, cur)
  {
    hide Kept, Trim;
    assert [cur][1..] == [];
  }

  lemma NextUnit(script: string, i: nat, end: nat, cur: string, o: SplitOptions)
    requires i < |script| && script[i] != ';' && end == i + Unit(script[i..], o)
    ensures end <= |script| && Chunks(script[i..], cur, o) == Chunks(script[end..], cur + script[i..end], o)
  {
    var rest, n := script[i..], Unit(script[i..], o);
    assert rest[n..] == script[end..] && rest[..n] == script[i..end];
  }
}
