/** Printing a CREATE TABLE statement, and what parsing it gives back. */
module CreateTables {
  import opened Wrappers
  import opened Tokens
  import opened TableParser
  import opened Literals
  import opened SqlSplit

  // --- The printer ---

  /** A name that does not look quoted already. */
  predicate Quotable(name: string) {
    name == "" || name[0] != '"' || name[|name| - 1] != '"'
  }

  /** A delimited identifier, as in section 5.2 of ISO/IEC 9075-2 (SQL/Foundation). */
  function QuoteName(name: string): string {
    if Quotable(name) then QuoteWith(name, '"') else name
  }

  function Join(parts: seq<string>): string {
    if parts == [] then "" else if |parts| == 1 then parts[0] else parts[0] + ", " + Join(parts[1..])
  }

  function QuoteAll(names: seq<string>): (r: seq<string>)
    ensures |r| == |names|
  {
    seq(|names|, i requires 0 <= i < |names| => QuoteName(names[i]))
  }

  function QuoteColumns(names: seq<string>): string {
    Join(QuoteAll(names))
  }

  datatype TableColumn = TableColumn(name: string, definition: string)

  datatype TableConstraint =
    | PrimaryKeyOf(columns: seq<string>)
    | UniqueOf(name: string, columns: seq<string>, deferrable: string)
    | CheckOf(name: string, check: string)
    | ForeignKeyOf(name: string, columns: seq<string>, toTable: string, toColumns: seq<string>, actions: string)

  function NamedConstraint(name: string, body: string): string {
    "CONSTRAINT " + QuoteName(name) + " " + body
  }

  function ConstraintSQL(c: TableConstraint): string {
    match c
    case PrimaryKeyOf(columns) => "PRIMARY KEY (" + QuoteColumns(columns) + ")"
    case UniqueOf(name, columns, deferrable) => NamedConstraint(name,
      "UNIQUE (" + QuoteColumns(columns) + ")" + deferrable)
    case CheckOf(name, check) => NamedConstraint(name, "CHECK (" + check + ")")
    case ForeignKeyOf(name, columns, toTable, toColumns, actions) =>
      NamedConstraint(name, "FOREIGN KEY (" + QuoteColumns(columns) + ") " + ReferencesSQL(toTable, toColumns, actions))
  }

  function ReferencesSQL(table: string, columns: seq<string>, actions: string): string {
    "REFERENCES " + QuoteName(table) + " (" + QuoteColumns(columns) + ")" + actions
  }

  function ColumnSQL(c: TableColumn): string {
    QuoteName(c.name) + " " + c.definition
  }

  function AllSQL(cols: seq<TableColumn>, cons: seq<TableConstraint>): (r: seq<string>)
    ensures |r| == |cols| + |cons|
  {
    seq(|cols|, i requires 0 <= i < |cols| => ColumnSQL(cols[i]))
      + seq(|cons|, i requires 0 <= i < |cons| => ConstraintSQL(cons[i]))
  }

  function TableSQL(table: string, cols: seq<TableColumn>, cons: seq<TableConstraint>): string {
    "CREATE TABLE " + QuoteName(table) + " (" + Join(AllSQL(cols, cons)) + ")"
  }

  // --- What the texts in it have to be ---

  /** Parentheses match. */
  predicate Balanced(toks: seq<Token>, depth: nat) {
    if toks == [] then depth == 0
    else if Opens(toks[0]) then Balanced(toks[1..], depth + 1)
    else if Closes(toks[0]) then depth > 0 && Balanced(toks[1..], depth - 1)
    else Balanced(toks[1..], depth)
  }

  /** And no comma stands outside them. */
  predicate Flat(toks: seq<Token>, depth: nat) {
    if toks == [] then depth == 0
    else if Opens(toks[0]) then Flat(toks[1..], depth + 1)
    else if Closes(toks[0]) then depth > 0 && Flat(toks[1..], depth - 1)
    else !(IsComma(toks[0]) && depth == 0) && Flat(toks[1..], depth)
  }

  predicate BeginsConstraint(t: Token) {
    Upper(t) == "CONSTRAINT" || Upper(t) == "UNIQUE" || Upper(t) == "CHECK" || Upper(t) == "REFERENCES"
  }

  /** Type and default of a column: closed text, no comma at the top, no word that
      begins a constraint. */
  predicate PlainDefinition(text: string) {
    Closed(text) && Flat(TokensOf(text), 0) && forall i :: 0 <= i < |TokensOf(text)| ==>
      !BeginsConstraint(TokensOf(text)[i])
  }

  /** What may follow a constraint. */
  predicate PlainTrailer(text: string) {
    (text == "" || text[0] == ' ') && Closed(text) && Flat(TokensOf(text), 0)
  }

  predicate AllQuotable(names: seq<string>) {
    forall i :: 0 <= i < |names| ==> Quotable(names[i])
  }

  predicate PlainColumn(c: TableColumn) {
    Quotable(c.name) && PlainDefinition(c.definition)
  }

  predicate PlainConstraint(c: TableConstraint) {
    match c
    case PrimaryKeyOf(columns) => AllQuotable(columns)
    case UniqueOf(name, columns, deferrable) => Quotable(name) && AllQuotable(columns) && PlainTrailer(deferrable)
    case CheckOf(name, check) => Quotable(name) && Closed(check) && Balanced(TokensOf(check), 0)
    case ForeignKeyOf(name, columns, toTable, toColumns, actions) =>
      Quotable(name) && AllQuotable(columns) && Quotable(toTable) && AllQuotable(toColumns) && PlainTrailer(actions)
  }

  // --- Its tokens ---

  function W(s: string): Token {
    Token(s, Word)
  }

  function Q(s: string): Token {
    Token(s, Quoted)
  }

  const OPEN := Token("(", Punct)
  const CLOSE := Token(")", Punct)
  const COMMA := Token(",", Punct)

  function NameTokens(names: seq<string>): seq<Token> {
    if names == [] then [] else if |names| == 1 then [Q(names[0])] else [Q(names[0]), COMMA] + NameTokens(names[1..])
  }

  function ConstraintTokens(c: TableConstraint): seq<Token> {
    match c
    case PrimaryKeyOf(columns) => [W("PRIMARY"), W("KEY"), OPEN] + NameTokens(columns) + [CLOSE]
    case UniqueOf(name, columns, deferrable) =>
      [W("CONSTRAINT"), Q(name), W("UNIQUE"), OPEN] + NameTokens(columns) + [CLOSE] + TokensOf(deferrable)
    case CheckOf(name, check) => [W("CONSTRAINT"), Q(name), W("CHECK"), OPEN] + TokensOf(check) + [CLOSE]
    case ForeignKeyOf(name, columns, toTable, toColumns, actions) =>
      [W("CONSTRAINT"), Q(name), W("FOREIGN"), W("KEY"), OPEN] + NameTokens(columns) + [CLOSE]
      + ([W("REFERENCES"), Q(toTable), OPEN] + NameTokens(toColumns) + [CLOSE] + TokensOf(actions))
  }

  function ColumnTokens(c: TableColumn): seq<Token> {
    [Q(c.name)] + TokensOf(c.definition)
  }

  lemma {:induction false} UnquoteDoubled(s: string, rest: string)
    requires rest == "" || rest[0] != '"'
    ensures Unquote(Doubled(s, '"') + ("\"" + rest), '"', true) == Run(s, |Doubled(s, '"')| + 1)
    ensures Ends(Doubled(s, '"') + ("\"" + rest), '"', true)
  {
    var tail := "\"" + rest;
    if s == "" {
      assert "" + tail == tail;
    } else {
      var d := Doubled(s[1..], '"');
      UnquoteDoubled(s[1..], rest);
      assert [s[0]] + s[1..] == s;
      if s[0] == '"' {
        DropTwo('"', '"', d, tail);
      } else {
        DropOne(s[0], d, tail);
      }
    }
  }

  lemma DropTwo(a: char, b: char, d: string, tail: string)
    ensures ([a, b] + d + tail)[2..] == d + tail && ([a, b] + d + tail)[0] == a && ([a, b] + d + tail)[1] == b
  {}

  lemma DropOne(a: char, d: string, tail: string)
    ensures ([a] + d + tail)[1..] == d + tail && ([a] + d + tail)[0] == a
  {}

  lemma LexQuoted(name: string, rest: string, ts: seq<Token>)
    requires Lexes(rest, ts) && Quotable(name) && (rest == "" || rest[0] != '"')
    ensures Lexes(QuoteName(name) + rest, [Q(name)] + ts)
  {
    QuotedStepIs(name, rest);
    hide NextStep, StepEnds, Closed, TokensOf;
    LexStep(QuoteName(name), rest, Some(Q(name)), ts);
  }

  lemma QuotedStepIs(name: string, rest: string)
    requires Quotable(name) && (rest == "" || rest[0] != '"')
    ensures NextStep(QuoteName(name) + rest) == Step(Some(Q(name)), |QuoteName(name)|) &&
      StepEnds(QuoteName(name) + rest)
  {
    hide Unquote, Ends, Doubled, WordLength, OtherLength, LineLength, Find, StartsWith;
    var s, d := QuoteName(name) + rest, Doubled(name, '"');
    QuotedSplits(d, rest);
    UnquoteDoubled(name, rest);
    StartsNot(s, "--");
    StartsNot(s, "/*");
    QuotedStepOf(s);
  }

  lemma QuotedSplits(d: string, rest: string)
    ensures var s := ['"'] + d + ['"'] + rest;
      s[0] == '"' && s[1..] == d + ("\"" + rest)
  {}

  lemma QuotedStepOf(s: string)
    requires s != "" && s[0] == '"' && !StartsWith(s, "--") && !StartsWith(s, "/*")
    ensures NextStep(s) == QuotedStep(s, '"', true, Quoted) && (StepEnds(s) <==> Ends(s[1..], '"', true))
  {
    hide Unquote, Ends, WordLength, OtherLength, LineLength, Find, StartsWith;
  }

  lemma Keywords()
    ensures IsWord("CONSTRAINT") && IsWord("PRIMARY") && IsWord("KEY") && IsWord("UNIQUE") && IsWord("CHECK")
    ensures IsWord("FOREIGN") && IsWord("REFERENCES") && IsWord("CREATE") && IsWord("TABLE")
  {}

  lemma LexWordThen(w: string, rest: string, ts: seq<Token>)
    requires Lexes(rest, ts) && IsWord(w)
    ensures Lexes(w + (" " + rest), [W(w)] + ts)
  {
    hide Closed, TokensOf, IsWord;
    LexBlank(rest, ts);
    LexWord(w, " " + rest, ts);
  }

  lemma {:induction false} LexNames(names: seq<string>, rest: string, ts: seq<Token>)
    requires AllQuotable(names) && Lexes(rest, ts) && rest != "" && rest[0] == ')'
    ensures Lexes(QuoteColumns(names) + rest, NameTokens(names) + ts)
    decreases |names|
  {
    hide Closed, TokensOf, Quotable, QuoteName;
    if names == [] {
      assert QuoteColumns(names) + rest == rest && NameTokens(names) + ts == ts;
    } else if |names| == 1 {
      LexQuoted(names[0], rest, ts);
    } else {
      var tail := names[1..];
      assert QuoteAll(names)[1..] == QuoteAll(tail);
      LexNames(tail, rest, ts);
      LexSeparated(names[0], QuoteColumns(tail) + rest, NameTokens(tail) + ts);
      var q, more := QuoteName(names[0]), QuoteColumns(tail);
      assert q + ", " + more + rest == q + ("," + (" " + (more + rest)));
      assert [Q(names[0]), COMMA] + NameTokens(tail) + ts == [Q(names[0])] + ([COMMA] + (NameTokens(tail) + ts));
    }
  }

  lemma LexSeparated(name: string, rest: string, ts: seq<Token>)
    requires Quotable(name) && Lexes(rest, ts)
    ensures Lexes(QuoteName(name) + ("," + (" " + rest)), [Q(name)] + ([COMMA] + ts))
  {
    hide Closed, TokensOf, Quotable, QuoteName;
    LexBlank(rest, ts);
    LexPunct(',', " " + rest, ts);
    LexQuoted(name, "," + (" " + rest), [COMMA] + ts);
  }

  /** A column list in parentheses. */
  lemma LexColumns(names: seq<string>, rest: string, ts: seq<Token>)
    requires AllQuotable(names) && Lexes(rest, ts)
    ensures Lexes("(" + (QuoteColumns(names) + (")" + rest)), [OPEN] + (NameTokens(names) + ([CLOSE] + ts)))
  {
    hide Closed, TokensOf, QuoteColumns, NameTokens, AllQuotable;
    LexPunct(')', rest, ts);
    LexNames(names, ")" + rest, [CLOSE] + ts);
    LexPunct('(', QuoteColumns(names) + (")" + rest), NameTokens(names) + ([CLOSE] + ts));
  }

  lemma LexNamed(name: string, body: string, ts: seq<Token>)
    requires Quotable(name) && Lexes(body, ts)
    ensures Lexes(NamedConstraint(name, body), [W("CONSTRAINT"), Q(name)] + ts)
  {
    Keywords();
    hide Closed, TokensOf, Quotable, QuoteName, IsWord;
    LexBlank(body, ts);
    LexQuoted(name, " " + body, ts);
    LexWordThen("CONSTRAINT", QuoteName(name) + (" " + body), [Q(name)] + ts);
    assert "CONSTRAINT " == "CONSTRAINT" + " ";
    assert NamedConstraint(name, body) == "CONSTRAINT" + (" " + (QuoteName(name) + (" " + body)));
    assert [W("CONSTRAINT")] + ([Q(name)] + ts) == [W("CONSTRAINT"), Q(name)] + ts;
  }

  /** A keyword and a group after it, as they are written and as they are read. */
  lemma GroupText(w: string, inner: string, tail: string)
    ensures (w + " (") + inner + ")" + tail == w + (" " + ("(" + (inner + (")" + tail))))
  {
    assert w + " (" == w + (" " + "(");
  }

  lemma GroupTokens<T>(a: T, b: T, inner: seq<T>, c: T, tail: seq<T>)
    ensures [a, b] + inner + [c] + tail == [a] + ([b] + (inner + ([c] + tail)))
  {}

  /** A keyword and a column list after it. */
  lemma LexGroup(w: string, columns: seq<string>, rest: string, ts: seq<Token>)
    requires IsWord(w) && AllQuotable(columns) && Lexes(rest, ts)
    ensures Lexes((w + " (") + QuoteColumns(columns) + ")" + rest, [W(w), OPEN] + NameTokens(columns) + [CLOSE] + ts)
  {
    hide Closed, TokensOf, QuoteColumns, NameTokens, AllQuotable, IsWord;
    LexColumns(columns, rest, ts);
    LexWordThen(w, "(" + (QuoteColumns(columns) + (")" + rest)), [OPEN] + (NameTokens(columns) + ([CLOSE] + ts)));
    GroupText(w, QuoteColumns(columns), rest);
    GroupTokens(W(w), OPEN, NameTokens(columns), CLOSE, ts);
  }

  lemma NothingLexes()
    ensures Lexes("", [])
  {}

  lemma LexPrimaryKey(columns: seq<string>)
    requires AllQuotable(columns)
    ensures Lexes(ConstraintSQL(PrimaryKeyOf(columns)), ConstraintTokens(PrimaryKeyOf(columns)))
  {
    Keywords();
    NothingLexes();
    hide Closed, TokensOf, QuoteColumns, NameTokens, AllQuotable, IsWord;
    LexGroup("KEY", columns, "", []);
    var text, ts := ("KEY" + " (") + QuoteColumns(columns) + ")" + "",
      [W("KEY"), OPEN] + NameTokens(columns) + [CLOSE] + [];
    LexWordThen("PRIMARY", text, ts);
    PrimaryKeyText(QuoteColumns(columns));
    PrimaryKeyTokens(W("PRIMARY"), W("KEY"), OPEN, NameTokens(columns), CLOSE);
  }

  lemma PrimaryKeyText(cols: string)
    ensures "PRIMARY KEY (" + cols + ")" == "PRIMARY" + (" " + (("KEY" + " (") + cols + ")" + ""))
  {
    assert "PRIMARY KEY (" == "PRIMARY" + (" " + ("KEY" + " ("));
  }

  lemma PrimaryKeyTokens<T>(a: T, b: T, c: T, inner: seq<T>, d: T)
    ensures [a, b, c] + inner + [d] == [a] + ([b, c] + inner + [d] + [])
  {}

  lemma LexUnique(name: string, columns: seq<string>, deferrable: string)
    requires PlainConstraint(UniqueOf(name, columns, deferrable))
    ensures var c := UniqueOf(name, columns, deferrable); Lexes(ConstraintSQL(c), ConstraintTokens(c))
  {
    Keywords();
    var tail := TokensOf(deferrable);
    assert Lexes(deferrable, tail);
    hide Closed, TokensOf, QuoteColumns, NameTokens, AllQuotable, IsWord, Quotable, Flat, NamedConstraint;
    LexGroup("UNIQUE", columns, deferrable, tail);
    UniqueText();
    LexNamed(name, "UNIQUE (" + QuoteColumns(columns) + ")" + deferrable,
      [W("UNIQUE"), OPEN] + NameTokens(columns) + [CLOSE] + tail);
    NamedTokens(W("CONSTRAINT"), Q(name), W("UNIQUE"), OPEN, NameTokens(columns), CLOSE, tail);
  }

  lemma UniqueText()
    ensures "UNIQUE (" == "UNIQUE" + " (" && "CHECK (" == "CHECK" + " ("
  {}

  lemma NamedTokens<T>(a: T, b: T, c: T, d: T, inner: seq<T>, e: T, tail: seq<T>)
    ensures [a, b, c, d] + inner + [e] + tail == [a, b] + ([c, d] + inner + [e] + tail)
  {}

  lemma LexCheck(name: string, check: string)
    requires PlainConstraint(CheckOf(name, check))
    ensures var c := CheckOf(name, check); Lexes(ConstraintSQL(c), ConstraintTokens(c))
  {
    Keywords();
    NothingLexes();
    var ts := TokensOf(check);
    assert Lexes(check, ts);
    hide Closed, TokensOf, IsWord, Quotable, Balanced, NamedConstraint;
    LexPunct(')', "", []);
    LexText(check, ")" + "", ts, [CLOSE] + []);
    LexPunct('(', check + (")" + ""), ts + ([CLOSE] + []));
    LexWordThen("CHECK", "(" + (check + (")" + "")), [OPEN] + (ts + ([CLOSE] + [])));
    GroupText("CHECK", check, "");
    GroupTokens(W("CHECK"), OPEN, ts, CLOSE, []);
    UniqueText();
    LexNamed(name, "CHECK (" + check + ")" + "", [W("CHECK"), OPEN] + ts + [CLOSE] + []);
    NamedTokens(W("CONSTRAINT"), Q(name), W("CHECK"), OPEN, ts, CLOSE, []);
    NothingAfter("CHECK (" + check + ")", [W("CONSTRAINT"), Q(name), W("CHECK"), OPEN] + ts + [CLOSE]);
  }

  lemma NothingAfter(s: string, ts: seq<Token>)
    ensures s + "" == s && ts + [] == ts
  {}

  /** What a foreign key points at. */
  lemma LexReferences(table: string, columns: seq<string>, actions: string)
    requires Quotable(table) && AllQuotable(columns) && Closed(actions)
    ensures Lexes(ReferencesSQL(table, columns, actions),
        [W("REFERENCES"), Q(table), OPEN] + NameTokens(columns) + [CLOSE] + TokensOf(actions))
  {
    Keywords();
    var tail := TokensOf(actions);
    assert Lexes(actions, tail);
    hide Closed, TokensOf, QuoteColumns, NameTokens, AllQuotable, IsWord, Quotable, QuoteName;
    LexColumns(columns, actions, tail);
    var group, tokens := "(" + (QuoteColumns(columns) + (")" + actions)),
      [OPEN] + (NameTokens(columns) + ([CLOSE] + tail));
    LexBlank(group, tokens);
    LexQuoted(table, " " + group, tokens);
    LexWordThen("REFERENCES", QuoteName(table) + (" " + group), [Q(table)] + tokens);
    ReferencesText(QuoteName(table), QuoteColumns(columns), actions);
    ReferencesTokens(W("REFERENCES"), Q(table), OPEN, NameTokens(columns), CLOSE, tail);
  }

  lemma ReferencesText(table: string, cols: string, actions: string)
    ensures "REFERENCES " + table + " (" + cols + ")" + actions
         == "REFERENCES" + (" " + (table + (" " + ("(" + (cols + (")" + actions))))))
  {
    assert "REFERENCES " == "REFERENCES" + " " && " (" == " " + "(";
  }

  lemma ReferencesTokens<T>(a: T, b: T, c: T, inner: seq<T>, d: T, tail: seq<T>)
    ensures [a, b, c] + inner + [d] + tail == [a] + ([b] + ([c] + (inner + ([d] + tail))))
  {}

  lemma LexForeignKey(name: string, columns: seq<string>, toTable: string, toColumns: seq<string>, actions: string)
    requires PlainConstraint(ForeignKeyOf(name, columns, toTable, toColumns, actions))
    ensures var c := ForeignKeyOf(name, columns, toTable, toColumns, actions); Lexes(ConstraintSQL(c),
      ConstraintTokens(c))
  {
    Keywords();
    hide Closed, TokensOf, QuoteColumns, NameTokens, AllQuotable, IsWord, Quotable, QuoteName, Flat, NamedConstraint,
      ReferencesSQL;
    LexReferences(toTable, toColumns, actions);
    var refs := [W("REFERENCES"), Q(toTable), OPEN] + NameTokens(toColumns) + [CLOSE] + TokensOf(actions);
    var text := ReferencesSQL(toTable, toColumns, actions);
    LexForeign(columns, text, refs);
    LexNamed(name, "FOREIGN KEY (" + QuoteColumns(columns) + ") " + text,
      [W("FOREIGN"), W("KEY"), OPEN] + NameTokens(columns) + [CLOSE] + refs);
    ForeignKeyTokens(W("CONSTRAINT"), Q(name), W("FOREIGN"), W("KEY"), OPEN, NameTokens(columns), CLOSE, refs);
  }

  lemma LexForeign(columns: seq<string>, text: string, refs: seq<Token>)
    requires AllQuotable(columns) && Lexes(text, refs)
    ensures Lexes("FOREIGN KEY (" + QuoteColumns(columns) + ") " + text,
      [W("FOREIGN"), W("KEY"), OPEN] + NameTokens(columns) + [CLOSE] + refs)
  {
    Keywords();
    hide Closed, TokensOf, QuoteColumns, NameTokens, AllQuotable, IsWord;
    LexBlank(text, refs);
    LexGroup("KEY", columns, " " + text, refs);
    LexWordThen("FOREIGN", ("KEY" + " (") + QuoteColumns(columns) + ")" + (" " + text),
      [W("KEY"), OPEN] + NameTokens(columns) + [CLOSE] + refs);
    ForeignText(QuoteColumns(columns), text);
    ForeignTokens(W("FOREIGN"), W("KEY"), OPEN, NameTokens(columns), CLOSE, refs);
  }

  lemma ForeignText(cols: string, text: string)
    ensures "FOREIGN KEY (" + cols + ") " + text == "FOREIGN" + (" " + (("KEY" + " (") + cols + ")" + (" " + text)))
  {
    assert "FOREIGN KEY (" == "FOREIGN" + (" " + ("KEY" + " (")) && ") " == ")" + " ";
  }

  lemma ForeignTokens<T>(a: T, b: T, c: T, inner: seq<T>, d: T, tail: seq<T>)
    ensures [a, b, c] + inner + [d] + tail == [a] + ([b, c] + inner + [d] + tail)
  {}

  lemma ForeignKeyTokens<T>(a: T, b: T, c: T, d: T, e: T, inner: seq<T>, f: T, refs: seq<T>)
    ensures [a, b, c, d, e] + inner + [f] + refs == [a, b] + ([c, d, e] + inner + [f] + refs)
  {}

  lemma LexConstraint(c: TableConstraint)
    requires PlainConstraint(c)
    ensures Lexes(ConstraintSQL(c), ConstraintTokens(c))
  {
    match c
    case PrimaryKeyOf(columns) => LexPrimaryKey(columns);
    case UniqueOf(name, columns, deferrable) => LexUnique(name, columns, deferrable);
    case CheckOf(name, check) => LexCheck(name, check);
    case ForeignKeyOf(name, columns, toTable, toColumns, actions) => LexForeignKey(name, columns, toTable, toColumns,
      actions);
  }

  lemma LexColumn(c: TableColumn)
    requires PlainColumn(c)
    ensures Lexes(ColumnSQL(c), ColumnTokens(c))
  {
    hide Closed, TokensOf, Quotable, QuoteName, Flat, BeginsConstraint;
    var ts := TokensOf(c.definition);
    LexBlank(c.definition, ts);
    LexQuoted(c.name, " " + c.definition, ts);
    SpacedText(QuoteName(c.name), c.definition);
  }

  lemma SpacedText(a: string, b: string)
    ensures a + " " + b == a + (" " + b)
  {}

  // --- The definitions, put together and taken apart ---

  function JoinTokens(parts: seq<seq<Token>>): seq<Token> {
    if parts == [] then [] else if |parts| == 1 then parts[0] else parts[0] + ([COMMA] + JoinTokens(parts[1..]))
  }

  lemma {:induction false} LexJoin(parts: seq<string>, tss: seq<seq<Token>>, rest: string, ts: seq<Token>)
    requires |parts| == |tss| && (forall i :: 0 <= i < |parts| ==> Lexes(parts[i], tss[i]))
    requires Lexes(rest, ts) && rest != "" && rest[0] == ')'
    ensures Lexes(Join(parts) + rest, JoinTokens(tss) + ts)
    decreases |parts|
  {
    if parts == [] {
      assert Join(parts) + rest == rest && JoinTokens(tss) + ts == ts;
    } else if |parts| == 1 {
      assert Lexes(parts[0], tss[0]);
      LexText(parts[0], rest, tss[0], ts);
    } else {
      assert Lexes(parts[0], tss[0]);
      LexJoin(parts[1..], tss[1..], rest, ts);
      hide Lexes;
      LexJoinStep(parts, tss, rest, ts);
    }
  }

  lemma LexJoinStep(parts: seq<string>, tss: seq<seq<Token>>, rest: string, ts: seq<Token>)
    requires |parts| == |tss| && |parts| > 1 && Lexes(parts[0], tss[0])
    requires Lexes(Join(parts[1..]) + rest, JoinTokens(tss[1..]) + ts)
    ensures Lexes(Join(parts) + rest, JoinTokens(tss) + ts)
  {
    var more, tokens := Join(parts[1..]), JoinTokens(tss[1..]);
    hide Closed, TokensOf;
    LexBlank(more + rest, tokens + ts);
    LexPunct(',', " " + (more + rest), tokens + ts);
    LexText(parts[0], "," + (" " + (more + rest)), tss[0], [COMMA] + (tokens + ts));
    JoinText(parts[0], more, rest);
    JoinRegroup(tss[0], COMMA, tokens, ts);
  }

  lemma JoinText(part: string, more: string, rest: string)
    ensures part + ", " + more + rest == part + ("," + (" " + (more + rest)))
  {
    assert ", " == "," + " ";
  }

  lemma JoinRegroup<T>(part: seq<T>, comma: T, more: seq<T>, rest: seq<T>)
    ensures part + ([comma] + more) + rest == part + ([comma] + (more + rest))
  {}
}
