/** Parsing a printed CREATE TABLE statement gives back its columns and constraints. */
module TableRoundTrips {
  import opened Wrappers
  import opened Tokens
  import opened TableParser
  import opened CreateTables

  // --- Parentheses in token lists ---

  lemma {:induction false} FlatOver(inner: seq<Token>, depth: nat, outer: nat, rest: seq<Token>)
    requires Balanced(inner, depth) && Flat(rest, outer) && outer > 0
    ensures Flat(inner + rest, depth + outer)
    decreases |inner|
  {
    if inner == [] {
      assert inner + rest == rest;
    } else {
      var t := inner[0];
      assert (inner + rest)[1..] == inner[1..] + rest && (inner + rest)[0] == t;
      FlatOver(inner[1..], if Opens(t) then depth + 1 else if Closes(t) then depth - 1 else depth, outer, rest);
    }
  }

  /** A group in parentheses hides its commas. */
  lemma FlatGroup(inner: seq<Token>, tail: seq<Token>)
    requires Balanced(inner, 0) && Flat(tail, 0)
    ensures Flat([OPEN] + inner + [CLOSE] + tail, 0)
  {
    var closing := [CLOSE] + tail;
    assert closing[1..] == tail;
    FlatOver(inner, 0, 1, closing);
    var all := [OPEN] + inner + [CLOSE] + tail;
    assert all[1..] == inner + closing && all[0] == OPEN;
  }

  /** Tokens that are no punctuation. */
  predicate NoPunct(ts: seq<Token>) {
    forall i :: 0 <= i < |ts| ==> ts[i].kind != Punct
  }

  lemma {:induction false} FlatBehind(ts: seq<Token>, rest: seq<Token>)
    requires NoPunct(ts) && Flat(rest, 0)
    ensures Flat(ts + rest, 0)
  {
    if ts == [] {
      assert ts + rest == rest;
    } else {
      FlatBehind(ts[1..], rest);
      assert (ts + rest)[1..] == ts[1..] + rest && (ts + rest)[0] == ts[0];
    }
  }

  lemma {:induction false} NamesBalanced(names: seq<string>)
    ensures Balanced(NameTokens(names), 0)
  {
    if |names| > 1 {
      var ts := NameTokens(names);
      NamesBalanced(names[1..]);
      assert ts[1..][1..] == NameTokens(names[1..]) && ts[0] == Q(names[0]) && ts[1..][0] == COMMA;
    } else if |names| == 1 {
      assert NameTokens(names)[1..] == [];
    }
  }

  lemma ConstraintFlat(c: TableConstraint)
    requires PlainConstraint(c)
    ensures Flat(ConstraintTokens(c), 0) && ConstraintTokens(c) != []
  {
    hide Flat, Balanced, NameTokens, AllQuotable, Quotable, TokensOf, Closed;
    NothingFlat();
    match c
    case PrimaryKeyOf(columns) =>
      NamesBalanced(columns);
      GroupFlat([W("PRIMARY"), W("KEY")], NameTokens(columns), []);
      assert ConstraintTokens(c) == [W("PRIMARY"), W("KEY")] + ([OPEN] + NameTokens(columns) + [CLOSE] + []);
    case UniqueOf(name, columns, deferrable) =>
      NamesBalanced(columns);
      GroupFlat([W("CONSTRAINT"), Q(name), W("UNIQUE")], NameTokens(columns), TokensOf(deferrable));
      NamedGroup([W("CONSTRAINT"), Q(name), W("UNIQUE")], OPEN, NameTokens(columns), CLOSE, TokensOf(deferrable));
      assert [W("CONSTRAINT"), Q(name), W("UNIQUE")] + [OPEN] == [W("CONSTRAINT"), Q(name), W("UNIQUE"), OPEN];
    case CheckOf(name, check) =>
      GroupFlat([W("CONSTRAINT"), Q(name), W("CHECK")], TokensOf(check), []);
      assert ConstraintTokens(c) == [W("CONSTRAINT"), Q(name), W("CHECK")] + ([OPEN] + TokensOf(check) + [CLOSE] + []);
    case ForeignKeyOf(name, columns, toTable, toColumns, actions) =>
      NamesBalanced(columns);
      NamesBalanced(toColumns);
      GroupFlat([W("REFERENCES"), Q(toTable)], NameTokens(toColumns), TokensOf(actions));
      var refs := [W("REFERENCES"), Q(toTable)] + ([OPEN] + NameTokens(toColumns) + [CLOSE] + TokensOf(actions));
      NamedGroup([W("REFERENCES"), Q(toTable)], OPEN, NameTokens(toColumns), CLOSE, TokensOf(actions));
      GroupFlat([W("CONSTRAINT"), Q(name), W("FOREIGN"), W("KEY")], NameTokens(columns), refs);
      NamedGroup([W("CONSTRAINT"), Q(name), W("FOREIGN"), W("KEY")], OPEN, NameTokens(columns), CLOSE, refs);
      assert [W("REFERENCES"), Q(toTable)] + [OPEN] == [W("REFERENCES"), Q(toTable), OPEN];
      assert [W("CONSTRAINT"), Q(name), W("FOREIGN"), W("KEY")] + [OPEN]
        == [W("CONSTRAINT"), Q(name), W("FOREIGN"), W("KEY"), OPEN];
  }

  lemma NothingFlat()
    ensures Flat([], 0)
  {}

  lemma NamedGroup<T>(head: seq<T>, open: T, inner: seq<T>, close: T, tail: seq<T>)
    ensures head + ([open] + inner + [close] + tail) == head + [open] + inner + [close] + tail
  {}

  lemma GroupFlat(head: seq<Token>, inner: seq<Token>, tail: seq<Token>)
    requires NoPunct(head) && Balanced(inner, 0) && Flat(tail, 0)
    ensures Flat(head + ([OPEN] + inner + [CLOSE] + tail), 0)
  {
    hide Flat, Balanced;
    FlatGroup(inner, tail);
    FlatBehind(head, [OPEN] + inner + [CLOSE] + tail);
  }

  lemma ColumnFlat(c: TableColumn)
    requires PlainColumn(c)
    ensures Flat(ColumnTokens(c), 0)
  {
    FlatBehind([Q(c.name)], TokensOf(c.definition));
  }

  // --- The definitions, taken apart ---

  lemma {:induction false} DefinitionsOver(toks: seq<Token>, depth: nat, cur: seq<Token>, more: seq<Token>)
    requires Flat(toks, depth)
    ensures Definitions(toks + more, depth, cur) == Definitions(more, 0, cur + toks)
    decreases |toks|
  {
    if toks == [] {
      assert toks + more == more && cur + toks == cur;
    } else {
      var t := toks[0];
      assert (toks + more)[1..] == toks[1..] + more && (toks + more)[0] == t;
      DefinitionsOver(toks[1..], if Opens(t) then depth + 1 else if Closes(t) then depth - 1 else depth, cur + [t],
        more);
      assert cur + [t] + toks[1..] == cur + toks;
    }
  }

  ghost predicate AllFlat(tss: seq<seq<Token>>) {
    forall i :: 0 <= i < |tss| ==> tss[i] != [] && Flat(tss[i], 0)
  }

  lemma {:induction false} DefinitionsJoined(tss: seq<seq<Token>>)
    requires AllFlat(tss)
    ensures Definitions(JoinTokens(tss) + [CLOSE], 0, []) == tss
    decreases |tss|
  {
    if tss == [] {
      assert JoinTokens(tss) + [CLOSE] == [CLOSE];
    } else if |tss| == 1 {
      DefinitionsOver(tss[0], 0, [], [CLOSE]);
      assert [] + tss[0] == tss[0];
    } else {
      var more := [COMMA] + JoinTokens(tss[1..]) + [CLOSE];
      DefinitionsOver(tss[0], 0, [], more);
      assert [] + tss[0] == tss[0] && JoinTokens(tss) + [CLOSE] == tss[0] + more;
      assert more[1..] == JoinTokens(tss[1..]) + [CLOSE] && more[0] == COMMA;
      DefinitionsJoined(tss[1..]);
      assert [tss[0]] + tss[1..] == tss;
    }
  }

  function AllTokens(cols: seq<TableColumn>, cons: seq<TableConstraint>): (r: seq<seq<Token>>)
    ensures |r| == |cols| + |cons|
  {
    seq(|cols|, i requires 0 <= i < |cols| => ColumnTokens(cols[i]))
    + seq(|cons|, i requires 0 <= i < |cons| => ConstraintTokens(cons[i]))
  }

  ghost predicate AllPlain(cols: seq<TableColumn>, cons: seq<TableConstraint>) {
    PlainColumns(cols) && PlainConstraints(cons)
  }

  lemma PartLexes(cols: seq<TableColumn>, cons: seq<TableConstraint>, i: nat)
    requires AllPlain(cols, cons) && i < |cols| + |cons|
    ensures Lexes(AllSQL(cols, cons)[i], AllTokens(cols, cons)[i])
    ensures AllTokens(cols, cons)[i] != [] && Flat(AllTokens(cols, cons)[i], 0)
  {
    hide Lexes, Flat, ColumnTokens, ConstraintTokens, ColumnSQL, ConstraintSQL, PlainColumn, PlainConstraint;
    if i < |cols| {
      LexColumn(cols[i]);
      ColumnFlat(cols[i]);
      ColumnNotEmpty(cols[i]);
    } else {
      LexConstraint(cons[i - |cols|]);
      ConstraintFlat(cons[i - |cols|]);
    }
  }

  lemma ColumnNotEmpty(c: TableColumn)
    ensures ColumnTokens(c) != []
  {}

  /** The tokens of the statement. */
  lemma LexTable(table: string, cols: seq<TableColumn>, cons: seq<TableConstraint>)
    requires Quotable(table) && AllPlain(cols, cons)
    ensures TokensOf(TableSQL(table, cols, cons))
         == [W("CREATE"), W("TABLE"), Q(table)] + ([OPEN] + (JoinTokens(AllTokens(cols, cons)) + [CLOSE]))
  {
    var parts, tss := AllSQL(cols, cons), AllTokens(cols, cons);
    Keywords();
    NothingLexes();
    forall i | 0 <= i < |parts| ensures Lexes(parts[i], tss[i]) {
      PartLexes(cols, cons, i);
    }
    hide Closed, TokensOf, Join, JoinTokens, AllSQL, AllTokens, IsWord, Quotable, QuoteName, AllPlain;
    LexPunct(')', "", []);
    LexJoin(parts, tss, ")" + "", [CLOSE] + []);
    var body, inner := Join(parts) + (")" + ""), JoinTokens(tss) + ([CLOSE] + []);
    LexPunct('(', body, inner);
    LexBlank("(" + body, [OPEN] + inner);
    LexQuoted(table, " " + ("(" + body), [OPEN] + inner);
    LexWordThen("TABLE", QuoteName(table) + (" " + ("(" + body)), [Q(table)] + ([OPEN] + inner));
    LexWordThen("CREATE", "TABLE" + (" " + (QuoteName(table) + (" " + ("(" + body)))),
      [W("TABLE")] + ([Q(table)] + ([OPEN] + inner)));
    TableText(QuoteName(table), Join(parts));
    TableTokens(W("CREATE"), W("TABLE"), Q(table), OPEN, JoinTokens(tss), CLOSE);
  }

  lemma TableText(table: string, body: string)
    ensures "CREATE TABLE " + table + " (" + body + ")"
         == "CREATE" + (" " + ("TABLE" + (" " + (table + (" " + ("(" + (body + (")" + ""))))))))
  {
    assert "CREATE TABLE " == "CREATE" + (" " + ("TABLE" + " ")) && " (" == " " + "(";
  }

  lemma TableTokens<T>(a: T, b: T, c: T, d: T, inner: seq<T>, e: T)
    ensures [a, b, c] + ([d] + (inner + [e])) == [a] + ([b] + ([c] + ([d] + (inner + ([e] + [])))))
  {}

  /** The printed statement splits into the definitions it was printed from. */
  lemma TableDefinitions(table: string, cols: seq<TableColumn>, cons: seq<TableConstraint>)
    requires Quotable(table) && AllPlain(cols, cons)
    ensures AllDefinitions(TokensOf(TableSQL(table, cols, cons))) == AllTokens(cols, cons)
  {
    var tss := AllTokens(cols, cons);
    forall i | 0 <= i < |tss| ensures tss[i] != [] && Flat(tss[i], 0) {
      PartLexes(cols, cons, i);
    }
    LexTable(table, cols, cons);
    hide TokensOf, Flat, TableSQL, AllTokens, JoinTokens, Definitions, Quotable, AllPlain;
    DefinitionsJoined(tss);
    BodyAfter(W("CREATE"), W("TABLE"), Q(table), JoinTokens(tss) + [CLOSE]);
  }

  lemma BodyAfter(a: Token, b: Token, c: Token, body: seq<Token>)
    requires !Opens(a) && !Opens(b) && !Opens(c)
    ensures var ts := [a, b, c] + ([OPEN] + body); BodyStart(ts) == Some(4) && ts[4..] == body
  {
    var ts := [a, b, c] + ([OPEN] + body);
    assert ts[1..] == [b, c] + ([OPEN] + body);
    assert ts[1..][1..] == [c] + ([OPEN] + body);
    assert ts[1..][1..][1..] == [OPEN] + body;
    assert BodyStart([OPEN] + body) == Some(1);
    assert BodyStart([c] + ([OPEN] + body)) == Some(2);
    assert BodyStart([b, c] + ([OPEN] + body)) == Some(3);
  }

  // --- One definition ---

  lemma {:induction false} GroupOver(inner: seq<Token>, depth: nat, rest: seq<Token>)
    requires Balanced(inner, depth) && rest != [] && Closes(rest[0])
    ensures GroupLength(inner + rest, depth) == |inner|
    decreases |inner|
  {
    if inner == [] {
      assert inner + rest == rest;
    } else {
      var t := inner[0];
      assert (inner + rest)[1..] == inner[1..] + rest && (inner + rest)[0] == t;
      GroupOver(inner[1..], if Opens(t) then depth + 1 else if Closes(t) then depth - 1 else depth, rest);
    }
  }

  /** The group after head. */
  lemma GroupAfter(head: seq<Token>, inner: seq<Token>, tail: seq<Token>)
    requires Balanced(inner, 0)
    ensures GroupAt(head + [OPEN] + inner + [CLOSE] + tail, |head|) == Group(inner, |head| + |inner| + 2)
  {
    GroupOver(inner, 0, [CLOSE] + tail);
    GroupParts(head, OPEN, inner, CLOSE, tail);
    hide Balanced, GroupLength, GroupAt;
    GroupThere(head + [OPEN] + inner + [CLOSE] + tail, |head|, |inner|);
  }

  lemma GroupThere(d: seq<Token>, i: nat, n: nat)
    requires i + 1 + n < |d| && Opens(d[i]) && GroupLength(d[i + 1..], 0) == n
    ensures GroupAt(d, i) == Group(d[i + 1..i + 1 + n], i + n + 2)
  {
    hide GroupLength;
  }

  lemma GroupParts<T>(head: seq<T>, open: T, inner: seq<T>, close: T, tail: seq<T>)
    ensures var d, n := head + [open] + inner + [close] + tail, |head| + 1;
      |d| == n + |inner| + 1 + |tail| && d[|head|] == open && d[n..] == inner + ([close] + tail) &&
        d[n..n + |inner|] == inner
  {}

  lemma {:induction false} IdentsOfNames(names: seq<string>)
    ensures Idents(NameTokens(names), 0, true) == names
  {
    if |names| == 1 {
      assert NameTokens(names)[1..] == [] && [names[0]] + [] == names;
    } else if |names| > 1 {
      IdentsOfNames(names[1..]);
      var ts, more := NameTokens(names), NameTokens(names[1..]);
      assert ts[1..] == [COMMA] + more && ts[0] == Q(names[0]);
      assert ts[1..][1..] == more && ts[1..][0] == COMMA;
      assert Idents(ts[1..], 0, false) == Idents(more, 0, true);
      assert [names[0]] + names[1..] == names;
    }
  }

  lemma Uppers()
    ensures Upper(W("CONSTRAINT")) == "CONSTRAINT" && Upper(W("PRIMARY")) == "PRIMARY" && Upper(W("KEY")) == "KEY"
    ensures Upper(W("UNIQUE")) == "UNIQUE" && Upper(W("CHECK")) == "CHECK"
    ensures Upper(W("FOREIGN")) == "FOREIGN" && Upper(W("REFERENCES")) == "REFERENCES"
    ensures forall s :: Upper(Q(s)) == ""
  {}

  /** The constraint a parser should find for it. */
  function Printed(c: TableConstraint): ConstraintDef {
    match c
    case PrimaryKeyOf(columns) => ConstraintDef("", PrimaryKey, columns, "", [])
    case UniqueOf(name, columns, _) => ConstraintDef(name, Unique, columns, "", [])
    case CheckOf(name, check) => ConstraintDef(name, Check, AllIdents(TokensOf(check)), "", [])
    case ForeignKeyOf(name, columns, toTable, toColumns, _) => ConstraintDef(name, ForeignKey, columns, toTable,
      toColumns)
  }

  lemma KeyDefinition(p: Parsed, columns: seq<string>)
    ensures WithDefinition(p, ConstraintTokens(PrimaryKeyOf(columns))) == Adding(p, Printed(PrimaryKeyOf(columns)))
  {
    var d := ConstraintTokens(PrimaryKeyOf(columns));
    NamesBalanced(columns);
    IdentsOfNames(columns);
    GroupAfter([W("PRIMARY"), W("KEY")], NameTokens(columns), []);
    Uppers();
    KeyParts(W("PRIMARY"), W("KEY"), OPEN, NameTokens(columns), CLOSE);
    hide NameTokens, Balanced, Idents, GroupAt, Adding, Upper, TokensOf, WithDefinition;
    ReadsKey(p, d);
  }

  lemma KeyParts<T>(a: T, b: T, c: T, inner: seq<T>, e: T)
    ensures var all := [a, b, c] + inner + [e];
      all == [a, b] + [c] + inner + [e] + [] && all[0] == a && all[1] == b && all[2] == c
  {}

  lemma ReadsKey(p: Parsed, d: seq<Token>)
    requires |d| > 2 && Upper(d[0]) == "PRIMARY" && Upper(d[1]) == "KEY" && d[2].s == "("
    ensures WithDefinition(p, d) == Adding(p, ConstraintDef("", PrimaryKey, Idents(GroupAt(d, 2).body, 0, true), "",
      []))
  {
    hide Idents, GroupAt, Adding, Upper, TargetFrom, AllIdents;
  }

  lemma UniqueDefinition(p: Parsed, name: string, columns: seq<string>, deferrable: string)
    ensures var c := UniqueOf(name, columns, deferrable); WithDefinition(p, ConstraintTokens(c)) == Adding(p, Printed(c))
  {
    var d := ConstraintTokens(UniqueOf(name, columns, deferrable));
    NamesBalanced(columns);
    IdentsOfNames(columns);
    GroupAfter([W("CONSTRAINT"), Q(name), W("UNIQUE")], NameTokens(columns), TokensOf(deferrable));
    Uppers();
    NamedParts(W("CONSTRAINT"), Q(name), W("UNIQUE"), OPEN, NameTokens(columns), CLOSE, TokensOf(deferrable));
    hide NameTokens, Balanced, Idents, GroupAt, Adding, Upper, TokensOf, WithDefinition;
    ReadsUnique(p, d);
  }

  lemma NamedParts<T>(a: T, b: T, c: T, d: T, inner: seq<T>, e: T, tail: seq<T>)
    ensures var all := [a, b, c, d] + inner + [e] + tail;
      all == [a, b, c] + [d] + inner + [e] + tail && all[0] == a && all[1] == b && all[2] == c && all[3] == d
  {}

  lemma ReadsUnique(p: Parsed, d: seq<Token>)
    requires |d| > 3 && Upper(d[0]) == "CONSTRAINT" && Upper(d[2]) == "UNIQUE" && d[3].s == "("
    ensures WithDefinition(p, d) == Adding(p, ConstraintDef(d[1].s, Unique, Idents(GroupAt(d, 3).body, 0, true), "",
      []))
  {
    hide Idents, GroupAt, Adding, Upper, TargetFrom, AllIdents;
  }

  lemma CheckDefinition(p: Parsed, name: string, check: string)
    requires Balanced(TokensOf(check), 0)
    ensures var c := CheckOf(name, check); WithDefinition(p, ConstraintTokens(c)) == Adding(p, Printed(c))
  {
    var d, ts := ConstraintTokens(CheckOf(name, check)), TokensOf(check);
    hide Balanced, AllIdents, GroupAt, Adding, TokensOf, WithDefinition;
    GroupAfter([W("CONSTRAINT"), Q(name), W("CHECK")], ts, []);
    Uppers();
    hide Upper;
    NamedParts(W("CONSTRAINT"), Q(name), W("CHECK"), OPEN, ts, CLOSE, []);
    NothingAfter("", d);
    ReadsCheck(p, d);
  }

  lemma ReadsCheck(p: Parsed, d: seq<Token>)
    requires |d| > 3 && Upper(d[0]) == "CONSTRAINT" && Upper(d[2]) == "CHECK" && d[3].s == "("
    ensures WithDefinition(p, d) == Adding(p, ConstraintDef(d[1].s, Check, AllIdents(GroupAt(d, 3).body), "", []))
  {
    hide Idents, GroupAt, Adding, Upper, TargetFrom, AllIdents;
  }

  /** The references clause that starts there. */
  lemma TargetThere(head: seq<Token>, table: string, columns: seq<string>, tail: seq<Token>)
    ensures TargetFrom(head + ([W("REFERENCES"), Q(table), OPEN] + NameTokens(columns) + [CLOSE] + tail), |head|)
      == Target(table, columns)
  {
    var names := NameTokens(columns);
    NamesBalanced(columns);
    IdentsOfNames(columns);
    GroupAfter(head + [W("REFERENCES"), Q(table)], names, tail);
    Uppers();
    TargetParts(head, W("REFERENCES"), Q(table), OPEN, names + [CLOSE] + tail);
    hide NameTokens, Balanced, Idents, GroupAt, Upper;
    TargetTokens(head, W("REFERENCES"), Q(table), OPEN, names, CLOSE, tail);
  }

  lemma TargetParts<T>(head: seq<T>, a: T, b: T, c: T, more: seq<T>)
    ensures var d, n := head + ([a, b, c] + more), |head|;
      |d| == n + 3 + |more| && d[n] == a && d[n + 1] == b && d[n + 2] == c
  {}

  lemma TargetTokens<T>(head: seq<T>, a: T, b: T, c: T, inner: seq<T>, e: T, tail: seq<T>)
    ensures head + ([a, b, c] + (inner + [e] + tail)) == head + [a, b] + [c] + inner + [e] + tail
    ensures head + ([a, b, c] + inner + [e] + tail) == head + ([a, b, c] + (inner + [e] + tail))
  {}

  lemma ForeignKeyDefinition(p: Parsed, name: string, columns: seq<string>, toTable: string, toColumns: seq<string>,
      actions: string)
    ensures var c := ForeignKeyOf(name, columns, toTable, toColumns, actions); WithDefinition(p, ConstraintTokens(c)) == Adding(p, Printed(c))
  {
    var head := [W("CONSTRAINT"), Q(name), W("FOREIGN"), W("KEY")];
    var refs := [W("REFERENCES"), Q(toTable), OPEN] + NameTokens(toColumns) + [CLOSE] + TokensOf(actions);
    var before := head + [OPEN] + NameTokens(columns) + [CLOSE];
    var d := ConstraintTokens(ForeignKeyOf(name, columns, toTable, toColumns, actions));
    NamesBalanced(columns);
    IdentsOfNames(columns);
    GroupAfter(head, NameTokens(columns), refs);
    TargetThere(before, toTable, toColumns, TokensOf(actions));
    Uppers();
    ForeignKeyParts(W("CONSTRAINT"), Q(name), W("FOREIGN"), W("KEY"), OPEN, NameTokens(columns), CLOSE, refs);
    hide NameTokens, Balanced, Idents, GroupAt, Adding, Upper, TokensOf, TargetFrom, WithDefinition;
    ReadsForeignKey(p, d, Group(NameTokens(columns), |NameTokens(columns)| + 6));
  }

  lemma ReadsForeignKey(p: Parsed, d: seq<Token>, g: Group)
    requires |d| > 4 && Upper(d[0]) == "CONSTRAINT" && Upper(d[2]) == "FOREIGN" && Upper(d[3]) == "KEY" && d[4].s == "("
    requires GroupAt(d, 4) == g
    ensures var to := TargetFrom(d, g.next);
      WithDefinition(p, d) == Adding(p, ConstraintDef(d[1].s, ForeignKey, Idents(g.body, 0, true), to.table,
        to.columns))
  {
    hide Idents, GroupAt, Adding, Upper, TargetFrom;
  }

  lemma ForeignKeyParts<T>(a: T, b: T, c: T, d: T, e: T, inner: seq<T>, f: T, refs: seq<T>)
    ensures var all := [a, b, c, d, e] + inner + [f] + refs;
      && all == [a, b, c, d] + [e] + inner + [f] + refs && |[a, b, c, d] + [e] + inner + [f]| == |inner| + 6
      && all[0] == a && all[1] == b && all[2] == c && all[3] == d && all[4] == e
  {}

  lemma ConstraintDefinition(p: Parsed, c: TableConstraint)
    requires PlainConstraint(c)
    ensures WithDefinition(p, ConstraintTokens(c)) == Adding(p, Printed(c))
  {
    hide WithDefinition, ConstraintTokens, Adding, Printed, Balanced, TokensOf, AllQuotable, Flat;
    match c
    case PrimaryKeyOf(columns) => KeyDefinition(p, columns);
    case UniqueOf(name, columns, deferrable) => UniqueDefinition(p, name, columns, deferrable);
    case CheckOf(name, check) => CheckDefinition(p, name, check);
    case ForeignKeyOf(name, columns, toTable, toColumns, actions) => ForeignKeyDefinition(p, name, columns, toTable,
      toColumns, actions);
  }

  ghost predicate NoConstraintWords(d: seq<Token>) {
    forall i :: 0 <= i < |d| ==> !BeginsConstraint(d[i])
  }

  lemma {:induction false} PlainColumnFrom(d: seq<Token>, c: Cursor)
    requires NoConstraintWords(d)
    ensures ColumnFrom(d, c).cons == c.st.cons && ColumnFrom(d, c).col.name == c.st.col.name
    decreases |d| - c.at
  {
    if c.at < |d| {
      PlainStep(d, c);
      hide ColumnStep;
      PlainColumnFrom(d, ColumnStep(d, c));
    }
  }

  lemma PlainStep(d: seq<Token>, c: Cursor)
    requires c.at < |d| && NoConstraintWords(d)
    ensures ColumnStep(d, c).st.cons == c.st.cons && ColumnStep(d, c).st.col.name == c.st.col.name
  {
    hide Upper, GroupAt, TargetFrom, AllIdents;
    assert !BeginsConstraint(d[c.at]);
  }

  /** A plain column adds itself and no constraint. */
  lemma ColumnDefinition(p: Parsed, c: TableColumn)
    requires PlainColumn(c)
    ensures var r := WithDefinition(p, ColumnTokens(c));
      && r.unnamed == p.unnamed && r.def.constraints == p.def.constraints
      && exists col: ColumnDef :: col.name == c.name && r.def.columns == p.def.columns + [col]
  {
    var d := ColumnTokens(c);
    Uppers();
    assert d[0] == Q(c.name);
    forall i | 0 <= i < |d| ensures !BeginsConstraint(d[i]) {
      if i > 0 {
        assert d[i] == TokensOf(c.definition)[i - 1];
      }
    }
    hide TokensOf, Closed, Flat, Upper, ColumnStep, ColumnFrom;
    var start := Cursor(Begun(c.name), "", 1);
    PlainColumnFrom(d, start);
    assert WithDefinition(p, d).def.columns == p.def.columns + [ColumnFrom(d, start).col];
  }

  // --- The table ---

  lemma {:induction false} WithBoth(p: Parsed, a: seq<seq<Token>>, b: seq<seq<Token>>)
    ensures WithDefinitions(p, a + b) == WithDefinitions(WithDefinitions(p, a), b)
    decreases |b|
  {
    if b == [] {
      assert a + b == a;
    } else {
      var n := |b| - 1;
      assert (a + b)[..|a + b| - 1] == a + b[..n] && (a + b)[|a + b| - 1] == b[n];
      WithBoth(p, a, b[..n]);
      hide WithDefinition;
    }
  }

  function ColumnTokensOf(cols: seq<TableColumn>): (r: seq<seq<Token>>)
    ensures |r| == |cols|
  {
    seq(|cols|, i requires 0 <= i < |cols| => ColumnTokens(cols[i]))
  }

  function ConstraintTokensOf(cons: seq<TableConstraint>): (r: seq<seq<Token>>)
    ensures |r| == |cons|
  {
    seq(|cons|, i requires 0 <= i < |cons| => ConstraintTokens(cons[i]))
  }

  function AllPrinted(cons: seq<TableConstraint>): (r: seq<ConstraintDef>)
    ensures |r| == |cons|
  {
    seq(|cons|, i requires 0 <= i < |cons| => Printed(cons[i]))
  }

  /** p has these columns, in this order, and nothing else. */
  ghost predicate HasColumns(p: Parsed, cols: seq<TableColumn>) {
    && p.unnamed == 0 && p.def.constraints == [] && |p.def.columns| == |cols|
    && forall i :: 0 <= i < |cols| ==> p.def.columns[i].name == cols[i].name
  }

  const NOTHING := Parsed(TableDef([], []), 0)

  ghost predicate PlainColumns(cols: seq<TableColumn>) {
    forall i :: 0 <= i < |cols| ==> PlainColumn(cols[i])
  }

  ghost predicate PlainConstraints(cons: seq<TableConstraint>) {
    forall i :: 0 <= i < |cons| ==> PlainConstraint(cons[i])
  }

  lemma LastColumn(cols: seq<TableColumn>, n: nat)
    requires |cols| == n + 1 && PlainColumns(cols)
    ensures PlainColumns(cols[..n]) && PlainColumn(cols[n])
    ensures ColumnTokensOf(cols)[..n] == ColumnTokensOf(cols[..n]) && ColumnTokensOf(cols)[n] == ColumnTokens(cols[n])
  {
    hide PlainColumn, ColumnTokens;
  }

  lemma LastConstraint(cons: seq<TableConstraint>, n: nat)
    requires |cons| == n + 1 && PlainConstraints(cons)
    ensures PlainConstraints(cons[..n]) && PlainConstraint(cons[n])
    ensures ConstraintTokensOf(cons)[..n] == ConstraintTokensOf(cons[..n])
    ensures ConstraintTokensOf(cons)[n] == ConstraintTokens(cons[n])
    ensures AllPrinted(cons)[..n] == AllPrinted(cons[..n]) && AllPrinted(cons)[n] == Printed(cons[n])
  {
    hide PlainConstraint, ConstraintTokens, Printed;
  }

  lemma {:induction false} WithColumns(cols: seq<TableColumn>)
    requires PlainColumns(cols)
    ensures HasColumns(WithDefinitions(NOTHING, ColumnTokensOf(cols)), cols)
    decreases |cols|
  {
    hide PlainColumn, ColumnTokens, WithDefinition, PlainColumns;
    if cols != [] {
      var n := |cols| - 1;
      LastColumn(cols, n);
      WithColumns(cols[..n]);
      hide ColumnTokensOf;
      var p := WithDefinitions(NOTHING, ColumnTokensOf(cols[..n]));
      ColumnDefinition(p, cols[n]);
      OneColumnMore(p, WithDefinition(p, ColumnTokens(cols[n])), cols, n);
    }
  }

  lemma OneColumnMore(p: Parsed, r: Parsed, cols: seq<TableColumn>, n: nat)
    requires |cols| == n + 1 && HasColumns(p, cols[..n]) && r.unnamed == p.unnamed &&
      r.def.constraints == p.def.constraints
    requires exists col: ColumnDef :: col.name == cols[n].name && r.def.columns == p.def.columns + [col]
    ensures HasColumns(r, cols)
  {
    forall i | 0 <= i < n ensures r.def.columns[i].name == cols[i].name {
      assert cols[..n][i] == cols[i];
    }
  }

  lemma {:induction false} WithConstraints(p: Parsed, cons: seq<TableConstraint>)
    requires PlainConstraints(cons)
    ensures WithDefinitions(p, ConstraintTokensOf(cons)) == AddingAll(p, AllPrinted(cons))
    decreases |cons|
  {
    hide PlainConstraint, PlainConstraints, ConstraintTokens, WithDefinition, Adding, Printed;
    if cons != [] {
      var n := |cons| - 1;
      LastConstraint(cons, n);
      WithConstraints(p, cons[..n]);
      hide ConstraintTokensOf, AllPrinted;
      ConstraintDefinition(WithDefinitions(p, ConstraintTokensOf(cons[..n])), cons[n]);
    }
  }

  /** How many of them have no name. */
  function Nameless(cs: seq<ConstraintDef>): nat {
    if cs == [] then 0 else Nameless(cs[..|cs| - 1]) + if cs[|cs| - 1].name == "" then 1 else 0
  }

  /** The constraint, numbered when it has no name. */
  function Numbered(cs: seq<ConstraintDef>, i: nat): ConstraintDef
    requires i < |cs|
  {
    if cs[i].name == "" then cs[i].(name := UnnamedAs(Nameless(cs[..i + 1]))) else cs[i]
  }

  lemma {:induction false} AddingKeepsColumns(p: Parsed, cs: seq<ConstraintDef>)
    ensures AddingAll(p, cs).def.columns == p.def.columns
    ensures AddingAll(p, cs).unnamed == p.unnamed + Nameless(cs)
    decreases |cs|
  {
    if cs != [] {
      AddingKeepsColumns(p, cs[..|cs| - 1]);
    }
  }

  ghost predicate AllNumbered(out: seq<ConstraintDef>, cs: seq<ConstraintDef>) {
    |out| == |cs| && forall i :: 0 <= i < |cs| ==> out[i] == Numbered(cs, i)
  }

  lemma {:induction false} AddingNumbers(p: Parsed, cs: seq<ConstraintDef>)
    requires p.def.constraints == [] && p.unnamed == 0
    ensures AllNumbered(AddingAll(p, cs).def.constraints, cs)
    decreases |cs|
  {
    if cs != [] {
      var n := |cs| - 1;
      AddingNumbers(p, cs[..n]);
      AddingKeepsColumns(p, cs[..n]);
      var out := AddingAll(p, cs).def.constraints;
      hide UnnamedAs;
      assert cs[..n + 1] == cs;
      forall i | 0 <= i < |cs| ensures out[i] == Numbered(cs, i) {
        if i < n {
          assert cs[..n][..i + 1] == cs[..i + 1];
        }
      }
    }
  }

  /** Parsing what was printed gives the columns in order and every constraint, an
      unnamed one under its number. */
  lemma ParserUndoesPrinter(table: string, cols: seq<TableColumn>, cons: seq<TableConstraint>)
    requires Quotable(table) && AllPlain(cols, cons)
    ensures var def := ParsedTable(TableSQL(table, cols, cons));
      && |def.columns| == |cols| && (forall i :: 0 <= i < |cols| ==> def.columns[i].name == cols[i].name)
      && AllNumbered(def.constraints, AllPrinted(cons))
  {
    TableDefinitions(table, cols, cons);
    WithColumns(cols);
    var columns := WithDefinitions(NOTHING, ColumnTokensOf(cols));
    WithConstraints(columns, cons);
    WithBoth(NOTHING, ColumnTokensOf(cols), ConstraintTokensOf(cons));
    AddingKeepsColumns(columns, AllPrinted(cons));
    AddingNumbers(columns, AllPrinted(cons));
    hide TokensOf, TableSQL, AllDefinitions, WithDefinitions, AddingAll, AllNumbered, AllPrinted, ConstraintTokens,
      ColumnTokens;
    assert AllTokens(cols, cons) == ColumnTokensOf(cols) + ConstraintTokensOf(cons);
  }
}
