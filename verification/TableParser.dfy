/** Reading the columns and constraints out of a CREATE TABLE statement. */
module TableParser {
  import opened Wrappers
  import opened Tokens
  import opened Numbers

  datatype ColumnDef = ColumnDef(name: string, autoIncrement: bool, collation: string)

  datatype ConstraintKind = Unique | Check | PrimaryKey | ForeignKey

  datatype ConstraintDef = ConstraintDef(
    name: string, kind: ConstraintKind, columns: seq<string>, toTable: string, toColumns: seq<string>)

  datatype TableDef = TableDef(columns: seq<ColumnDef>, constraints: seq<ConstraintDef>)

  function UpperChar(c: char): char {
    if 'a' <= c <= 'z' then (c as int - 32) as char else c
  }

  /** A bare word in upper case. */
  function Upper(t: Token): string {
    if t.kind == Word then seq(|t.s|, i requires 0 <= i < |t.s| => UpperChar(t.s[i])) else ""
  }

  predicate Opens(t: Token) {
    t.kind == Punct && t.s == "("
  }

  predicate Closes(t: Token) {
    t.kind == Punct && t.s == ")"
  }

  predicate IsComma(t: Token) {
    t.kind == Punct && t.s == ","
  }

  // --- Definitions ---

  /** The position after the first opening parenthesis. */
  function BodyStart(toks: seq<Token>): Option<nat> {
    if toks == [] then None
    else if Opens(toks[0]) then Some(1)
    else
      match BodyStart(toks[1..])
      case None => None
      case Some(i) => Some(i + 1)
  }

  lemma {:induction false} BodyStartWithin(toks: seq<Token>)
    ensures BodyStart(toks).Some? ==> BodyStart(toks).value <= |toks|
  {
    if toks != [] && !Opens(toks[0]) {
      BodyStartWithin(toks[1..]);
    }
  }

  function NonEmpty(cur: seq<Token>): seq<seq<Token>> {
    if cur == [] then [] else [cur]
  }

  /** The definitions between top-level commas, up to the closing parenthesis; cur is
      what has been read of the first one. */
  function Definitions(toks: seq<Token>, depth: nat, cur: seq<Token>): seq<seq<Token>>
    decreases |toks|
  {
    if toks == [] then NonEmpty(cur)
    else
      var t, rest := toks[0], toks[1..];
      if Opens(t) then Definitions(rest, depth + 1, cur + [t])
      else if Closes(t) then if depth == 0 then NonEmpty(cur) else Definitions(rest, depth - 1, cur + [t])
      else if IsComma(t) && depth == 0 then [cur] + Definitions(rest, 0, [])
      else Definitions(rest, depth, cur + [t])
  }

  function AllDefinitions(toks: seq<Token>): seq<seq<Token>> {
    match BodyStart(toks)
    case None => []
    case Some(i) => if i <= |toks| then Definitions(toks[i..], 0, []) else []
  }

  method FindBody(toks: seq<Token>) returns (start: Option<nat>)
    ensures start == BodyStart(toks) && (start.Some? ==> start.value <= |toks|)
  {
    BodyStartWithin(toks);
    var i := 0;
    while i < |toks| && !Opens(toks[i])
      invariant 0 <= i <= |toks|
      invariant BodyStart(toks) == match BodyStart(toks[i..]) case None => None case Some(k) => Some(k + i)
    {
      assert toks[i..][1..] == toks[i + 1..];
      i := i + 1;
    }
    start := if i < |toks| then Some(i + 1) else None;
  }

  method SplitDefinitions(toks: seq<Token>) returns (out: seq<seq<Token>>)
    ensures out == AllDefinitions(toks)
  {
    var start := FindBody(toks);
    out := [];
    if start.None? {
      return;
    }
    var body := toks[start.value..];
    var depth, cur, i := 0, [], 0;
    assert body[0..] == body;
    while i < |body|
      invariant 0 <= i <= |body| && 0 <= depth
      invariant out + Definitions(body[i..], depth, cur) == Definitions(body, 0, [])
    {
      var t := body[i];
      assert body[i..][1..] == body[i + 1..] && body[i..][0] == t;
      if Opens(t) {
        depth := depth + 1;
      } else if Closes(t) {
        if depth == 0 {
          return out + NonEmpty(cur);
        }
        depth := depth - 1;
      } else if IsComma(t) && depth == 0 {
        assert out + [cur] + Definitions(body[i + 1..], 0, []) == out + ([cur] + Definitions(body[i + 1..], 0, []));
        out, cur, i := out + [cur], [], i + 1;
        continue;
      }
      cur, i := cur + [t], i + 1;
    }
    out := out + NonEmpty(cur);
  }

  // --- Groups in parentheses ---

  /** How many tokens come before the one that closes the group they are in. */
  function GroupLength(toks: seq<Token>, depth: nat): (n: nat)
    ensures n <= |toks|
  {
    if toks == [] then 0
    else if Opens(toks[0]) then 1 + GroupLength(toks[1..], depth + 1)
    else if Closes(toks[0]) then if depth == 0 then 0 else 1 + GroupLength(toks[1..], depth - 1)
    else 1 + GroupLength(toks[1..], depth)
  }

  datatype Group = Group(body: seq<Token>, next: nat)

  /** The group that opens at i, and the position after it. */
  function GroupAt(toks: seq<Token>, i: nat): (g: Group)
    ensures i < |toks| ==> i <= g.next <= |toks|
    ensures i < |toks| && Opens(toks[i]) ==> i < g.next
  {
    if i >= |toks| || !Opens(toks[i]) then Group([], i)
    else
      var n := GroupLength(toks[i + 1..], 0);
      Group(toks[i + 1..i + 1 + n], if i + 1 + n < |toks| then i + 2 + n else |toks|)
  }

  method ParenGroup(toks: seq<Token>, i: nat) returns (body: seq<Token>, next: nat)
    ensures body == GroupAt(toks, i).body && next == GroupAt(toks, i).next
  {
    if i >= |toks| || !Opens(toks[i]) {
      return [], i;
    }
    var inner := toks[i + 1..];
    var depth, k := 0, 0;
    assert inner[0..] == inner;
    while k < |inner|
      invariant 0 <= k <= |inner| && 0 <= depth && k + GroupLength(inner[k..], depth) == GroupLength(inner, 0)
    {
      GroupMore(inner, k, depth);
      if Opens(inner[k]) {
        depth := depth + 1;
      } else if Closes(inner[k]) {
        if depth == 0 {
          return toks[i + 1..i + 1 + k], i + 2 + k;
        }
        depth := depth - 1;
      }
      k := k + 1;
    }
    return toks[i + 1..], |toks|;
  }

  lemma GroupMore(toks: seq<Token>, k: nat, depth: nat)
    requires k < |toks|
    ensures GroupLength(toks[k..], depth)
         == if Opens(toks[k]) then 1 + GroupLength(toks[k + 1..], depth + 1)
            else if Closes(toks[k]) then if depth == 0 then 0 else 1 + GroupLength(toks[k + 1..], depth - 1)
            else 1 + GroupLength(toks[k + 1..], depth)
  {
    assert toks[k..][1..] == toks[k + 1..] && toks[k..][0] == toks[k];
  }

  // --- Identifiers ---

  /** The first identifier after each top-level comma. */
  function Idents(toks: seq<Token>, depth: int, awaiting: bool): seq<string>
    decreases |toks|
  {
    if toks == [] then []
    else
      var t, rest := toks[0], toks[1..];
      if t.kind == Punct then
        Idents(rest, if Opens(t) then depth + 1 else if Closes(t) then depth - 1 else depth, awaiting ||
          (IsComma(t) && depth == 0))
      else if depth == 0 && awaiting && IsIdent(t) then [t.s] + Idents(rest, depth, false)
      else Idents(rest, depth, awaiting)
  }

  method IdentList(toks: seq<Token>) returns (out: seq<string>)
    ensures out == Idents(toks, 0, true)
  {
    out := [];
    var depth, awaiting, i := 0, true, 0;
    assert toks[0..] == toks;
    while i < |toks|
      invariant 0 <= i <= |toks| && out + Idents(toks[i..], depth, awaiting) == Idents(toks, 0, true)
    {
      var t := toks[i];
      assert toks[i..][1..] == toks[i + 1..] && toks[i..][0] == t;
      i := i + 1;
      if t.kind == Punct {
        if Opens(t) {
          depth := depth + 1;
        } else if Closes(t) {
          depth := depth - 1;
        } else if IsComma(t) && depth == 0 {
          awaiting := true;
        }
        continue;
      }
      if depth == 0 && awaiting && IsIdent(t) {
        assert out + [t.s] + Idents(toks[i..], depth, false) == out + ([t.s] + Idents(toks[i..], depth, false));
        out, awaiting := out + [t.s], false;
      }
    }
  }

  function AllIdents(toks: seq<Token>): seq<string> {
    if toks == [] then []
    else AllIdents(toks[..|toks| - 1]) + if IsIdent(toks[|toks| - 1]) then [toks[|toks| - 1].s] else []
  }

  method IdentsIn(toks: seq<Token>) returns (out: seq<string>)
    ensures out == AllIdents(toks)
  {
    out := [];
    var i := 0;
    while i < |toks|
      invariant 0 <= i <= |toks| && out == AllIdents(toks[..i])
    {
      assert toks[..i + 1][..i] == toks[..i];
      if IsIdent(toks[i]) {
        out := out + [toks[i].s];
      }
      i := i + 1;
    }
    assert toks[..i] == toks;
  }

  // --- References ---

  datatype Target = Target(table: string, columns: seq<string>)

  /** The table and columns of the REFERENCES clause at or after i. */
  function TargetFrom(d: seq<Token>, i: nat): Target
    decreases |d| - i
  {
    if i >= |d| then Target("", [])
    else if Upper(d[i]) != "REFERENCES" then TargetFrom(d, i + 1)
    else if i + 1 >= |d| || !IsIdent(d[i + 1]) then Target("", [])
    else if i + 2 < |d| && d[i + 2].s == "(" then Target(d[i + 1].s, Idents(GroupAt(d, i + 2).body, 0, true))
    else Target(d[i + 1].s, [])
  }

  method ParseReferences(d: seq<Token>, start: nat) returns (r: Target)
    ensures r == TargetFrom(d, start)
  {
    var i := start;
    while i < |d|
      invariant start <= i && TargetFrom(d, i) == TargetFrom(d, start)
    {
      if Upper(d[i]) == "REFERENCES" {
        if i + 1 >= |d| || !IsIdent(d[i + 1]) {
          return Target("", []);
        }
        if i + 2 < |d| && d[i + 2].s == "(" {
          var group, _ := ParenGroup(d, i + 2);
          var cols := IdentList(group);
          return Target(d[i + 1].s, cols);
        }
        return Target(d[i + 1].s, []);
      }
      i := i + 1;
    }
    return Target("", []);
  }

  // --- One definition ---

  datatype Start = Start(kind: Option<ConstraintKind>, next: nat)

  /** The table constraint the definition is from i on, and where its columns or
      expression start. */
  function ConstraintStart(d: seq<Token>, i: nat): (r: Start)
    requires i < |d|
    ensures r.kind.Some? ==> r.next < |d|
  {
    var key := i + 1 < |d| && Upper(d[i + 1]) == "KEY" && i + 2 < |d| && d[i + 2].s == "(";
    var open := i + 1 < |d| && d[i + 1].s == "(";
    if Upper(d[i]) == "PRIMARY" && key then Start(Some(PrimaryKey), i + 2)
    else if Upper(d[i]) == "UNIQUE" && open then Start(Some(Unique), i + 1)
    else if Upper(d[i]) == "CHECK" && open then Start(Some(Check), i + 1)
    else if Upper(d[i]) == "FOREIGN" && key then Start(Some(ForeignKey), i + 2)
    else Start(None, i)
  }

  function UnnamedAs(n: nat): string {
    "__unnamed_constraint_" + Itoa(n) + "__"
  }

  /** What has been read so far, and how many constraints had no name. */
  datatype Parsed = Parsed(def: TableDef, unnamed: nat)

  function Adding(p: Parsed, c: ConstraintDef): Parsed {
    if c.name == "" then
      Parsed(p.def.(constraints := p.def.constraints + [c.(name := UnnamedAs(p.unnamed + 1))]), p.unnamed + 1)
    else Parsed(p.def.(constraints := p.def.constraints + [c]), p.unnamed)
  }

  function AddingAll(p: Parsed, cs: seq<ConstraintDef>): Parsed {
    if cs == [] then p else Adding(AddingAll(p, cs[..|cs| - 1]), cs[|cs| - 1])
  }

  datatype ColumnState = ColumnState(col: ColumnDef, cons: seq<ConstraintDef>)

  /** How far a column definition has been read; name is that of the constraint
      begun. */
  datatype Cursor = Cursor(st: ColumnState, name: string, at: nat)

  function Begun(name: string): ColumnState {
    ColumnState(ColumnDef(name, false, ""), [])
  }

  /** What the token there adds. */
  function ColumnStep(d: seq<Token>, c: Cursor): (r: Cursor)
    requires c.at < |d|
    ensures c.at < r.at
  {
    var u, j, st := Upper(d[c.at]), c.at, c.st;
    var last := j + 1 >= |d|;
    if u == "CONSTRAINT" then if last then Cursor(st, c.name, j + 1) else Cursor(st, d[j + 1].s, j + 2)
    else if u == "AUTOINCREMENT" then Cursor(st.(col := st.col.(autoIncrement := true)), "", j + 1)
    else if u == "COLLATE" then
      if last then Cursor(st, "", j + 1) else Cursor(st.(col := st.col.(collation := d[j + 1].s)), "", j + 2)
    else if u == "UNIQUE" then Cursor(WithConstraint(st, c.name, Unique, [st.col.name], Target("", [])), "", j + 1)
    else if u == "CHECK" then
      if !last && d[j + 1].s == "(" then
        Cursor(WithConstraint(st, c.name, Check, AllIdents(GroupAt(d, j + 1).body), Target("", [])), "",
          GroupAt(d, j + 1).next)
      else Cursor(st, "", j + 1)
    else if u == "REFERENCES" then
      var more := WithConstraint(st, c.name, ForeignKey, [st.col.name], TargetFrom(d, j));
      Cursor(more, "", if j + 2 < |d| && d[j + 2].s == "(" then GroupAt(d, j + 2).next else j + 2)
    else Cursor(st, c.name, j + 1)
  }

  function WithConstraint(st: ColumnState, name: string, kind: ConstraintKind, columns: seq<string>,
      to: Target): ColumnState {
    st.(cons := st.cons + [ConstraintDef(name, kind, columns, to.table, to.columns)])
  }

  /** A column definition, read from the cursor on. */
  function ColumnFrom(d: seq<Token>, c: Cursor): ColumnState
    decreases |d| - c.at
  {
    if c.at >= |d| then c.st else ColumnFrom(d, ColumnStep(d, c))
  }

  method ReadColumnToken(d: seq<Token>, c: Cursor) returns (r: Cursor)
    requires c.at < |d|
    ensures r == ColumnStep(d, c)
  {
    var u, j, st := Upper(d[c.at]), c.at, c.st;
    if u == "CONSTRAINT" {
      if j + 1 < |d| {
        return Cursor(st, d[j + 1].s, j + 2);
      }
      return Cursor(st, c.name, j + 1);
    }
    if u == "AUTOINCREMENT" {
      st := st.(col := st.col.(autoIncrement := true));
    } else if u == "COLLATE" {
      if j + 1 < |d| {
        st, j := st.(col := st.col.(collation := d[j + 1].s)), j + 1;
      }
    } else if u == "UNIQUE" {
      st := WithConstraint(st, c.name, Unique, [st.col.name], Target("", []));
    } else if u == "CHECK" {
      if j + 1 < |d| && d[j + 1].s == "(" {
        var body, after := ParenGroup(d, j + 1);
        var cols := IdentsIn(body);
        st, j := WithConstraint(st, c.name, Check, cols, Target("", [])), after - 1;
      }
    } else if u == "REFERENCES" {
      var to := ParseReferences(d, j);
      st := WithConstraint(st, c.name, ForeignKey, [st.col.name], to);
      if j + 2 < |d| && d[j + 2].s == "(" {
        var _, after := ParenGroup(d, j + 2);
        j := after - 1;
      } else {
        j := j + 1;
      }
    } else {
      return Cursor(st, c.name, j + 1);
    }
    return Cursor(st, "", j + 1);
  }

  method ParseColumnDef(d: seq<Token>, i: nat) returns (st: ColumnState)
    requires i < |d|
    ensures st == ColumnFrom(d, Cursor(Begun(d[i].s), "", i + 1))
  {
    var c := Cursor(Begun(d[i].s), "", i + 1);
    ghost var start := c;
    hide ColumnStep;
    while c.at < |d|
      invariant ColumnFrom(d, c) == ColumnFrom(d, start)
      decreases |d| - c.at
    {
      c := ReadColumnToken(d, c);
    }
    st := c.st;
  }

  /** What a definition adds. */
  function WithDefinition(p: Parsed, d: seq<Token>): Parsed {
    if d == [] then p
    else
      var named := Upper(d[0]) == "CONSTRAINT" && |d| > 1;
      var name, i := if named then d[1].s else "", if named then 2 else 0;
      if i >= |d| then p
      else
        var start := ConstraintStart(d, i);
        match start.kind
        case Some(ForeignKey) =>
          var g := GroupAt(d, start.next);
          var to := TargetFrom(d, g.next);
          Adding(p, ConstraintDef(name, ForeignKey, Idents(g.body, 0, true), to.table, to.columns))
        case Some(Check) => Adding(p, ConstraintDef(name, Check, AllIdents(GroupAt(d, start.next).body), "", []))
        case Some(kind) => Adding(p, ConstraintDef(name, kind, Idents(GroupAt(d, start.next).body, 0, true), "", []))
        case None =>
          if name != "" || !IsIdent(d[i]) then p
          else
            var st := ColumnFrom(d, Cursor(Begun(d[i].s), "", i + 1));
            AddingAll(p.(def := p.def.(columns := p.def.columns + [st.col])), st.cons)
  }

  function WithDefinitions(p: Parsed, ds: seq<seq<Token>>): Parsed {
    if ds == [] then p else WithDefinition(WithDefinitions(p, ds[..|ds| - 1]), ds[|ds| - 1])
  }

  function ParsedTable(sql: string): TableDef {
    WithDefinitions(Parsed(TableDef([], []), 0), AllDefinitions(TokensOf(sql))).def
  }

  method AddConstraints(p0: Parsed, cs: seq<ConstraintDef>) returns (p: Parsed)
    ensures p == AddingAll(p0, cs)
  {
    p := p0;
    var i := 0;
    while i < |cs|
      invariant 0 <= i <= |cs| && p == AddingAll(p0, cs[..i])
    {
      assert cs[..i + 1][..i] == cs[..i];
      p := Adding(p, cs[i]);
      i := i + 1;
    }
    assert cs[..i] == cs;
  }

  method ParseDefinition(p0: Parsed, d: seq<Token>) returns (p: Parsed)
    ensures p == WithDefinition(p0, d)
  {
    p := p0;
    if d == [] {
      return;
    }
    var name, i := "", 0;
    if Upper(d[0]) == "CONSTRAINT" && |d| > 1 {
      name, i := d[1].s, 2;
    }
    if i >= |d| {
      return;
    }
    var start := ConstraintStart(d, i);
    match start.kind
    case Some(ForeignKey) =>
      var cols, after := ParenGroup(d, start.next);
      var names := IdentList(cols);
      var to := ParseReferences(d, after);
      p := Adding(p, ConstraintDef(name, ForeignKey, names, to.table, to.columns));
    case Some(Check) =>
      var body, _ := ParenGroup(d, start.next);
      var names := IdentsIn(body);
      p := Adding(p, ConstraintDef(name, Check, names, "", []));
    case Some(kind) =>
      var cols, _ := ParenGroup(d, start.next);
      var names := IdentList(cols);
      p := Adding(p, ConstraintDef(name, kind, names, "", []));
    case None =>
      if name != "" || !IsIdent(d[i]) {
        return;
      }
      var st := ParseColumnDef(d, i);
      p := AddConstraints(p.(def := p.def.(columns := p.def.columns + [st.col])), st.cons);
  }

  /** Parse a CREATE TABLE statement. */
  method ParseTableDef(sql: string) returns (def: TableDef)
    ensures def == ParsedTable(sql)
  {
    var toks := Tokenize(sql);
    var ds := SplitDefinitions(toks);
    var start := Parsed(TableDef([], []), 0);
    var p, i := start, 0;
    hide WithDefinition, AllDefinitions, TokensOf;
    while i < |ds|
      invariant 0 <= i <= |ds| && p == WithDefinitions(start, ds[..i])
    {
      assert ds[..i + 1][..i] == ds[..i];
      p := ParseDefinition(p, ds[i]);
      i := i + 1;
    }
    assert ds[..i] == ds;
    def := p.def;
  }
}
