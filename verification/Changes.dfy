/** What is generated for a kept model besides additions and alterations of fields: said
    of the two models. */
module Changes {
  import opened Wrappers
  import opened Digraph
  import opened Names
  import opened ModelStates
  import opened Operations
  import opened States
  import opened ModelDiff
  import opened ModelConvergence
  import opened Convergence
  import Keys

  // --- Constraints ---

  /** The constraints differ in nothing but the message for violations. */
  predicate OnlyMessage(a: Constraint, b: Constraint) {
    && a != b && a.name == b.name
    && match (a, b)
       case (CheckConstraint(_, check, _), CheckConstraint(_, check', _)) => check == check'
       case (UniqueConstraint(_, fields, condition, deferrable, covered, nulls, _),
             UniqueConstraint(_, fields', condition', deferrable', covered', nulls', _)) =>
         fields == fields' && condition == condition' && deferrable == deferrable' && covered == covered' &&
           nulls == nulls'
       case _ => false
  }

  /** The new constraint c was there with another message. */
  ghost predicate NewMessage(old_: seq<Constraint>, new_: seq<Constraint>, c: Constraint) {
    c in new_ && exists b :: b in old_ && OnlyMessage(b, c)
  }

  ghost predicate HasNewMessage(old_: seq<Constraint>, new_: seq<Constraint>, name: string) {
    exists c :: NewMessage(old_, new_, c) && c.name == name
  }

  lemma OnlyMessageIs(a: Constraint, b: Constraint)
    ensures AlteredTo(a, b) <==> OnlyMessage(a, b)
  {}

  lemma AlteredHas(old_: seq<Constraint>, new_: seq<Constraint>, c: Constraint)
    ensures c in Altered(old_, new_) <==> NewMessage(old_, new_, c)
  {
    AlteredIs(old_, new_);
    hide AlteredTo, OnlyMessage;
    forall b
      ensures AlteredTo(b, c) <==> OnlyMessage(b, c)
    {
      OnlyMessageIs(b, c);
    }
  }

  lemma NamesAre(old_: seq<Constraint>, new_: seq<Constraint>, name: string)
    ensures name in NamesOf(Altered(old_, new_)) <==> HasNewMessage(old_, new_, name)
  {
    hide Altered, NewMessage;
    var cs := Altered(old_, new_);
    if name in NamesOf(cs) {
      var i :| 0 <= i < |cs| && cs[i].name == name;
      AlteredHas(old_, new_, cs[i]);
    }
    if c :| NewMessage(old_, new_, c) && c.name == name {
      AlteredHas(old_, new_, c);
    }
  }

  lemma {:induction false} InRemoveOps(model: string, cs: seq<Constraint>, n: string)
    ensures RemoveConstraint(model, n) in RemoveConstraintOps(model, cs) <==> exists c :: c in cs && c.name == n
    decreases |cs|
  {
    if cs != [] {
      assert cs == cs[..|cs| - 1] + [cs[|cs| - 1]];
      InRemoveOps(model, cs[..|cs| - 1], n);
    }
  }

  lemma {:induction false} InAddOps(model: string, cs: seq<Constraint>, c: Constraint)
    ensures AddConstraint(model, c) in AddConstraintOps(model, cs) <==> c in cs
    decreases |cs|
  {
    if cs != [] {
      assert cs == cs[..|cs| - 1] + [cs[|cs| - 1]];
      InAddOps(model, cs[..|cs| - 1], c);
    }
  }

  lemma {:induction false} InAlterOps(model: string, cs: seq<Constraint>, n: string, c: Constraint)
    ensures AlterConstraint(model, n, c) in AlterConstraintOps(model, cs) <==> c in cs && n == c.name
    decreases |cs|
  {
    if cs != [] {
      assert cs == cs[..|cs| - 1] + [cs[|cs| - 1]];
      InAlterOps(model, cs[..|cs| - 1], n, c);
    }
  }

  lemma {:induction false} InRemovals(model: string, names: seq<string>, n: string)
    ensures RemoveField(model, n) in Removals(model, names) <==> n in names
    decreases |names|
  {
    if names != [] {
      assert names == names[..|names| - 1] + [names[|names| - 1]];
      InRemovals(model, names[..|names| - 1], n);
    }
  }

  // --- unique_together ---

  function JoinedOf(entries: seq<seq<string>>): set<string> {
    set i | 0 <= i < |entries| :: Joined(entries[i])
  }

  /** The list has the entries with those joined columns, in their order. */
  ghost predicate ListsJoined(u: seq<seq<string>>, entries: seq<seq<string>>, ks: set<string>) {
    && (forall i :: 0 <= i < |u| ==> u[i] in entries)
    && (forall k :: k in ks <==> exists i :: 0 <= i < |u| && Joined(u[i]) == k)
    && (forall i, j :: 0 <= i < j < |u| ==> Keys.LexLess(Joined(u[i]), Joined(u[j])))
  }

  lemma {:induction false} TogetherFrom(entries: seq<seq<string>>)
    ensures forall k :: k in TogetherMap(entries) ==> TogetherMap(entries)[k] in entries
    decreases |entries|
  {
    if entries != [] {
      TogetherFrom(entries[..|entries| - 1]);
      assert entries == entries[..|entries| - 1] + [entries[|entries| - 1]];
    }
  }

  lemma TogetherHas(entries: seq<seq<string>>)
    ensures TogetherMap(entries).Keys == JoinedOf(entries)
  {
    TogetherKeys(entries);
  }

  lemma EntriesList(m: map<string, seq<string>>, entries: seq<seq<string>>)
    requires forall k :: k in m ==> Joined(m[k]) == k && m[k] in entries
    ensures ListsJoined(Entries(m), entries, m.Keys)
  {
    var es := Entries(m);
    forall i | 0 <= i < |es|
      ensures es[i] in entries && Joined(es[i]) in m
    {
      EntryAt(m, i, i);
    }
    forall k | k in m
      ensures exists i :: 0 <= i < |es| && Joined(es[i]) == k
    {
      var i := EntryOf(m, k);
    }
    forall i, j | 0 <= i < j < |es|
      ensures Keys.LexLess(Joined(es[i]), Joined(es[j]))
    {
      EntryAt(m, i, j);
    }
    hide Entries, Joined, Keys.LexLess;
  }

  lemma EntryAt(m: map<string, seq<string>>, i: nat, j: nat)
    requires (forall k :: k in m ==> Joined(m[k]) == k) && i <= j < |Entries(m)|
    ensures Joined(Entries(m)[i]) in m && Entries(m)[i] == m[Joined(Entries(m)[i])]
    ensures i < j ==> Keys.LexLess(Joined(Entries(m)[i]), Joined(Entries(m)[j]))
  {
    var keys := set k | k in m :: Keys.Key("", k);
    Keys.SortedLists(keys);
    Keys.SortedAscends(keys);
    var ks := Listing(m);
    hide Joined;
    assert ks[i] in keys && ks[j] in keys;
    if i < j {
      assert Keys.Less(ks[i], ks[j]);
      Keys.LexTrichotomy("", "");
    }
  }

  lemma EntryOf(m: map<string, seq<string>>, k: string) returns (i: nat)
    requires (forall k :: k in m ==> Joined(m[k]) == k) && k in m
    ensures i < |Entries(m)| && Joined(Entries(m)[i]) == k
  {
    var keys := set k | k in m :: Keys.Key("", k);
    Keys.SortedLists(keys);
    var ks := Listing(m);
    hide Joined;
    assert Keys.Key("", k) in keys && Keys.Key("", k) in ks;
    i :| i < |ks| && ks[i] == Keys.Key("", k);
  }

  /** First only what both have is kept, so that no column goes while a constraint needs
      it; then everything new is there. */
  ghost predicate TogetherFor(old_: seq<seq<string>>, new_: seq<seq<string>>, u: seq<seq<string>>) {
    var have, want := JoinedOf(old_), JoinedOf(new_);
    && have != want
    && ((have != {} && ListsJoined(u, new_, have * want)) || (!(want <= have) && ListsJoined(u, new_, want)))
  }

  /** Both halves as lists. */
  lemma TogetherLists(old_: Options, new_: Options)
    ensures var have, want := TogetherMap(old_.uniqueTogether), TogetherMap(new_.uniqueTogether);
      && have.Keys == JoinedOf(old_.uniqueTogether) && want.Keys == JoinedOf(new_.uniqueTogether)
      && Both(want, have).Keys == have.Keys * want.Keys && (have == map[] <==> have.Keys == {})
      && ListsJoined(Entries(Both(want, have)), new_.uniqueTogether, have.Keys * want.Keys)
      && ListsJoined(Entries(want), new_.uniqueTogether, want.Keys)
  {
    var have, want := TogetherMap(old_.uniqueTogether), TogetherMap(new_.uniqueTogether);
    TogetherFrom(new_.uniqueTogether);
    TogetherHas(old_.uniqueTogether);
    TogetherHas(new_.uniqueTogether);
    EntriesList(want, new_.uniqueTogether);
    assert Both(want, have).Keys == have.Keys * want.Keys;
    hide ListsJoined, TogetherMap, Entries, JoinedOf, Joined;
    EntriesList(Both(want, have), new_.uniqueTogether);
  }

  lemma TogetherIn(model: string, old_: Options, new_: Options, op: Operation)
    ensures op in TogetherRemovals(model, old_, new_) || op in TogetherAdditions(model, old_, new_) ==>
      op.AlterUniqueTogether? && op.name == model
        && TogetherFor(old_.uniqueTogether, new_.uniqueTogether, op.uniqueTogether)
  {
    hide ListsJoined, TogetherMap, Entries, JoinedOf, Joined, Both;
    TogetherLists(old_, new_);
  }

  lemma TogetherThere(model: string, old_: Options, new_: Options)
    ensures var have, want := JoinedOf(old_.uniqueTogether), JoinedOf(new_.uniqueTogether);
      && (have != want && have != {} ==>
            |TogetherRemovals(model, old_, new_)| == 1 && TogetherRemovals(model, old_, new_)[0].AlterUniqueTogether? &&
            ListsJoined(TogetherRemovals(model, old_, new_)[0].uniqueTogether, new_.uniqueTogether, have * want))
      && (!(want <= have) ==>
            |TogetherAdditions(model, old_, new_)| == 1 &&
              TogetherAdditions(model, old_, new_)[0].AlterUniqueTogether? &&
            ListsJoined(TogetherAdditions(model, old_, new_)[0].uniqueTogether, new_.uniqueTogether, want))
  {
    hide ListsJoined, TogetherMap, Entries, JoinedOf, Joined, Both;
    TogetherLists(old_, new_);
  }

  // --- The whole plan ---

  /** The difference of the models asks for the operation. */
  ghost predicate AskedFor(model: string, old_: ModelState, new_: ModelState, op: Operation) {
    var cs, cs' := old_.options.constraints, new_.options.constraints;
    match op
    case AlterModelTable(own, table) => own == model && table == new_.table && table != old_.table
    case AlterModelTableComment(own, comment) =>
      own == model && comment == new_.options.tableComment && comment != old_.options.tableComment
    case AlterModelOptions(own, managed) =>
      own == model && managed == new_.options.managed && managed != old_.options.managed
    case RemoveField(own, n) => own == model && HasField(old_.fields, n) && !HasField(new_.fields, n)
    case AddConstraint(own, c) => own == model && c in cs' && c !in cs && !HasNewMessage(cs, cs', c.name)
    case RemoveConstraint(own, n) =>
      own == model && !HasNewMessage(cs, cs', n) && exists c :: c in cs && c !in cs' && c.name == n
    case AlterConstraint(own, n, c) => own == model && n == c.name && NewMessage(cs, cs', c)
    case AlterUniqueTogether(own, u) =>
      own == model && TogetherFor(old_.options.uniqueTogether, new_.options.uniqueTogether, u)
    case _ => false
  }

  /** Besides additions and alterations of fields, the operations are those the
      difference asks for; the one or two changes of unique_together are there when they
      are called for. */
  ghost predicate AsDifferent(model: string, old_: ModelState, new_: ModelState, ops: seq<Operation>) {
    && (forall op: Operation :: op in ops && !op.AddField? && !op.AlterField? ==> AskedFor(model, old_, new_, op))
    && (forall op: Operation :: !op.AlterUniqueTogether? && AskedFor(model, old_, new_, op) ==> op in ops)
    && var have, want := JoinedOf(old_.options.uniqueTogether), JoinedOf(new_.options.uniqueTogether);
       && (have != want && have != {} ==>
             exists u :: AlterUniqueTogether(model, u) in ops &&
               ListsJoined(u, new_.options.uniqueTogether, have * want))
       && (!(want <= have) ==>
             exists u :: AlterUniqueTogether(model, u) in ops && ListsJoined(u, new_.options.uniqueTogether, want))
  }

  lemma {:induction false} OnlyConstraintOps(model: string, cs: seq<Constraint>)
    ensures forall op: Operation :: op in RemoveConstraintOps(model, cs) ==>
      op.RemoveConstraint? && op.modelName == model
    ensures forall op: Operation :: op in AddConstraintOps(model, cs) ==> op.AddConstraint? && op.modelName == model
    ensures forall op: Operation :: op in AlterConstraintOps(model, cs) ==> op.AlterConstraint? && op.modelName == model
    decreases |cs|
  {
    if cs != [] {
      OnlyConstraintOps(model, cs[..|cs| - 1]);
    }
  }

  lemma {:induction false} OnlyRemovals(model: string, names: seq<string>)
    ensures forall op: Operation :: op in Removals(model, names) ==> op.RemoveField? && op.modelName == model
    decreases |names|
  {
    if names != [] {
      OnlyRemovals(model, names[..|names| - 1]);
    }
  }

  lemma RemovedConstraintsAsked(key: ModelKey, old_: ModelState, new_: ModelState, op: Operation)
    ensures op in RemovedConstraintPart(key, old_, new_) <==>
      op.RemoveConstraint? && AskedFor(key.model, old_, new_, op)
  {
    var cs, cs' := old_.options.constraints, new_.options.constraints;
    OnlyConstraintOps(key.model, RemovedConstraints(cs, cs'));
    if op.RemoveConstraint? && op.modelName == key.model {
      InRemoveOps(key.model, RemovedConstraints(cs, cs'), op.name);
      MissingIs(cs, cs', NamesOf(Altered(cs, cs')));
      NamesAre(cs, cs', op.name);
      hide Missing, NamesOf, Altered, RemoveConstraintOps, HasNewMessage;
    }
  }

  lemma AddedConstraintsAsked(key: ModelKey, old_: ModelState, new_: ModelState, op: Operation)
    ensures op in AddedConstraintPart(key, old_, new_) <==> op.AddConstraint? && AskedFor(key.model, old_, new_, op)
  {
    var cs, cs' := old_.options.constraints, new_.options.constraints;
    OnlyConstraintOps(key.model, AddedConstraints(cs, cs'));
    if op.AddConstraint? && op.modelName == key.model {
      InAddOps(key.model, AddedConstraints(cs, cs'), op.constraint);
      MissingIs(cs', cs, NamesOf(Altered(cs, cs')));
      NamesAre(cs, cs', op.constraint.name);
      hide Missing, NamesOf, Altered, AddConstraintOps, HasNewMessage;
    }
  }

  lemma AlteredConstraintsAsked(key: ModelKey, old_: ModelState, new_: ModelState, op: Operation)
    ensures op in AlteredConstraintPart(key, old_, new_) <==> op.AlterConstraint? && AskedFor(key.model, old_, new_, op)
  {
    var cs, cs' := old_.options.constraints, new_.options.constraints;
    OnlyConstraintOps(key.model, Altered(cs, cs'));
    if op.AlterConstraint? && op.modelName == key.model {
      InAlterOps(key.model, Altered(cs, cs'), op.name, op.constraint);
      AlteredHas(cs, cs', op.constraint);
      hide Altered, AlterConstraintOps, NewMessage;
    }
  }

  lemma RemovalsAsked(key: ModelKey, old_: ModelState, new_: ModelState, order: Order, op: Operation)
    requires Orders(order, old_.fields, new_.fields)
    ensures op in Removals(key.model, order.removed) <==> op.RemoveField? && AskedFor(key.model, old_, new_, op)
  {
    OnlyRemovals(key.model, order.removed);
    if op.RemoveField? && op.modelName == key.model {
      InRemovals(key.model, order.removed, op.name);
      hide Removals, HasField;
    }
  }

  lemma OptionsAsked(key: ModelKey, old_: ModelState, new_: ModelState, op: Operation)
    ensures op in OptionPart(key, old_, new_) <==> op.AlterModelOptions? && AskedFor(key.model, old_, new_, op)
    ensures op in CommentOps(key.model, old_.options, new_.options) <==>
      op.AlterModelTableComment? && AskedFor(key.model, old_, new_, op)
    ensures op in TableOps(key.model, old_, new_) <==> op.AlterModelTable? && AskedFor(key.model, old_, new_, op)
  {}

  lemma TogetherAsked(key: ModelKey, old_: ModelState, new_: ModelState, op: Operation)
    ensures op in TogetherRemovals(key.model, old_.options, new_.options) ==>
      op.AlterUniqueTogether? && AskedFor(key.model, old_, new_, op)
    ensures op in TogetherAdditions(key.model, old_.options, new_.options) ==>
      op.AlterUniqueTogether? && AskedFor(key.model, old_, new_, op)
  {
    TogetherIn(key.model, old_.options, new_.options, op);
    hide TogetherRemovals, TogetherAdditions, TogetherFor;
  }

  lemma {:induction false} OnlyAdditions(q: Questioner, model: string, names: seq<string>, new_: Fields)
    ensures forall op: Operation :: op in Additions(q, model, names, new_) ==> op.AddField?
    decreases |names|
  {
    if names != [] {
      OnlyAdditions(q, model, names[..|names| - 1], new_);
    }
  }

  lemma {:induction false} OnlyAlterations(q: Questioner, key: ModelKey, names: seq<string>, old_: Fields, new_: Fields)
    ensures forall op: Operation :: op in Alterations(q, key, names, old_, new_) ==> op.AlterField?
    decreases |names|
  {
    if names != [] {
      OnlyAlterations(q, key, names[..|names| - 1], old_, new_);
    }
  }

  lemma InPlan(q: Questioner, key: ModelKey, old_: ModelState, new_: ModelState, order: Order, op: Operation)
    ensures op in Plan(q, Kept, key, old_, new_, order) <==>
      || op in OptionPart(key, old_, new_) || op in CommentOps(key.model, old_.options, new_.options)
      || op in RemovedConstraintPart(key, old_, new_) || op in TogetherRemovals(key.model, old_.options, new_.options)
      || op in Removals(key.model, order.removed) || op in Additions(q, key.model, order.added, new_.fields)
      || op in Alterations(q, key, order.kept, old_.fields, new_.fields)
      || op in TogetherAdditions(key.model, old_.options, new_.options) || op in AddedConstraintPart(key, old_, new_)
      || op in AlteredConstraintPart(key, old_, new_) || op in TableOps(key.model, old_, new_)
  {
    hide OptionPart, CommentOps, RemovedConstraintPart, TogetherRemovals, Removals, Additions, Alterations,
      TogetherAdditions, AddedConstraintPart, AlteredConstraintPart, TableOps;
  }

  lemma AskedInPlan(q: Questioner, key: ModelKey, old_: ModelState, new_: ModelState, order: Order, op: Operation)
    requires Orders(order, old_.fields, new_.fields)
    ensures op in Plan(q, Kept, key, old_, new_, order) && !op.AddField? && !op.AlterField? ==>
      AskedFor(key.model, old_, new_, op)
    ensures !op.AlterUniqueTogether? && AskedFor(key.model, old_, new_, op) ==>
      op in Plan(q, Kept, key, old_, new_, order)
  {
    InPlan(q, key, old_, new_, order, op);
    OnlyAdditions(q, key.model, order.added, new_.fields);
    OnlyAlterations(q, key, order.kept, old_.fields, new_.fields);
    RemovedConstraintsAsked(key, old_, new_, op);
    AddedConstraintsAsked(key, old_, new_, op);
    AlteredConstraintsAsked(key, old_, new_, op);
    RemovalsAsked(key, old_, new_, order, op);
    OptionsAsked(key, old_, new_, op);
    TogetherAsked(key, old_, new_, op);
    OtherKinds(key.model, old_, new_, op);
    hide Plan, Orders, AskedFor, OptionPart, CommentOps, RemovedConstraintPart, TogetherRemovals, Removals, Additions,
      Alterations, TogetherAdditions, AddedConstraintPart, AlteredConstraintPart, TableOps;
  }

  lemma OtherKinds(model: string, old_: ModelState, new_: ModelState, op: Operation)
    ensures AskedFor(model, old_, new_, op) ==>
      || op.AlterModelTable? || op.AlterModelTableComment? || op.AlterModelOptions? || op.RemoveField?
      || op.AddConstraint? || op.RemoveConstraint? || op.AlterConstraint? || op.AlterUniqueTogether?
  {}

  lemma TogetherInPlan(q: Questioner, key: ModelKey, old_: ModelState, new_: ModelState, order: Order)
    ensures var have, want := JoinedOf(old_.options.uniqueTogether), JoinedOf(new_.options.uniqueTogether);
      var ops := Plan(q, Kept, key, old_, new_, order);
      && (have != want && have != {} ==>
            exists u :: AlterUniqueTogether(key.model, u) in ops &&
              ListsJoined(u, new_.options.uniqueTogether, have * want))
      && (!(want <= have) ==>
            exists u :: AlterUniqueTogether(key.model, u) in ops && ListsJoined(u, new_.options.uniqueTogether, want))
  {
    var removals, additions :=
      TogetherRemovals(key.model, old_.options, new_.options), TogetherAdditions(key.model, old_.options, new_.options);
    TogetherThere(key.model, old_.options, new_.options);
    hide Plan, ListsJoined, JoinedOf, TogetherFor, TogetherRemovals, TogetherAdditions;
    if removals != [] {
      TogetherIn(key.model, old_.options, new_.options, removals[0]);
      InPlan(q, key, old_, new_, order, removals[0]);
      assert removals[0] == AlterUniqueTogether(key.model, removals[0].uniqueTogether);
    }
    if additions != [] {
      TogetherIn(key.model, old_.options, new_.options, additions[0]);
      InPlan(q, key, old_, new_, order, additions[0]);
      assert additions[0] == AlterUniqueTogether(key.model, additions[0].uniqueTogether);
    }
  }

  /** What is generated for a kept model is what its difference asks for. */
  lemma PlanAsDifferent(q: Questioner, key: ModelKey, old_: ModelState, new_: ModelState, order: Order)
    requires Orders(order, old_.fields, new_.fields)
    ensures AsDifferent(key.model, old_, new_, Plan(q, Kept, key, old_, new_, order))
  {
    hide Plan, AskedFor, Orders, JoinedOf, ListsJoined;
    forall op: Operation
      ensures op in Plan(q, Kept, key, old_, new_, order) && !op.AddField? && !op.AlterField? ==>
        AskedFor(key.model, old_, new_, op)
      ensures !op.AlterUniqueTogether? && AskedFor(key.model, old_, new_, op) ==>
        op in Plan(q, Kept, key, old_, new_, order)
    {
      AskedInPlan(q, key, old_, new_, order, op);
    }
    TogetherInPlan(q, key, old_, new_, order);
  }

  /** For a model compared without its fields, or only for whether it is managed, they are
      the part of it that the comparison looks at. */
  ghost predicate PartlyAsDifferent(kind: Kind, model: string, old_: ModelState, new_: ModelState,
      ops: seq<Operation>)
  {
    forall op: Operation :: op in ops <==>
      && AskedFor(model, old_, new_, op)
      && ((op.AlterModelOptions? && kind != NotCompared)
          || ((op.AlterModelTable? || op.AlterModelTableComment?) && kind == KeptUnmanaged))
  }

  lemma PlanPartlyAsDifferent(q: Questioner, kind: Kind, key: ModelKey, old_: ModelState, new_: ModelState,
      order: Order)
    requires kind != Kept
    ensures PartlyAsDifferent(kind, key.model, old_, new_, Plan(q, kind, key, old_, new_, order))
  {
    hide OptionPart, CommentOps, TableOps, AskedFor;
    forall op: Operation
      ensures op in Plan(q, kind, key, old_, new_, order) <==>
        && AskedFor(key.model, old_, new_, op)
        && ((op.AlterModelOptions? && kind != NotCompared)
            || ((op.AlterModelTable? || op.AlterModelTableComment?) && kind == KeptUnmanaged))
    {
      OptionsAsked(key, old_, new_, op);
    }
  }
}
