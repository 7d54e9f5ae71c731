/** What the answers to prompts come to: every prompt that is called for is asked, and
    its answer is in the operation that is generated. */
module Prompts {
  import opened Wrappers
  import opened Digraph
  import opened Names
  import opened ModelStates
  import opened Operations
  import opened States
  import opened ModelDiff
  import opened ModelConvergence
  import opened Convergence

  /** The new field has no value for the rows that exist already. */
  predicate Lacking(f: Field) {
    && !f.nullable && f.default.None? && f.column.dbDefault.None? && !f.column.autoIncrement
    && !(f.column.dataType == "time" && f.column.autoNow)
  }

  /** The altered field no longer takes nulls and says nothing about those there are. */
  predicate Tightened(a: Field, b: Field) {
    a.nullable && !b.nullable && b.default.None? && b.column.dbDefault.None?
  }

  /** The answer to the prompt that is meant for the new field. */
  function AnswerFor(q: Questioner, model: string, name: string, f: Field): Option<Given> {
    if f.column.dataType == "time" && f.column.autoNowAdd then q.autoNowAddAddition(name, model)
    else q.notNullAddition(name, model)
  }

  /** The default is the one the answer gives. */
  predicate Gives(g: Given, default: Option<string>) {
    match g
    case NotProvided => default == Some("<NOT_PROVIDED>")
    case Nil => default == Some("nil")
    case Default(value) => default == Some(value)
  }

  /** The operation adds the field as it is, or with the answer to its prompt for a
      default that does not stay; a function as the default of a unique field was let
      through. */
  ghost predicate AddsAsAnswered(q: Questioner, model: string, name: string, f: Field, op: Operation) {
    && op.AddField? && op.modelName == model && op.name == name && op.field.(default := f.default) == f
    && (if Lacking(f) then
          && AnswerFor(q, model, name, f).Some? && Gives(AnswerFor(q, model, name, f).value, op.field.default)
          && op.preserveDefault == Some(false)
        else op.field == f && op.preserveDefault == None)
    && (f.unique && op.field.default.Some? && q.isCallable(op.field.default.value) ==>
          q.uniqueCallableAddition(name, model))
  }

  /** The operation alters the field to b as it is, or with the answer for a default
      that does not stay. */
  ghost predicate AltersAsAnswered(q: Questioner, model: string, name: string, a: Field, b: Field, op: Operation) {
    && op.AlterField? && op.modelName == model && op.name == name && op.field.(default := b.default) == b
    && if Tightened(a, b) && q.notNullAlteration(name, model) != Some(NotProvided) then
         && q.notNullAlteration(name, model).Some? && Gives(q.notNullAlteration(name, model).value, op.field.default)
         && op.preserveDefault == Some(false)
       else op.field == b && op.preserveDefault == None
  }

  predicate IsNew(old_: Fields, new_: Fields, n: string) {
    HasField(new_, n) && !HasField(old_, n)
  }

  /** The field is in both and differs. */
  predicate Differs(old_: Fields, new_: Fields, n: string, app: string) {
    && Lookup(old_, n).Some? && Lookup(new_, n).Some?
    && !Unaltered(Lookup(old_, n).value, Lookup(new_, n).value, app)
  }

  ghost predicate AddedIn(q: Questioner, model: string, n: string, new_: Fields, op: Operation) {
    Lookup(new_, n).Some? && AddsAsAnswered(q, model, n, Lookup(new_, n).value, op)
  }

  ghost predicate AlteredIn(q: Questioner, model: string, n: string, old_: Fields, new_: Fields, op: Operation) {
    && Lookup(old_, n).Some? && Lookup(new_, n).Some?
    && AltersAsAnswered(q, model, n, Lookup(old_, n).value, Lookup(new_, n).value, op)
  }

  /** The operations add exactly the new fields and alter exactly those that differ, each
      as answered. */
  ghost predicate AsAnswered(q: Questioner, key: ModelKey, old_: Fields, new_: Fields, ops: seq<Operation>) {
    && (forall n :: IsNew(old_, new_, n) ==> exists op: Operation :: op in ops && AddedIn(q, key.model, n, new_, op))
    && (forall n :: Differs(old_, new_, n, key.app) ==>
          exists op: Operation :: op in ops && AlteredIn(q, key.model, n, old_, new_, op))
    && (forall op: Operation :: op in ops && op.AddField? ==>
          IsNew(old_, new_, op.name) && AddedIn(q, key.model, op.name, new_, op))
    && (forall op: Operation :: op in ops && op.AlterField? ==>
          Differs(old_, new_, op.name, key.app) && AlteredIn(q, key.model, op.name, old_, new_, op))
  }

  // --- When the command goes on ---

  /** No prompt for the new field ends the command. */
  predicate AdditionGoesOn(q: Questioner, model: string, name: string, f: Field) {
    var default := if Lacking(f) && AnswerFor(q, model, name, f).Some? then
        match AnswerFor(q, model, name, f).value
        case NotProvided => Some("<NOT_PROVIDED>")
        case Nil => Some("nil")
        case Default(value) => Some(value)
      else f.default;
    && (Lacking(f) ==> AnswerFor(q, model, name, f).Some?)
    && (f.unique && default.Some? && q.isCallable(default.value) ==> q.uniqueCallableAddition(name, model))
  }

  predicate AlterationGoesOn(q: Questioner, model: string, name: string, a: Field, b: Field) {
    Tightened(a, b) ==> q.notNullAlteration(name, model).Some?
  }

  /** No prompt for the field ends the command. */
  predicate GoesOn(q: Questioner, key: ModelKey, old_: Fields, new_: Fields, n: string) {
    && (IsNew(old_, new_, n) ==> AdditionGoesOn(q, key.model, n, Lookup(new_, n).value))
    && (Differs(old_, new_, n, key.app) ==>
          AlterationGoesOn(q, key.model, n, Lookup(old_, n).value, Lookup(new_, n).value))
  }

  lemma AdditionAsAnswered(q: Questioner, model: string, name: string, f: Field)
    ensures AddedField(q, model, name, f).Some? <==> AdditionGoesOn(q, model, name, f)
    ensures AddedField(q, model, name, f).Some? ==>
      AddsAsAnswered(q, model, name, f, AddedField(q, model, name, f).value)
  {}

  lemma AlterationAsAnswered(q: Questioner, model: string, name: string, a: Field, b: Field)
    ensures AlteredField(q, model, name, a, b).Some? <==> AlterationGoesOn(q, model, name, a, b)
    ensures AlteredField(q, model, name, a, b).Some? ==>
      AltersAsAnswered(q, model, name, a, b, AlteredField(q, model, name, a, b).value)
  {}

  lemma AdditionIn(q: Questioner, model: string, n: string, new_: Fields)
    ensures AdditionOf(q, model, n, new_).Some? ==> AddedIn(q, model, n, new_, AdditionOf(q, model, n, new_).value)
  {
    hide Lookup, AddedField, AddsAsAnswered, AdditionGoesOn;
    if Lookup(new_, n).Some? {
      AdditionAsAnswered(q, model, n, Lookup(new_, n).value);
    }
  }

  lemma AlterationIn(q: Questioner, key: ModelKey, n: string, old_: Fields, new_: Fields)
    ensures AlterationOf(q, key, n, old_, new_).Some? ==>
      Differs(old_, new_, n, key.app) && AlteredIn(q, key.model, n, old_, new_,
        AlterationOf(q, key, n, old_, new_).value)
  {
    hide Lookup, AlteredField, AltersAsAnswered, AlterationGoesOn, Unaltered;
    if Lookup(old_, n).Some? && Lookup(new_, n).Some? {
      AlterationAsAnswered(q, key.model, n, Lookup(old_, n).value, Lookup(new_, n).value);
    }
  }

  /** The command goes on exactly when an operation comes out. */
  lemma GoesOnIs(q: Questioner, key: ModelKey, old_: Fields, new_: Fields, n: string)
    ensures GoesOn(q, key, old_, new_, n) <==>
      && (IsNew(old_, new_, n) ==> AdditionOf(q, key.model, n, new_).Some?)
      && (IsAltered(old_, new_, n, key.app) ==> AlterationOf(q, key, n, old_, new_).Some?)
  {
    hide AddedField, AlteredField, AdditionGoesOn, AlterationGoesOn, Unaltered, AddsAsAnswered, AltersAsAnswered;
    if IsNew(old_, new_, n) {
      AdditionAsAnswered(q, key.model, n, Lookup(new_, n).value);
    }
    if Differs(old_, new_, n, key.app) {
      AlterationAsAnswered(q, key.model, n, Lookup(old_, n).value, Lookup(new_, n).value);
    }
  }

  lemma {:induction false} InAdditions(q: Questioner, model: string, names: seq<string>, new_: Fields, op: Operation)
    ensures op in Additions(q, model, names, new_) <==>
      exists n :: n in names && AdditionOf(q, model, n, new_) == Some(op)
    decreases |names|
  {
    if names != [] {
      var front, last := names[..|names| - 1], names[|names| - 1];
      assert names == front + [last];
      InAdditions(q, model, front, new_, op);
      hide AdditionOf;
    }
  }

  lemma {:induction false} InAlterations(q: Questioner, key: ModelKey, names: seq<string>, old_: Fields, new_: Fields,
      op: Operation)
    ensures op in Alterations(q, key, names, old_, new_) <==>
      exists n :: n in names && AlterationOf(q, key, n, old_, new_) == Some(op)
    decreases |names|
  {
    if names != [] {
      var front, last := names[..|names| - 1], names[|names| - 1];
      assert names == front + [last];
      InAlterations(q, key, front, old_, new_, op);
      hide AlterationOf;
    }
  }

  // --- The other operations of a plan ---

  predicate NoFields(ops: seq<Operation>) {
    forall op: Operation :: op in ops ==> !op.AddField? && !op.AlterField?
  }

  lemma {:induction false} RemovalsNoFields(model: string, names: seq<string>)
    ensures NoFields(Removals(model, names))
    decreases |names|
  {
    if names != [] {
      RemovalsNoFields(model, names[..|names| - 1]);
    }
  }

  lemma {:induction false} ConstraintsNoFields(model: string, cs: seq<Constraint>)
    ensures NoFields(RemoveConstraintOps(model, cs)) && NoFields(AddConstraintOps(model, cs))
    ensures NoFields(AlterConstraintOps(model, cs))
    decreases |cs|
  {
    if cs != [] {
      ConstraintsNoFields(model, cs[..|cs| - 1]);
    }
  }

  ghost function BeforeAdditions(key: ModelKey, old_: ModelState, new_: ModelState, order: Order): seq<Operation> {
    OptionPart(key, old_, new_) + CommentOps(key.model, old_.options, new_.options)
    + RemovedConstraintPart(key, old_, new_) + TogetherRemovals(key.model, old_.options, new_.options)
    + Removals(key.model, order.removed)
  }

  ghost function AfterAlterations(key: ModelKey, old_: ModelState, new_: ModelState): seq<Operation> {
    TogetherAdditions(key.model, old_.options, new_.options)
    + AddedConstraintPart(key, old_, new_) + AlteredConstraintPart(key, old_, new_) + TableOps(key.model, old_, new_)
  }

  lemma OthersNoFields(key: ModelKey, old_: ModelState, new_: ModelState, order: Order)
    ensures NoFields(BeforeAdditions(key, old_, new_, order)) && NoFields(AfterAlterations(key, old_, new_))
  {
    RemovalsNoFields(key.model, order.removed);
    ConstraintsNoFields(key.model, RemovedConstraints(old_.options.constraints, new_.options.constraints));
    ConstraintsNoFields(key.model, AddedConstraints(old_.options.constraints, new_.options.constraints));
    ConstraintsNoFields(key.model, Altered(old_.options.constraints, new_.options.constraints));
    hide RemovedConstraints, AddedConstraints, Altered, Removals, RemoveConstraintOps, AddConstraintOps,
      AlterConstraintOps, TogetherMap, Entries;
  }

  lemma PlanIs(q: Questioner, key: ModelKey, old_: ModelState, new_: ModelState, order: Order)
    ensures Plan(q, Kept, key, old_, new_, order)
         == BeforeAdditions(key, old_, new_, order) + Additions(q, key.model, order.added, new_.fields)
            + Alterations(q, key, order.kept, old_.fields, new_.fields) + AfterAlterations(key, old_, new_)
  {
    hide OptionPart, CommentOps, RemovedConstraintPart, TogetherRemovals, Removals, Additions, Alterations,
      TogetherAdditions, AddedConstraintPart, AlteredConstraintPart, TableOps;
  }

  lemma InParts(a: seq<Operation>, adds: seq<Operation>, alters: seq<Operation>, b: seq<Operation>, op: Operation)
    requires NoFields(a) && NoFields(b) && (op.AddField? || op.AlterField?)
    ensures op in a + adds + alters + b <==> op in adds || op in alters
  {}

  /** What is generated for a model that is kept is as answered. */
  lemma PlanAsAnswered(q: Questioner, key: ModelKey, old_: ModelState, new_: ModelState, order: Order)
    requires Orders(order, old_.fields, new_.fields) && Answered(q, key, old_.fields, new_.fields, order)
    ensures AsAnswered(q, key, old_.fields, new_.fields, Plan(q, Kept, key, old_, new_, order))
  {
    var plan := Plan(q, Kept, key, old_, new_, order);
    forall n | IsNew(old_.fields, new_.fields, n)
      ensures exists op: Operation :: op in plan && AddedIn(q, key.model, n, new_.fields, op)
    {
      NewIsAdded(q, key, old_, new_, order, n);
    }
    forall n | Differs(old_.fields, new_.fields, n, key.app)
      ensures exists op: Operation :: op in plan && AlteredIn(q, key.model, n, old_.fields, new_.fields, op)
    {
      DifferentIsAltered(q, key, old_, new_, order, n);
    }
    forall op: Operation | op in plan && (op.AddField? || op.AlterField?)
      ensures op.AddField? ==>
        IsNew(old_.fields, new_.fields, op.name) && AddedIn(q, key.model, op.name, new_.fields, op)
      ensures op.AlterField? ==>
        Differs(old_.fields, new_.fields, op.name, key.app) &&
          AlteredIn(q, key.model, op.name, old_.fields, new_.fields, op)
    {
      OnlyAsAnswered(q, key, old_, new_, order, op);
    }
    hide Plan, IsNew, Differs, AddedIn, AlteredIn;
  }

  lemma PlanHas(q: Questioner, key: ModelKey, old_: ModelState, new_: ModelState, order: Order, op: Operation)
    requires op.AddField? || op.AlterField?
    ensures op in Plan(q, Kept, key, old_, new_, order) <==>
      || (exists n :: n in order.added && AdditionOf(q, key.model, n, new_.fields) == Some(op))
      || (exists n :: n in order.kept && AlterationOf(q, key, n, old_.fields, new_.fields) == Some(op))
  {
    hide Plan, AdditionOf, AlterationOf, BeforeAdditions, AfterAlterations, Additions, Alterations, NoFields;
    PlanIs(q, key, old_, new_, order);
    OthersNoFields(key, old_, new_, order);
    var adds, alters :=
      Additions(q, key.model, order.added, new_.fields), Alterations(q, key, order.kept, old_.fields, new_.fields);
    InAdditions(q, key.model, order.added, new_.fields, op);
    InAlterations(q, key, order.kept, old_.fields, new_.fields, op);
    InParts(BeforeAdditions(key, old_, new_, order), adds, alters, AfterAlterations(key, old_, new_), op);
  }

  lemma NewIsAdded(q: Questioner, key: ModelKey, old_: ModelState, new_: ModelState, order: Order, n: string)
    requires Orders(order, old_.fields, new_.fields) && Answered(q, key, old_.fields, new_.fields, order)
    requires IsNew(old_.fields, new_.fields, n)
    ensures exists op: Operation ::
      op in Plan(q, Kept, key, old_, new_, order) && AddedIn(q, key.model, n, new_.fields, op)
  {
    assert n in order.added && AdditionOf(q, key.model, n, new_.fields).Some?;
    var op := AdditionOf(q, key.model, n, new_.fields).value;
    AdditionIn(q, key.model, n, new_.fields);
    assert op.AddField?;
    hide Plan, AdditionOf, AddedIn;
    PlanHas(q, key, old_, new_, order, op);
  }

  lemma DifferentIsAltered(q: Questioner, key: ModelKey, old_: ModelState, new_: ModelState, order: Order, n: string)
    requires Orders(order, old_.fields, new_.fields) && Answered(q, key, old_.fields, new_.fields, order)
    requires Differs(old_.fields, new_.fields, n, key.app)
    ensures exists op: Operation ::
      op in Plan(q, Kept, key, old_, new_, order) && AlteredIn(q, key.model, n, old_.fields, new_.fields, op)
  {
    assert n in order.kept && AlterationOf(q, key, n, old_.fields, new_.fields).Some?;
    var op := AlterationOf(q, key, n, old_.fields, new_.fields).value;
    AlterationIn(q, key, n, old_.fields, new_.fields);
    assert op.AlterField?;
    hide Plan, AlterationOf, AlteredIn;
    PlanHas(q, key, old_, new_, order, op);
  }

  lemma OnlyAsAnswered(q: Questioner, key: ModelKey, old_: ModelState, new_: ModelState, order: Order, op: Operation)
    requires Orders(order, old_.fields, new_.fields)
    requires op in Plan(q, Kept, key, old_, new_, order) && (op.AddField? || op.AlterField?)
    ensures op.AddField? ==> IsNew(old_.fields, new_.fields, op.name) && AddedIn(q, key.model, op.name, new_.fields, op)
    ensures op.AlterField? ==>
      Differs(old_.fields, new_.fields, op.name, key.app) &&
        AlteredIn(q, key.model, op.name, old_.fields, new_.fields, op)
  {
    PlanHas(q, key, old_, new_, order, op);
    hide Plan, AdditionOf, AlterationOf;
    if n :| n in order.added && AdditionOf(q, key.model, n, new_.fields) == Some(op) {
      AdditionIn(q, key.model, n, new_.fields);
    } else {
      var n :| n in order.kept && AlterationOf(q, key, n, old_.fields, new_.fields) == Some(op);
      AlterationIn(q, key, n, old_.fields, new_.fields);
    }
  }
}
