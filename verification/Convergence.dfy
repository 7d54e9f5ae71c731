/** A second comparison of what the first one's operations give finds nothing. */
module Convergence {
  import opened Wrappers
  import opened Digraph
  import opened Names
  import opened ModelStates
  import opened Operations
  import opened States
  import opened ModelDiff
  import opened ModelConvergence

  /** How a comparison treats a model: with its fields, without them, or only for
      whether it is managed now. */
  datatype Kind = Kept | KeptUnmanaged | Switched | NotCompared

  /** The names of fields, in the order their operations are generated. */
  datatype Order = Order(removed: seq<string>, added: seq<string>, kept: seq<string>)

  ghost predicate Orders(order: Order, old_: Fields, new_: Fields) {
    && Distinct(order.removed) && Distinct(order.added) && Distinct(order.kept)
    && (forall n :: n in order.removed <==> HasField(old_, n) && !HasField(new_, n))
    && (forall n :: n in order.added <==> HasField(new_, n) && !HasField(old_, n))
    && (forall n :: n in order.kept <==> HasField(old_, n) && HasField(new_, n))
  }

  ghost function OptionPart(key: ModelKey, old_: ModelState, new_: ModelState): seq<Operation> {
    ManagedOps(key.model, old_.options, new_.options)
  }

  ghost function RemovedConstraintPart(key: ModelKey, old_: ModelState, new_: ModelState): seq<Operation> {
    RemoveConstraintOps(key.model, RemovedConstraints(old_.options.constraints, new_.options.constraints))
  }

  ghost function AddedConstraintPart(key: ModelKey, old_: ModelState, new_: ModelState): seq<Operation> {
    AddConstraintOps(key.model, AddedConstraints(old_.options.constraints, new_.options.constraints))
  }

  ghost function AlteredConstraintPart(key: ModelKey, old_: ModelState, new_: ModelState): seq<Operation> {
    AlterConstraintOps(key.model, Altered(old_.options.constraints, new_.options.constraints))
  }

  /** The operations generated for a model, in order. */
  ghost function Plan(q: Questioner, kind: Kind, key: ModelKey, old_: ModelState, new_: ModelState,
      order: Order): seq<Operation> {
    match kind
    case NotCompared => []
    case Switched => OptionPart(key, old_, new_)
    case KeptUnmanaged =>
      OptionPart(key, old_, new_) + CommentOps(key.model, old_.options, new_.options) + TableOps(key.model, old_, new_)
    case Kept =>
      OptionPart(key, old_, new_) + CommentOps(key.model, old_.options, new_.options)
      + RemovedConstraintPart(key, old_, new_) + TogetherRemovals(key.model, old_.options, new_.options)
      + Removals(key.model, order.removed) + Additions(q, key.model, order.added, new_.fields)
      + Alterations(q, key, order.kept, old_.fields, new_.fields)
      + TogetherAdditions(key.model, old_.options, new_.options)
      + AddedConstraintPart(key, old_, new_) + AlteredConstraintPart(key, old_, new_) + TableOps(key.model, old_, new_)
  }

  /** A model as project states hold it. */
  ghost predicate WellKept(m: ModelState, app: string) {
    DistinctNames(m.fields) && UniqueNames(m.options.constraints)
    && AllStored(m.fields, app) && ConstraintsStored(m.options.constraints, app)
  }

  /** Every prompt was answered. */
  ghost predicate Answered(q: Questioner, key: ModelKey, old_: Fields, new_: Fields, order: Order) {
    AllAnswered(q, key.model, order.added, new_) && AlterationsAnswered(q, key, order.kept, old_, new_)
  }

  // --- What is left after the plan ---

  ghost predicate FieldsAgree(fs: Fields, new_: Fields, app: string) {
    forall n :: FieldAgrees(Lookup(fs, n), Lookup(new_, n), app)
  }

  predicate FieldAgrees(a: Option<Field>, b: Option<Field>, app: string) {
    a.Some? == b.Some? && (a.Some? ==> Unaltered(a.value, b.value, app))
  }

  ghost predicate ConstraintsAgree(cs: seq<Constraint>, new_: seq<Constraint>) {
    forall c :: c in cs <==> c in new_
  }

  ghost predicate TogetherAgrees(a: Options, b: Options) {
    TogetherMap(a.uniqueTogether).Keys == TogetherMap(b.uniqueTogether).Keys
  }

  /** The two agree in all that is compared when the fields are not. */
  ghost predicate OutlineAgrees(r: ModelState, new_: ModelState) {
    r.table == new_.table && r.options.tableComment == new_.options.tableComment
  }

  ghost predicate Agrees(r: ModelState, new_: ModelState, app: string) {
    && OutlineAgrees(r, new_) && FieldsAgree(r.fields, new_.fields, app) && TogetherAgrees(r.options, new_.options)
    && ConstraintsAgree(r.options.constraints, new_.options.constraints)
  }

  /** The fields after all three steps. */
  lemma FieldsSettle(old_: Fields, f1: Fields, f2: Fields, f3: Fields, new_: Fields, order: Order, app: string)
    requires Orders(order, old_, new_)
    requires AllRebound(f1, old_, order.removed, []) && AllRebound(f2, f1, order.added, new_)
    requires AllAltered(f3, f2, order.kept, old_, new_, app)
    ensures FieldsAgree(f3, new_, app)
  {
    forall n
      ensures FieldAgrees(Lookup(f3, n), Lookup(new_, n), app)
    {
      assert Lookup([], n) == None;
      hide FieldIndex, Deconstructed;
      assert Lookup(f3, n) == if n in order.kept then Settled(old_, new_, n, app) else Lookup(f2, n);
    }
  }

  /** Between the steps, the fields are what the next one needs. */
  lemma FieldsMeanwhile(old_: Fields, f1: Fields, f2: Fields, new_: Fields, order: Order)
    requires Orders(order, old_, new_) && AllRebound(f1, old_, order.removed, []) &&
      AllRebound(f2, f1, order.added, new_)
    ensures NoneThere(f1, order.added) && AllSame(f2, old_, new_, order.kept)
  {
    forall n | n in order.added
      ensures !HasField(f1, n)
    {
      assert Lookup([], n) == None && Lookup(f1, n) == if n in order.removed then None else Lookup(old_, n);
    }
    forall n | n in order.kept
      ensures Lookup(f2, n) == Lookup(old_, n)
    {
      hide Lookup;
    }
  }

  lemma SameNameSameConstraint(cs: seq<Constraint>, c: Constraint, d: Constraint)
    requires UniqueNames(cs) && c in cs && d in cs && c.name == d.name
    ensures c == d
  {
    var i :| 0 <= i < |cs| && cs[i] == c;
    var j :| 0 <= j < |cs| && cs[j] == d;
  }

  /** A constraint of the whole with a name of the part is in the part. */
  lemma NameTells(cs: seq<Constraint>, part: seq<Constraint>, c: Constraint)
    requires UniqueNames(cs) && c in cs && c.name in NamesOf(part) && forall d :: d in part ==> d in cs
    ensures c in part
  {
    var k :| 0 <= k < |part| && part[k].name == c.name;
    assert part[k] in part;
    SameNameSameConstraint(cs, c, part[k]);
  }

  lemma ConstraintSettles(
      old_: seq<Constraint>, c1: seq<Constraint>, c2: seq<Constraint>, c3: seq<Constraint>, new_: seq<Constraint>,
        c: Constraint)
    requires UniqueNames(old_) && UniqueNames(new_)
    requires AllRemoved(c1, old_, NamesOf(RemovedConstraints(old_, new_))) && c2 == c1 + AddedConstraints(old_, new_)
    requires AllReplaced(c3, c2, Altered(old_, new_))
    ensures c in c3 <==> c in new_
  {
    var altered, removed, added := Altered(old_, new_), RemovedConstraints(old_, new_), AddedConstraints(old_, new_);
    AlteredIs(old_, new_);
    MissingIs(new_, old_, NamesOf(altered));
    MissingIs(old_, new_, NamesOf(altered));
    assert c in c3 <==> c in altered || (c in c2 && c.name !in NamesOf(altered));
    assert c in c1 <==> c in old_ && c.name !in NamesOf(removed);
    hide AllRemoved, AllReplaced, Altered, Missing, NamesOf, UniqueNames, AlteredTo, AddedConstraints,
      RemovedConstraints;
    if c in new_ && c.name in NamesOf(altered) {
      NameTells(new_, altered, c);
    }
    if c in old_ && c.name in NamesOf(removed) {
      NameTells(old_, removed, c);
    }
    if c in removed {
      NameIsListed(removed, c);
    }
  }

  /** The constraints after all three steps. */
  lemma ConstraintsSettle(old_: seq<Constraint>, c1: seq<Constraint>, c2: seq<Constraint>, c3: seq<Constraint>,
      new_: seq<Constraint>)
    requires UniqueNames(old_) && UniqueNames(new_)
    requires AllRemoved(c1, old_, NamesOf(RemovedConstraints(old_, new_))) && c2 == c1 + AddedConstraints(old_, new_)
    requires AllReplaced(c3, c2, Altered(old_, new_))
    ensures ConstraintsAgree(c3, new_)
  {
    forall c
      ensures c in c3 <==> c in new_
    {
      ConstraintSettles(old_, c1, c2, c3, new_, c);
    }
  }

  /** Between the steps, the constraints are what the next one needs. */
  lemma ConstraintsMeanwhile(old_: seq<Constraint>, c1: seq<Constraint>, c2: seq<Constraint>, new_: seq<Constraint>)
    requires UniqueNames(old_) && UniqueNames(new_)
    requires AllRemoved(c1, old_, NamesOf(RemovedConstraints(old_, new_))) && c2 == c1 + AddedConstraints(old_, new_)
    ensures UniqueNames(c2) && UniqueNames(Altered(old_, new_)) && NamesOf(Altered(old_, new_)) <= NamesOf(c2)
  {
    var altered, removed, added := Altered(old_, new_), RemovedConstraints(old_, new_), AddedConstraints(old_, new_);
    AlteredIs(old_, new_);
    MissingIs(new_, old_, NamesOf(altered));
    MissingIs(old_, new_, NamesOf(altered));
    forall i, j | 0 <= i < |c1| && 0 <= j < |added|
      ensures c1[i].name != added[j].name
    {
      NotAgain(old_, new_, c1[i], added[j]) by {
        assert c1[i] in c1 && added[j] in added;
      }
    }
    UniqueTogether(c1, added);
    forall n | n in NamesOf(altered)
      ensures n in NamesOf(c2)
    {
      StillThere(old_, c1, new_, n);
      NamesOfPart(c1, added, n);
    }
  }

  lemma NamesOfPart(a: seq<Constraint>, b: seq<Constraint>, n: string)
    requires n in NamesOf(a)
    ensures n in NamesOf(a + b)
  {
    var i :| 0 <= i < |a| && a[i].name == n;
    assert (a + b)[i].name == n;
  }

  lemma UniqueTogether(a: seq<Constraint>, b: seq<Constraint>)
    requires UniqueNames(a) && UniqueNames(b) && forall i, j :: 0 <= i < |a| && 0 <= j < |b| ==> a[i].name != b[j].name
    ensures UniqueNames(a + b)
  {}

  /** A constraint that is added does not have the name of one that stays. */
  lemma NotAgain(old_: seq<Constraint>, new_: seq<Constraint>, c: Constraint, d: Constraint)
    requires UniqueNames(old_) && UniqueNames(new_)
    requires c in old_ && c.name !in NamesOf(RemovedConstraints(old_, new_)) && d in AddedConstraints(old_, new_)
    ensures c.name != d.name
  {
    var altered, removed := Altered(old_, new_), RemovedConstraints(old_, new_);
    MissingIs(new_, old_, NamesOf(altered));
    MissingIs(old_, new_, NamesOf(altered));
    if c.name == d.name {
      if c in removed {
        NameIsListed(removed, c);
      } else {
        assert c in new_;
        SameNameSameConstraint(new_, c, d);
      }
    }
  }

  /** A constraint that is altered has not been removed. */
  lemma StillThere(old_: seq<Constraint>, c1: seq<Constraint>, new_: seq<Constraint>, n: string)
    requires UniqueNames(old_) && AllRemoved(c1, old_, NamesOf(RemovedConstraints(old_, new_))) &&
      n in NamesOf(Altered(old_, new_))
    ensures n in NamesOf(c1)
  {
    var altered, removed := Altered(old_, new_), RemovedConstraints(old_, new_);
    AlteredIs(old_, new_);
    MissingIs(old_, new_, NamesOf(altered));
    var k :| 0 <= k < |altered| && altered[k].name == n;
    assert altered[k] in altered;
    var c :| c in old_ && AlteredTo(c, altered[k]);
    if c.name in NamesOf(removed) {
      NameTells(old_, removed, c);
    }
    assert c in c1;
    NameIsListed(c1, c);
  }

  // --- The whole plan ---

  predicate OnlyTogether(r: ModelState, m: ModelState) {
    r == m.(options := m.options.(uniqueTogether := r.options.uniqueTogether))
  }

  /** One operation of a kind at most. */
  lemma OneOrNone(op: Operation, app: string, m: ModelState)
    ensures RunAll([op], app, m) == ChangeModel(op, app, m) && RunAll([], app, m) == Ok(m)
  {
    RunMore([], op, app, m);
    assert [] + [op] == [op];
  }

  lemma ManagedRuns(key: ModelKey, old_: ModelState, new_: ModelState)
    ensures RunAll(OptionPart(key, old_, new_), key.app, old_)
      == Ok(old_.(options := old_.options.(managed := new_.options.managed)))
  {
    OneOrNone(AlterModelOptions(key.model, new_.options.managed), key.app, old_);
    hide RunAll;
  }

  lemma CommentRuns(key: ModelKey, old_: Options, new_: Options, m: ModelState)
    requires m.options.tableComment == old_.tableComment
    ensures RunAll(CommentOps(key.model, old_, new_), key.app, m)
      == Ok(m.(options := m.options.(tableComment := new_.tableComment)))
  {
    OneOrNone(AlterModelTableComment(key.model, new_.tableComment), key.app, m);
    hide RunAll;
  }

  /** The managed option, and the comment after it. */
  lemma OutlineRuns(key: ModelKey, old_: ModelState, new_: ModelState)
    ensures RunAll(OptionPart(key, old_, new_) + CommentOps(key.model, old_.options, new_.options), key.app, old_)
         == Ok(old_.(options := old_.options.(managed := new_.options.managed,
           tableComment := new_.options.tableComment)))
    ensures RunAll(OptionPart(key, old_, new_), key.app, old_)
      == Ok(old_.(options := old_.options.(managed := new_.options.managed)))
  {
    hide RunAll, OptionPart, CommentOps;
    ManagedRuns(key, old_, new_);
    RunBoth(OptionPart(key, old_, new_), CommentOps(key.model, old_.options, new_.options), key.app, old_);
    CommentRuns(key, old_.options, new_.options, old_.(options := old_.options.(managed := new_.options.managed)));
  }

  lemma TableRuns(key: ModelKey, old_: ModelState, new_: ModelState, m: ModelState)
    requires m.table == old_.table
    ensures RunAll(TableOps(key.model, old_, new_), key.app, m) == Ok(m.(table := new_.table))
  {
    OneOrNone(AlterModelTable(key.model, new_.table), key.app, m);
  }

  lemma TogetherRemovalsRun(key: ModelKey, old_: Options, new_: Options, m: ModelState)
    requires m.options.uniqueTogether == old_.uniqueTogether
    ensures RunAll(TogetherRemovals(key.model, old_, new_), key.app, m).Ok?
    ensures var r := RunAll(TogetherRemovals(key.model, old_, new_), key.app, m).value;
      && OnlyTogether(r, m)
      && TogetherMap(r.options.uniqueTogether).Keys
         == if TogetherMap(old_.uniqueTogether).Keys
           == TogetherMap(new_.uniqueTogether).Keys then TogetherMap(old_.uniqueTogether).Keys
            else TogetherMap(old_.uniqueTogether).Keys * TogetherMap(new_.uniqueTogether).Keys
  {
    var have, want := TogetherMap(old_.uniqueTogether), TogetherMap(new_.uniqueTogether);
    EntriesBack(Both(want, have));
    assert Both(want, have).Keys == have.Keys * want.Keys;
    hide TogetherMap, Entries;
    OneOrNone(AlterUniqueTogether(key.model, Entries(Both(want, have))), key.app, m);
  }

  lemma TogetherAdditionsRun(key: ModelKey, old_: Options, new_: Options, m: ModelState)
    requires TogetherMap(m.options.uniqueTogether).Keys
         == if TogetherMap(old_.uniqueTogether).Keys
           == TogetherMap(new_.uniqueTogether).Keys then TogetherMap(old_.uniqueTogether).Keys
            else TogetherMap(old_.uniqueTogether).Keys * TogetherMap(new_.uniqueTogether).Keys
    ensures RunAll(TogetherAdditions(key.model, old_, new_), key.app, m).Ok?
    ensures OnlyTogether(RunAll(TogetherAdditions(key.model, old_, new_), key.app, m).value, m)
    ensures TogetherAgrees(RunAll(TogetherAdditions(key.model, old_, new_), key.app, m).value.options, new_)
  {
    var have, want := TogetherMap(old_.uniqueTogether), TogetherMap(new_.uniqueTogether);
    EntriesBack(want);
    assert Both(want, have).Keys == have.Keys * want.Keys;
    hide TogetherMap, Entries;
    OneOrNone(AlterUniqueTogether(key.model, Entries(want)), key.app, m);
  }

  /** The first half of the plan, up to the additions. */
  ghost function UpToTogether(key: ModelKey, old_: ModelState, new_: ModelState): seq<Operation> {
    OptionPart(key, old_, new_) + CommentOps(key.model, old_.options, new_.options)
    + RemovedConstraintPart(key, old_, new_) + TogetherRemovals(key.model, old_.options, new_.options)
  }

  /** What the first part leaves. */
  ghost predicate Prepared(r: ModelState, old_: ModelState, new_: ModelState) {
    && r == old_.(options := old_.options.(
         managed := new_.options.managed, tableComment := new_.options.tableComment,
         uniqueTogether := r.options.uniqueTogether, constraints := r.options.constraints))
    && AllRemoved(r.options.constraints, old_.options.constraints,
      NamesOf(RemovedConstraints(old_.options.constraints, new_.options.constraints)))
    && TogetherMap(r.options.uniqueTogether).Keys
       == if TogetherAgrees(old_.options, new_.options) then TogetherMap(old_.options.uniqueTogether).Keys
          else TogetherMap(old_.options.uniqueTogether).Keys * TogetherMap(new_.options.uniqueTogether).Keys
  }

  lemma PreparedRuns(key: ModelKey, old_: ModelState, new_: ModelState) returns (r: ModelState)
    requires UniqueNames(old_.options.constraints)
    ensures RunAll(UpToTogether(key, old_, new_), key.app, old_) == Ok(r) && Prepared(r, old_, new_)
  {
    hide RunAll, OptionPart, TogetherMap, AllRemoved, NamesOf, RemovedConstraints, RemoveConstraintOps,
      TogetherRemovals, UniqueNames, CommentOps;
    var a, b := OptionPart(key, old_, new_) + CommentOps(key.model, old_.options, new_.options),
      RemovedConstraintPart(key, old_, new_);
    var c := TogetherRemovals(key.model, old_.options, new_.options);
    OutlineRuns(key, old_, new_);
    var m1 := RunAll(a, key.app, old_).value;
    RunBoth(a, b, key.app, old_);
    RemoveConstraintsRun(key.model, RemovedConstraints(old_.options.constraints, new_.options.constraints), key.app,
      m1);
    var m2 := RunAll(b, key.app, m1).value;
    RunBoth(a + b, c, key.app, old_);
    TogetherRemovalsRun(key, old_.options, new_.options, m2);
    r := RunAll(c, key.app, m2).value;
  }

  ghost function FieldPart(q: Questioner, key: ModelKey, old_: ModelState, new_: ModelState,
      order: Order): seq<Operation> {
    Removals(key.model, order.removed) + Additions(q, key.model, order.added, new_.fields)
    + Alterations(q, key, order.kept, old_.fields, new_.fields)
  }

  lemma FieldsRun(q: Questioner, key: ModelKey, old_: ModelState, new_: ModelState, order: Order, m: ModelState)
      returns (r: ModelState)
    requires m.fields == old_.fields && DistinctNames(old_.fields) && AllStored(new_.fields, key.app)
    requires Orders(order, old_.fields, new_.fields) && Answered(q, key, old_.fields, new_.fields, order)
    ensures RunAll(FieldPart(q, key, old_, new_, order), key.app, m) == Ok(r)
    ensures OnlyFields(r, m) && FieldsAgree(r.fields, new_.fields, key.app)
  {
    var a, b := Removals(key.model, order.removed), Additions(q, key.model, order.added, new_.fields);
    var c := Alterations(q, key, order.kept, old_.fields, new_.fields);
    assert AllThere(m.fields, order.removed);
    hide RunAll, Removals, Additions, Alterations, DistinctNames, AllRebound, AllAltered, AllThere, NoneThere, AllSame,
      AllStored, FieldsAgree,
      AllAnswered, AlterationsAnswered;
    RemovalsRun(key.model, order.removed, key.app, m);
    var m1 := RunAll(a, key.app, m).value;
    RunBoth(a, b, key.app, m);
    StillDistinct(m1.fields, m.fields, order.removed, []);
    AddedAreNew(old_.fields, m1.fields, new_.fields, order);
    AdditionsRun(q, key.model, order.added, new_.fields, key.app, m1);
    var m2 := RunAll(b, key.app, m1).value;
    RunBoth(a + b, c, key.app, m);
    StillDistinct(m2.fields, m1.fields, order.added, new_.fields);
    FieldsMeanwhile(old_.fields, m1.fields, m2.fields, new_.fields, order);
    AlterationsRun(q, key, order.kept, old_.fields, new_.fields, m2);
    r := RunAll(c, key.app, m2).value;
    FieldsSettle(old_.fields, m1.fields, m2.fields, r.fields, new_.fields, order, key.app);
  }

  lemma StillDistinct(r: Fields, before: Fields, names: seq<string>, anew: Fields)
    requires AllRebound(r, before, names, anew)
    ensures DistinctNames(r)
  {}

  lemma AddedAreNew(old_: Fields, f1: Fields, new_: Fields, order: Order)
    requires Orders(order, old_, new_) && AllRebound(f1, old_, order.removed, [])
    ensures NoneThere(f1, order.added)
  {
    forall n | n in order.added
      ensures !HasField(f1, n)
    {
      assert Lookup([], n) == None && Lookup(f1, n) == if n in order.removed then None else Lookup(old_, n);
    }
  }

  ghost function FromTogether(key: ModelKey, old_: ModelState, new_: ModelState): seq<Operation> {
    TogetherAdditions(key.model, old_.options, new_.options)
    + AddedConstraintPart(key, old_, new_) + AlteredConstraintPart(key, old_, new_) + TableOps(key.model, old_, new_)
  }

  lemma FinishRuns(key: ModelKey, old_: ModelState, new_: ModelState, p: ModelState, m: ModelState)
      returns (r: ModelState)
    requires UniqueNames(old_.options.constraints) && UniqueNames(new_.options.constraints)
    requires ConstraintsStored(new_.options.constraints, key.app)
    requires Prepared(p, old_, new_) && OnlyFields(m, p)
    ensures RunAll(FromTogether(key, old_, new_), key.app, m) == Ok(r)
    ensures r.fields == m.fields && OutlineAgrees(r, new_) && TogetherAgrees(r.options, new_.options)
    ensures ConstraintsAgree(r.options.constraints, new_.options.constraints) &&
      r.options.managed == new_.options.managed
  {
    var oldC, newC := old_.options.constraints, new_.options.constraints;
    var a, b := TogetherAdditions(key.model, old_.options, new_.options), AddedConstraintPart(key, old_, new_);
    var c, d := AlteredConstraintPart(key, old_, new_), TableOps(key.model, old_, new_);
    PartsStored(oldC, newC, key.app);
    hide RunAll, TogetherMap, AllRemoved, NamesOf, RemovedConstraints, AddedConstraints, Altered, AddConstraintOps,
      AlterConstraintOps,
      TogetherAdditions, UniqueNames, TableOps, ConstraintsAgree, ConstraintsStored, AllReplaced;
    TogetherAdditionsRun(key, old_.options, new_.options, m);
    var m1 := RunAll(a, key.app, m).value;
    RunBoth(a, b, key.app, m);
    AddConstraintsRun(key.model, AddedConstraints(oldC, newC), key.app, m1);
    var m2 := RunAll(b, key.app, m1).value;
    RunBoth(a + b, c, key.app, m);
    ConstraintsMeanwhile(oldC, m1.options.constraints, m2.options.constraints, newC);
    AlterConstraintsRun(key.model, Altered(oldC, newC), key.app, m2);
    var m3 := RunAll(c, key.app, m2).value;
    ConstraintsSettle(oldC, m1.options.constraints, m2.options.constraints, m3.options.constraints, newC);
    RunBoth(a + b + c, d, key.app, m);
    TableRuns(key, old_, new_, m3);
    r := RunAll(d, key.app, m3).value;
  }

  lemma PartsStored(old_: seq<Constraint>, new_: seq<Constraint>, app: string)
    requires ConstraintsStored(new_, app)
    ensures ConstraintsStored(AddedConstraints(old_, new_), app) && ConstraintsStored(Altered(old_, new_), app)
  {
    AlteredIs(old_, new_);
    MissingIs(new_, old_, NamesOf(Altered(old_, new_)));
    var added, altered := AddedConstraints(old_, new_), Altered(old_, new_);
    assert forall c :: c in added ==> c in new_;
    hide Altered, Missing, AddedConstraints, QualifyConstraint;
    assert forall i :: 0 <= i < |added| ==> added[i] in added && added[i] in new_;
    assert forall i :: 0 <= i < |altered| ==> altered[i] in altered && altered[i] in new_;
  }

  /** Applying a plan of a model whose fields are compared makes the model agree with
      the new one. */
  lemma KeptPlanRuns(q: Questioner, key: ModelKey, old_: ModelState, new_: ModelState, order: Order)
      returns (r: ModelState)
    requires WellKept(old_, key.app) && WellKept(new_, key.app)
    requires Orders(order, old_.fields, new_.fields) && Answered(q, key, old_.fields, new_.fields, order)
    ensures RunAll(Plan(q, Kept, key, old_, new_, order), key.app, old_) == Ok(r)
    ensures Agrees(r, new_, key.app) && r.options.managed == new_.options.managed
  {
    hide RunAll, Orders, Answered, Prepared, AllStored, ConstraintsStored, UniqueNames, DistinctNames;
    var first, fields, last := UpToTogether(key, old_, new_), FieldPart(q, key, old_, new_, order),
      FromTogether(key, old_, new_);
    var p := PreparedRuns(key, old_, new_);
    PreparedFields(p, old_, new_);
    var m := FieldsRun(q, key, old_, new_, order, p);
    RunBoth(first, fields, key.app, old_);
    r := FinishRuns(key, old_, new_, p, m);
    RunBoth(first + fields, last, key.app, old_);
    PlanInThree(q, key, old_, new_, order);
  }

  lemma PreparedFields(p: ModelState, old_: ModelState, new_: ModelState)
    requires Prepared(p, old_, new_)
    ensures p.fields == old_.fields
  {}

  lemma PlanInThree(q: Questioner, key: ModelKey, old_: ModelState, new_: ModelState, order: Order)
    ensures Plan(q, Kept, key, old_, new_, order)
         == UpToTogether(key, old_, new_) + FieldPart(q, key, old_, new_, order) + FromTogether(key, old_, new_)
  {
    hide OptionPart, CommentOps, RemovedConstraintPart, TogetherRemovals, Removals, Additions, Alterations,
      TogetherAdditions,
      AddedConstraintPart, AlteredConstraintPart, TableOps;
  }

  // --- The second comparison ---

  /** Models that agree have nothing to generate between them, whatever the order
      and the answers. */
  lemma AgreeingPlanIsEmpty(q: Questioner, kind: Kind, key: ModelKey, m: ModelState, new_: ModelState, order: Order)
    requires UniqueNames(new_.options.constraints) && m.options.managed == new_.options.managed
    requires kind == Kept ==> Agrees(m, new_, key.app) && Orders(order, m.fields, new_.fields)
    requires kind == KeptUnmanaged ==> OutlineAgrees(m, new_)
    ensures Plan(q, kind, key, m, new_, order) == []
  {
    if kind == Kept {
      AgreeingFields(q, key, m.fields, new_.fields, order);
      AgreeingConstraints(m.options.constraints, new_.options.constraints);
    }
  }

  lemma {:induction false} NothingAltered(q: Questioner, key: ModelKey, names: seq<string>, fs: Fields, new_: Fields)
    requires FieldsAgree(fs, new_, key.app)
    ensures Alterations(q, key, names, fs, new_) == []
    decreases |names|
  {
    if names != [] {
      NothingAltered(q, key, names[..|names| - 1], fs, new_);
      assert FieldAgrees(Lookup(fs, names[|names| - 1]), Lookup(new_, names[|names| - 1]), key.app);
    }
  }

  lemma SomeMember<T>(s: seq<T>)
    ensures s == [] || exists x :: x in s
  {
    if s != [] {
      assert s[0] in s;
    }
  }

  lemma AgreeingFields(q: Questioner, key: ModelKey, fs: Fields, new_: Fields, order: Order)
    requires FieldsAgree(fs, new_, key.app) && Orders(order, fs, new_)
    ensures order.removed == [] && order.added == [] && Alterations(q, key, order.kept, fs, new_) == []
  {
    NothingAltered(q, key, order.kept, fs, new_);
    forall n
      ensures n !in order.removed && n !in order.added
    {
      assert FieldAgrees(Lookup(fs, n), Lookup(new_, n), key.app);
    }
    SomeMember(order.removed);
    SomeMember(order.added);
  }

  lemma NotAlteredTo(cs: seq<Constraint>, c: Constraint, x: Constraint)
    requires UniqueNames(cs) && c in cs
    ensures x in cs ==> !AlteredTo(c, x)
  {
    if x in cs && c.name == x.name {
      SameNameSameConstraint(cs, c, x);
    }
  }

  lemma AgreeingConstraints(cs: seq<Constraint>, new_: seq<Constraint>)
    requires ConstraintsAgree(cs, new_) && UniqueNames(new_)
    ensures Altered(cs, new_) == [] && AddedConstraints(cs, new_) == [] && RemovedConstraints(cs, new_) == []
  {
    AlteredIs(cs, new_);
    forall x
      ensures x !in Altered(cs, new_)
    {
      forall c | c in cs
        ensures x in new_ ==> !AlteredTo(c, x)
      {
        NotAlteredTo(new_, c, x);
      }
    }
    MissingIs(new_, cs, NamesOf(Altered(cs, new_)));
    MissingIs(cs, new_, NamesOf(Altered(cs, new_)));
    SomeMember(Altered(cs, new_));
    SomeMember(AddedConstraints(cs, new_));
    SomeMember(RemovedConstraints(cs, new_));
  }

  /** And models with nothing to generate between them agree, unless a prompt went
      unanswered. */
  lemma EmptyPlanAgrees(q: Questioner, key: ModelKey, m: ModelState, new_: ModelState, order: Order)
    requires Orders(order, m.fields, new_.fields) && Answered(q, key, m.fields, new_.fields, order)
    requires Plan(q, Kept, key, m, new_, order) == []
    ensures Agrees(m, new_, key.app)
  {
    var oldC, newC := m.options.constraints, new_.options.constraints;
    PlanInThree(q, key, m, new_, order);
    assert UpToTogether(key, m, new_) == [] && FieldPart(q, key, m, new_, order) == [] &&
      FromTogether(key, m, new_) == [];
    NothingLeftOut(q, key, m.fields, new_.fields, order);
    NoConstraintsLeftOut(key.model, oldC, newC);
    hide Removals, Additions, Alterations, Altered, Missing;
  }

  /** Every answered addition is generated. */
  lemma {:induction false} AllAdditions(q: Questioner, model: string, names: seq<string>, new_: Fields)
    requires AllAnswered(q, model, names, new_)
    ensures |Additions(q, model, names, new_)| == |names|
    decreases |names|
  {
    if names != [] {
      assert names[|names| - 1] in names;
      AllAdditions(q, model, names[..|names| - 1], new_);
    }
  }

  lemma NothingLeftOut(q: Questioner, key: ModelKey, fs: Fields, new_: Fields, order: Order)
    requires Orders(order, fs, new_) && Answered(q, key, fs, new_, order)
    requires Removals(key.model, order.removed) == [] && Additions(q, key.model, order.added, new_) == []
    requires Alterations(q, key, order.kept, fs, new_) == []
    ensures FieldsAgree(fs, new_, key.app)
  {
    AllAdditions(q, key.model, order.added, new_);
    forall n
      ensures FieldAgrees(Lookup(fs, n), Lookup(new_, n), key.app)
    {
      if n in order.kept {
        NotAltered(q, key, order.kept, fs, new_, n);
      }
    }
  }

  lemma {:induction false} NotAltered(q: Questioner, key: ModelKey, names: seq<string>, fs: Fields, new_: Fields,
      n: string)
    requires AlterationsAnswered(q, key, names, fs, new_) && Alterations(q, key, names, fs, new_) == [] && n in names
    ensures !IsAltered(fs, new_, n, key.app)
    decreases |names|
  {
    var front, last := names[..|names| - 1], names[|names| - 1];
    assert names == front + [last];
    if n == last {
      assert last in names;
    } else {
      NotAltered(q, key, front, fs, new_, n);
    }
  }

  lemma NoConstraintsLeftOut(model: string, cs: seq<Constraint>, new_: seq<Constraint>)
    requires RemoveConstraintOps(model, RemovedConstraints(cs, new_)) == [] &&
      AddConstraintOps(model, AddedConstraints(cs, new_)) == []
    requires AlterConstraintOps(model, Altered(cs, new_)) == []
    ensures ConstraintsAgree(cs, new_)
  {
    assert Altered(cs, new_) == [] && NamesOf([]) == {};
    MissingIs(new_, cs, {});
    MissingIs(cs, new_, {});
    assert AddedConstraints(cs, new_) == [] && RemovedConstraints(cs, new_) == [];
  }

  // --- Both comparisons together ---

  /** The plan of a model can be applied, whatever way it is compared, and leaves it
      in agreement with the new one as far as it is compared. */
  lemma PlanRuns(q: Questioner, kind: Kind, key: ModelKey, old_: ModelState, new_: ModelState, order: Order)
      returns (r: ModelState)
    requires WellKept(old_, key.app) && WellKept(new_, key.app)
    requires kind == Kept ==> Orders(order, old_.fields, new_.fields) && Answered(q, key, old_.fields, new_.fields, order)
    ensures RunAll(Plan(q, kind, key, old_, new_, order), key.app, old_) == Ok(r)
    ensures kind == NotCompared ==> r == old_
    ensures kind == Switched ==> r == old_.(options := old_.options.(managed := new_.options.managed))
    ensures kind != NotCompared ==> r.options.managed == new_.options.managed
    ensures kind == Kept ==> Agrees(r, new_, key.app)
    ensures kind == KeptUnmanaged ==> OutlineAgrees(r, new_)
  {
    match kind
    case Kept =>
      hide Plan, Agrees, RunAll;
      r := KeptPlanRuns(q, key, old_, new_, order);
    case KeptUnmanaged =>
      var first, last := OptionPart(key, old_, new_) + CommentOps(key.model, old_.options, new_.options),
        TableOps(key.model, old_, new_);
      OutlineRuns(key, old_, new_);
      hide RunAll, OptionPart, CommentOps, TableOps;
      var m := RunAll(first, key.app, old_).value;
      RunBoth(first, last, key.app, old_);
      TableRuns(key, old_, new_, m);
      r := m.(table := new_.table);
    case Switched =>
      OutlineRuns(key, old_, new_);
      hide RunAll, OptionPart;
      r := old_.(options := old_.options.(managed := new_.options.managed));
    case NotCompared =>
      r := old_;
  }

  /** After a model's plan, a second comparison of the same way finds nothing,
      whatever the order and the answers. */
  lemma SecondPlanIsEmpty(
      q: Questioner, q2: Questioner, kind: Kind, key: ModelKey, old_: ModelState, new_: ModelState, order: Order,
        order2: Order)
    requires WellKept(old_, key.app) && WellKept(new_, key.app) && kind != Switched
    requires kind == Kept ==> Orders(order, old_.fields, new_.fields) && Answered(q, key, old_.fields, new_.fields, order)
    ensures RunAll(Plan(q, kind, key, old_, new_, order), key.app, old_).Ok?
    ensures var r := RunAll(Plan(q, kind, key, old_, new_, order), key.app, old_).value;
      (kind == Kept ==> Orders(order2, r.fields, new_.fields)) ==> Plan(q2, kind, key, r, new_, order2) == []
  {
    var r := PlanRuns(q, kind, key, old_, new_, order);
    hide RunAll, Orders, Agrees, OutlineAgrees, Answered;
    if kind == NotCompared || (kind == Kept && !Orders(order2, r.fields, new_.fields)) {
      return;
    }
    AgreeingPlanIsEmpty(q2, kind, key, r, new_, order2);
  }
}
