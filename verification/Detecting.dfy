/** The autodetector's pass over the models both states have: what it generates for
    each of them. */
module Detecting {
  import opened Wrappers
  import opened Digraph
  import opened Names
  import opened ModelStates
  import opened Operations
  import opened States
  import opened ModelDiff
  import opened ModelConvergence
  import opened Convergence
  import Keys
  import Prompts
  import Changes

  datatype FieldKey = FieldKey(app: string, model: string, field: string)

  function OwnerOf(f: FieldKey): ModelKey {
    ModelKey(f.app, f.model)
  }

  /** The operations of each app, each of which changes one model; an app with none
      is not listed. */
  type Generated = g: map<string, seq<Operation>> | AllChangeOne(g)
    witness map[]

  predicate AllChangeOne(g: map<string, seq<Operation>>) {
    forall app :: app in g ==> g[app] != [] && forall i :: 0 <= i < |g[app]| ==> ChangedModel(g[app][i]).Some?
  }

  /** The operations of a list that change the model. */
  ghost function OfModel(ops: seq<Operation>, model: string): seq<Operation> {
    if ops == [] then []
    else
      OfModel(ops[..|ops| - 1], model) + if ChangedModel(ops[|ops| - 1]) == Some(model) then [ops[|ops| - 1]] else []
  }

  /** What has been generated for the model at k. */
  ghost function OpsFor(g: Generated, k: ModelKey): seq<Operation> {
    if k.app in g then OfModel(g[k.app], k.model) else []
  }

  lemma {:induction false} FoundOfModel(ops: seq<Operation>, i: nat)
    requires i < |ops| && ChangedModel(ops[i]).Some?
    ensures OfModel(ops, ChangedModel(ops[i]).value) != []
    decreases |ops|
  {
    if i < |ops| - 1 {
      FoundOfModel(ops[..|ops| - 1], i);
    }
  }

  /** Something generated is generated for some model. */
  lemma SomethingGenerated(g: Generated)
    requires g != map[]
    ensures exists k :: OpsFor(g, k) != []
  {
    var app :| app in g;
    FoundOfModel(g[app], 0);
    assert OpsFor(g, ModelKey(app, ChangedModel(g[app][0]).value)) != [];
  }

  /** Operations have been generated for the model at k, and for no other. */
  ghost predicate AddedFor(after: Generated, before: Generated, k: ModelKey, ops: seq<Operation>) {
    forall j :: OpsFor(after, j) == OpsFor(before, j) + if j == k then ops else []
  }

  lemma AddedNone(g: Generated, k: ModelKey)
    ensures AddedFor(g, g, k, [])
  {
    hide OpsFor;
  }

  lemma AddedMore(a: Generated, b: Generated, c: Generated, k: ModelKey, ops: seq<Operation>, more: seq<Operation>)
    requires AddedFor(b, a, k, ops) && AddedFor(c, b, k, more)
    ensures AddedFor(c, a, k, ops + more)
  {
    hide OpsFor;
    forall j
      ensures OpsFor(c, j) == OpsFor(a, j) + if j == k then ops + more else []
    {
      assert OpsFor(c, j) == OpsFor(b, j) + if j == k then more else [];
      assert OpsFor(b, j) == OpsFor(a, j) + if j == k then ops else [];
    }
  }

  /** What is generated for one model in one step. */
  datatype Step =
    | ManagedStep | CommentStep | RemovedConstraintStep | RemovedTogetherStep | AddedTogetherStep
    | AddedConstraintStep | AlteredConstraintStep | TableStep

  ghost function StepOps(step: Step, k: ModelKey, old_: ModelState, new_: ModelState): seq<Operation> {
    match step
    case ManagedStep => OptionPart(k, old_, new_)
    case CommentStep => CommentOps(k.model, old_.options, new_.options)
    case RemovedConstraintStep => RemovedConstraintPart(k, old_, new_)
    case RemovedTogetherStep => TogetherRemovals(k.model, old_.options, new_.options)
    case AddedTogetherStep => TogetherAdditions(k.model, old_.options, new_.options)
    case AddedConstraintStep => AddedConstraintPart(k, old_, new_)
    case AlteredConstraintStep => AlteredConstraintPart(k, old_, new_)
    case TableStep => TableOps(k.model, old_, new_)
  }

  ghost function StepAt(step: Step, k: ModelKey, from: State, to: State): seq<Operation> {
    if k in from && k in to then StepOps(step, k, from[k], to[k]) else []
  }

  /** The step has been taken for the models at the keys. */
  ghost predicate Stepped(after: Generated, before: Generated, step: Step, keys: set<ModelKey>, from: State, to: State)
  {
    forall k :: OpsFor(after, k) == OpsFor(before, k) + if k in keys then StepAt(step, k, from, to) else []
  }

  lemma SteppedNone(g: Generated, step: Step, from: State, to: State)
    ensures Stepped(g, g, step, {}, from, to)
  {
    hide OpsFor;
  }

  lemma SteppedMore(a: Generated, b: Generated, c: Generated, step: Step, keys: set<ModelKey>, k: ModelKey, from: State,
      to: State)
    requires k in from && k in to && k !in keys
    requires Stepped(b, a, step, keys, from, to) && AddedFor(c, b, k, StepOps(step, k, from[k], to[k]))
    ensures Stepped(c, a, step, keys + {k}, from, to)
  {
    hide OpsFor, StepOps;
    forall j
      ensures OpsFor(c, j) == OpsFor(a, j) + if j in keys + {k} then StepAt(step, j, from, to) else []
    {
      assert OpsFor(c, j) == OpsFor(b, j) + if j == k then StepAt(step, k, from, to) else [];
      assert OpsFor(b, j) == OpsFor(a, j) + if j in keys then StepAt(step, j, from, to) else [];
    }
  }

  // --- Fields ---

  /** The names of the model's fields in the list. */
  ghost function NamesIn(order: seq<FieldKey>, k: ModelKey): seq<string> {
    if order == [] then []
    else NamesIn(order[..|order| - 1], k) + if OwnerOf(order[|order| - 1]) == k then [order[|order| - 1].field] else []
  }

  lemma {:induction false} NamesInAre(order: seq<FieldKey>, k: ModelKey)
    ensures forall n :: n in NamesIn(order, k) <==> FieldKey(k.app, k.model, n) in order
    ensures Distinct(order) ==> Distinct(NamesIn(order, k))
    decreases |order|
  {
    if order != [] {
      var front, last := order[..|order| - 1], order[|order| - 1];
      assert order == front + [last];
      NamesInAre(front, k);
      assert Distinct(order) ==> Distinct(front) && last !in front;
      assert OwnerOf(last) == k ==> last == FieldKey(k.app, k.model, last.field);
      var r := NamesIn(front, k);
      if Distinct(order) && OwnerOf(last) == k {
        assert last.field !in r;
        assert forall i :: 0 <= i < |r| ==> r[i] in r;
      }
    }
  }

  datatype FieldStep = RemovedFieldStep | AddedFieldStep | AlteredFieldStep

  ghost function FieldOps(step: FieldStep, q: Questioner, k: ModelKey, names: seq<string>, old_: Fields,
      new_: Fields): seq<Operation> {
    match step
    case RemovedFieldStep => Removals(k.model, names)
    case AddedFieldStep => Additions(q, k.model, names, new_)
    case AlteredFieldStep => Alterations(q, k, names, old_, new_)
  }

  /** What the step generates for one field. */
  ghost function FieldOp(step: FieldStep, q: Questioner, k: ModelKey, name: string, old_: Fields,
      new_: Fields): seq<Operation> {
    match step
    case RemovedFieldStep => [RemoveField(k.model, name)]
    case AddedFieldStep => OpsOf(AdditionOf(q, k.model, name, new_))
    case AlteredFieldStep => OpsOf(AlterationOf(q, k, name, old_, new_))
  }

  function FieldsAt(s: State, k: ModelKey): Fields {
    if k in s then s[k].fields else []
  }

  ghost predicate FieldsStepped(after: Generated, before: Generated, step: FieldStep, q: Questioner,
      order: seq<FieldKey>, from: State, to: State) {
    forall k :: OpsFor(after, k) == OpsFor(before, k)
      + FieldOps(step, q, k, NamesIn(order, k), FieldsAt(from, k), FieldsAt(to, k))
  }

  lemma OneMoreFieldOp(step: FieldStep, q: Questioner, k: ModelKey, names: seq<string>, name: string, old_: Fields,
      new_: Fields)
    ensures FieldOps(step, q, k, names + [name], old_, new_) == FieldOps(step, q, k, names, old_, new_)
      + FieldOp(step, q, k, name, old_, new_)
  {
    assert (names + [name])[..|names|] == names;
    hide AdditionOf, AlterationOf;
  }

  /** One more field of the order, seen from the model at k. */
  lemma OneMoreName(order: seq<FieldKey>, f: FieldKey, step: FieldStep, q: Questioner, k: ModelKey, old_: Fields,
      new_: Fields)
    ensures FieldOps(step, q, k, NamesIn(order + [f], k), old_, new_)
         == FieldOps(step, q, k, NamesIn(order, k), old_, new_)
            + if OwnerOf(f) == k then FieldOp(step, q, k, f.field, old_, new_) else []
  {
    assert (order + [f])[..|order|] == order;
    OneMoreFieldOp(step, q, k, NamesIn(order, k), f.field, old_, new_);
    hide FieldOps, FieldOp;
    assert NamesIn(order, k) + [] == NamesIn(order, k);
    assert FieldOps(step, q, k, NamesIn(order, k), old_, new_) + []
      == FieldOps(step, q, k, NamesIn(order, k), old_, new_);
  }

  lemma FieldsSteppedMore(
      a: Generated, b: Generated, c: Generated, step: FieldStep, q: Questioner, order: seq<FieldKey>, f: FieldKey,
        from: State, to: State)
    requires FieldsStepped(b, a, step, q, order, from, to)
    requires AddedFor(c, b, OwnerOf(f), FieldOp(step, q, OwnerOf(f), f.field, FieldsAt(from, OwnerOf(f)),
      FieldsAt(to, OwnerOf(f))))
    ensures FieldsStepped(c, a, step, q, order + [f], from, to)
  {
    hide OpsFor, FieldOps, FieldOp, NamesIn, FieldsAt;
    forall k
      ensures OpsFor(c, k) == OpsFor(a, k) + FieldOps(step, q, k, NamesIn(order + [f], k), FieldsAt(from, k),
        FieldsAt(to, k))
    {
      OneMoreName(order, f, step, q, k, FieldsAt(from, k), FieldsAt(to, k));
      var more := if OwnerOf(f) == k then FieldOp(step, q, k, f.field, FieldsAt(from, k), FieldsAt(to, k)) else [];
      assert OpsFor(c, k) == OpsFor(b, k) + more;
      assert OpsFor(b, k) == OpsFor(a, k) + FieldOps(step, q, k, NamesIn(order, k), FieldsAt(from, k), FieldsAt(to, k));
    }
  }

  /** The keys, each once. */
  ghost predicate ListsFields(order: seq<FieldKey>, keys: set<FieldKey>) {
    Distinct(order) && forall f :: f in order <==> f in keys
  }

  lemma ListsNone()
    ensures ListsFields([], {})
  {}

  lemma ListsMore(order: seq<FieldKey>, keys: set<FieldKey>, f: FieldKey)
    requires ListsFields(order, keys) && f !in keys
    ensures ListsFields(order + [f], keys + {f})
  {
    assert forall i :: 0 <= i < |order| ==> order[i] in order;
  }

  lemma AdditionChanges(q: Questioner, model: string, name: string, new_: Fields)
    requires AdditionOf(q, model, name, new_).Some?
    ensures ChangedModel(AdditionOf(q, model, name, new_).value) == Some(model)
  {}

  lemma AlterationChanges(q: Questioner, key: ModelKey, name: string, old_: Fields, new_: Fields)
    requires AlterationOf(q, key, name, old_, new_).Some?
    ensures ChangedModel(AlterationOf(q, key, name, old_, new_).value) == Some(key.model)
  {}

  // --- Which models are compared, and how ---

  predicate OldManaged(m: ModelState, app: string, realApps: set<string>) {
    IsManaged(m.options) && app !in realApps
  }

  predicate NewManaged(m: ModelState, app: string, realApps: set<string>, convertApps: set<string>) {
    IsManaged(m.options) && (app !in realApps || app in convertApps)
  }

  function KindOf(old_: ModelState, new_: ModelState, app: string, realApps: set<string>,
      convertApps: set<string>): Kind {
    if OldManaged(old_, app, realApps) then
      if NewManaged(new_, app, realApps, convertApps) then Kept
      else if !IsManaged(new_.options) then Switched
      else NotCompared
    else if !IsManaged(old_.options) then
      if !IsManaged(new_.options) then KeptUnmanaged
      else if NewManaged(new_, app, realApps, convertApps) then Switched
      else NotCompared
    else NotCompared
  }

  /** A model of both states is compared with its fields when it is managed in both, and
      without them when it is in neither; when that changes only the change is looked at.
      Managed models of the apps that are real in the old state count in neither state, but
      in the new one for an app that is being converted. */
  lemma HowCompared(old_: ModelState, new_: ModelState, app: string, realApps: set<string>, convertApps: set<string>)
    ensures var kind := KindOf(old_, new_, app, realApps, convertApps);
      var was, is_ := old_.options.managed != Some(false), new_.options.managed != Some(false);
      && (kind == Kept <==> was && is_ && app !in realApps)
      && (kind == KeptUnmanaged <==> !was && !is_)
      && (kind == Switched <==>
            (was && !is_ && app !in realApps) || (!was && is_ && (app !in realApps || app in convertApps)))
  {}

  // --- The whole comparison ---

  /** The fields of all models, in the order their operations are generated. */
  datatype FieldOrders = FieldOrders(removed: seq<FieldKey>, added: seq<FieldKey>, kept: seq<FieldKey>)

  ghost function OrderAt(o: FieldOrders, k: ModelKey): Order {
    Order(NamesIn(o.removed, k), NamesIn(o.added, k), NamesIn(o.kept, k))
  }

  datatype Comparison = Comparison(from: State, to: State, realApps: set<string>, convertApps: set<string>)

  ghost predicate IsKept(c: Comparison, k: ModelKey) {
    k in c.from && k in c.to && KindOf(c.from[k], c.to[k], k.app, c.realApps, c.convertApps) == Kept
  }

  /** Everything a comparison generates for the model at k, in order. */
  ghost function PlanAt(c: Comparison, q: Questioner, k: ModelKey, o: FieldOrders): seq<Operation> {
    if k in c.from && k in c.to then
      Plan(q, KindOf(c.from[k], c.to[k], k.app, c.realApps, c.convertApps), k, c.from[k], c.to[k], OrderAt(o, k))
    else []
  }

  /** The orders list the fields that are gone, new and kept. */
  ghost predicate OrdersAll(c: Comparison, o: FieldOrders) {
    forall k :: IsKept(c, k) ==> Orders(OrderAt(o, k), c.from[k].fields, c.to[k].fields)
  }

  /** Every prompt there is was answered. */
  ghost predicate AllPromptsAnswered(c: Comparison, q: Questioner, o: FieldOrders) {
    forall k :: IsKept(c, k) ==> Answered(q, k, c.from[k].fields, c.to[k].fields, OrderAt(o, k))
  }

  ghost predicate IsOutlined(c: Comparison, k: ModelKey) {
    k in c.from && k in c.to && var kind := KindOf(c.from[k], c.to[k], k.app, c.realApps, c.convertApps);
    kind == Kept || kind == KeptUnmanaged
  }

  ghost predicate IsCompared(c: Comparison, k: ModelKey) {
    k in c.from && k in c.to && KindOf(c.from[k], c.to[k], k.app, c.realApps, c.convertApps) != NotCompared
  }

  ghost function StepIf(step: Step, k: ModelKey, taken: bool, c: Comparison): seq<Operation> {
    if taken then StepAt(step, k, c.from, c.to) else []
  }

  /** The part of the plan before the fields, that of the fields, and that after. */
  ghost function PlanBefore(c: Comparison, k: ModelKey): seq<Operation> {
    StepIf(ManagedStep, k, IsCompared(c, k), c) + StepIf(CommentStep, k, IsOutlined(c, k), c)
    + StepIf(RemovedConstraintStep, k, IsKept(c, k), c) + StepIf(RemovedTogetherStep, k, IsKept(c, k), c)
  }

  ghost function PlanOfFields(c: Comparison, q: Questioner, k: ModelKey, o: FieldOrders): seq<Operation> {
    FieldOps(RemovedFieldStep, q, k, NamesIn(o.removed, k), FieldsAt(c.from, k), FieldsAt(c.to, k))
    + FieldOps(AddedFieldStep, q, k, NamesIn(o.added, k), FieldsAt(c.from, k), FieldsAt(c.to, k))
    + FieldOps(AlteredFieldStep, q, k, NamesIn(o.kept, k), FieldsAt(c.from, k), FieldsAt(c.to, k))
  }

  ghost function PlanAfter(c: Comparison, k: ModelKey): seq<Operation> {
    StepIf(AddedTogetherStep, k, IsKept(c, k), c) + StepIf(AddedConstraintStep, k, IsKept(c, k), c)
    + StepIf(AlteredConstraintStep, k, IsKept(c, k), c) + StepIf(TableStep, k, IsOutlined(c, k), c)
  }

  /** The three parts in a row are the plan. */
  lemma PartsAreThePlan(c: Comparison, q: Questioner, k: ModelKey, o: FieldOrders)
    requires !IsKept(c, k) ==> OrderAt(o, k) == Order([], [], [])
    ensures PlanAt(c, q, k, o) == PlanBefore(c, k) + PlanOfFields(c, q, k, o) + PlanAfter(c, k)
  {
    hide NamesIn, KindOf, StepOps, FieldOps, Plan;
    if !(k in c.from && k in c.to) {
      NoFieldOps(q, k, FieldsAt(c.from, k), FieldsAt(c.to, k));
      return;
    }
    var old_, new_ := c.from[k], c.to[k];
    if IsKept(c, k) {
      KeptPlanIs(q, k, old_, new_, OrderAt(o, k));
    } else if IsOutlined(c, k) {
      OutlinePlanIs(q, k, old_, new_);
      NoFieldOps(q, k, old_.fields, new_.fields);
    } else {
      OtherPlanIs(q, k, old_, new_);
      NoFieldOps(q, k, old_.fields, new_.fields);
    }
  }

  lemma FourMore(x: seq<Operation>, a: seq<Operation>, b: seq<Operation>, c: seq<Operation>, d: seq<Operation>)
    ensures x + a + b + c + d == x + (a + b + c + d)
  {}

  lemma NoFieldOps(q: Questioner, k: ModelKey, old_: Fields, new_: Fields)
    ensures forall step :: FieldOps(step, q, k, [], old_, new_) == []
  {}

  lemma KeptPlanIs(q: Questioner, k: ModelKey, old_: ModelState, new_: ModelState, order: Order)
    ensures Plan(q, Kept, k, old_, new_, order)
      == (StepOps(ManagedStep, k, old_, new_) + StepOps(CommentStep, k, old_, new_)
          + StepOps(RemovedConstraintStep, k, old_, new_) + StepOps(RemovedTogetherStep, k, old_, new_))
         + (FieldOps(RemovedFieldStep, q, k, order.removed, old_.fields, new_.fields)
            + FieldOps(AddedFieldStep, q, k, order.added, old_.fields, new_.fields)
            + FieldOps(AlteredFieldStep, q, k, order.kept, old_.fields, new_.fields))
         + (StepOps(AddedTogetherStep, k, old_, new_) + StepOps(AddedConstraintStep, k, old_, new_)
            + StepOps(AlteredConstraintStep, k, old_, new_) + StepOps(TableStep, k, old_, new_))
  {
    PlanInThree(q, k, old_, new_, order);
    hide OptionPart, CommentOps, RemovedConstraintPart, TogetherRemovals, Removals, Additions, Alterations,
      TogetherAdditions,
      AddedConstraintPart, AlteredConstraintPart, TableOps, Plan;
  }

  lemma OutlinePlanIs(q: Questioner, k: ModelKey, old_: ModelState, new_: ModelState)
    ensures Plan(q, KeptUnmanaged, k, old_, new_, Order([], [], []))
      == StepOps(ManagedStep, k, old_, new_) + StepOps(CommentStep, k, old_, new_) + StepOps(TableStep, k, old_, new_)
  {}

  lemma OtherPlanIs(q: Questioner, k: ModelKey, old_: ModelState, new_: ModelState)
    ensures Plan(q, Switched, k, old_, new_, Order([], [], [])) == StepOps(ManagedStep, k, old_, new_)
    ensures Plan(q, NotCompared, k, old_, new_, Order([], [], [])) == []
  {}

  /** Without the model in any of the orders, it has no field operations. */
  lemma NoNames(order: seq<FieldKey>, keys: set<FieldKey>, k: ModelKey)
    requires ListsFields(order, keys) && forall f :: f in keys ==> OwnerOf(f) != k
    ensures NamesIn(order, k) == []
  {
    NamesInAre(order, k);
    forall n
      ensures n !in NamesIn(order, k)
    {
      assert OwnerOf(FieldKey(k.app, k.model, n)) == k;
    }
    SomeMember(NamesIn(order, k));
  }

  /** What becomes of one model's constraints. */
  datatype ConstraintChange = ConstraintChange(
    key: ModelKey, removed: seq<Constraint>, added: seq<Constraint>, altered: seq<Constraint>)

  ghost function KeysOf(cs: seq<ConstraintChange>): set<ModelKey> {
    set i | 0 <= i < |cs| :: cs[i].key
  }

  lemma NoChanges(cs: seq<ConstraintChange>)
    ensures KeysOf(cs[..0]) == {}
  {}

  lemma KeysOfMore(cs: seq<ConstraintChange>, i: nat)
    requires i < |cs|
    ensures KeysOf(cs[..i + 1]) == KeysOf(cs[..i]) + {cs[i].key}
  {
    var more := cs[..i + 1];
    forall k | k in KeysOf(cs[..i]) + {cs[i].key}
      ensures k in KeysOf(more)
    {
      var j :| 0 <= j <= i && cs[j].key == k;
      assert more[j].key == k;
    }
  }

  /** One change for each of the keys, which is what the constraints differ in. */
  ghost predicate ChangesOf(cs: seq<ConstraintChange>, keys: set<ModelKey>, from: State, to: State)
    requires keys <= from.Keys && keys <= to.Keys
  {
    && KeysOf(cs) == keys
    && (forall i, j :: 0 <= i < j < |cs| ==> cs[i].key != cs[j].key)
    && (forall i :: 0 <= i < |cs| ==> IsChange(cs[i], from, to))
  }

  ghost predicate IsChange(c: ConstraintChange, from: State, to: State) {
    && c.key in from && c.key in to
    && c.removed == RemovedConstraints(from[c.key].options.constraints, to[c.key].options.constraints)
    && c.added == AddedConstraints(from[c.key].options.constraints, to[c.key].options.constraints)
    && c.altered == Altered(from[c.key].options.constraints, to[c.key].options.constraints)
  }

  lemma ChangesOfMore(cs: seq<ConstraintChange>, c: ConstraintChange, keys: set<ModelKey>, from: State, to: State)
    requires keys <= from.Keys && keys <= to.Keys && ChangesOf(cs, keys, from, to) && IsChange(c, from, to) &&
      c.key !in keys
    ensures ChangesOf(cs + [c], keys + {c.key}, from, to)
  {
    assert (cs + [c])[..|cs|] == cs && (cs + [c])[..|cs| + 1] == cs + [c];
    KeysOfMore(cs + [c], |cs|);
    forall i | 0 <= i < |cs|
      ensures cs[i].key != c.key
    {
      assert cs[i].key in KeysOf(cs);
    }
    hide KeysOf, IsChange;
  }

  /** The change at i is for a key that none before it is for. */
  lemma NextChange(cs: seq<ConstraintChange>, keys: set<ModelKey>, from: State, to: State, i: nat)
    requires keys <= from.Keys && keys <= to.Keys && ChangesOf(cs, keys, from, to) && i < |cs|
    ensures cs[i].key !in KeysOf(cs[..i]) && KeysOf(cs[..i]) <= keys && cs[i].key in from && cs[i].key in to
    ensures var k := cs[i].key;
      && StepOps(RemovedConstraintStep, k, from[k], to[k]) == RemoveConstraintOps(k.model, cs[i].removed)
      && StepOps(AddedConstraintStep, k, from[k], to[k]) == AddConstraintOps(k.model, cs[i].added)
      && StepOps(AlteredConstraintStep, k, from[k], to[k]) == AlterConstraintOps(k.model, cs[i].altered)
  {
    assert IsChange(cs[i], from, to);
    forall k | k in KeysOf(cs[..i])
      ensures k in keys
    {
      var j :| 0 <= j < i && cs[j].key == k;
      assert cs[j].key in KeysOf(cs);
    }
  }

  lemma AllChanges(cs: seq<ConstraintChange>, keys: set<ModelKey>, from: State, to: State, i: nat)
    requires keys <= from.Keys && keys <= to.Keys && ChangesOf(cs, keys, from, to)
    ensures KeysOf(cs) == keys && (i < |cs| ==> cs[i].key in keys)
  {}

  class Autodetector {
    const from: State
    const to: State
    // The apps whose models the old state takes from the database.
    const realApps: set<string>
    const convertApps: set<string>
    const q: Questioner
    var generated: Generated
    var oldModelKeys: set<ModelKey>
    var oldUnmanagedKeys: set<ModelKey>
    var newModelKeys: set<ModelKey>
    var newUnmanagedKeys: set<ModelKey>
    var keptModelKeys: set<ModelKey>
    var keptUnmanaged: set<ModelKey>
    var oldFieldKeys: set<FieldKey>
    var newFieldKeys: set<FieldKey>
    var altConstraints: seq<ConstraintChange>

    constructor (from: State, to: State, realApps: set<string>, convertApps: set<string>, q: Questioner)
      ensures this.from == from && this.to == to && this.realApps == realApps && this.convertApps == convertApps &&
        this.q == q
      ensures generated == map[]
    {
      this.from, this.to, this.realApps, this.convertApps, this.q := from, to, realApps, convertApps, q;
      generated := map[];
      oldModelKeys, oldUnmanagedKeys, newModelKeys, newUnmanagedKeys := {}, {}, {}, {};
      keptModelKeys, keptUnmanaged, oldFieldKeys, newFieldKeys, altConstraints := {}, {}, {}, {}, [];
    }

    function Kind(k: ModelKey): Kind
      requires k in from && k in to
    {
      KindOf(from[k], to[k], k.app, realApps, convertApps)
    }

    /** The sets of keys are those of the two states. */
    ghost predicate Collected()
      reads this`oldModelKeys, this`oldUnmanagedKeys, this`newModelKeys, this`newUnmanagedKeys
      reads this`keptModelKeys, this`keptUnmanaged, this`oldFieldKeys, this`newFieldKeys
    {
      && (forall k :: k in oldModelKeys <==> k in from && OldManaged(from[k], k.app, realApps))
      && (forall k :: k in oldUnmanagedKeys <==> k in from && !IsManaged(from[k].options))
      && (forall k :: k in newModelKeys <==> k in to && NewManaged(to[k], k.app, realApps, convertApps))
      && (forall k :: k in newUnmanagedKeys <==> k in to && !IsManaged(to[k].options))
      && keptModelKeys == oldModelKeys * newModelKeys && keptUnmanaged == oldUnmanagedKeys * newUnmanagedKeys
      && (forall f :: f in oldFieldKeys <==> OwnerOf(f) in keptModelKeys && HasField(from[OwnerOf(f)].fields, f.field))
      && (forall f :: f in newFieldKeys <==> OwnerOf(f) in keptModelKeys && HasField(to[OwnerOf(f)].fields, f.field))
    }

    /** The models that are compared at all. */
    ghost function Compared(): set<ModelKey>
      reads this`oldModelKeys, this`oldUnmanagedKeys, this`newModelKeys, this`newUnmanagedKeys, this`keptModelKeys,
        this`keptUnmanaged
    {
      keptModelKeys + keptUnmanaged + oldUnmanagedKeys * newModelKeys + oldModelKeys * newUnmanagedKeys
    }

    lemma KindsAre(k: ModelKey)
      requires Collected()
      ensures k in keptModelKeys <==> k in from && k in to && Kind(k) == Kept
      ensures k in keptUnmanaged <==> k in from && k in to && Kind(k) == KeptUnmanaged
      ensures k in Compared() <==> k in from && k in to && Kind(k) != NotCompared
    {}

    method AddOperation(app: string, op: Operation, ghost model: string)
      requires ChangedModel(op) == Some(model)
      modifies this`generated
      ensures AddedFor(generated, old(generated), ModelKey(app, model), [op])
    {
      ghost var before := generated;
      var done := if app in generated then generated[app] else [];
      generated := generated[app := done + [op]];
      forall j
        ensures OpsFor(generated, j) == OpsFor(before, j) + if j == ModelKey(app, model) then [op] else []
      {
        assert OpsFor(before, j) + [] == OpsFor(before, j);
        if j.app == app {
          assert (done + [op])[..|done|] == done && OfModel(done, j.model) + [] == OfModel(done, j.model);
        }
      }
    }

    /** Start with nothing generated, and sort the models of both states by whether
        they are managed. */
    method Collect()
      modifies this
      ensures Collected() && generated == map[]
    {
      generated := map[];
      oldUnmanagedKeys := set k | k in from && !IsManaged(from[k].options);
      oldModelKeys := set k | k in from && OldManaged(from[k], k.app, realApps);
      newUnmanagedKeys := set k | k in to && !IsManaged(to[k].options);
      newModelKeys := set k | k in to && NewManaged(to[k], k.app, realApps, convertApps);
      PrepareFieldLists();
    }

    /** The names of the fields of the models that are compared with their fields. */
    method PrepareFieldLists()
      requires forall k :: k in oldModelKeys <==> k in from && OldManaged(from[k], k.app, realApps)
      requires forall k :: k in oldUnmanagedKeys <==> k in from && !IsManaged(from[k].options)
      requires forall k :: k in newModelKeys <==> k in to && NewManaged(to[k], k.app, realApps, convertApps)
      requires forall k :: k in newUnmanagedKeys <==> k in to && !IsManaged(to[k].options)
      modifies this`keptModelKeys, this`keptUnmanaged, this`oldFieldKeys, this`newFieldKeys
      ensures Collected()
    {
      keptModelKeys, keptUnmanaged := oldModelKeys * newModelKeys, oldUnmanagedKeys * newUnmanagedKeys;
      oldFieldKeys, newFieldKeys := {}, {};
      var kept := keptModelKeys;
      var todo := kept;
      while todo != {}
        invariant todo <= kept && keptModelKeys == kept && keptUnmanaged == oldUnmanagedKeys * newUnmanagedKeys
        invariant forall f :: f in oldFieldKeys <==>
          OwnerOf(f) in kept - todo && HasField(FieldsAt(from, OwnerOf(f)), f.field)
        invariant forall f :: f in newFieldKeys <==>
          OwnerOf(f) in kept - todo && HasField(FieldsAt(to, OwnerOf(f)), f.field)
        decreases todo
      {
        var k :| k in todo;
        oldFieldKeys := oldFieldKeys + FieldKeysOf(from[k].fields, k);
        newFieldKeys := newFieldKeys + FieldKeysOf(to[k].fields, k);
        todo := todo - {k};
      }
    }

    static function FieldKeysOf(fs: Fields, k: ModelKey): (r: set<FieldKey>)
      ensures forall f :: f in r <==> OwnerOf(f) == k && HasField(fs, f.field)
    {
      set i | 0 <= i < |fs| :: FieldKey(k.app, k.model, fs[i].name)
    }

    /** The keys whose models both states have. */
    ghost predicate InBoth(keys: set<ModelKey>) {
      keys <= from.Keys && keys <= to.Keys
    }

    lemma ComparedInBoth()
      requires Collected()
      ensures InBoth(keptModelKeys) && InBoth(keptModelKeys + keptUnmanaged) && InBoth(Compared())
      ensures Compared() == keptModelKeys + keptUnmanaged + oldUnmanagedKeys * newModelKeys
        + oldModelKeys * newUnmanagedKeys
    {}

    lemma Inside(keys: set<ModelKey>, k: ModelKey)
      requires InBoth(keys) && k in keys
      ensures k in from && k in to
    {}

    method CompareManaged(k: ModelKey)
      requires k in from && k in to
      modifies this`generated
      ensures AddedFor(generated, old(generated), k, StepOps(ManagedStep, k, from[k], to[k]))
    {
      hide AddedFor;
      if from[k].options.managed != to[k].options.managed {
        AddOperation(k.app, AlterModelOptions(k.model, to[k].options.managed), k.model);
      } else {
        AddedNone(generated, k);
      }
    }

    method GenerateAlteredOptions()
      requires Collected()
      modifies this`generated
      ensures Stepped(generated, old(generated), ManagedStep, Compared(), from, to)
    {
      var todo := keptModelKeys + keptUnmanaged + oldUnmanagedKeys * newModelKeys + oldModelKeys * newUnmanagedKeys;
      ghost var all := todo;
      ghost var before := generated;
      hide Collected, Stepped, AddedFor, StepOps, InBoth;
      ComparedInBoth();
      SteppedNone(generated, ManagedStep, from, to);
      ghost var done := {};
      while todo != {}
        invariant done + todo == all && done !! todo && Stepped(generated, before, ManagedStep, done, from, to)
        decreases todo
      {
        var k :| k in todo;
        ghost var mid := generated;
        Inside(all, k);
        CompareManaged(k);
        SteppedMore(before, mid, generated, ManagedStep, done, k, from, to);
        done, todo := done + {k}, todo - {k};
      }
    }

    method CompareComments(k: ModelKey)
      requires k in from && k in to
      modifies this`generated
      ensures AddedFor(generated, old(generated), k, StepOps(CommentStep, k, from[k], to[k]))
    {
      hide AddedFor;
      if from[k].options.tableComment != to[k].options.tableComment {
        AddOperation(k.app, AlterModelTableComment(k.model, to[k].options.tableComment), k.model);
      } else {
        AddedNone(generated, k);
      }
    }

    method GenerateAlteredDBTableComment()
      requires Collected()
      modifies this`generated
      ensures Stepped(generated, old(generated), CommentStep, keptModelKeys + keptUnmanaged, from, to)
    {
      var todo := keptModelKeys + keptUnmanaged;
      ghost var all, before := todo, generated;
      hide Collected, Stepped, AddedFor, StepOps, InBoth;
      ComparedInBoth();
      SteppedNone(generated, CommentStep, from, to);
      ghost var done := {};
      while todo != {}
        invariant done + todo == all && done !! todo && Stepped(generated, before, CommentStep, done, from, to)
        decreases todo
      {
        var k :| k in todo;
        ghost var mid := generated;
        Inside(all, k);
        CompareComments(k);
        SteppedMore(before, mid, generated, CommentStep, done, k, from, to);
        done, todo := done + {k}, todo - {k};
      }
    }

    method CompareTables(k: ModelKey)
      requires k in from && k in to
      modifies this`generated
      ensures AddedFor(generated, old(generated), k, StepOps(TableStep, k, from[k], to[k]))
    {
      hide AddedFor;
      if from[k].table != to[k].table {
        AddOperation(k.app, AlterModelTable(k.model, to[k].table), k.model);
      } else {
        AddedNone(generated, k);
      }
    }

    method GenerateAlteredDBTable()
      requires Collected()
      modifies this`generated
      ensures Stepped(generated, old(generated), TableStep, keptModelKeys + keptUnmanaged, from, to)
    {
      var todo := keptModelKeys + keptUnmanaged;
      ghost var all, before := todo, generated;
      hide Collected, Stepped, AddedFor, StepOps, InBoth;
      ComparedInBoth();
      SteppedNone(generated, TableStep, from, to);
      ghost var done := {};
      while todo != {}
        invariant done + todo == all && done !! todo && Stepped(generated, before, TableStep, done, from, to)
        decreases todo
      {
        var k :| k in todo;
        ghost var mid := generated;
        Inside(all, k);
        CompareTables(k);
        SteppedMore(before, mid, generated, TableStep, done, k, from, to);
        done, todo := done + {k}, todo - {k};
      }
    }

    method ListEntries(m: map<string, seq<string>>) returns (es: seq<seq<string>>)
      ensures es == Entries(m)
    {
      var keys := set k | k in m :: Keys.Key("", k);
      var ks := Keys.SortKeys(keys);
      Keys.SortedLists(keys);
      assert forall i :: 0 <= i < |ks| ==> ks[i] in ks && ks[i] in keys;
      es := seq(|ks|, i requires 0 <= i < |ks| => m[ks[i].name]);
    }

    /** First to the entries that stay. */
    method ShrinkTogether(k: ModelKey)
      requires k in from && k in to
      modifies this`generated
      ensures AddedFor(generated, old(generated), k, StepOps(RemovedTogetherStep, k, from[k], to[k]))
    {
      hide AddedFor, Entries, TogetherMap;
      var have, want := TogetherMap(from[k].options.uniqueTogether), TogetherMap(to[k].options.uniqueTogether);
      var removal := Both(want, have);
      if have.Keys != want.Keys && (removal.Keys != {} || have.Keys != {}) {
        var entries := ListEntries(removal);
        AddOperation(k.app, AlterUniqueTogether(k.model, entries), k.model);
      } else {
        AddedNone(generated, k);
      }
    }

    method GenerateRemovedAlteredUniqueTogether()
      requires Collected()
      modifies this`generated
      ensures Stepped(generated, old(generated), RemovedTogetherStep, keptModelKeys, from, to)
    {
      var todo := keptModelKeys;
      ghost var all, before := todo, generated;
      hide Collected, Stepped, AddedFor, StepOps, InBoth;
      ComparedInBoth();
      SteppedNone(generated, RemovedTogetherStep, from, to);
      ghost var done := {};
      while todo != {}
        invariant done + todo == all && done !! todo && Stepped(generated, before, RemovedTogetherStep, done, from, to)
        decreases todo
      {
        var k :| k in todo;
        ghost var mid := generated;
        Inside(all, k);
        ShrinkTogether(k);
        SteppedMore(before, mid, generated, RemovedTogetherStep, done, k, from, to);
        done, todo := done + {k}, todo - {k};
      }
    }

    /** Then to all the entries. */
    method GrowTogether(k: ModelKey)
      requires k in from && k in to
      modifies this`generated
      ensures AddedFor(generated, old(generated), k, StepOps(AddedTogetherStep, k, from[k], to[k]))
    {
      hide AddedFor, Entries, TogetherMap;
      var have, want := TogetherMap(from[k].options.uniqueTogether), TogetherMap(to[k].options.uniqueTogether);
      var removal := Both(want, have);
      if have.Keys != want.Keys && want.Keys != removal.Keys {
        var entries := ListEntries(want);
        AddOperation(k.app, AlterUniqueTogether(k.model, entries), k.model);
      } else {
        AddedNone(generated, k);
      }
    }

    method GenerateAlteredUniqueTogether()
      requires Collected()
      modifies this`generated
      ensures Stepped(generated, old(generated), AddedTogetherStep, keptModelKeys, from, to)
    {
      var todo := keptModelKeys;
      ghost var all, before := todo, generated;
      hide Collected, Stepped, AddedFor, StepOps, InBoth;
      ComparedInBoth();
      SteppedNone(generated, AddedTogetherStep, from, to);
      ghost var done := {};
      while todo != {}
        invariant done + todo == all && done !! todo && Stepped(generated, before, AddedTogetherStep, done, from, to)
        decreases todo
      {
        var k :| k in todo;
        ghost var mid := generated;
        Inside(all, k);
        GrowTogether(k);
        SteppedMore(before, mid, generated, AddedTogetherStep, done, k, from, to);
        done, todo := done + {k}, todo - {k};
      }
    }

    /** The constraints of a model that are removed, added and altered. */
    method CompareConstraints(old_: seq<Constraint>, new_: seq<Constraint>)
      returns (removed: seq<Constraint>, added: seq<Constraint>, altered: seq<Constraint>)
      ensures removed == RemovedConstraints(old_, new_) && added == AddedConstraints(old_, new_) &&
        altered == Altered(old_, new_)
    {
      altered := [];
      var alteredNames: set<string> := {};
      var i := 0;
      while i < |old_|
        invariant 0 <= i <= |old_| && altered == Altered(old_[..i], new_) && alteredNames == NamesOf(altered)
      {
        var j := 0;
        ghost var before := altered;
        while j < |new_|
          invariant 0 <= j <= |new_| && altered == before + AlteredInto(old_[i], new_[..j]) &&
            alteredNames == NamesOf(altered)
        {
          assert new_[..j + 1][..j] == new_[..j];
          if AlteredTo(old_[i], new_[j]) {
            NamesOfMore(altered, new_[j]);
            altered, alteredNames := altered + [new_[j]], alteredNames + {new_[j].name};
          }
          j := j + 1;
        }
        assert new_[..j] == new_ && old_[..i + 1][..i] == old_[..i];
        i := i + 1;
      }
      assert old_[..i] == old_;
      added := WithoutAltered(new_, old_, alteredNames);
      removed := WithoutAltered(old_, new_, alteredNames);
    }

    method WithoutAltered(cs: seq<Constraint>, others: seq<Constraint>, names: set<string>) returns (r: seq<Constraint>)
      ensures r == Missing(cs, others, names)
    {
      r := [];
      var i := 0;
      while i < |cs|
        invariant 0 <= i <= |cs| && r == Missing(cs[..i], others, names)
      {
        assert cs[..i + 1][..i] == cs[..i];
        if cs[i] !in others && cs[i].name !in names {
          r := r + [cs[i]];
        }
        i := i + 1;
      }
      assert cs[..i] == cs;
    }

    method CreateAlteredConstraints()
      requires Collected()
      modifies this`altConstraints
      ensures InBoth(keptModelKeys) && ChangesOf(altConstraints, keptModelKeys, from, to)
    {
      altConstraints := [];
      var todo := keptModelKeys;
      ghost var all, done := todo, {};
      assert InBoth(all) && ChangesOf([], {}, from, to);
      hide Collected, ChangesOf;
      while todo != {}
        invariant done + todo == all && done !! todo && ChangesOf(altConstraints, done, from, to)
        decreases todo
      {
        var k :| k in todo;
        var removed, added, altered := CompareConstraints(from[k].options.constraints, to[k].options.constraints);
        var c := ConstraintChange(k, removed, added, altered);
        ChangesOfMore(altConstraints, c, done, from, to);
        altConstraints := altConstraints + [c];
        done, todo := done + {k}, todo - {k};
      }
    }

    method RemoveAll(c: ConstraintChange)
      modifies this`generated
      ensures AddedFor(generated, old(generated), c.key, RemoveConstraintOps(c.key.model, c.removed))
    {
      ghost var before := generated;
      AddedNone(generated, c.key);
      hide AddedFor;
      var i := 0;
      while i < |c.removed|
        invariant 0 <= i <= |c.removed| && AddedFor(generated, before, c.key,
          RemoveConstraintOps(c.key.model, c.removed[..i]))
      {
        ghost var mid := generated;
        AddOperation(c.key.app, RemoveConstraint(c.key.model, c.removed[i].name), c.key.model);
        assert c.removed[..i + 1][..i] == c.removed[..i];
        AddedMore(before, mid, generated, c.key, RemoveConstraintOps(c.key.model, c.removed[..i]),
          [RemoveConstraint(c.key.model, c.removed[i].name)]);
        i := i + 1;
      }
      assert c.removed[..i] == c.removed;
    }

    method GenerateRemovedConstraints()
      requires InBoth(keptModelKeys) && ChangesOf(altConstraints, keptModelKeys, from, to)
      modifies this`generated
      ensures Stepped(generated, old(generated), RemovedConstraintStep, keptModelKeys, from, to)
    {
      ghost var all, before, done := keptModelKeys, generated, {};
      var changes := altConstraints;
      var i := 0;
      SteppedNone(generated, RemovedConstraintStep, from, to);
      NoChanges(changes);
      hide Stepped, AddedFor, ChangesOf, KeysOf, StepOps, RemoveConstraintOps, OpsFor;
      while i < |changes|
        invariant 0 <= i <= |changes| && done == KeysOf(changes[..i]) && done <= all
        invariant Stepped(generated, before, RemovedConstraintStep, done, from, to)
      {
        ghost var mid, k := generated, changes[i].key;
        NextChange(changes, all, from, to, i);
        RemoveAll(changes[i]);
        SteppedMore(before, mid, generated, RemovedConstraintStep, done, k, from, to);
        KeysOfMore(changes, i);
        AllChanges(changes, all, from, to, i);
        done := done + {k};
        i := i + 1;
      }
      AllChanges(changes, all, from, to, 0);
      assert changes[..i] == changes;
    }

    method AddAll(c: ConstraintChange)
      modifies this`generated
      ensures AddedFor(generated, old(generated), c.key, AddConstraintOps(c.key.model, c.added))
    {
      ghost var before := generated;
      AddedNone(generated, c.key);
      hide AddedFor;
      var i := 0;
      while i < |c.added|
        invariant 0 <= i <= |c.added| && AddedFor(generated, before, c.key, AddConstraintOps(c.key.model, c.added[..i]))
      {
        ghost var mid := generated;
        AddOperation(c.key.app, AddConstraint(c.key.model, c.added[i]), c.key.model);
        assert c.added[..i + 1][..i] == c.added[..i];
        AddedMore(before, mid, generated, c.key, AddConstraintOps(c.key.model, c.added[..i]),
          [AddConstraint(c.key.model, c.added[i])]);
        i := i + 1;
      }
      assert c.added[..i] == c.added;
    }

    method GenerateAddedConstraints()
      requires InBoth(keptModelKeys) && ChangesOf(altConstraints, keptModelKeys, from, to)
      modifies this`generated
      ensures Stepped(generated, old(generated), AddedConstraintStep, keptModelKeys, from, to)
    {
      ghost var all, before, done := keptModelKeys, generated, {};
      var changes := altConstraints;
      var i := 0;
      SteppedNone(generated, AddedConstraintStep, from, to);
      NoChanges(changes);
      hide Stepped, AddedFor, ChangesOf, KeysOf, StepOps, AddConstraintOps, OpsFor;
      while i < |changes|
        invariant 0 <= i <= |changes| && done == KeysOf(changes[..i]) && done <= all
        invariant Stepped(generated, before, AddedConstraintStep, done, from, to)
      {
        ghost var mid, k := generated, changes[i].key;
        NextChange(changes, all, from, to, i);
        AddAll(changes[i]);
        SteppedMore(before, mid, generated, AddedConstraintStep, done, k, from, to);
        KeysOfMore(changes, i);
        AllChanges(changes, all, from, to, i);
        done := done + {k};
        i := i + 1;
      }
      AllChanges(changes, all, from, to, 0);
      assert changes[..i] == changes;
    }

    method AlterAll(c: ConstraintChange)
      modifies this`generated
      ensures AddedFor(generated, old(generated), c.key, AlterConstraintOps(c.key.model, c.altered))
    {
      ghost var before := generated;
      AddedNone(generated, c.key);
      hide AddedFor;
      var i := 0;
      while i < |c.altered|
        invariant 0 <= i <= |c.altered| && AddedFor(generated, before, c.key,
          AlterConstraintOps(c.key.model, c.altered[..i]))
      {
        ghost var mid := generated;
        AddOperation(c.key.app, AlterConstraint(c.key.model, c.altered[i].name, c.altered[i]), c.key.model);
        assert c.altered[..i + 1][..i] == c.altered[..i];
        AddedMore(before, mid, generated, c.key, AlterConstraintOps(c.key.model, c.altered[..i]),
          [AlterConstraint(c.key.model, c.altered[i].name, c.altered[i])]);
        i := i + 1;
      }
      assert c.altered[..i] == c.altered;
    }

    method GenerateAlteredConstraints()
      requires InBoth(keptModelKeys) && ChangesOf(altConstraints, keptModelKeys, from, to)
      modifies this`generated
      ensures Stepped(generated, old(generated), AlteredConstraintStep, keptModelKeys, from, to)
    {
      ghost var all, before, done := keptModelKeys, generated, {};
      var changes := altConstraints;
      var i := 0;
      SteppedNone(generated, AlteredConstraintStep, from, to);
      NoChanges(changes);
      hide Stepped, AddedFor, ChangesOf, KeysOf, StepOps, AlterConstraintOps, OpsFor;
      while i < |changes|
        invariant 0 <= i <= |changes| && done == KeysOf(changes[..i]) && done <= all
        invariant Stepped(generated, before, AlteredConstraintStep, done, from, to)
      {
        ghost var mid, k := generated, changes[i].key;
        NextChange(changes, all, from, to, i);
        AlterAll(changes[i]);
        SteppedMore(before, mid, generated, AlteredConstraintStep, done, k, from, to);
        KeysOfMore(changes, i);
        AllChanges(changes, all, from, to, i);
        done := done + {k};
        i := i + 1;
      }
      AllChanges(changes, all, from, to, 0);
      assert changes[..i] == changes;
    }

    lemma NoFieldsYet(g: Generated, step: FieldStep)
      ensures FieldsStepped(g, g, step, q, [], from, to)
    {
      hide OpsFor;
    }

    /** The prompts for the new field, if there are any, were answered. */
    predicate AdditionAnswered(f: FieldKey) {
      AdditionOf(q, f.model, f.field, FieldsAt(to, OwnerOf(f))).Some?
    }

    /** The prompt for the altered field, if there is one, was answered. */
    predicate AlterationAnswered(f: FieldKey) {
      var k := OwnerOf(f);
      IsAltered(FieldsAt(from, k), FieldsAt(to, k), f.field, k.app) ==>
        AlterationOf(q, k, f.field, FieldsAt(from, k), FieldsAt(to, k)).Some?
    }

    ghost predicate AdditionsAnswered()
      reads this`oldFieldKeys, this`newFieldKeys
    {
      forall f :: f in newFieldKeys - oldFieldKeys ==> AdditionAnswered(f)
    }

    ghost predicate AlterationsAllAnswered()
      reads this`oldFieldKeys, this`newFieldKeys
    {
      forall f :: f in oldFieldKeys * newFieldKeys ==> AlterationAnswered(f)
    }

    method GenerateRemovedField(f: FieldKey)
      modifies this`generated
      ensures AddedFor(generated, old(generated), OwnerOf(f),
        FieldOp(RemovedFieldStep, q, OwnerOf(f), f.field, FieldsAt(from, OwnerOf(f)), FieldsAt(to, OwnerOf(f))))
    {
      hide AddedFor;
      AddOperation(f.app, RemoveField(f.model, f.field), f.model);
    }

    method GenerateAddedField(f: FieldKey) returns (ok: bool)
      modifies this`generated
      ensures ok == AdditionAnswered(f)
      ensures ok ==> AddedFor(generated, old(generated), OwnerOf(f),
        FieldOp(AddedFieldStep, q, OwnerOf(f), f.field, FieldsAt(from, OwnerOf(f)), FieldsAt(to, OwnerOf(f))))
    {
      hide AddedFor, AdditionOf;
      var op := AdditionOf(q, f.model, f.field, FieldsAt(to, OwnerOf(f)));
      ok := op.Some?;
      if ok {
        AdditionChanges(q, f.model, f.field, FieldsAt(to, OwnerOf(f)));
        AddOperation(f.app, op.value, f.model);
      }
    }

    method GenerateAlteredField(f: FieldKey) returns (ok: bool)
      modifies this`generated
      ensures ok == AlterationAnswered(f)
      ensures ok ==> AddedFor(generated, old(generated), OwnerOf(f),
        FieldOp(AlteredFieldStep, q, OwnerOf(f), f.field, FieldsAt(from, OwnerOf(f)), FieldsAt(to, OwnerOf(f))))
    {
      hide AddedFor, AlterationOf, IsAltered, FieldsAt;
      var k := OwnerOf(f);
      var op := AlterationOf(q, k, f.field, FieldsAt(from, k), FieldsAt(to, k));
      ok := op.Some? || !IsAltered(FieldsAt(from, k), FieldsAt(to, k), f.field, k.app);
      if op.Some? {
        AlterationChanges(q, k, f.field, FieldsAt(from, k), FieldsAt(to, k));
        AddOperation(f.app, op.value, f.model);
      } else {
        AddedNone(generated, k);
      }
    }

    /** Operations for the fields that are gone, one after the other. */
    method GenerateRemovedFields() returns (ghost order: seq<FieldKey>)
      requires Collected()
      modifies this`generated
      ensures ListsFields(order, oldFieldKeys - newFieldKeys)
      ensures FieldsStepped(generated, old(generated), RemovedFieldStep, q, order, from, to)
    {
      var todo := oldFieldKeys - newFieldKeys;
      ghost var all, before := todo, generated;
      order := [];
      hide Collected, FieldsStepped, AddedFor, ListsFields, FieldOp;
      NoFieldsYet(generated, RemovedFieldStep);
      ghost var done := {};
      ListsNone();
      while todo != {}
        invariant done + todo == all && done !! todo && ListsFields(order, done)
        invariant FieldsStepped(generated, before, RemovedFieldStep, q, order, from, to)
        decreases todo
      {
        var f :| f in todo;
        ghost var mid := generated;
        GenerateRemovedField(f);
        FieldsSteppedMore(before, mid, generated, RemovedFieldStep, q, order, f, from, to);
        ListsMore(order, done, f);
        order, done, todo := order + [f], done + {f}, todo - {f};
      }
    }

    /** Operations for the fields that are new, unless a prompt ends the command. */
    method GenerateAddedFields() returns (ok: bool, ghost order: seq<FieldKey>)
      requires Collected()
      modifies this`generated
      ensures ok <==> AdditionsAnswered()
      ensures ok ==> ListsFields(order, newFieldKeys - oldFieldKeys)
      ensures ok ==> FieldsStepped(generated, old(generated), AddedFieldStep, q, order, from, to)
    {
      var todo := newFieldKeys - oldFieldKeys;
      ghost var all, before := todo, generated;
      order, ok := [], true;
      hide Collected, FieldsStepped, AddedFor, ListsFields, FieldOp, AdditionAnswered;
      NoFieldsYet(generated, AddedFieldStep);
      ghost var done := {};
      ListsNone();
      while todo != {}
        invariant ok && done + todo == all && done !! todo && ListsFields(order, done)
        invariant forall f :: f in done ==> AdditionAnswered(f)
        invariant FieldsStepped(generated, before, AddedFieldStep, q, order, from, to)
        decreases todo
      {
        var f :| f in todo;
        ghost var mid := generated;
        ok := GenerateAddedField(f);
        if !ok {
          return;
        }
        FieldsSteppedMore(before, mid, generated, AddedFieldStep, q, order, f, from, to);
        ListsMore(order, done, f);
        order, done, todo := order + [f], done + {f}, todo - {f};
      }
    }

    /** Operations for the fields that differ, unless a prompt ends the command. */
    method GenerateAlteredFields() returns (ok: bool, ghost order: seq<FieldKey>)
      requires Collected()
      modifies this`generated
      ensures ok <==> AlterationsAllAnswered()
      ensures ok ==> ListsFields(order, oldFieldKeys * newFieldKeys)
      ensures ok ==> FieldsStepped(generated, old(generated), AlteredFieldStep, q, order, from, to)
    {
      var todo := oldFieldKeys * newFieldKeys;
      ghost var all, before := todo, generated;
      order, ok := [], true;
      hide Collected, FieldsStepped, AddedFor, ListsFields, FieldOp, AlterationAnswered;
      NoFieldsYet(generated, AlteredFieldStep);
      ghost var done := {};
      ListsNone();
      while todo != {}
        invariant ok && done + todo == all && done !! todo && ListsFields(order, done)
        invariant forall f :: f in done ==> AlterationAnswered(f)
        invariant FieldsStepped(generated, before, AlteredFieldStep, q, order, from, to)
        decreases todo
      {
        var f :| f in todo;
        ghost var mid := generated;
        ok := GenerateAlteredField(f);
        if !ok {
          return;
        }
        FieldsSteppedMore(before, mid, generated, AlteredFieldStep, q, order, f, from, to);
        ListsMore(order, done, f);
        order, done, todo := order + [f], done + {f}, todo - {f};
      }
    }

    ghost function Compares(): Comparison {
      Comparison(from, to, realApps, convertApps)
    }

    /** The keys of the fields that are gone, new and kept, model by model. */
    lemma OrdersAre(o: FieldOrders, k: ModelKey)
      requires Collected()
      requires ListsFields(o.removed, oldFieldKeys - newFieldKeys) && ListsFields(o.added, newFieldKeys - oldFieldKeys)
      requires ListsFields(o.kept, oldFieldKeys * newFieldKeys)
      ensures IsKept(Compares(), k) ==> Orders(OrderAt(o, k), from[k].fields, to[k].fields)
      ensures k !in keptModelKeys ==> OrderAt(o, k) == Order([], [], [])
    {
      KindsAre(k);
      if k in keptModelKeys {
        NamesInAre(o.removed, k);
        NamesInAre(o.added, k);
        NamesInAre(o.kept, k);
        forall n
          ensures FieldKey(k.app, k.model, n) in oldFieldKeys <==> HasField(from[k].fields, n)
          ensures FieldKey(k.app, k.model, n) in newFieldKeys <==> HasField(to[k].fields, n)
        {
          assert OwnerOf(FieldKey(k.app, k.model, n)) == k;
        }
        hide Collected, NamesIn, HasField, KindOf;
      } else {
        NoNames(o.removed, oldFieldKeys - newFieldKeys, k);
        NoNames(o.added, newFieldKeys - oldFieldKeys, k);
        NoNames(o.kept, oldFieldKeys * newFieldKeys, k);
      }
    }

    /** Every prompt for a field that is new or altered is answered. */
    ghost predicate PromptsAnswered() {
      forall f :: IsKept(Compares(), OwnerOf(f)) ==> PromptAnswered(f)
    }

    predicate PromptAnswered(f: FieldKey) {
      var old_, new_ := HasField(FieldsAt(from, OwnerOf(f)), f.field), HasField(FieldsAt(to, OwnerOf(f)), f.field);
      (new_ && !old_ ==> AdditionAnswered(f)) && (new_ && old_ ==> AlterationAnswered(f))
    }

    lemma PromptsAre()
      requires Collected()
      ensures PromptsAnswered() <==> AdditionsAnswered() && AlterationsAllAnswered()
    {
      forall f
        ensures f in newFieldKeys <==> IsKept(Compares(), OwnerOf(f)) && HasField(FieldsAt(to, OwnerOf(f)), f.field)
        ensures f in oldFieldKeys <==> IsKept(Compares(), OwnerOf(f)) && HasField(FieldsAt(from, OwnerOf(f)), f.field)
      {
        KindsAre(OwnerOf(f));
        hide HasField, KindOf;
      }
      hide Collected, HasField, IsKept, AdditionAnswered, AlterationAnswered, FieldsAt;
      assert forall f :: f in newFieldKeys - oldFieldKeys <==>
        IsKept(Compares(), OwnerOf(f)) && HasField(FieldsAt(to, OwnerOf(f)), f.field) &&
          !HasField(FieldsAt(from, OwnerOf(f)), f.field);
      assert forall f :: f in oldFieldKeys * newFieldKeys <==>
        IsKept(Compares(), OwnerOf(f)) && HasField(FieldsAt(to, OwnerOf(f)), f.field) &&
          HasField(FieldsAt(from, OwnerOf(f)), f.field);
    }

    /** Answered prompts are answered model by model. */
    lemma AnsweredModelByModel(o: FieldOrders)
      requires PromptsAnswered() && OrdersAll(Compares(), o)
      ensures AllPromptsAnswered(Compares(), q, o)
    {
      forall k | IsKept(Compares(), k)
        ensures Answered(q, k, from[k].fields, to[k].fields, OrderAt(o, k))
      {
        AnsweredAt(o, k);
      }
    }

    lemma AnsweredAt(o: FieldOrders, k: ModelKey)
      requires PromptsAnswered() && IsKept(Compares(), k) && Orders(OrderAt(o, k), from[k].fields, to[k].fields)
      ensures Answered(q, k, from[k].fields, to[k].fields, OrderAt(o, k))
    {
      hide HasField, KindOf, NamesIn, AdditionOf, AlterationOf, IsAltered;
      forall n | n in OrderAt(o, k).added
        ensures AdditionOf(q, k.model, n, to[k].fields).Some?
      {
        assert PromptAnswered(FieldKey(k.app, k.model, n)) && OwnerOf(FieldKey(k.app, k.model, n)) == k;
      }
      forall n | n in OrderAt(o, k).kept && IsAltered(from[k].fields, to[k].fields, n, k.app)
        ensures AlterationOf(q, k, n, from[k].fields, to[k].fields).Some?
      {
        assert PromptAnswered(FieldKey(k.app, k.model, n)) && OwnerOf(FieldKey(k.app, k.model, n)) == k;
      }
    }

    /** The steps before those for fields. */
    method GenerateBeforeFields()
      requires Collected()
      modifies this`generated, this`altConstraints
      ensures InBoth(keptModelKeys) && ChangesOf(altConstraints, keptModelKeys, from, to)
      ensures forall k :: OpsFor(generated, k) == OpsFor(old(generated), k) + PlanBefore(Compares(), k)
    {
      hide Collected, Stepped, ChangesOf, InBoth, OpsFor, PlanBefore;
      ghost var g0 := generated;
      GenerateAlteredOptions();
      ghost var g1 := generated;
      GenerateAlteredDBTableComment();
      ghost var g2 := generated;
      CreateAlteredConstraints();
      GenerateRemovedConstraints();
      ghost var g3 := generated;
      GenerateRemovedAlteredUniqueTogether();
      forall k
        ensures OpsFor(generated, k) == OpsFor(g0, k) + PlanBefore(Compares(), k)
      {
        BeforeAt(g0, g1, g2, g3, generated, k);
      }
    }

    lemma BeforeAt(g0: Generated, g1: Generated, g2: Generated, g3: Generated, g4: Generated, k: ModelKey)
      requires Collected()
      requires Stepped(g1, g0, ManagedStep, Compared(), from, to)
      requires Stepped(g2, g1, CommentStep, keptModelKeys + keptUnmanaged, from, to)
      requires Stepped(g3, g2, RemovedConstraintStep, keptModelKeys, from, to)
      requires Stepped(g4, g3, RemovedTogetherStep, keptModelKeys, from, to)
      ensures OpsFor(g4, k) == OpsFor(g0, k) + PlanBefore(Compares(), k)
    {
      hide Collected, Stepped, OpsFor, StepIf, IsCompared, IsOutlined, IsKept, Compared;
      var c := Compares();
      TakenAre(k);
      SteppedAt(g1, g0, ManagedStep, Compared(), k, IsCompared(c, k));
      SteppedAt(g2, g1, CommentStep, keptModelKeys + keptUnmanaged, k, IsOutlined(c, k));
      SteppedAt(g3, g2, RemovedConstraintStep, keptModelKeys, k, IsKept(c, k));
      SteppedAt(g4, g3, RemovedTogetherStep, keptModelKeys, k, IsKept(c, k));
      FourMore(
        OpsFor(g0, k), StepIf(ManagedStep, k, IsCompared(c, k), c), StepIf(CommentStep, k, IsOutlined(c, k), c),
        StepIf(RemovedConstraintStep, k, IsKept(c, k), c), StepIf(RemovedTogetherStep, k, IsKept(c, k), c));
    }

    lemma TakenAre(k: ModelKey)
      requires Collected()
      ensures k in Compared() <==> IsCompared(Compares(), k)
      ensures k in keptModelKeys + keptUnmanaged <==> IsOutlined(Compares(), k)
      ensures k in keptModelKeys <==> IsKept(Compares(), k)
    {
      KindsAre(k);
      hide Collected, KindOf, Compared;
    }

    lemma SteppedAt(after: Generated, before: Generated, step: Step, keys: set<ModelKey>, k: ModelKey, taken: bool)
      requires Stepped(after, before, step, keys, from, to) && (k in keys <==> taken)
      ensures OpsFor(after, k) == OpsFor(before, k) + StepIf(step, k, taken, Compares())
    {
      hide OpsFor, StepAt;
    }

    /** The steps after those for fields. */
    method GenerateAfterFields()
      requires Collected() && InBoth(keptModelKeys) && ChangesOf(altConstraints, keptModelKeys, from, to)
      modifies this`generated
      ensures forall k :: OpsFor(generated, k) == OpsFor(old(generated), k) + PlanAfter(Compares(), k)
    {
      hide Collected, Stepped, ChangesOf, InBoth, OpsFor, PlanAfter;
      ghost var g0 := generated;
      GenerateAlteredUniqueTogether();
      ghost var g1 := generated;
      GenerateAddedConstraints();
      ghost var g2 := generated;
      GenerateAlteredConstraints();
      ghost var g3 := generated;
      GenerateAlteredDBTable();
      forall k
        ensures OpsFor(generated, k) == OpsFor(g0, k) + PlanAfter(Compares(), k)
      {
        AfterAt(g0, g1, g2, g3, generated, k);
      }
    }

    lemma AfterAt(g0: Generated, g1: Generated, g2: Generated, g3: Generated, g4: Generated, k: ModelKey)
      requires Collected()
      requires Stepped(g1, g0, AddedTogetherStep, keptModelKeys, from, to)
      requires Stepped(g2, g1, AddedConstraintStep, keptModelKeys, from, to)
      requires Stepped(g3, g2, AlteredConstraintStep, keptModelKeys, from, to)
      requires Stepped(g4, g3, TableStep, keptModelKeys + keptUnmanaged, from, to)
      ensures OpsFor(g4, k) == OpsFor(g0, k) + PlanAfter(Compares(), k)
    {
      hide Collected, Stepped, OpsFor, StepIf, IsOutlined, IsKept;
      var c := Compares();
      TakenAre(k);
      SteppedAt(g1, g0, AddedTogetherStep, keptModelKeys, k, IsKept(c, k));
      SteppedAt(g2, g1, AddedConstraintStep, keptModelKeys, k, IsKept(c, k));
      SteppedAt(g3, g2, AlteredConstraintStep, keptModelKeys, k, IsKept(c, k));
      SteppedAt(g4, g3, TableStep, keptModelKeys + keptUnmanaged, k, IsOutlined(c, k));
      FourMore(
        OpsFor(g0, k), StepIf(AddedTogetherStep, k, IsKept(c, k), c), StepIf(AddedConstraintStep, k, IsKept(c, k), c),
        StepIf(AlteredConstraintStep, k, IsKept(c, k), c), StepIf(TableStep, k, IsOutlined(c, k), c));
    }

    /** The orders list the fields of the models that are compared with their fields. */
    ghost predicate OrdersListed(o: FieldOrders)
      reads this`oldFieldKeys, this`newFieldKeys
    {
      && ListsFields(o.removed, oldFieldKeys - newFieldKeys) && ListsFields(o.added, newFieldKeys - oldFieldKeys)
      && ListsFields(o.kept, oldFieldKeys * newFieldKeys)
    }

    /** The steps for fields. They fail exactly when a prompt ends the command. */
    method GenerateFields() returns (ok: bool, ghost o: FieldOrders)
      requires Collected()
      modifies this`generated
      ensures ok <==> PromptsAnswered()
      ensures ok ==> OrdersListed(o) && FieldsPlanned(generated, old(generated), o)
    {
      hide Collected, FieldsStepped, PromptsAnswered, AdditionsAnswered, AlterationsAllAnswered, ListsFields,
        FieldsPlanned, OrdersListed;
      PromptsAre();
      ghost var g0 := generated;
      ghost var removed := GenerateRemovedFields();
      ghost var g1 := generated;
      ghost var added, kept := [], [];
      ok, added := GenerateAddedFields();
      ghost var g2 := generated;
      if ok {
        ok, kept := GenerateAlteredFields();
      }
      o := FieldOrders(removed, added, kept);
      if ok {
        AllListed(o);
        FieldsAre(g0, g1, g2, generated, o);
      }
    }

    lemma AllListed(o: FieldOrders)
      requires ListsFields(o.removed, oldFieldKeys - newFieldKeys) && ListsFields(o.added, newFieldKeys - oldFieldKeys)
      requires ListsFields(o.kept, oldFieldKeys * newFieldKeys)
      ensures OrdersListed(o)
    {}

    /** The operations for fields have been generated for every model. */
    ghost predicate FieldsPlanned(after: Generated, before: Generated, o: FieldOrders) {
      forall k :: OpsFor(after, k) == OpsFor(before, k) + PlanOfFields(Compares(), q, k, o)
    }

    lemma FieldsAre(g0: Generated, g1: Generated, g2: Generated, g3: Generated, o: FieldOrders)
      requires FieldsStepped(g1, g0, RemovedFieldStep, q, o.removed, from, to)
      requires FieldsStepped(g2, g1, AddedFieldStep, q, o.added, from, to)
      requires FieldsStepped(g3, g2, AlteredFieldStep, q, o.kept, from, to)
      ensures FieldsPlanned(g3, g0, o)
    {
      hide OpsFor, FieldOps, NamesIn, FieldsAt;
      forall k
        ensures OpsFor(g3, k) == OpsFor(g0, k) + PlanOfFields(Compares(), q, k, o)
      {
        assert OpsFor(g1, k) == OpsFor(g0, k) + FieldOps(RemovedFieldStep, q, k, NamesIn(o.removed, k),
          FieldsAt(from, k), FieldsAt(to, k));
        assert OpsFor(g2, k) == OpsFor(g1, k) + FieldOps(AddedFieldStep, q, k, NamesIn(o.added, k), FieldsAt(from, k),
          FieldsAt(to, k));
        assert OpsFor(g3, k) == OpsFor(g2, k) + FieldOps(AlteredFieldStep, q, k, NamesIn(o.kept, k), FieldsAt(from, k),
          FieldsAt(to, k));
      }
    }

    /** Compare the two states. It fails exactly when a prompt ends the command;
        otherwise each model has its plan generated, in order. */
    method DetectChanges() returns (ok: bool, ghost o: FieldOrders)
      modifies this
      ensures ok <==> PromptsAnswered()
      ensures ok ==> OrdersAll(Compares(), o) && AllPromptsAnswered(Compares(), q, o)
      ensures ok ==> forall k :: OpsFor(generated, k) == PlanAt(Compares(), q, k, o)
      ensures ok <==> NoPromptEnds()
      ensures ok ==> GeneratedAsAsked()
    {
      Collect();
      PromptsGoOn();
      hide NoPromptEnds, GeneratedAsAsked;
      hide Collected, PromptsAnswered, OrdersListed, OrdersAll, AllPromptsAnswered, ChangesOf, InBoth, PlanBefore,
        PlanOfFields, PlanAfter, PlanAt, FieldsPlanned;
      assert forall k :: OpsFor(generated, k) == [];
      hide OpsFor;
      GenerateBeforeFields();
      ghost var g1 := generated;
      ok, o := GenerateFields();
      if !ok {
        return;
      }
      ghost var g2 := generated;
      GenerateAfterFields();
      WholePlan(g1, g2, generated, o);
      AllOrders(o);
      AnsweredModelByModel(o);
      AllAsAsked(o);
    }

    /** The steps before the fields, for the fields and after them make the plan. */
    lemma WholePlan(g1: Generated, g2: Generated, g3: Generated, o: FieldOrders)
      requires Collected() && OrdersListed(o)
      requires forall k :: OpsFor(g1, k) == [] + PlanBefore(Compares(), k)
      requires FieldsPlanned(g2, g1, o)
      requires forall k :: OpsFor(g3, k) == OpsFor(g2, k) + PlanAfter(Compares(), k)
      ensures forall k :: OpsFor(g3, k) == PlanAt(Compares(), q, k, o)
    {
      hide Collected, OrdersListed, OpsFor, PlanBefore, PlanOfFields, PlanAfter, PlanAt;
      forall k
        ensures OpsFor(g3, k) == PlanAt(Compares(), q, k, o)
      {
        NotKeptNotListed(o, k);
        PartsAreThePlan(Compares(), q, k, o);
        assert OpsFor(g1, k) == PlanBefore(Compares(), k);
        assert OpsFor(g2, k) == OpsFor(g1, k) + PlanOfFields(Compares(), q, k, o);
      }
    }

    /** For each model, what has been generated is what its difference asks for and the
        prompts were answered with. */
    ghost predicate GeneratedAsAsked()
      reads this`generated
    {
      && (forall k :: IsKept(Compares(), k) ==>
            Prompts.AsAnswered(q, k, from[k].fields, to[k].fields, OpsFor(generated, k)))
      && (forall k :: IsKept(Compares(), k) ==> Changes.AsDifferent(k.model, from[k], to[k], OpsFor(generated, k)))
      && (forall k :: k in from && k in to && !IsKept(Compares(), k) ==>
            Changes.PartlyAsDifferent(KindOf(from[k], to[k], k.app, realApps, convertApps), k.model, from[k], to[k],
              OpsFor(generated, k)))
      && (forall k :: k !in from || k !in to ==> OpsFor(generated, k) == [])
    }

    lemma AllAsAsked(o: FieldOrders)
      requires OrdersAll(Compares(), o) && AllPromptsAnswered(Compares(), q, o)
      requires forall k :: OpsFor(generated, k) == PlanAt(Compares(), q, k, o)
      ensures GeneratedAsAsked()
    {
      hide OpsFor, PlanAt, KindOf, Prompts.AsAnswered, Changes.AsDifferent, Changes.PartlyAsDifferent, Orders, Answered;
      forall k | IsKept(Compares(), k)
        ensures Prompts.AsAnswered(q, k, from[k].fields, to[k].fields, OpsFor(generated, k))
        ensures Changes.AsDifferent(k.model, from[k], to[k], OpsFor(generated, k))
      {
        KeptAsAsked(o, k);
      }
      forall k | !IsKept(Compares(), k)
        ensures k in from && k in to ==>
          Changes.PartlyAsDifferent(KindOf(from[k], to[k], k.app, realApps, convertApps), k.model, from[k], to[k],
            OpsFor(generated, k))
        ensures k !in from || k !in to ==> OpsFor(generated, k) == []
      {
        OtherAsAsked(o, k);
      }
    }

    /** No prompt ends the command. */
    ghost predicate NoPromptEnds() {
      forall f :: IsKept(Compares(), OwnerOf(f)) ==> NoPromptEndsAt(f)
    }

    ghost predicate NoPromptEndsAt(f: FieldKey) {
      var k := OwnerOf(f);
      Prompts.GoesOn(q, k, FieldsAt(from, k), FieldsAt(to, k), f.field)
    }

    lemma PromptsGoOn()
      ensures PromptsAnswered() <==> NoPromptEnds()
    {
      forall f
        ensures NoPromptEndsAt(f) <==> PromptAnswered(f)
      {
        PromptGoesOn(f);
      }
      hide NoPromptEndsAt, PromptAnswered, IsKept;
    }

    lemma PromptGoesOn(f: FieldKey)
      ensures NoPromptEndsAt(f) <==> PromptAnswered(f)
    {
      var k := OwnerOf(f);
      Prompts.GoesOnIs(q, k, FieldsAt(from, k), FieldsAt(to, k), f.field);
      hide Prompts.GoesOn, AdditionOf, AlterationOf, FieldsAt, FieldIndex;
    }

    lemma KeptAsAsked(o: FieldOrders, k: ModelKey)
      requires IsKept(Compares(), k) && Orders(OrderAt(o, k), from[k].fields, to[k].fields)
      requires Answered(q, k, from[k].fields, to[k].fields, OrderAt(o, k))
      ensures Prompts.AsAnswered(q, k, from[k].fields, to[k].fields, PlanAt(Compares(), q, k, o))
      ensures Changes.AsDifferent(k.model, from[k], to[k], PlanAt(Compares(), q, k, o))
    {
      hide NamesIn, Plan, Prompts.AsAnswered, Changes.AsDifferent, Orders, Answered;
      Prompts.PlanAsAnswered(q, k, from[k], to[k], OrderAt(o, k));
      Changes.PlanAsDifferent(q, k, from[k], to[k], OrderAt(o, k));
    }

    lemma OtherAsAsked(o: FieldOrders, k: ModelKey)
      requires !IsKept(Compares(), k)
      ensures k in from && k in to ==>
        Changes.PartlyAsDifferent(KindOf(from[k], to[k], k.app, realApps, convertApps), k.model, from[k], to[k],
          PlanAt(Compares(), q, k, o))
      ensures k !in from || k !in to ==> PlanAt(Compares(), q, k, o) == []
    {
      hide NamesIn, Plan, Changes.PartlyAsDifferent, KindOf;
      if k in from && k in to {
        var kind := KindOf(from[k], to[k], k.app, realApps, convertApps);
        Changes.PlanPartlyAsDifferent(q, kind, k, from[k], to[k], OrderAt(o, k));
      }
    }

    lemma AllOrders(o: FieldOrders)
      requires Collected() && OrdersListed(o)
      ensures OrdersAll(Compares(), o)
    {
      forall k | IsKept(Compares(), k)
        ensures Orders(OrderAt(o, k), from[k].fields, to[k].fields)
      {
        OrdersAre(o, k);
      }
    }

    lemma NotKeptNotListed(o: FieldOrders, k: ModelKey)
      requires Collected() && OrdersListed(o)
      ensures !IsKept(Compares(), k) ==> OrderAt(o, k) == Order([], [], [])
    {
      KindsAre(k);
      OrdersAre(o, k);
    }
  }
}
