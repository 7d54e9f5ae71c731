/** What the autodetector generates for one model that both states have, when no
    rename is accepted. */
module ModelDiff {
  import opened Wrappers
  import opened Digraph
  import opened Names
  import opened ModelStates
  import opened Operations
  import opened States
  import Keys

  // --- Answers to prompts ---

  datatype Given = NotProvided | Nil | Default(value: string)

  /** The answers; None and false stand for a prompt that ended the command. */
  datatype Questioner = Questioner(
    notNullAddition: (string, string) -> Option<Given>,
    autoNowAddAddition: (string, string) -> Option<Given>,
    uniqueCallableAddition: (string, string) -> bool,
    notNullAlteration: (string, string) -> Option<Given>,
    isCallable: string -> bool)

  function OneOff(g: Given): string {
    match g
    case NotProvided => "<NOT_PROVIDED>"
    case Nil => "nil"
    case Default(value) => value
  }

  // --- Fields ---

  /** The field as it is compared: the target of a relation in lower case, with app
      put before a bare one. */
  function Deconstructed(f: Field, app: string): Field {
    if f.foreignKey.None? then f
    else
      var to := Lower(f.foreignKey.value.to);
      f.(foreignKey := Some(f.foreignKey.value.(to := if HasDot(to) then to else app + "." + to)))
  }

  predicate Unaltered(a: Field, b: Field, app: string) {
    Deconstructed(a, app) == Deconstructed(b, app)
  }

  function Lookup(fs: Fields, name: string): Option<Field> {
    if HasField(fs, name) then Some(fs[FieldIndex(fs, name)].field) else None
  }

  /** Whether rows that exist already need no prompted value. */
  predicate KeepsDefault(f: Field) {
    || f.nullable || f.default.Some? || f.column.dbDefault.Some?
    || (f.column.dataType == "time" && f.column.autoNow) || f.column.autoIncrement
  }

  function AddedField(q: Questioner, model: string, name: string, f: Field): Option<Operation> {
    var answer :=
      if KeepsDefault(f) then Some(f)
      else
        match if f.column.dataType == "time" && f.column.autoNowAdd then q.autoNowAddAddition(name, model)
          else q.notNullAddition(name, model)
        case None => None
        case Some(g) => Some(f.(default := Some(OneOff(g))));
    match answer
    case None => None
    case Some(field) =>
      if field.unique && field.default.Some? && q.isCallable(field.default.value) &&
        !q.uniqueCallableAddition(name, model) then None
      else Some(AddField(model, name, field, if KeepsDefault(f) then None else Some(false)))
  }

  function AlteredField(q: Questioner, model: string, name: string, old_: Field, new_: Field): Option<Operation> {
    if old_.nullable && !new_.nullable && new_.default.None? && new_.column.dbDefault.None? then
      match q.notNullAlteration(name, model)
      case None => None
      case Some(NotProvided) => Some(AlterField(model, name, new_, None))
      case Some(g) => Some(AlterField(model, name, new_.(default := Some(OneOff(g))), Some(false)))
    else Some(AlterField(model, name, new_, None))
  }

  /** The operations for the named fields, one field after the other. */
  function Removals(model: string, names: seq<string>): seq<Operation> {
    if names == [] then []
    else Removals(model, names[..|names| - 1]) + [RemoveField(model, names[|names| - 1])]
  }

  function AdditionOf(q: Questioner, model: string, name: string, new_: Fields): Option<Operation> {
    match Lookup(new_, name)
    case None => None
    case Some(f) => AddedField(q, model, name, f)
  }

  function Additions(q: Questioner, model: string, names: seq<string>, new_: Fields): seq<Operation> {
    if names == [] then []
    else Additions(q, model, names[..|names| - 1], new_) + OpsOf(AdditionOf(q, model, names[|names| - 1], new_))
  }

  function OpsOf(op: Option<Operation>): seq<Operation> {
    match op
    case None => []
    case Some(o) => [o]
  }

  /** None when the field is not altered, or its prompt ended the command. */
  function AlterationOf(q: Questioner, key: ModelKey, name: string, old_: Fields, new_: Fields): Option<Operation> {
    match (Lookup(old_, name), Lookup(new_, name))
    case (Some(a), Some(b)) => if Unaltered(a, b, key.app) then None else AlteredField(q, key.model, name, a, b)
    case _ => None
  }

  function Alterations(q: Questioner, key: ModelKey, names: seq<string>, old_: Fields, new_: Fields): seq<Operation> {
    if names == [] then []
    else
      Alterations(q, key, names[..|names| - 1], old_, new_)
        + OpsOf(AlterationOf(q, key, names[|names| - 1], old_, new_))
  }

  // --- Constraints ---

  predicate UniqueNames(cs: seq<Constraint>) {
    forall i, j :: 0 <= i < j < |cs| ==> cs[i].name != cs[j].name
  }

  function WithoutMessage(c: Constraint): Constraint {
    match c
    case CheckConstraint(name, check, _) => CheckConstraint(name, check, "")
    case UniqueConstraint(name, fields, condition, deferrable, include_, nullsDistinct, _) =>
      UniqueConstraint(name, fields, condition, deferrable, include_, nullsDistinct, "")
    case ForeignKeyConstraint(_, _, _, _, _, _) => c
  }

  /** The two differ only in what the database does not know about. */
  predicate AlteredTo(a: Constraint, b: Constraint) {
    a != b && a.name == b.name && WithoutMessage(a) == WithoutMessage(b)
  }

  /** The constraints c is altered to, in order. */
  function AlteredInto(c: Constraint, new_: seq<Constraint>): seq<Constraint> {
    if new_ == [] then []
    else
      AlteredInto(c, new_[..|new_| - 1]) + if AlteredTo(c, new_[|new_| - 1]) then [new_[|new_| - 1]] else []
  }

  function Altered(old_: seq<Constraint>, new_: seq<Constraint>): seq<Constraint> {
    if old_ == [] then [] else Altered(old_[..|old_| - 1], new_) + AlteredInto(old_[|old_| - 1], new_)
  }

  function NamesOf(cs: seq<Constraint>): set<string> {
    set i | 0 <= i < |cs| :: cs[i].name
  }

  /** The constraints of cs that are not in others and do not have one of the names. */
  function Missing(cs: seq<Constraint>, others: seq<Constraint>, names: set<string>): seq<Constraint> {
    if cs == [] then []
    else
      var last := cs[|cs| - 1];
      Missing(cs[..|cs| - 1], others, names) + if last !in others && last.name !in names then [last] else []
  }

  function AddedConstraints(old_: seq<Constraint>, new_: seq<Constraint>): seq<Constraint> {
    Missing(new_, old_, NamesOf(Altered(old_, new_)))
  }

  function RemovedConstraints(old_: seq<Constraint>, new_: seq<Constraint>): seq<Constraint> {
    Missing(old_, new_, NamesOf(Altered(old_, new_)))
  }

  function RemoveConstraintOps(model: string, cs: seq<Constraint>): seq<Operation> {
    if cs == [] then []
    else RemoveConstraintOps(model, cs[..|cs| - 1]) + [RemoveConstraint(model, cs[|cs| - 1].name)]
  }

  function AddConstraintOps(model: string, cs: seq<Constraint>): seq<Operation> {
    if cs == [] then [] else AddConstraintOps(model, cs[..|cs| - 1]) + [AddConstraint(model, cs[|cs| - 1])]
  }

  function AlterConstraintOps(model: string, cs: seq<Constraint>): seq<Operation> {
    if cs == [] then []
    else AlterConstraintOps(model, cs[..|cs| - 1]) + [AlterConstraint(model, cs[|cs| - 1].name, cs[|cs| - 1])]
  }

  // --- unique_together ---

  /** The entry as one string, its columns separated by NUL. */
  function Joined(entry: seq<string>): string {
    if entry == [] then ""
    else if |entry| == 1 then entry[0]
    else entry[0] + "\0" + Joined(entry[1..])
  }

  /** The entries by their joined columns; of equal ones the last. */
  function TogetherMap(entries: seq<seq<string>>): (r: map<string, seq<string>>)
    ensures forall k :: k in r ==> Joined(r[k]) == k
  {
    if entries == [] then map[]
    else
      var last := entries[|entries| - 1];
      TogetherMap(entries[..|entries| - 1])[Joined(last) := last]
  }

  ghost function Listing(m: map<string, seq<string>>): seq<Keys.Key> {
    Keys.Sorted(set k | k in m :: Keys.Key("", k))
  }

  /** The entries in the order of their joined columns. */
  ghost function Entries(m: map<string, seq<string>>): (r: seq<seq<string>>)
    ensures |r| == |Listing(m)|
  {
    Keys.SortedLists(set k | k in m :: Keys.Key("", k));
    var ks := Listing(m);
    assert forall i :: 0 <= i < |ks| ==> ks[i] in ks;
    seq(|ks|, i requires 0 <= i < |ks| => m[ks[i].name])
  }

  function Both(want: map<string, seq<string>>, have: map<string, seq<string>>): map<string, seq<string>> {
    map k | k in want && k in have :: want[k]
  }

  /** First to the entries that stay, before fields are removed. */
  ghost function TogetherRemovals(model: string, old_: Options, new_: Options): seq<Operation> {
    var have, want := TogetherMap(old_.uniqueTogether), TogetherMap(new_.uniqueTogether);
    if have.Keys == want.Keys || have == map[] then []
    else [AlterUniqueTogether(model, Entries(Both(want, have)))]
  }

  /** Then to all of them, after fields are added. */
  ghost function TogetherAdditions(model: string, old_: Options, new_: Options): seq<Operation> {
    var have, want := TogetherMap(old_.uniqueTogether), TogetherMap(new_.uniqueTogether);
    if have.Keys == want.Keys || want.Keys == Both(want, have).Keys then []
    else [AlterUniqueTogether(model, Entries(want))]
  }

  // --- Table, comment, managed ---

  function TableOps(model: string, old_: ModelState, new_: ModelState): seq<Operation> {
    if old_.table == new_.table then [] else [AlterModelTable(model, new_.table)]
  }

  function CommentOps(model: string, old_: Options, new_: Options): seq<Operation> {
    if old_.tableComment == new_.tableComment then [] else [AlterModelTableComment(model, new_.tableComment)]
  }

  function ManagedOps(model: string, old_: Options, new_: Options): seq<Operation> {
    if old_.managed == new_.managed then [] else [AlterModelOptions(model, new_.managed)]
  }
}
