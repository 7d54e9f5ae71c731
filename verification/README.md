# The migration engine, modelled and proved

gormgate plans, generates and runs database migrations. This project models the parts of it that decide what
happens, in four groups, and proves what they are there for:

1. **Graph, planner and squash loader.** The graph is a class whose nodes link to each other both ways
   (`Graph.dfy`). Squashed migrations are folded into it in place (`Contraction.dfy`, `Loader.dfy`, `Declared.dfy`,
   `Squashes.dfy`), two iterative searches walk it (`Traversal.dfy`, `DepthFirst.dfy`), and the planner turns
   targets into steps that apply and unapply (`Plans.dfy`, `Executor.dfy`).
2. **The autodetector.** A Kahn sort with repeated edges (`TopoSort.dfy`, `GeneratedOps.dfy`), the scheduler that
   deals queues of operations out to migrations that depend on each other across apps (`Schedules.dfy`, `Cuts.dfy`,
   `Needs.dfy`, `Scheduler.dfy`, `Chaining.dfy`, `Firsts.dfy`), and the comparison of two project states
   (`ModelDiff.dfy`, `ModelConvergence.dfy`, `Convergence.dfy`, `Prompts.dfy`, `Changes.dfy`, `Detecting.dfy`,
   `Redetecting.dfy`).
3. **Project state and operations.** What each operation does to the state (`States.dfy`, `ProjectStates.dfy`,
   `Renames.dfy`), the reductions of pairs of operations (`Reductions.dfy`, `FieldReductions.dfy`,
   `ReduceField.dfy`, `ReduceThrough.dfy`, `ReduceAcross.dfy`, `ReduceIndex.dfy`, `CreateFolding.dfy`,
   `Elidables.dfy`), and running a migration forwards and backwards (`Applying.dfy`).
4. **SQL text and DDL.** The splitter and the quoters (`SqlSplit.dfy`, `Literals.dfy`, `Blocks.dfy`), the CREATE
   TABLE printer and the SQLite parser (`CreateTables.dfy`, `Tokens.dfy`, `Lexemes.dfy`, `TableParser.dfy`,
   `TableRoundTrips.dfy`), the SQLite table remake (`Remake.dfy`), and the deferred statements that follow renames (`References.dfy`, `Deferred.dfy`,
   `DeferredRuns.dfy`).

`Digraph.dfy` holds what is needed about paths and cycles, `Keys.dfy` keys and their order, `Numbers.dfy` decimal
numerals, `Names.dfy` comparison without case, `ModelStates.dfy` and `Operations.dfy` the entities.

Code that works by changing things step by step is a class or a method with loops, proved against a function or a
predicate; what the code is for is then proved about that. Effects on a database are a parameter of the model, and
so are answers to prompts and statements a database accepts or not.

## Model

| member | source | states |
|---|---|---|
| Graph.Graph.AddDependency | internal/graph/graph.go:96-110 | The edges afterwards are the old ones and the new one; missing ends become stand-in nodes; parents and children stay mirror images; it fails exactly when validation is asked for and a stand-in is left. |
| Graph.Graph.ValidateConsistency | internal/graph/graph.go:190-198 | An error exactly when the graph has a stand-in node, and then it names the least one and who asked for it. |
| Graph.Graph.RemoveReplacedNodes | internal/graph/graph.go:116-148 | The result is the contraction: the edges are the images of the old edges that do not lie wholly inside the replaced set, and the nodes are the others; a missing replacement is an error and changes nothing. |
| Contraction.ContractionPaths | internal/graph/graph.go:116-148 | A path leads from one image to another after the contraction exactly when one leads between the originals once the replaced nodes and their replacement count as one place; so no dependency between survivors is lost or made up. |
| Graph.Graph.RemoveReplacementNode | internal/graph/graph.go:154-185 | The replacement goes, and each of its children hangs on exactly those replaced nodes in the graph that are no parent of another replaced one. |
| Traversal.EnsureNotCyclic | internal/graph/graph.go:309-347 | An error exactly when the graph has a cycle, and the keys it reports form one. |
| Traversal.IterativeDFS | internal/graph/graph.go:227-255 | On any acyclic graph the two-phase stack loop ends and returns the order of the recursive search. |
| DepthFirst.FinishOrderCorrect | internal/graph/graph.go:207-255 | That order lists exactly what the start reaches, once each, every node after all it needs, and ends with the start. |
| Traversal.RootNodes | internal/graph/graph.go:260-279 | The sorted keys of the nodes with no parent in their own app. |
| Traversal.LeafNodes | internal/graph/graph.go:284-303 | The sorted keys of the nodes with no child in their own app. |
| Traversal.GeneratePlan | internal/graph/graph.go:363-383 | An error exactly when a node is missing; otherwise, with the targets or without them, exactly what some target depends on, once each, and each after all that it depends on itself. |
| Traversal.PlanForAllCorrect | internal/graph/graph.go:363-383 | That plan lists exactly what the targets depend on, once each and in dependency order. |
| Executor.Executor.MigrationPlan | internal/executor/executor.go:86-159 | Planning succeeds exactly when the targets are known to the graph it ends up with, falls back to the graph without replacements only when a target is missing, fails there exactly when that cannot be built, and otherwise returns the plan the next rows are about. |
| Plans.PlanTargetsSafe | internal/executor/executor.go:86-159 | For any targets, each forward step has all parents applied and each backward step no applied child; the plan leads exactly where the targets ask, and an applied set closed under dependencies stays closed. |
| Plans.GoingTo | internal/executor/executor.go:95-154 | What is applied once one target has been gone to, for each of its three kinds: exactly which migrations come and go, in terms of paths in the graph. |
| Plans.TargetIsLast | internal/executor/executor.go:95-154 | From a closed state, a named target ends up applied with all it depends on, and if it was applied already, nothing of its app that depends on it directly stays. |
| Plans.ZeroLeavesNothing | internal/executor/executor.go:99-116 | Going to "zero" leaves nothing of the app applied. |
| Plans.FullPlanIsForward | internal/executor/executor.go:86-159 | From a clean start the plan for leaves goes only forwards and is the graph's own plan for them. |
| Plans.FullPlanCovers | internal/graph/graph.go:363-383 | The plan for all leaves holds every migration of the graph, in dependency order. |
| Executor.MigrateAllForwards | internal/executor/executor.go:275-300 | What is run is the part of the full plan that was planned, in the full plan's order. |
| Plans.RunInFullOrder | internal/executor/executor.go:275-300 | Run in that order, a safe forward plan runs each migration once, stays safe and leads to the same applied set. |
| Executor.Recorder.RecordMigration | internal/executor/executor.go:411-424 | The record changes for exactly the migration and everything it replaces, through any number of squashes. |
| Executor.Recorder.CheckReplacements | internal/executor/executor.go:451-473 | For squashes that do not replace each other in a circle, one pass reaches the least record in which every squash is marked whose replaced migrations count as applied. |
| Loader.Loader.ResolveReplacedKeys | internal/loader/loader.go:318-330 | The result is exactly what the squash stands for once squashes in its list are followed. |
| Loader.Loader.ReplaceAll | internal/loader/loader.go:337-379 | On any declarations the folding ends; it fails exactly when a squash replaces itself through others; otherwise each squash is folded once, in the way its record asks for, and counts as applied exactly when all it resolves to does. |
| Loader.Loader.BuildGraph | internal/loader/loader.go:403-480 | A built graph has exactly the declared dependencies (those within apps first, then the others, in key order) as the folds leave them, no stand-in and no cycle; the applied keys are listed once each; each kind of error is given only for its own reason, a bad dependency always. |
| TopoSort.TopoSorter.Add | internal/autodetector/autodetector.go:1249-1258 | Adds the edges to one node, counting an edge as often as it is added. |
| TopoSort.TopoSorter.Order | internal/autodetector/autodetector.go:1260-1283 | An error exactly on a cycle; otherwise every node once, in the order of a Kahn sort. |
| TopoSort.KahnOrderFollows | internal/autodetector/autodetector.go:1260-1283 | In such an order every node comes after each of its predecessors. |
| TopoSort.KahnGroups | internal/autodetector/autodetector.go:1260-1283 | The nodes come group after group, and the group of each is the length of the longest chain of dependencies that leads to it, however often an edge was added. |
| GeneratedOps.SortOps | internal/autodetector/autodetector.go:1289-1312 | An app's operations are permuted, each after those of the app it waits for; an error exactly when they wait for each other. |
| Scheduler.Scheduler.CheckOp | internal/autodetector/autodetector.go:1342-1371 | An operation may leave its queue exactly when nothing it waits for is queued in another app and every such app has migrations already, or it is time to chop; and what it then depends on. |
| Scheduler.Scheduler.BuildMigrationList | internal/autodetector/autodetector.go:1319-1414 | The loop always ends. It fails exactly when the queues' order and the dependencies across apps are circular; otherwise every queue is emptied. Throughout, migrations followed by queues are the original queues, every operation is served, and a queue is cut only when no app's could be emptied. If apps wait for each other in order, and only for apps with a queue, every app gets exactly one migration, which holds its whole queue. |
| Schedules.SoundMore | internal/autodetector/autodetector.go:1336-1402 | Moving ready operations into a migration keeps all of this: conservation, service, dependencies on earlier migrations or leaves only, and an order in which all operations could run. |
| Cuts.CutsMore | internal/autodetector/autodetector.go:1336-1412 | A migration that leaves operations of its app queued is made only when no app could put all it has left into one, and stops at an operation that waits for another app's queue. |
| Cuts.WholeQueues | internal/autodetector/autodetector.go:1319-1414 | Hence emptied queues of apps that wait for each other in order were each emptied into one migration. |
| Needs.NeedsMore | internal/autodetector/autodetector.go:1352-1394 | A migration depends on exactly this for what its operations wait for in other apps: the app's newest migration of those made before; failing that, its leaf; failing that, whatever comes first in it. It is initial exactly when the app had no models. |
| Scheduler.Scheduler.OptimizeMigrations | internal/autodetector/autodetector.go:1417-1438 | Each migration depends, once each, on exactly what it did before and on the one before it in its app; nothing else about it changes. |
| Chaining.WaitedForIsReached | internal/autodetector/autodetector.go:1319-1438 | An operation and one in another app that it waits for: the migration of the second is reached through dependencies from the migration of the first. |
| Firsts.TightMakesNoCycle | internal/autodetector/autodetector.go:1366-1371 | If every operation waited for of an app without a leaf is queued, where the app has a queue, the new migrations make no cycle with an acyclic graph. |
| Firsts.CycleIffWaitingInACircle | internal/autodetector/autodetector.go:1366-1371 | In general they make a cycle exactly when migrations that wait for an app's first one do so in a circle. |
| Firsts.ScheduleInACircle | internal/autodetector/autodetector.go:1319-1438 | Queues that the scheduler accepts, and whose migrations depend on each other in a circle. |
| Detecting.Autodetector.DetectChanges | internal/autodetector/autodetector.go:390-445 | The comparison fails exactly when a prompt that is called for ends the command; otherwise it generates for each model just the plan for its pair of states, in order, and this is what the rows of `Prompts` and `Changes` say for a model compared with its fields, and the part of it that is looked at for others. |
| Prompts.PlanAsAnswered | internal/autodetector/autodetector.go:782-912 | Every new field is added and every different one altered, and nothing else is. A new field that has no value for existing rows takes the answer to the prompt meant for it, or nil, for a default that does not stay; so does one that no longer takes nulls, unless the answer is to leave them. Any other stays as it is. |
| Changes.PlanAsDifferent | internal/autodetector/autodetector.go:845-1218 | Exactly the fields that are gone are removed; constraints that differ in their message only are altered, others removed and added; unique_together first goes down to what both have and then up to what is new; table, comment and managed flag change exactly when they differ. |
| Convergence.PlanRuns | internal/autodetector/autodetector.go:782-1220 | A model's plan can be applied, whatever way the model is compared, and makes it agree with the new one as far as it is compared, one-off defaults included. |
| Convergence.EmptyPlanAgrees | internal/autodetector/autodetector.go:782-1220 | The other way round: models with an empty plan between them agree. |
| Convergence.SecondPlanIsEmpty | internal/autodetector/autodetector.go:782-1220 | Comparing again after the plan finds nothing, in whatever order and with whatever answers, unless the model became managed or stopped being so. |
| Redetecting.GeneratedApplies | internal/autodetector/autodetector.go:390-445 | All that was generated can be applied, in any order that keeps each model's operations in theirs. |
| Redetecting.SecondPlanAt | internal/autodetector/autodetector.go:390-445 | A second comparison finds nothing for a model exactly when its way of being compared does not change, or the two agreed already. |
| Redetecting.DetectAgain | internal/autodetector/autodetector.go:390-445 | A second detection, run on the state the first one's operations lead to, asks nothing and generates nothing exactly when that holds for every model. |
| ReduceField.ReplaceKeepsState | migrations/op_fields.go:139-156 | Whenever a pair of operations on non-relational fields is replaced, the replacement runs and leads to the same state up to one-off defaults, and to the very same state except where the default is superseded. |
| ReduceField.ReplacedExactly | migrations/op_fields.go:45-392 | A pair is replaced exactly when the second operation is elidable, deletes the model of a removed field, or is about the field the first leaves behind; otherwise it is moved across exactly the operations that do not refer to the field, by either name if it is renamed. |
| ReduceThrough.ThroughCommutes | migrations/op_fields.go:45-53 | Whenever a field operation reduces "through" another operation, of whatever kind, and no field involved becomes a foreign key, the two can run in the other order, and the states compare equal. |
| ReduceIndex.OptionSuperseded | migrations/op_models.go:377-382 | An option set again, or on a model that is then deleted, need not be set first. |
| ReduceIndex.AddThenRemoveIndex | migrations/op_models.go:678-690 | An index added and removed is folded into nothing; the state is kept exactly when both are on the same model and it had no index of that name. |
| ReduceIndex.AddThenRenameIndex | migrations/op_models.go:684-689 | An index added and renamed is folded into adding it under the new name; that does the same exactly when the name does not change, or is not empty, both are on the same model and it had no index of the old name. |
| ReduceIndex.RenameThenRenameIndex | migrations/op_models.go:833-840 | Two renames that meet without regard to case are folded into one; that does the same exactly when they meet or already agree on the last name, as far as there is an index to rename, and no other index has the name in between. |
| ReduceIndex.AddThenRemoveConstraint | migrations/op_models.go:890-904 | A constraint added and removed is folded into nothing; the state is kept exactly when the model had no constraint of that name. |
| ReduceIndex.AddThenAlterConstraint | migrations/op_models.go:894-898 | A constraint added and altered is folded into adding the altered one; that does the same exactly when every constraint the model had of that name is that one already. |
| CreateFolding.FoldedCreation | migrations/op_models.go:99-225 | Reducing the creation of a model with any run of operations on it, one after the other, always leaves a creation: it is refused exactly when two of its fields share a name or a foreign key is malformed, and otherwise gives the same state up to one-off defaults. |
| CreateFolding.CreateThenDelete | migrations/op_models.go:99-105 | A model created and deleted is nothing, exactly when there was no model of that name before. |
| Elidables.ElidableDropsOut | migrations/operation.go:190-198 | An elidable operation after a field operation is dropped, which keeps the state if it comes to no state operation, and loses it if it comes to one that always changes the state. |
| ProjectStates.ProjectState.RenameField | migrations/state.go:584-643 | The loops over the state rename the column and every mention of it, as the function the next rows are about; a missing field is an error and changes nothing. |
| ProjectStates.ProjectState.RenameModel | migrations/state.go:365-397 | The same for a model and every reference to it. |
| Renames.RenameFieldKeepsIntact | migrations/state.go:584-643 | From a state where every reference resolves, renaming a field to a fresh name leaves every reference resolved and no mention of the old name. |
| Renames.RenameFieldAndBack | migrations/state.go:584-643 | Renaming to a fresh name that is not empty and back gives the original state. |
| Renames.RenameModelKeepsIntact | migrations/state.go:365-397 | The same for a model: nothing dangles and the old model is gone. |
| Renames.ReferencesFollow | migrations/state.go:365-397 | Every foreign key to the renamed model, its own included, points at the new name, and the others stay. |
| Renames.RenameModelKeepsTheRest | migrations/state.go:365-397 | But for its name and the targets of references to it, every model keeps all it had: of a foreign key the column, the actions and the name, of a constraint the columns. |
| Applying.SchemaEditor.Apply | migrations/migration.go:103-136 | Each operation is run once, on the database its predecessors left, from the state their state operations lead to and to the state its own leads to; one that separates database and state runs its database operations so, from the state before it. The first that fails stops the run. |
| Applying.SchemaEditor.Unapply | migrations/migration.go:139-183 | The operations are undone from the last to the first, each from the state after it to the state before it, nested ones included, up to the first that fails; the first that is irreversible or has no state is reported before anything runs. |
| Applying.UnapplyUndoesApply | migrations/migration.go:103-183 | If backward steps undo forward steps, unapplying after applying restores the database, for any operations that are reversible all the way down. |
| Applying.NestedIrreversible | migrations/op_special.go:52-69 | When every operation passes for reversible but one inside is not, the run fails, and nothing has been undone by then exactly when the last step of the migration is the irreversible one. |
| SqlSplit.SplitSql | backends/base/sqlsplit.go:39-113 | The scanning loop returns the statements of the script. |
| SqlSplit.ChunksLossless | backends/base/sqlsplit.go:39-113 | The raw pieces, joined with semicolons, are the script. |
| SqlSplit.SplitOfJoin | backends/base/sqlsplit.go:39-128 | Splitting well written statements joined with semicolons gives exactly the statements. |
| Blocks.DollarBodyKept | backends/base/sqlsplit.go:88-105 | After any self-contained text that does not run into it, a dollar-quoted body is read as part of one chunk, whatever semicolons, quotes and comments it holds, as long as it does not hold its own end; between self-contained texts the whole is self-contained. |
| Blocks.CommentKept | backends/base/sqlsplit.go:80-87 | The same for a comment between slashes and stars. |
| Blocks.LineCommentKept | backends/base/sqlsplit.go:73-79 | The same for a comment up to the end of its line. |
| Blocks.LooseDollar | backends/base/sqlsplit.go:88-105 | A dollar sign that opens no closed body is taken as a character like others. |
| Blocks.OpenQuote | backends/base/sqlsplit.go:53-72 | A quoted text that is not closed takes the rest of the script. |
| Blocks.ChunksOfJoin | backends/base/sqlsplit.go:39-113 | Self-contained texts joined with semicolons are exactly the pieces. |
| Blocks.OnlyCommentsIs | backends/base/sqlsplit.go:120-128 | A piece is dropped as comments exactly when each of its lines is blank or starts with two dashes. |
| Literals.QuotedIsOneUnit | backends/base/literals.go:17-19 | Text quoted by doubling the quote is scanned as one unit, whatever it holds. |
| Literals.UndoubledDoubled | backends/base/literals.go:17-19 | Reading doubled quotes as one gives the text back. |
| Literals.MySqlLiteralIsOneUnit | backends/mysql/mysql.go:168-179 | So is text quoted by backslashes where they escape. |
| Literals.UnescapedEscaped | backends/mysql/mysql.go:168-179 | Reading the escapes gives the text back. |
| Literals.DoubledWhereEscaping | backends/clickhouse/clickhouse.go:215-226 | Where backslashes escape, text quoted by doubling is one unit exactly when no backslash in it swallows a quote or its end. |
| Literals.LiteralsFit | backends/base/sqlsplit.go:39-113 | Put between self-contained texts, a literal of the right dialect leaves the whole self-contained, so that splitting keeps it; so does one with doubled quotes where backslashes escape, if none swallows anything. |
| Tokens.Tokenize | backends/sqlite3/parse.go:48-124 | The scanning loop returns the tokens of the text. |
| Lexemes.QuotedToken | backends/sqlite3/parse.go:66-124 | A quoted run, whatever it holds, is one token that says what was quoted. |
| Lexemes.BracketToken | backends/sqlite3/parse.go:74-77 | So is a name in brackets. |
| Lexemes.CommentSkipped | backends/sqlite3/parse.go:59-65 | A comment is passed over, whatever it holds. |
| TableParser.ParseTableDef | backends/sqlite3/parse.go:152-398 | The parser's loops return the definition the next rows are about. |
| TableRoundTrips.TableDefinitions | backends/base/editor.go:605-660 | A printed CREATE TABLE statement splits into just the definitions it was printed from. |
| TableRoundTrips.ParserUndoesPrinter | backends/base/grammar.go:165-263 | Parsing a printed statement gives back the columns in order and every constraint with its name, kind, columns and target, an unnamed one under its number; for any identifiers that do not look quoted already, and type texts with matching parentheses and no top-level comma or constraint word. |
| Remake.PlanRemake | backends/sqlite3/sqlite3.go:662-743 | The steps on the body and the mapping give the new table and the copy the next rows are about. |
| Remake.KeepsIffFresh | backends/sqlite3/sqlite3.go:616-743 | For every change the callers ask for, the planned copy fills distinct columns and keeps all data exactly when the name of a created or renamed column is not that of another column. |
| Remake.CreatableIffFresh | backends/sqlite3/sqlite3.go:662-743 | Under the very same condition the new table has no column twice, so that it can be created at all. |
| Remake.NewTableIs | backends/sqlite3/sqlite3.go:662-738 | The new table has the old fields but the one deleted or altered, and the one created or the altered one's new form; an old primary key stays one exactly when none comes in. |
| Remake.RemakeKeepsData | backends/sqlite3/sqlite3.go:662-743 | With fresh names a field that stays keeps its value under its new name, except that the default takes the place of a null no longer allowed; nothing is copied for a deleted one. |
| Remake.CreatedGetsDefault | backends/sqlite3/sqlite3.go:662-700 | A created column gets its default in every row, unless the database fills it. |
| Remake.CopyFillsNewTable | backends/sqlite3/sqlite3.go:811-821 | Every column the copy fills is a column of the new table. |
| References.FollowsRun | backends/base/ddl_references.go:62-215 | After any run of renames to fresh names, a queued part is spelled as if it had been built with the final names. |
| DeferredRuns.AboutItsParts | backends/base/ddl_references.go:51-186 | However tables and columns are called, a queued statement passes for one about a table or a column exactly when one of its parts was built for that. |
| DeferredRuns.RenameAll | backends/base/editor.go:1373-1385 | After any run of the editor's renames of tables and columns to free names, up to the first that the database refuses, every queued statement is the one that would be built with the names things have then. |
| Deferred.Editor.DeferFK | backends/base/editor.go:327-336 | The statement goes to the end, in place of exactly the pending ones that create the same constraint; the others stay in order, and at most one stays pending for each kind, table and name. |
| Deferred.Editor.DeleteModel | backends/base/editor.go:721-727 | Once the table is dropped, exactly the queued statements that are not about it are left, in order. |
| Deferred.Editor.RemoveField | backends/base/editor.go:1465-1483 | Once the column is dropped, exactly the queued statements that are not about it are left, in order. |
| Deferred.Editor.AlterDBTable | backends/base/editor.go:1373-1385 | The rename is followed in every queued statement exactly when it runs; one stays pending of each if the new name was unused. |
| Deferred.Editor.RenameColumnOf | backends/base/editor.go:1658-1665 | The same for a column. |
| Deferred.Editor.Finish | backends/base/editor.go:211-223 | What was executed and what is left are the original queue, and something is left only when the first of it failed. |

## Findings

Properties that the code does not have as they stand, with an input and the exact condition.

- **New migrations can depend on each other in a circle** (internal/autodetector/autodetector.go:1366-1371). A
  dependency on an app without migrations or leaves is written as one on the app's first migration, even when that
  app still has a queue; the first migration it gets then may itself wait for the dependent one.
  `Firsts.ScheduleInACircle` gives queues that the scheduler accepts with such a result. Added to an acyclic graph
  the new migrations make a cycle exactly when they wait for first migrations in a circle
  (`Firsts.CycleIffWaitingInACircle`), and never when each dependency on an app with a queue and no leaf is met by
  an operation of that queue (`Firsts.TightMakesNoCycle`; the example is not such, `Firsts.NotTight`). Such a
  dependency can arise: an app that is given migrations for the first time and has an unmanaged model in both states
  gets no operation creating that model (internal/autodetector/autodetector.go:591-600), but a foreign key to it
  always waits for its creation (internal/autodetector/autodetector.go:520-523).
- **A second detection can find more** (internal/autodetector/autodetector.go:1207-1217). When a model becomes
  managed, or stops being so, the first detection compares nothing else of it. `Redetecting.SwitchedLeavesWork` is a
  model whose table changes at the same time. Nothing is left exactly when no such model differs in more than that
  (`Redetecting.SecondPlanAt`, `Redetecting.DetectAgain`).
- **An elidable operation loses its state operations** (migrations/operation.go:190-198, against
  migrations/op_special.go:130-137). It is dropped whatever it does to the state: `Elidables.ElidableLosesState`. It
  is safe to drop when it has no state operation, and unsafe when it has one that always changes the state. With two
  or more no condition on the operation alone decides, since a later one can undo an earlier one
  (`Elidables.EffectsCanCancel`), so between these two the answer depends on the state.
- **An index or a constraint is folded without a look at what is there** (migrations/op_models.go:678-690, 890-898,
  against migrations/state.go:449-511). Adding an index and removing or renaming one of that name reduces even when
  they are on different models, and even when the model has an index of that name already, which the real sequence
  removes or renames as well: `ReduceIndex.RemovesBoth`. An empty new name is accepted by a rename and refused by
  the folded addition. Removing keeps the state exactly when the models are the same and the name was not taken;
  renaming does the same exactly when the name does not change, or is not empty and those two conditions hold
  (`ReduceIndex.AddThenRemoveIndex`, `ReduceIndex.AddThenRenameIndex`). For constraints, whose models are compared,
  removing keeps the state exactly when the name was not taken, and altering exactly when whatever has the name is
  the altered constraint already (`ReduceIndex.AddThenRemoveConstraint`, `ReduceIndex.AddThenAlterConstraint`).
- **Two renames of an index are joined without regard to case** (migrations/op_models.go:833-840, against
  migrations/state.go:467-479). Renaming "a" to "Foo" and then "foo" to "b" becomes one rename to "b", although the
  second changes nothing: `ReduceIndex.RenamesInVain`. The exact condition is that of
  `ReduceIndex.RenameThenRenameIndex`.
- **A creation and a deletion drop the model that was there** (migrations/op_models.go:102-105). They reduce to
  nothing, which keeps the state exactly when there was no model of that name (`CreateFolding.CreateThenDelete`).
- **A nested irreversible operation does not stop a backward run in time** (migrations/op_special.go:52-69, against
  migrations/migration.go:139-153). The check looks at the operations of the migration only, and one that holds
  others always passes for reversible. `Applying.NestedIrreversibleUndoes` is a run that undoes an operation and
  then fails; nothing is undone exactly when the irreversible step is the last one (`Applying.NestedIrreversible`).
- **A remake onto the name of another column is planned wrongly, and fails** (backends/sqlite3/sqlite3.go:662-743).
  The copy for a created column that exists would overwrite its values (`Remake.CreatedTwice`), and the one for a
  column renamed to one that exists would fill that one twice (`Remake.RenamedOnto`). No data is lost: the new table
  then has a column twice, so it cannot be created, and that comes before the copy and the drop. For what the
  callers ask (backends/sqlite3/sqlite3.go:413, 433, 535, 552, 580, 590) the copy is right exactly when the new name
  is no other column's (`Remake.KeepsIffFresh`), and the new table can be created exactly then
  (`Remake.CreatableIffFresh`).
- **ClickHouse literals are quoted in one way and split in another** (backends/clickhouse/clickhouse.go:215-226,
  backends/base/literals.go:17-19). Strings and bytes are quoted by doubling quotes, while the splitter takes
  backslashes for escapes. Such a literal is scanned as one unit exactly when no backslash in it swallows a quote or
  the end (`Literals.DoubledWhereEscaping`); one backslash is enough to break it (`Literals.WrongDialect`).

## Left out

- Graph.Graph.RemoveReplacedNodes: a list that names the replacement itself is excluded. The loader refuses such a squash as cyclic before it folds any (`Loader.Loader.NotItsOwn`); the source would remove the replacement's node as well and leave links to a node outside the graph.
- Executor.Executor.MigrationPlan: what building the graph without replacements again would give, a graph or a failure, is given. `NilNode` stands for a panic: a target that is applied but has no node is dereferenced all the same.
- Executor.Recorder.RecordMigration: squashes that replace themselves through others are excluded; the loader refuses them when it folds squashes, and the recursion of the source would not end on them.
- Executor.Recorder.CheckReplacements: the same.
- Elidables.ElidableDropsOut: no if-and-only-if for one state operation that changes only some states, nor for several of them, since what they come to depends on the state.
- Redetecting.SecondPlanAt: the second state is the one the operations lead to, with answers to all prompts; rejected prompts end the command and leave no second state.
- Scheduler.Scheduler.BuildMigrationList: takes the apps and the first leaf of each app as given.
- ProjectStates.ProjectState.RenameField: states with repeated field names, before or after, are excluded, although an added field is appended without a check. With them the source looks a referencing field up by its name and can find another one.
- Detecting.Autodetector.DetectChanges: renames, creations and deletions of models, renames of fields, and indexes are not part of the run, nor are the dependencies of what it generates. The orders in which it walks sorted keys are arbitrary, so the results hold for any of them.
- Deferred.Editor.DeferFK: the statement is not queued already; every caller builds a new one.
- Deferred.Editor.RemoveField: the foreign keys that introspection finds and the source drops before the column.
- Deferred.Editor.Finish: the call with an error, which runs nothing, and what runs before the commit.
- Remake.PlanRemake: the other options of the model and references to itself, which the source renames as well.
- Renames.RenameModelKeepsIntact: app labels hold no dot, since a reference spells app and model with a dot between them.
- Renames.RenameFieldAndBack: an empty name is left out, since the source takes it for any column.
- Backward runs over several migrations (`migrateAllBackwards`), plans that mix directions, faked and initial migrations, and the states kept between migrations.
- Loading compiled migrations from disk, name prefixes, consistent history and conflict detection.
- Reductions of operations that make a column a foreign key, past others; of a creation with a rename of the model or of a field, with the removal of a field that is listed together with others, and with an altered constraint.
- The optimizer that applies reductions to whole lists; names and numbers of the generated migrations.
- Fields are records and custom types names. Text is compared without case for ASCII letters, and trimmed of a fixed list of spaces. CHECK expressions, conditions and expressions in indexes are opaque text.
- A failing statement is assumed to leave the database as it was. Transactions, routers, and the SQL collected instead of run are not modelled.
- Deferred statements with index names made at the last moment, and index expressions.
- In the parser, sort orders of index columns.
- Spelling of column types and defaults; all vendors' editors other than SQLite's remake.
- Digests in shortened names are an uninterpreted function.
