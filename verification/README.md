# Verified model of the AngularTS core

This project models eight parts of AngularTS in Dafny and states, with proofs, what they promise.

| part of the system | files here |
|---|---|
| shared by several parts | Basics |
| expression compiler (`src/core/parse/interpreter.ts`) | JsValues, Expressions, Interpreter (the compiler), Semantics (a plain evaluator), ExpressionMeaning (what it comes to), CompileCorrect, CallOrder, AssignRead, WatchAnalysis, WatchCoverage, Lockstep, WatchSoundness, WatchExactness |
| compiled fragments (`src/core/compile/incremental-fragment.ts`) | DomWork, DomQueue and DomScheduler (paused DOM work), Fragments, FragmentLife, FragmentHolders, FragmentPromises and FragmentStore (lifecycle and disposal) |
| dependency injection (`src/core/di/internal-injector.ts`, `src/core/di/injector.ts`) | Injector, InjectorServices, ModuleLoader |
| query strings and deep equality (`src/shared/utils.ts`) | PercentEncoding, QueryStrings, PlusSigns, Equality |
| model synchronisation (`src/core/app-context/app-context.ts`) | ModelSync, ModelLifecycles, ModelFlush |
| `orderBy` (`src/filters/order-by.ts`) | OrderBy, OrderByResult |
| interpolation (`src/core/interpolate/interpolate.ts`) | Interpolate, Templates |
| `filter` (`src/filters/filter.ts`) | FilterMatch |

`dafny verify dfyconfig.toml` checks everything.

How things are modelled:

- Values of the expression language are primitives, function identities and references into a heap of slot
  maps. Coercions (which see the heap, as the number of an array depends on its items), floating-point arithmetic,
  user functions and filters are fields of a `Host` record, so every theorem holds for all of them, or says what it
  asks of them. A compiled closure is a function from an environment and a heap to an
  outcome (a value and a heap, or a throw and a heap).
- What the watch and constant results ask of a host is that coercions and filters depend on their arguments and what these
  reach, up to the identity of objects (`Natural`); `PeekingIsNatural` and `WrappingIsNatural` show that it can be met.
  Functions that an expression calls may look at what they close over too, and leave what is there as it is
  (`QuietCalls`, met by the closures of `ClosuresAreQuiet`).
- Where a step function and a method, or the evaluator and the compiler, share a definition, lemmas about results, queues
  and logs say what it comes to without naming it: ExpressionMeaning, WatchCoverage, DomQueue, FragmentPromises,
  OrderByResult, PlusSigns, ModelFlush and Templates.
- Code that changes state step by step is a class (`RootDom`, `Store`, `InjectorService`, `Loader`,
  `Interpolation`, `ModelLifecycle`) whose methods are proved to do exactly what a step function says; the
  theorems are about the step functions and their runs.
- A DOM node, a clean-up, an operation, a run block and a registration command are identifiers; which clean-ups and
  commands throw, when an operation does, and whether an exception handler rethrows are parameters or events, and
  theorems quantify over them.

## What turned out not to hold, and when it does

- Assigning through a path and reading it back gives the value iff the path does not cross the slot it writes
  (`AssignThenRead`); `a.a` with `scope.a === scope` is the smallest failure.
- Unchanged inputs do not make an unchanged expression: `-a` goes from -3 to -4 when the array `a` holds is changed in
  place (`NegatedArrayEscapes`). They do, calls of functions that leave the heap as it is included, as long as whatever
  is coerced to a number, a string or a key, compared by `<` or `==` with a primitive, or handed to a filter that looks
  into its arguments reaches only objects that the run itself has made, as the literal in `[a] | json` does
  (`InputsDecide`, `WrappedIsDecided`); for one operator on one dotted path this guard is exact (`DecidedExactly`).
- An operation on the DOM that throws takes the rest of its batch down with it: what was resumed as one batch behind it
  is neither executed nor kept, although its fragment lives on unpaused (`ThrowLosesTheBatch`). A fragment's accepted
  operations are all executed or outstanding iff none of its operations threw while others of the batch were left
  (`EveryRunKeepsOrder`, `ThrowLosesIff`); the exception by itself changes no order.
- A pause or a resume keeps the order of a fragment's outstanding DOM work iff nothing was deferred so far or
  none of the fragment's work is still queued (`PauseKeepsOrderIff`, `ResumeKeepsOrderIff`), also in the middle of a
  batch; between flushes that always holds as long as no operation throws (`CalmRunsKeepOrder`), and after one has
  thrown it may not (`ThrowLetsResumeReorder`).
- A fragment created on a scope that has been destroyed listens to nothing that can still happen, and only that leaves
  such a listener (`StepListenersLiveIff`); without it every record is held by somebody alive
  (`NoOrphansOnLiveScopes`).
- A constant is handed out by the injector iff it is not `true`, the in-progress marker, and whatever `get` has handed
  out it hands out again iff it is not `true` (`HandedOutAgainIff`).
- A load of modules succeeds iff every module it can reach is known and has no command that throws
  (`LoadSucceedsIff`), and then each runs exactly once over the first load and all later ones (`ExactlyOnce`). A module
  whose load throws stays marked as loaded, and the next load skips it (`FailedModuleIsNotRetried`).
- Printing and parsing a query object gives it back iff no key is `__proto__`, lists have two items or more, and
  `true` never stands under the empty key (`RoundTripIff`).
- `equals` compares function-free data by their normal form iff no undefined slot bears an inherited name and
  no own `__proto__` slot looks like the prototype (`SafeExactly`); `{toString: undefined}` and `{}` are equal
  one way round only.
- A model change keeps every sync target on the way to agreement iff it may join the pending batch: the target whose
  origin the batch bears, which is not told, must have the new state already (`AppliedKeepsDueIff`,
  `ReceivedKeepsDueIff`). Runs whose batches have one origin each converge
  (`SingleOriginConverges`). Two ways to lose agreement for good: an application change that joins a batch some target
  began (`pendingOrigin ??= currentOrigin`), and a target that sends a state while a flush still holds an older one
  for it.
- The two-argument order of evaluation and the variadic one agree if the first argument is no function or a pure one
  (`PureArgumentAgrees`), and if the second is a path that invoking the first stays off (`OrdersAgree`). For a path that
  leads to no function they agree iff invoking the first leaves what the path leads to (`OrdersAgreeIff`).
- In the `filter` filter `{ $: "!x" }` is the negation of `{ $: "x" }` for an object iff the object does not itself
  show x or something below it does too (`BangNegatesIff`), because the negated comparison forgets to leave the object
  out.

## Model

| member | source | states |
|---|---|---|
| `CompileCorrect.RecurseCorrect` | src/core/parse/interpreter.ts:210-328 | for every expression, in value and reference form and with every creation mode, the compiled closure with all its fast forms gives the same value, heap and exception as the structural evaluator, whatever coercions, functions and filters do; what the evaluator comes to is the matter of the ExpressionMeaning rows |
| `CompileCorrect.CompileIsProgram` | src/core/parse/interpreter.ts:128-200 | a compiled body runs its statements in order and returns the last one's value |
| `CompileCorrect.PathGetterIsFold` | src/core/parse/interpreter.ts:1653-1736 | the getters for one, two, three and more names all equal the fold of single reads from the base that owns the first name |
| `CompileCorrect.GetterCorrect` | src/core/parse/interpreter.ts:1429-1440 | a dotted path of any length compiled to a getter means what its nested member nodes mean |
| `CompileCorrect.BinaryFast` | src/core/parse/interpreter.ts:1738-1768 | `===` and `!==` on two paths mean the general binary form |
| `CompileCorrect.LogicalFast` | src/core/parse/interpreter.ts:1770-1816 | `&&`, logical or and `??` on paths mean the general short-circuit form |
| `CompileCorrect.IdentifierCallForms` | src/core/parse/interpreter.ts:381-477 | a two-argument call of a name, with its special case for two plain names, equals the general call of the callee's reference |
| `CompileCorrect.CallForms` | src/core/parse/interpreter.ts:331-379 | the forms for no, one, two and more arguments all equal one general call |
| `CompileCorrect.FilterForms` | src/core/parse/interpreter.ts:593-697 | one-argument, two-argument and longer filter calls equal one general filter call; in reference form none of them runs the filter, and only the longer ones evaluate its arguments |
| `CompileCorrect.ThunkCallCorrect` | src/core/parse/interpreter.ts:627-697 | a call whose callee is a filter call: the thunk forms for one, two and other numbers of filter arguments keep the general order of evaluation and ignore the call's own arguments |
| `CompileCorrect.ObjectForms` | src/core/parse/interpreter.ts:816-938 | the one-, two- and three-property forms and the projection `{a: x.p, b: x.q, c: x.r}` build the object the general literal builds |
| `ExpressionMeaning.PlusMeaning` | src/core/parse/interpreter.ts:2138-2155 | `+` of two operands is the other one if one is undefined or an object, the sum of two numbers, and else the text that begins with the text of the left operand and ends with that of the right one |
| `ExpressionMeaning.ArithmeticMeaning` | src/core/parse/interpreter.ts:1033-1118 | `-` takes a missing operand for zero; `*`, `/` and `%` turn the left operand into a number before the right one is evaluated |
| `ExpressionMeaning.RelationMeaning` | src/core/parse/interpreter.ts:1196-1278 | `<`, `>`, `<=` and `>=` compare the two operands in that order, both evaluated |
| `ExpressionMeaning.StrictMeaning` | src/core/parse/interpreter.ts:1120-1156 | `===` holds of no NaN, of the two zeros, of one reference; `!==` is the opposite |
| `ExpressionMeaning.LooseMeaning` | src/core/parse/interpreter.ts:1158-1194 | `==` holds of null and undefined and of neither with anything else, of two objects only if they are one; `!=` is the opposite |
| `ExpressionMeaning.UnaryMeaning` | src/core/parse/interpreter.ts:946-1008 | `+x` is the number of x, `-x` the opposite number, zero or minus zero for undefined; `!x` holds iff x is undefined, null, false, NaN, a zero or the empty string |
| `ExpressionMeaning.LogicalMeaning` | src/core/parse/interpreter.ts:1280-1353 | `&&`, logical or and `??` give the left operand without evaluating the right one iff it is falsy, truthy, not null or undefined, and else the right one |
| `ExpressionMeaning.ConditionalMeaning` | src/core/parse/interpreter.ts:1365-1401 | one branch is evaluated, by the truth of the test |
| `ExpressionMeaning.NotExchanges` | src/core/parse/interpreter.ts:1365-1401 | negating the test of a conditional exchanges its branches |
| `ExpressionMeaning.NameMeaning` | src/core/parse/interpreter.ts:1403-1427 | a name is read from the locals if these own it and from the scope otherwise |
| `ExpressionMeaning.MemberMeaning` | src/core/parse/interpreter.ts:1483-1513 | a member is read from the object its subject comes to, and is undefined on null and undefined |
| `ExpressionMeaning.ComputedMeaning` | src/core/parse/interpreter.ts:1442-1481 | so is a computed one, under the text of the index, which is evaluated after the subject |
| `ExpressionMeaning.MethodCallMeaning` | src/core/parse/interpreter.ts:331-379 | a method is called on the object it was read from, with the arguments evaluated before |
| `ExpressionMeaning.OneArgumentMeaning` | src/core/parse/interpreter.ts:567-591 | an argument that comes to a function is called and its result passed instead |
| `ExpressionMeaning.ListMeaning` | src/core/parse/interpreter.ts:567-591 | the i-th value of a list is that of the i-th expression in the heap that those before it leave |
| `ExpressionMeaning.ArrayMeaning` | src/core/parse/interpreter.ts:754-776 | an array literal is a new object that holds the values under their decimal indices, their number as its length, and nothing else |
| `ExpressionMeaning.LastPropertyMeaning` | src/core/parse/interpreter.ts:816-938 | the last property of an object literal is in the new object, whatever the others were |
| `ExpressionMeaning.UpdateMeaning` | src/core/parse/interpreter.ts:778-814 | after `++` or `--` the slot holds the number one more or less, and nothing else is different; the prefix form gives that number and the postfix form the one before; on null and undefined it throws |
| `ExpressionMeaning.IncrementedReads` | src/core/parse/interpreter.ts:778-814 | a name read after `++` is the number after |
| `ExpressionMeaning.AssignmentMeaning` | src/core/parse/interpreter.ts:724-752 | an assignment gives its source's value and leaves it in the slot of its target, and nothing else different; on null and undefined it throws, after the source has been evaluated |
| `ExpressionMeaning.ProgramMeaning` | src/core/parse/interpreter.ts:128-200 | the last statement of a program runs in the heap that the others leave, and gives the value |
| `CallOrder.OrdersAgree` | src/core/parse/interpreter.ts:517-565 | for a second argument that is a path, the two-argument order of evaluation and the variadic one agree if invoking the first changes no slot the path crosses |
| `CallOrder.OrdersAgreeIff` | src/core/parse/interpreter.ts:567-591 | if the path leads to no function, they agree iff invoking the first argument leaves what the path leads to |
| `CallOrder.PureArgumentAgrees` | src/core/parse/interpreter.ts:567-591 | whatever the second argument does, they agree if the first is no function or returns one value and changes nothing |
| `CallOrder.OrdersDiffer` | src/core/parse/interpreter.ts:531-540 | a scope and a host for which the two orders pass different arguments |
| `AssignRead.AssignEffect` | src/core/parse/interpreter.ts:2115-2132 | `_assign` on a path of any length succeeds, creates one fresh object per missing prefix, chained under the path's names, stores the value in the last one and changes one slot of one old object |
| `AssignRead.AssignThenRead` | src/core/parse/interpreter.ts:1403-1513 | every assigned value reads back through the same path iff the written slot is not crossed by the path and the path still starts from the same base |
| `AssignRead.CyclicScopeBreaksTheLaw` | src/core/parse/interpreter.ts:724-751 | with `scope.a === scope`, what is assigned to `a.a` does not read back |
| `WatchAnalysis.ConstantsHaveNoWatches` | src/core/parse/interpreter.ts:1832-2107 | a constant node without an assignment in it has an empty watch list |
| `WatchCoverage.ConstantIff` | src/core/parse/interpreter.ts:1832-2107 | a node is marked constant iff no node in it is a name, `this`, the locals, a call or an update |
| `WatchCoverage.SourcesAreWatched` | src/core/parse/interpreter.ts:1832-2107 | every name, member, call, assignment, update, logical operator or conditional outside the constant parts lies within a node of the watch list |
| `WatchCoverage.WatchesAreSources` | src/core/parse/interpreter.ts:1832-2107 | and every watched node is one of these within the expression, constant only if it is an assignment |
| `WatchCoverage.CallInLiteralIsAnInput` | src/core/parse/interpreter.ts:1983-2005 | the one input of `[f(a)]` is the call |
| `WatchSoundness.ConstantIsConstant` | src/core/parse/interpreter.ts:1832-2107 | a node marked constant has one outcome under every scope, locals and heap, up to the identity of the objects it creates, and changes no existing object, if coercions and the filters it names depend on their arguments and what these reach |
| `WatchSoundness.WatchedSame` | src/core/parse/interpreter.ts:1832-2107 | a node without assignments and updates whose watched nodes evaluate alike in two heaps evaluates alike, wherever in a larger expression it stands, if what it coerces or hands to a filter that looks into it reaches only objects made in the run; it may call functions if these leave the heap as it is |
| `WatchSoundness.InputsDecide` | src/core/parse/interpreter.ts:2163-2172 | if the inputs of a compiled expression without assignments and updates give the same outcomes from two heaps, and whatever it coerces or hands to a filter that looks into it reaches only objects made in the run, the whole gives the same outcome, up to the identity of fresh objects; calls of functions that leave the heap as it is are included |
| `WatchSoundness.ArrayLiteralIsGuarded` | src/core/parse/interpreter.ts:1832-2107 | an array literal of values that reach only new objects, primitives for one, may be coerced and handed to any filter |
| `WatchSoundness.ObjectLiteralIsGuarded` | src/core/parse/interpreter.ts:1832-2107 | and so may an object literal |
| `WatchExactness.DecidedExactly` | src/core/parse/interpreter.ts:2180-2226 | for one operator or filter on one dotted path the inputs decide the value from every other heap under every host iff it does not look into an object |
| `WatchExactness.WrappedIsDecided` | src/core/parse/interpreter.ts:2180-2226 | a coercion or filter of an array literal around a path that leads to no object is decided by the path |
| `WatchExactness.NegatedArrayEscapes` | src/core/parse/interpreter.ts:970-984 | `-a` on an array changed in place: the only input is unchanged, the value is not |
| `WatchExactness.PeekingIsNatural` | src/core/parse/interpreter.ts:2180-2226 | what is asked of hosts can be met, also by coercions and filters that look into objects |
| `WatchExactness.WrappingIsNatural` | src/core/parse/interpreter.ts:2180-2226 | and by filters that make objects |
| `WatchExactness.ClosuresAreQuiet` | src/core/parse/interpreter.ts:1983-2005 | what is asked of functions can be met by closures over the scope that make objects |
| `DomWork.StepKeepsInvariant` | src/core/compile/incremental-fragment.ts:873-956 | every schedule, pause, resume, disposal, root destruction and step of a flush, an exception included, keeps: a live fragment's accepted operations are those executed, those lost to an exception and those outstanding, none twice; and it keeps their order unless a pause or a resume comes while it must not |
| `DomWork.EveryRunLosesOnlyToThrows` | src/core/app-context/app-context.ts:917-949 | over every run whatsoever what executes was accepted, none twice, and a live fragment's accepted operations are all executed or outstanding iff none went down with an operation that threw |
| `DomWork.EveryRunKeepsOrder` | src/core/compile/incremental-fragment.ts:408-447 | over every run whose pauses and resumes come when they may, whatever operations throw, each fragment's operations execute in the order they were scheduled, none twice; a live one's accepted operations are, in order, the executed and the outstanding ones iff no operation threw while others of its batch were left |
| `DomWork.CalmRunsKeepOrder` | src/core/compile/incremental-fragment.ts:873-956 | pauses and resumes between flushes always come when they may as long as nothing throws, and then nothing is lost and no batch of a paused fragment is under way |
| `DomWork.ThrowLosesIff` | src/core/compile/incremental-fragment.ts:950-955 | an exception loses nothing of a fragment iff no others of the fragment's batch are left |
| `DomWork.ThrowLosesTheBatch` | src/core/compile/incremental-fragment.ts:950-955 | a run after which a scheduled operation of a live unpaused fragment is neither executed nor outstanding |
| `DomWork.ThrowLetsResumeReorder` | src/core/compile/incremental-fragment.ts:894-904 | a run after which a resume between flushes turns the order of two operations round |
| `DomWork.OnlyLiveUnpausedExecute` | src/core/compile/incremental-fragment.ts:496-508 | an operation executes only while its fragment is live, it is the first outstanding one, and the fragment is not paused unless the operation belongs to a batch already begun |
| `DomWork.PausedBatchIff` | src/core/compile/incremental-fragment.ts:950-955 | a batch goes on for a paused fragment iff the pause came while the batch was under way |
| `DomWork.FlushedMeansExecuted` | src/core/app-context/app-context.ts:936-942 | when a flush ends by itself nothing of a live unpaused fragment is outstanding, and it has executed all it accepted, in order if the order was kept, iff nothing of it was lost to an exception so far |
| `DomWork.ResumeKeepsOrderIff` | src/core/compile/incremental-fragment.ts:894-904 | at any moment, also while a batch is running, a resume keeps the order iff no prefix was deferred or nothing of the fragment is still queued |
| `DomWork.PauseKeepsOrderIff` | src/core/compile/incremental-fragment.ts:885-892 | the same for a repeated pause, which resets the prefix count |
| `DomQueue.FirstInFirstOut` | src/core/app-context/app-context.ts:917-949 | over every run whatsoever what stood in the root's queue followed by what has entered it is what has left it followed by what stands in it, whatever the fragments |
| `DomQueue.ExecutedInQueueOrder` | src/core/compile/incremental-fragment.ts:873-956 | over every possible run what executes, and then what is under way, is a part of what was under way and what has left the queue, in the order of the queue across fragments |
| `DomQueue.ExecutesInQueueOrder` | src/core/compile/incremental-fragment.ts:873-956 | and all of it, for fragments that live to the end, are not deferred and lose nothing in between |
| `DomQueue.AcceptedOrderIsExecutedOrder` | src/core/compile/incremental-fragment.ts:408-447 | without pauses and exceptions what has executed, over all fragments that live to the end, is the front of what was accepted, and the rest is under way or queued |
| `DomQueue.ResumedWaitsItsTurn` | src/core/compile/incremental-fragment.ts:927-956 | a fragment paused, scheduled on and resumed after another has scheduled executes after that other one |
| `DomScheduler.RootDom.constructor` | src/core/app-context/app-context.ts:917-949 | an empty queue is a valid initial state |
| `DomScheduler.RootDom.Schedule` | src/core/compile/incremental-fragment.ts:408-447 | does the schedule step: pending if paused, else queued, refused when the fragment or root is gone |
| `DomScheduler.RootDom.Pause` | src/core/compile/incremental-fragment.ts:885-892 | does the pause step |
| `DomScheduler.RootDom.Resume` | src/core/compile/incremental-fragment.ts:894-904 | does the resume step: what was pending becomes one batch behind everything that is queued |
| `DomScheduler.RootDom.Dispose` | src/core/compile/incremental-fragment.ts:912-925 | does the disposal step |
| `DomScheduler.RootDom.DestroyRoot` | src/core/app-context/app-context.ts:944-948 | does the root destruction step: the queue is emptied |
| `DomScheduler.RootDom.Flush` | src/core/app-context/app-context.ts:936-942 | whatever the operations schedule, pause, resume or dispose while they run, and whichever of them throws, a flush is a run of possible steps that ends with the first operation that throws; otherwise it empties the queue, loses nothing and leaves a live unpaused fragment with nothing outstanding; if the operations do nothing to the scheduler it runs all that was outstanding and defers a paused fragment's |
| `DomScheduler.RootDom.RunAll` | src/core/app-context/app-context.ts:936-942 | the loop: it ends with an empty queue or with the first operation that throws |
| `DomScheduler.RootDom.Leave` | src/core/app-context/app-context.ts:936-942 | the exception leaves the loop with the queue as it is, and what is left of a batch is gone |
| `DomScheduler.RootDom.RunBatch` | src/core/compile/incremental-fragment.ts:950-955 | a resumed batch runs its operations one by one, each followed by what it makes happen, skipping those of a disposed fragment, up to the first that throws |
| `DomScheduler.RootDom.RunFirst` | src/core/compile/incremental-fragment.ts:941-949 | one item off the queue: a paused fragment's goes back after the deferred prefix and before the rest of the pending ones, an operation runs, or a batch is begun |
| `DomScheduler.RootDom.RunOne` | src/core/app-context/app-context.ts:936-942 | the closure taken off the queue, with its call backs, is a run that starts with that step, throws iff the last operation it executes does, and is only that step for a paused fragment |
| `Fragments.DisposalTheorem` | src/core/compile/incremental-fragment.ts:510-579 | on any graph of children, cyclic ones included, disposal ends, disposes exactly the least set holding the record and closed under undisposed children, runs each of their clean-ups once in reverse list order even when some throw, throws iff one failed, and touches no other record but the parent |
| `Fragments.DisposalOrder` | src/core/compile/incremental-fragment.ts:598-615 | without a cycle every record is disposed after all children it still has |
| `FragmentLife.NoOrphans` | src/core/compile/incremental-fragment.ts:759-871 | in every reachable state each undisposed record is in its root's set, has a scope listener or is listed by a live parent; root sets are non-empty and hold only undisposed records of the root scope; parent links and child lists mirror each other |
| `FragmentHolders.NoOrphansOnLiveScopes` | src/core/compile/incremental-fragment.ts:776-801 | if no record is created on a destroyed scope, the scope listener that holds a record is on a scope that has not been destroyed |
| `FragmentHolders.StepListenersLiveIff` | src/core/compile/incremental-fragment.ts:776-801 | a step leaves a listener that cannot fire iff it creates a record on a destroyed scope; a scope whose destruction a rethrown exception ended is not destroyed |
| `FragmentLife.RunSound` | src/core/compile/incremental-fragment.ts:327-364 | every run of creations, links, additions, removals, disposals, scope and root destructions keeps that invariant, whichever clean-ups throw and whether or not the exception handler rethrows |
| `FragmentLife.FireSound` | src/core/compile/incremental-fragment.ts:776-801 | unless a rethrown exception ends it, a scope's destruction disposes every record that listens to it, and it keeps the invariant either way |
| `FragmentLife.DisposeSound` | src/core/compile/incremental-fragment.ts:581-596 | so does a disposal, also in the middle of a root's destruction |
| `FragmentLife.DestroyRootSound` | src/core/compile/incremental-fragment.ts:842-871 | destroying a root leaves no undisposed record on its scope |
| `FragmentPromises.AddChildThrowsIff` | src/core/compile/incremental-fragment.ts:327-364 | linking throws iff the two differ and one is disposed, the roots differ, or the child has another parent, and then nothing changes; otherwise the child is listed behind the other children unless it already was |
| `FragmentPromises.LinkedForLife` | src/core/compile/incremental-fragment.ts:361-363 | two live records of one root, the child unowned, are linked without an error, and over every later run each child of that parent, new or earlier, is disposed or its parent is live and lists it |
| `FragmentPromises.ChildrenGoToo` | src/core/compile/incremental-fragment.ts:598-615 | whatever happens in between, disposing the parent leaves none of these children undisposed |
| `FragmentPromises.RegisterThrowsIff` | src/core/compile/incremental-fragment.ts:366-390 | registering a disposer or async work throws iff the record is disposed, and otherwise adds it at the end of its list |
| `FragmentPromises.TakenBack` | src/core/compile/incremental-fragment.ts:392-406 | async work taken back is its first registration on the live record, and only that |
| `FragmentPromises.NothingRegisteredIsForgotten` | src/core/compile/incremental-fragment.ts:510-579 | over every run a disposer, child scope or async work that is not taken back is still held by its live record or has run, whatever ended the record's life |
| `FragmentPromises.LastRegisteredRunsFirst` | src/core/compile/incremental-fragment.ts:627-643 | what is registered on a live record one after the other runs at its disposal backwards: async work, then disposers, then child scopes, the last registered first |
| `FragmentPromises.LastChildGoesFirst` | src/core/compile/incremental-fragment.ts:598-615 | of two children the one linked later is disposed first |
| `FragmentPromises.ScopeTakesItsListeners` | src/core/compile/incremental-fragment.ts:776-801 | destroying a scope disposes every record that listens to it, unless an exception that is rethrown ends it |
| `FragmentPromises.ScopeTakesOnlyItsListeners` | src/core/compile/incremental-fragment.ts:776-801 | and disposes nothing but these and what hangs below |
| `FragmentStore.Store.constructor` | src/core/compile/incremental-fragment.ts:171-204 | the registry starts empty |
| `FragmentStore.Store.AddChild` | src/core/compile/incremental-fragment.ts:327-364 | links two records or throws exactly as the step says, and keeps the invariant; what the step comes to is said by `FragmentPromises.AddChildThrowsIff` and `FragmentPromises.LinkedForLife` |
| `FragmentStore.Store.Unlink` | src/core/compile/incremental-fragment.ts:518-526 | marks the record and takes it out of its parent, its root's set and the listeners |
| `FragmentStore.Store.RunBackwards` | src/core/compile/incremental-fragment.ts:627-643 | runs a list in reverse, each once, and reports whether one threw |
| `FragmentStore.Store.DisposeRecord` | src/core/compile/incremental-fragment.ts:510-579 | the recursive method does what the disposal function says, on any graph |
| `FragmentStore.Store.DisposeFragmentChildren` | src/core/compile/incremental-fragment.ts:598-615 | the loop over the children, the last first, does what the function for them says |
| `FragmentStore.Store.DestroyRoot` | src/core/compile/incremental-fragment.ts:842-871 | disposes a root's records backwards as the step says |
| `Injector.GetIsMemoisedEvaluation` | src/core/di/internal-injector.ts:73-98 | over one call the cache only gains finished values, a failure leaves no marker, nothing is built twice, and the result is that of evaluation without a cache |
| `Injector.GetSucceedsIff` | src/core/di/internal-injector.ts:73-98 | `get` succeeds iff of the uncached services it can reach each has a provider, none is on a cycle, and no factory fails on what its dependencies evaluate to |
| `Injector.BuiltOnce` | src/core/di/internal-injector.ts:306-312 | over any sequence of calls no factory succeeds twice and no marker remains |
| `Injector.HandedOutAgainIff` | src/core/di/internal-injector.ts:73-98 | whatever factories return, a registered value is handed out iff it is not `true`, and what one `get` handed out the next hands out, with nothing changed, iff it is not `true` |
| `Injector.BuiltFromDependencies` | src/core/di/internal-injector.ts:109-136 | a factory is handed the service of each of its dependencies, in the order in which they are declared, and is the last to be built |
| `Injector.ResolveInOrder` | src/core/di/internal-injector.ts:109-136 | dependencies are resolved from the first to the last, and the first failure ends it |
| `Injector.ErrorsTell` | src/core/di/internal-injector.ts:73-98 | an error of `get` names a service that is in progress, has no provider, or has a factory that threw, as it says |
| `InjectorServices.InjectorService.Lookup` | src/core/di/internal-injector.ts:73-98 | the method that writes and deletes cache entries around its recursion does what `get` says |
| `InjectorServices.InjectorService.InjectionArgs` | src/core/di/internal-injector.ts:109-136 | resolves a dependency list from left to right and stops at the first failure |
| `ModuleLoader.LoadTheorem` | src/core/di/injector.ts:363-460 | a load that does not throw, over any `requires` graph, loads the least set closed under requirements, starts and finishes each module's queue once and returns their run blocks in that order |
| `ModuleLoader.LoadSucceedsIff` | src/core/di/injector.ts:363-460 | a load succeeds iff every module it can reach through modules not yet loaded is known and has no command that throws |
| `ModuleLoader.LoadsReached` | src/core/di/injector.ts:363-460 | and then loads exactly those |
| `ModuleLoader.ExactlyOnce` | src/core/di/injector.ts:93-105 | if nothing that the first load and all later ones can reach is unknown or throws, the queue of each module they can reach runs exactly once, and no other |
| `ModuleLoader.LoadOrder` | src/core/di/injector.ts:363-460 | on an acyclic graph commands and run blocks come in topological order |
| `ModuleLoader.EarlierNamesFirst` | src/core/di/injector.ts:363-460 | what the first names of a list load comes before what the others load, and so do its commands and run blocks |
| `ModuleLoader.RequirementsInOrder` | src/core/di/injector.ts:380-384 | requirements are loaded in the order in which they are declared, each with all it needs, and the module itself after them |
| `ModuleLoader.EachModuleOnce` | src/core/di/injector.ts:93-105 | over the first load and all later ones, failing ones included, a module's queue is started at most once and finished at most once |
| `ModuleLoader.FailedModuleIsNotRetried` | src/core/di/injector.ts:363-460 | a module runs iff everything its load can reach is known and does not throw; otherwise a later load reports success without running it |
| `ModuleLoader.Loader.LoadModules` | src/core/di/injector.ts:363-460 | the loop over modules does what the load function says |
| `ModuleLoader.Loader.LoadOne` | src/core/di/injector.ts:363-460 | one module: marked, then its requirements, then its own queue |
| `ModuleLoader.Loader.RunQueue` | src/core/di/injector.ts:363-460 | runs a queue up to the first command that throws |
| `PercentEncoding.DecodeEncodeUriQuery` | src/shared/utils.ts:1031-1042 | decoding inverts the query encoding of every string (percent-encoding of UTF-8, sections 2.1 and 3.4 of RFC 3986) |
| `PercentEncoding.EncodeUriQueryByChar` | src/shared/utils.ts:1031-1042 | the chain of global replacements is a translation character by character |
| `PercentEncoding.ReplaceUnits` | src/shared/utils.ts:1031-1042 | a replacement of a `%40`-like pattern acts on whole percent triples only |
| `QueryStrings.ToKeyValue` | src/shared/utils.ts:957-989 | the printing loops produce the printed form of the entries |
| `QueryStrings.ParseKeyValue` | src/shared/utils.ts:901-955 | the parsing loop produces the object that its pieces add up to |
| `QueryStrings.DecodePiece` | src/shared/utils.ts:901-955 | the first half of its loop: the key and the value that a piece stands for, if its key decodes |
| `QueryStrings.StorePair` | src/shared/utils.ts:901-955 | the second half: a new slot, a longer list, or a list of the old value and the new one |
| `QueryStrings.ParsePrinted` | src/shared/utils.ts:901-989 | parsing what was printed adds exactly the printed pairs again, in order |
| `QueryStrings.RoundTripIff` | src/shared/utils.ts:901-989 | parsing the printed object gives it back iff every entry is stable |
| `QueryStrings.PrintedInOrder` | src/shared/utils.ts:957-989 | entries are printed in their order, with `&` between them |
| `PlusSigns.PlusIsSpace` | src/shared/utils.ts:924 | a piece of a query string, well-formed or not, stands for what it does with a space for each plus sign |
| `PlusSigns.SplitAlike` | src/shared/utils.ts:901-955 | a pair is its two sides decoded, with a space for each plus sign; a value that does not decode is undefined, and a key that does not drops the pair |
| `PlusSigns.PlainPair` | src/shared/utils.ts:924 | `q=a+b` is read as `{ q: "a b" }` |
| `Equality.EqualsIffNormal` | src/shared/utils.ts:675-759 | for function-free data, the left one safe, `equals` holds iff the two are the same after dropping `$` slots and undefined slots at every depth, NaN being equal to NaN |
| `Equality.SafeExactly` | src/shared/utils.ts:728-756 | and exactly the safe data are compared that way with everything |
| `Equality.Reflexive` | src/shared/utils.ts:675-759 | function-free data equal themselves even without the identity shortcut |
| `Equality.Symmetric` | src/shared/utils.ts:675-759 | `equals` is symmetric on safe data |
| `Equality.Transitive` | src/shared/utils.ts:675-759 | and transitive |
| `Equality.UndefinedToStringIsNotSymmetric` | src/shared/utils.ts:739-756 | an undefined slot under an inherited name makes it asymmetric |
| `Equality.FunctionIsNotSymmetric` | src/shared/utils.ts:736-756 | so does a function against an undefined slot |
| `Equality.DeepEquals` | src/shared/utils.ts:675-759 | the method that dispatches to the loops decides `equals` |
| `Equality.ArraysEqual` | src/shared/utils.ts:688-701 | the array loop decides the array case |
| `Equality.RecordsEqual` | src/shared/utils.ts:728-758 | the two object loops with their key set decide the object case, in whatever order the keys come |
| `ModelSync.StepKeepsInvariant` | src/core/app-context/app-context.ts:573-626 | every step, also between two writes of a flush, keeps: something pending iff one flush is queued; each recorded key has left in one batch or is pending; batches are numbered by one; no target is written its own change, a batch twice or an older batch later |
| `ModelSync.EveryRun` | src/core/app-context/app-context.ts:573-626 | so every run from the start does |
| `ModelSync.DisposedNeverWritten` | src/core/app-context/app-context.ts:870-893 | after its disposal no run writes a target |
| `ModelSync.DrainExact` | src/core/app-context/app-context.ts:573-614 | exactly what every live target holds once everything queued has been flushed |
| `ModelSync.Convergence` | src/core/app-context/app-context.ts:573-672 | at rest after any run of benign events, every live target with a write that has exchanged a state holds the model; slots that hold objects count as changed whenever they are assigned |
| `ModelSync.SingleOriginConverges` | src/core/app-context/app-context.ts:573-672 | so do runs in which no batch mixes origins, targets send whole states and none while a flush still has one for it, and writes succeed |
| `ModelSync.StepKeepsDue` | src/core/app-context/app-context.ts:573-721 | one benign event keeps every target on the way to the model |
| `ModelSync.AppliedKeepsDueIff` | src/core/app-context/app-context.ts:637-672 | a change that comes from no target, in either mode and under any origin, does so iff it may join the pending batch |
| `ModelSync.ReceivedKeepsDueIff` | src/core/app-context/app-context.ts:689-747 | a state sent by a target, in either mode and under any origin, does so iff it may join, or, if it changes nothing, the sender catches up |
| `ModelSync.OwnChangeJoinsIff` | src/core/app-context/app-context.ts:616-626 | a change by the application may join iff the pending batch is no concerned target's own |
| `ModelSync.SentStateJoinsIff` | src/core/app-context/app-context.ts:689-721 | a whole new state from a target may join iff the pending batch is no other concerned target's and the sender has no other state coming from the flush under way |
| `ModelSync.JoinedBatchIsLost` | src/core/app-context/app-context.ts:616-626 | a change that joins a batch begun by a target never reaches that target |
| `ModelSync.MixedBatchLosesAgreement` | src/core/app-context/app-context.ts:619 | the smallest run that ends in disagreement |
| `ModelSync.SentDuringFlushIsLost` | src/core/app-context/app-context.ts:593-613 | a target that sends while a flush still has an older state for it ends with the older one |
| `ModelSync.SendDuringFlushLosesAgreement` | src/core/app-context/app-context.ts:593-613 | a run from the start that reaches such a state and ends in disagreement |
| `ModelLifecycles.ModelLifecycle.constructor` | src/core/app-context/app-context.ts:562-571 | starts with nothing pending and no targets |
| `ModelLifecycles.ModelLifecycle.Track` | src/core/app-context/app-context.ts:616-626 | records one key: coalesced, first origin kept, one flush queued |
| `ModelLifecycles.ModelLifecycle.Restore` | src/core/app-context/app-context.ts:637-672 | its two loops change the model and record exactly the keys deleted or assigned something not identical, under the given origin, and restore the current one |
| `ModelLifecycles.ModelLifecycle.Attach` | src/core/app-context/app-context.ts:673-687 | registers a target |
| `ModelLifecycles.ModelLifecycle.Receive` | src/core/app-context/app-context.ts:689-747 | applies a target's state under its origin unless it is disposed |
| `ModelLifecycles.ModelLifecycle.Dispose` | src/core/app-context/app-context.ts:870-893 | disposes a target once |
| `ModelLifecycles.ModelLifecycle.FlushChanges` | src/core/app-context/app-context.ts:573-614 | takes the batch and writes every target it should, up to a failure that ends it, with whatever the writes make happen in between |
| `ModelLifecycles.ModelLifecycle.WriteTarget` | src/core/app-context/app-context.ts:593-613 | one write; a failure is ignored, thrown, or reported, which ends the flush too if the exception handler rethrows |
| `ModelLifecycles.FlushedKeepsInvariant` | src/core/app-context/app-context.ts:573-614 | a whole flush keeps the invariant whatever its writes make happen, and ends |
| `ModelLifecycles.FlushedDrains` | src/core/app-context/app-context.ts:573-614 | with writes that touch nothing it delivers the batch completely |
| `ModelFlush.FlushServes` | src/core/app-context/app-context.ts:593-613 | over a whole flush whose writes touch nothing else, the k-th target that takes part is written the snapshot iff its write succeeds and no earlier one failed with failures thrown, or reported to a handler that rethrows; a failure that is ignored or only reported lets the rest be written |
| `ModelFlush.FlushSpares` | src/core/app-context/app-context.ts:593-613 | and everybody else is left as they are |
| `ModelFlush.RestoreMeaning` | src/core/app-context/app-context.ts:637-672 | replacing leaves exactly the incoming slots, merging keeps the others too; the slots deleted or assigned something not identical, and no others, become pending, under the origin that came first, and one flush is queued |
| `ModelFlush.ReceiveMeaning` | src/core/app-context/app-context.ts:689-747 | what a live target sends is restored so, under its own origin unless it names another |
| `ModelFlush.SenderHolds` | src/core/app-context/app-context.ts:689-747 | the sender holds what it sent and nobody else is touched; what a disposed target sends is dropped |
| `OrderBy.DoComparison` | src/filters/order-by.ts:141-154 | the loop over predicates returns the first difference with its direction, then the index order; `OrderByResult.OrderByIsLexicographic` says which differences these are |
| `OrderBy.CompareAntisymmetric` | src/filters/order-by.ts:301-348 | swapping two keys negates the default comparison |
| `OrderBy.CompareTransitive` | src/filters/order-by.ts:301-348 | the default comparison is transitive |
| `OrderBy.ItemsAntisymmetric` | src/filters/order-by.ts:141-154 | the comparison of items is antisymmetric, and zero only for one item |
| `OrderBy.ItemsTransitive` | src/filters/order-by.ts:141-154 | and transitive, for any predicates and directions |
| `OrderBy.OrderedUnique` | src/filters/order-by.ts:92-102 | two ordered arrangements of the same items are the same, so the result does not depend on the sorting algorithm |
| `OrderBy.SortOrders` | src/filters/order-by.ts:92-102 | the sorted list is a permutation ordered by that comparison |
| `OrderBy.ReverseIsBackwards` | src/filters/order-by.ts:141-154 | the descending arrangement is the ascending one backwards, ties included |
| `OrderBy.OrderByReverse` | src/filters/order-by.ts:84-154 | `reverseOrder` gives exactly the reversed sequence |
| `OrderBy.TiesKeepInputOrder` | src/filters/order-by.ts:141-154 | items no predicate tells apart keep their input order |
| `OrderByResult.OrderByIsLexicographic` | src/filters/order-by.ts:84-154 | the result is the input rearranged, any two of its elements standing by the first predicate that tells them apart, forwards or backwards as that one says, and else in the order of the input |
| `OrderByResult.OnePredicateSorts` | src/filters/order-by.ts:301-348 | by one ascending predicate numbers do not decrease, strings do not by the code units of their lower case, false stands before true, and the types stand as boolean, number, object, string, null, undefined; descending turns all of it round |
| `OrderByResult.TwoAndOne` | src/filters/order-by.ts:326-331 | `[2, 1]` ordered by the ascending identity is `[1, 2]` |
| `OrderByResult.LessIsTextBefore` | src/filters/order-by.ts:326-331 | one string is less than another iff it is a proper front of it or has the smaller code unit where they first differ |
| `Interpolate.SplitLosesNothing` | src/core/interpolate/interpolate.ts:200-241 | interleaving the raw literals with start symbol, expression and end symbol gives the text |
| `Interpolate.PiecesAreTight` | src/core/interpolate/interpolate.ts:200-241 | no expression contains the end symbol, no literal is empty, a literal before an expression does not contain the start symbol, and two literals never stand side by side |
| `Interpolate.PositionsMark` | src/core/interpolate/interpolate.ts:230-233 | positions are as many as the expressions, strictly increasing, and name the placeholders |
| `Interpolate.PositionsCover` | src/core/interpolate/interpolate.ts:230-233 | every placeholder has a position |
| `Interpolate.Split` | src/core/interpolate/interpolate.ts:211-241 | the loop ends and fills the three arrays from the pieces of the text |
| `Interpolate.FilledRenders` | src/core/interpolate/interpolate.ts:297-315 | a buffer with the literals and the values in place joins to the rendering of the pieces |
| `Interpolate.Interpolation.constructor` | src/core/interpolate/interpolate.ts:200-241 | the split establishes the buffer invariant |
| `Interpolate.Interpolation.Compute` | src/core/interpolate/interpolate.ts:297-315 | whatever was evaluated before into the shared buffer, the result is the rendering for the current values, undefined if all-or-nothing meets undefined, or a rejection for several pieces in a trusted context |
| `Templates.PiecesAreProper` | src/core/interpolate/interpolate.ts:211-241 | an expression ends at the first end symbol behind its start symbol and a literal at the first start symbol; the last literal holds no start symbol with an end symbol behind it |
| `Templates.ProperIsUnique` | src/core/interpolate/interpolate.ts:211-241 | only one list of pieces is so and spells the text |
| `Templates.RenderingMeaning` | src/core/interpolate/interpolate.ts:297-315 | a call renders undefined iff it is all or nothing and a value is undefined, rejects iff several pieces meet a trusted context that allows no concatenation, and otherwise joins the unescaped literals and the values in the order of the pieces, through `getTrusted` where concatenation is allowed |
| `Templates.UndefinedIsNothing` | src/core/interpolate/interpolate.ts:297-315 | unless it is all or nothing, undefined counts as the empty string |
| `FilterMatch.TextMatches` | src/filters/filter.ts:204-308 | a string matches exactly when it is found at some place reached through list items and non-`$` slots, or, after an odd number of `!`, at none |
| `FilterMatch.MatchIffFound` | src/filters/filter.ts:226-263 | without `!`, a match is a find |
| `FilterMatch.BangsNegate` | src/filters/filter.ts:216-224 | each `!` negates |
| `FilterMatch.AnyKeyMatches` | src/filters/filter.ts:267-298 | `{ $: text }` looks below the object only, unless a `!` was taken off |
| `FilterMatch.NamedKeyMatches` | src/filters/filter.ts:267-298 | `{ name: text }` looks at the slot of that name alone, into lists there but not into objects |
| `FilterMatch.FieldsMatchIff` | src/filters/filter.ts:267-298 | an object meets an expectation of several fields iff it meets each of them |
| `FilterMatch.FieldsInLists` | src/filters/filter.ts:226-298 | a list meets them iff some object in it, or in the lists in it, does |
| `FilterMatch.FieldsAnywhere` | src/filters/filter.ts:226-263 | against any property they are met by the whole or by an object anywhere below it |
| `FilterMatch.HitIff` | src/filters/filter.ts:165-201 | a value shows a text iff what it prints, in lower case, has the text in lower case in it; undefined, null and plain objects never do |
| `FilterMatch.BangNegatesIff` | src/filters/filter.ts:216-224 | `{ $: "!" + text }` is the negation of `{ $: text }` for an object iff it does not itself show the text or something below it does too |
| `FilterMatch.NegationCountsTheWhole` | src/filters/filter.ts:216-224 | the smallest object for which `{ $: "!x" }` is not the negation: a date that prints an x |

## Left out

Expression compiler:

- `CompileCorrect.FilterForms`: in reference form the record's value is a function, for which no value stands here; only a call looks at it, and `CompileCorrect.ThunkCallCorrect` says what the call does.
- Getters, proxies and proxy unwrapping, prototype chains of plain objects, `__proto__` in object literals.
- `CompileCorrect.RecurseCorrect`: coercions see the heap but do not change it and do not throw; floating-point results are whatever the host says.
- Unknown filter names, which throw while compiling; writes to properties of functions; strict-mode errors of writes to primitives.
- The constant and watch analysis decorates nodes in place, and `_compile` fills its arrays in loops; here both are functions of the tree.
- `WatchSoundness.InputsDecide`: the `_isPure` flags, which the scope's listeners read, are not computed; the guard is about the run itself; assignments, updates and calls of functions that change the heap are not covered.
- The lexer and the parser: everything starts from the syntax tree.

Fragments:

- `DomWork.EveryRunKeepsOrder`: an operation does not itself flush; an operation that threw counts as executed.
- Clean-ups that call back into the registry (a destroyed child scope firing listeners of other fragments); listeners of one scope fire in registration order.
- The `childFragments` creation option, nodes and their data, `lateCallbacks` counts, re-attached root elements.

Injection:

- Error messages and paths, decorators, storage proxies, class detection, factories that call the injector themselves.
- Function and array modules, and the de-duplication of runtime commands.

Query strings, equality, filters:

- Strings are sequences of Unicode scalar values: a lone surrogate, on which encoding throws, is not representable.
- Query values other than strings, `true`, undefined and lists of these.
- `Equality.EqualsIffNormal`: data are trees; scopes and windows are opaque identities, and an object whose own `$watch` slot is a function counts as one of them.
- `OrderBy.SortOrders`: the engine's sort is replaced by insertion, which `OrderedUnique` makes harmless; NaN, functions, symbols, custom comparators and the parsing of predicate strings.
- The `filter` filter with a custom comparator, with `true` for strict comparison, with list or non-string primitive expectations; how values print and lower-case is a parameter.

Interpolation:

- Parsing, stringifying and unescaping are parameters; watch callbacks; the form for one single expression.
- Empty start and end symbols together, with which the splitting loop does not end.

Model synchronisation:

- Promises of `restore` and `write`; validation of snapshots, options and targets; exceptions of disposers; `structuredClone`, as models are values here.
- `ModelSync.StepKeepsInvariant`: the keys of a batch are a set, without their order; slot values are not undefined, so assigning undefined to a missing slot, which records nothing, is not covered; an object assigned to a slot is another one than the one it holds.
- Changes below the top level of a model, which are recorded under the nested property's name.
- What a target holds is what it was last written or last sent; a target that stores something else is not modelled.

Not modelled at all: the router, the runtime and its wiring, controllers, policies, `limitTo`, and the other filters.
