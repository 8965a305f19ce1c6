# Rulite, modelled and proved in Dafny

Rulite is a deterministic rules engine: it compiles rule definitions into an immutable snapshot, fires the snapshot
against an input under a policy, and leaves behind a compressed ledger from which every outcome can be rebuilt. This
project models its state machines and proves what they promise. `dafny verify dfyconfig.toml` checks all of it.

## What is modelled

**Execution and the sparse ledger** (`Facts`, `DenseInterpreter`, `Ledger`, `Compression`, `Execution`). `Execution` is
the engine as it is: one object whose records, failures, causes, counts, groups, frontier and stop change call by call.
`DenseInterpreter` is a naive recursive interpreter that writes one view per rule and one per group. The main theorem is
`Execution.Fire`: for every well-formed snapshot, policy and user code, every answer that can be read from the sparse
result is the one the dense interpreter wrote down, and user code saw the same calls and events in the same order. User
code is four functions (condition, action, observer, context) of the history of all earlier calls; since a history grows
with each call, such functions describe any behaviour of callbacks that share, read and change state, including
callbacks that cancel the context. Panics are recovered and are one of the answers.

**Laws of every run**, proved of the dense interpreter and so of the engine: what each condition and action answered, at
its own place in the history, is what its rule's view says (`Answers`); how far a run gets (`Progress`); counts
(`Counting`), the event stream as a function of the final views (`EventStream`), non-interference of the observer
(`Noninterference`), stop precedence and causes (`Stops`), group guarantees (`Groups`), and the flat fast path and
hierarchical views (`FlatPath`).

**Compilation** (`StableSort`, `Validation`, `ValidationMeaning`, `Compilation`, `CompiledForm`): validation in one pass
with its issue index, two-level stable ordering, contiguous ranges, and the identity maps that change meaning from
"first registration index" to "compiled order". What an accepted snapshot satisfies includes the well-formedness that
`Execution.Fire` requires, and it determines the snapshot: `CompiledForm.FaithfulIsUnique` proves that definitions have
at most one.

**Conditions and tracing** (`Conditions`, `Recorder`). `Conditions` proves that a traced evaluation of nested
combinators means the untraced one and freezes to the evaluation tree. `Recorder` is the same recorder as a concurrent
protocol: each lock-protected region is one atomic step, and any number of callbacks may reuse, share, re-enter or
retain recording contexts. Its theorems quantify over all interleavings. One expectation fails: a failed operator need
not carry the error of the child that ended it, because user code may wrap the error on its way up.
`Recorder.WrappedErrorsDiffer` is such a run and `Recorder.FailedOperators` the exact condition.

**Native equality** (`NativeEquality`, `NativeEqualityMeaning`, `NativeEqualityShapes`, `NativeEqualityWork`,
`NativeEqualitySharing`, `NativeEqualityBudget`, `NativeEqualityChain`, `NativeComparison`, with `Permutations`). A
comparison of object graphs with shared budgets and a cache of completed pointer pairs, over heaps that may be shared
and cyclic, with an arbitrary leaf relation (a leaf need not equal itself) and an arbitrary map iteration order on every
visit. A heap place stands for one address at one type, so a pair of places stands for the key of the source's cache.
The cache never turns an answer around, and on a graph without sharing it changes nothing at all. But the two traversals
are not equivalent: on the chain of `NativeEqualityChain.CacheAnswersMore`, from the budget every comparison starts
with, the cached one answers true and the plain one runs out. `NativeEqualityBudget` gives a condition on the two graphs
alone under which the comparison never runs out and so decides structural equality; the chain meets it.

**Smaller searches and protocols**: parameter schemas (`ParamSchema`, `ParamSchemaMeaning`, `ParamSchemaOrder`), the
input budget (`InputBudget`) and runtime publication (`Publication`). Whether a schema is accepted depends on the order
of a struct's fields, because a type already seen is not descended into again, however deep it is met:
`ParamSchemaOrder.FieldOrderDecides` has two structs that differ only in that order, one accepted with a walk of 32
types and one refused. `ParamSchema.ValidateSchema` states the exact condition.

## Model

| member | source | states |
|---|---|---|
| Execution.Fire | execution_internal.go:16-47 | The sparse result refines the dense interpreter: every rule view and group view, the counts, stop, failures, returned errors, diagnostics, `Matched` and `Fired`, and the whole history of calls into user code are the interpreter's; records are strictly increasing. |
| Execution.Execution.Execute | execution_internal.go:16-47 | A whole execution ends with a result that refines the interpreter's run, whatever user code answers. |
| Execution.Execution.ExecuteEntries | execution_internal.go:29-45 | Running the entries, or the single span when there are none, finishes with exactly the interpreter's run, including a halt inside any entry. |
| Execution.Execution.ExecuteGroup | execution_internal.go:36-42 | A group's entry either finishes the run as the interpreter does, or advances it by the members' views and the group's view. |
| Execution.Execution.ExecuteRules | execution_internal.go:50-185 | Over an entry the rule loop takes the interpreter's span, and the ledger still compresses all views reached; a context that is done before a group leaves the group unentered. |
| Execution.Execution.ExecuteRule | execution_internal.go:62-180 | One turn appends records, failures, causes and counts for exactly the view the interpreter gives the rule, moves the frontier, and stops or leaves when the interpreter does. |
| Execution.Execution.ExecuteAction | execution_internal.go:131-180 | The action attempt and the decisions after it match the interpreter's action step, including recovered panics and both error modes. |
| Execution.Execution.Conclude | execution_internal.go:161-179 | At the boundary after an action the context wins over the error policy, the error policy over global selection, and that over local selection. |
| Execution.Execution.Fail | execution_internal.go:191-207 | A failure adds one record pointing at it, one cause, and its counts, and changes nothing else. |
| Execution.Execution.Abort | execution_internal.go:88-94 | A recovered panic fixes the stop, and a context that is done afterwards only adds causes. |
| Execution.Execution.ContextDone | execution_internal.go:209-226 | A done context appends its error and a distinct cause and sets the stop unless a panic did; a live one changes nothing. |
| Execution.Execution.ObserveRule | observer_internal.go:19-34 | A failed condition is reported as evaluated and then failed, with the failure just recorded; a disabled observer sees nothing. |
| Execution.Execution.Observe | observer_internal.go:8-17 | An enabled observer receives the event; its first error or panic leaves one diagnostic and disables it. |
| Execution.Execution.ObserveGroup | observer_internal.go:47-53 | A group event carries the view the result would give at that moment. |
| Execution.Execution.ObserveSummary | observer_internal.go:36-45 | The start event counts every rule as not evaluated; the finish event carries the final counts and stop. |
| Execution.Execution.FinishGroup | group_result.go:80-92 | An unentered group stays as it is and is not reported; an entered one ends as stopped with the run's stop, resolved, or exhausted, and is reported so. |
| Ledger.Result.Matched | result.go:166-175 | The loop over records returns exactly the identities whose records say matched, in record order. |
| Ledger.Result.Fired | result.go:178-186 | The loop over records returns exactly the identities of fired records, in record order. |
| Ledger.RuleAtRebuilds | result.go:210-244 | Binary search over the records, with the frontier and the skipped suffixes of groups, gives back every rule's dense view. |
| Ledger.RecordsOrdered | execution_internal.go:187-195 | The records of any views are strictly increasing, below the number of views, and each failed record points at its own failure. |
| Ledger.RecordsReport | result.go:223-242 | For every order the records say the view's outcome: absent for an ordinary miss, present with its state and failure otherwise. |
| Ledger.Silent | result.go:149-155 | Rules never reached leave no record, no failure, and no trace in the frontier. |
| Ledger.Search | result.go:224-232 | On increasing records the search splits them into those below the order and those not below it. |
| Ledger.SearchFinds | result.go:224-233 | Every record is found at its own position. |
| Ledger.MatchedIsFilter | result.go:167-186 | The records' matched and fired lists are the filters of the dense views. |
| Compression.RefinedViews | result.go:210-244 | From refinement alone follow all accessors: indexed records, rebuilt views, failures, matched and fired lists. |
| Compression.TurnExtends | execution_internal.go:75-180 | A turn's changes keep the sparse form of the views, extended by the turn's view. |
| Compression.Totals | execution_internal.go:228-237 | Settling the not-evaluated count completes the counters to the tally of the views. |
| Answers.AnswersDecide | execution_internal.go:62-180 | In every run each condition and action is called at most once, in ascending order, the action behind its own condition, between context checks that found the context alive; the answer at its own place in the history gives the view: unmatched, matched, or failed with that rule, phase, cause and continuation; nothing but events follows a done check. |
| Answers.ConditionTold | execution_internal.go:76-113 | A condition that was called answered false exactly if its rule is unmatched, true exactly if it is skipped, fired or failed in its action, an error or a panic exactly if it failed in its condition. |
| Answers.CalledIffEvaluated | execution_internal.go:75-180 | The rules whose condition was called are exactly those evaluated; those whose action was called are exactly those that fired or failed in it. |
| Progress.RunsGoOn | execution_internal.go:62-180 | Nothing is evaluated behind a rule that gives a reason to stop, a completed run leaves no rule behind, and only members of groups are bypassed. |
| Counting.Conservation | execution_internal.go:191-207 | Total = evaluated + not evaluated; evaluated splits into unmatched, fired, skipped and the two failures; matched = fired + skipped + action failed; failed = condition failed + action failed. |
| Counting.CountersCountViews | execution_internal.go:75-76 | Each counter is the number of orders whose view has the state it counts. |
| EventStream.DeliveredStream | execution_internal.go:24-184 | With any observer, what it received is the stream rebuilt from the final views and group views, or a prefix of it that ends with the first event it answered with an error or a panic; that answer is the cause in the one diagnostic. |
| EventStream.WholeStream | observer_internal.go:19-53 | An observer whose every answer is a success receives the whole rebuilt stream and leaves no diagnostic, even if it cancels the context. |
| Noninterference.ObserverCannotInterfere | observer_internal.go:8-17 | Two runs, with and without an observer that other user code does not notice, agree on all views, group views, stop, context answer, causes and every other call, wherever the observer fails. |
| Stops.StopPrecedence | execution_internal.go:209-226 | The stop is the function of final views and last done context answer that puts panic before context (deadline or cancellation), before a stopping error, before global selection, before completion. |
| Stops.ErrorsIffFailed | execution_internal.go:228-238 | An error is returned if and only if a rule failed or the context was seen done; the list has one entry for each failed rule, in order, then the context's error and its cause if that is another one. |
| Groups.GroupGuarantees | execution_internal.go:153-183 | In every run: at most one member meets a group's criterion and it is the selected rule; exhausted means all evaluated and none met it; bypassed and stopped members are told apart; groups are entered in order and only the last one entered may end as stopped, with the run's stop; a completed run entered every group. |
| Groups.SpanSelects | execution_internal.go:116-118 | Within a group's span, selection happens exactly at the member that meets the criterion, and nothing is called behind it. |
| Groups.UnenteredHold | group_result.go:161-170 | Groups behind a stop are unentered, with untouched members and the run's stop. |
| FlatPath.SpanSplits | execution_internal.go:62-180 | Adjacent ranges compose: running them in turn is running their union. |
| FlatPath.FlatPathEqualsEntryPath | execution_internal.go:29-44 | Without groups, one pseudo-entry over all rules gives the same run as one entry per rule. |
| FlatPath.HierarchyListsEveryRule | explain_entry.go:16-73 | Walking the top-level views, the one rule of an ungrouped view and the members of a group's, gives the flat rule views, each once and in order, when every stored ungrouped entry is one rule. |
| FlatPath.CompiledHierarchyListsEveryRule | explain_entry.go:16-73 | So it does for every result of a snapshot that compilation can yield. |
| StableSort.SortOrders | compile_internal.go:155-157 | Sorting by priority descends, and equal priorities keep their input order. |
| StableSort.AscendingIsUnique | compile_internal.go:155-157 | Two sequences ascending in one strict order with the same elements are equal. |
| Validation.Validate | compile_internal.go:88-142 | One pass reports exactly the specified issues in the specified order and leaves each map with the first registration of every valid identity. |
| Validation.NoIssuesIffAcceptable | compile_internal.go:143-145 | There are no issues if and only if every identity is valid and new and no callback is nil. |
| ValidationMeaning.ValidIdMeans | compile_internal.go:198-213 | Valid identities are 1 to 128 characters, a lower-case letter or digit and then also dash, dot, slash and underscore. |
| ValidationMeaning.IssuesMean | compile_internal.go:88-142 | An issue is reported if and only if it tells that a rule's identity is invalid, or repeated and first registered where it says, or that its condition or its action is nil, or that a group's identity is invalid or repeated, with that rule's own position and group. |
| ValidationMeaning.IssuesInOrder | errors.go:89-94 | The issues come in registration order, a group's before its members', a rule's identity before its condition and its action. |
| Validation.NewValidationError | errors.go:100-108 | The error keeps the issues, and its index lists, for every identity, the positions of its issues in order. |
| Validation.IssuesForRule | errors.go:114-124 | Looking an identity up in an error's index equals filtering its issue list, for every identity, empty for invalid ones and for a nil error. |
| Compilation.Compile | compile_internal.go:84-196 | Compilation succeeds if and only if the definitions are acceptable; a failure carries exactly the specified issues, indexed by identity; a success is a faithful snapshot: in the order of the definitions' own priorities, covering every rule once, each with its own condition as condition and its own action as action, ranges tiled, both maps exact, every defined group present, and every rule, group and stored entry at its definition's place, each entry exactly that definition's rules, with none stored when no group is defined. |
| Compilation.CompileValidated | compile_internal.go:147-195 | Sorting and flattening acceptable definitions gives a faithful snapshot, groups and places included, although both maps start with validation's values. |
| CompiledForm.FaithfulIsUnique | compile_internal.go:147-195 | Definitions determine the snapshot: any two faithful ones agree on every rule, group, entry, map and callback. |
| CompiledForm.NoGroupIsDropped | compile_internal.go:174-181 | In a faithful snapshot every group definition has its compiled group. |
| Compilation.OrderIsUnique | compile_internal.go:155-191 | The order by top-level priority, registration, member priority and member index determines the rules completely. |
| Compilation.TopOrderIsUnique | compile_internal.go:155-157 | Only one sequence of all definitions descends by priority with ties in registration order. |
| Compilation.FlatInOrder | compile_internal.go:164-191 | The flattened rules are in that order and each is at the place of its definition. |
| Compilation.FlatCovers | compile_internal.go:164-191 | The flattened rules are a permutation of all defined rules. |
| Compilation.CompiledIsWellFormed | compile_internal.go:172-194 | Entries and group ranges tile all orders contiguously, which is what execution relies on. |
| Compilation.StoredRulesAreSingle | compile_internal.go:172-173 | Every entry a compiled snapshot stores for a top-level rule is the range of that one rule. |
| Compilation.CurrentIsExact | compile_internal.go:169-191 | The rule map is the exact inverse of the compiled order; no first-registration index is left in it. |
| Compilation.CurrentGroupsExact | compile_internal.go:178-181 | The group map is the exact inverse of the group order. |
| Compilation.GroupsDescribed | compile_internal.go:177-192 | Each compiled group has its definition's identity, kind, priority and place in the top-level order, and its range holds exactly its members. |
| Compilation.BuiltIsPositioned | compile_internal.go:164-194 | Flattening puts entry k, its rules and its group at the k-th definition of the order, one rule for a rule and all members for a group. |
| Conditions.Trace | condition_trace_internal.go:30-134 | Traced evaluation under a fresh recorder gives the untraced answer and leaf calls, and freezes to the evaluation tree, also when a leaf panics. |
| Conditions.Tracer.TraceChildren | condition_trace_internal.go:102-134 | The one traced loop gives the combined answer and leaves each child's recording freezing to its evaluation tree. |
| Conditions.Tracer.TraceCombined | condition_trace_internal.go:77-100 | Claiming, running and publishing gives the untraced answer of the combinator and records it. |
| Conditions.CombineIsEval | condition.go:23-92 | The one traced loop means what All, Any and Not mean untraced. |
| Conditions.LeavesMean | condition.go:23-92 | A leaf answers exactly what user code answers, in one call; a nil child is the invalid-condition error and no call. |
| Conditions.AllMeans | condition.go:23-43 | `All` calls its children in order while they answer true; it is true if all do, and otherwise answers as the first that does not: false, its error, or its panic. |
| Conditions.AnyMeans | condition.go:52-72 | `Any` calls its children in order while they answer false; it is false if all do, and otherwise answers as the first that does not. |
| Conditions.NotMeans | condition.go:78-92 | `Not` turns a boolean answer of its child around and passes an error or a panic on. |
| Conditions.AllTreeMeans | condition_trace_internal.go:77-134 | The tree of `All` is of its kind, records its answer, and has the trees of the children called, in order, before short-circuited ones. |
| Conditions.AnyTreeMeans | condition_trace_internal.go:77-134 | So has the tree of `Any`. |
| Conditions.NotTreeMeans | condition_trace_internal.go:77-134 | The tree of `Not` is of its kind, records its answer, and has its child's tree. |
| Conditions.TreeIsExplained | condition.go:23-92 | In an evaluation tree a combinator that answered has the outcome its children give it: `All` the first that is not true, `Any` the first that is not false, `Not` the opposite, an error as it is; the others were never called. |
| Recorder.RunsKeepInvariant | condition_trace_internal.go:30-134 | No interleaving of locked regions breaks the protocol's invariant. |
| Recorder.FrozenOperatorsAreSound | condition_trace_internal.go:55-75 | In every interleaving a frozen operator had exactly one invocation, which published the frozen outcome before the recording finished, and its frozen children are an evaluated prefix and a short-circuit suffix that give that outcome by the rule of `All`, `Any` or `Not`. |
| Recorder.OperatorIffOneEarlyUse | condition_trace_internal.go:55-75 | A frozen recording claims an operator if and only if exactly one invocation had used it and published in time the outcome it ended with; otherwise it is a childless leaf. |
| Recorder.FrozenRootIsTheAnswer | condition_trace_internal.go:30-42 | In every interleaving the frozen root carries the one answer its condition returned, error included, whatever other invocations do to it. |
| Recorder.FrozenErrorsAreReceived | condition_trace_internal.go:30-42 | In every interleaving a frozen recording carries the answer it was finished with, by the rule or by its parent's loop, with an error exactly when the outcome is one. |
| Recorder.FailedOperators | condition_trace_internal.go:36-41 | A frozen operator that failed has as last called child one that failed with the error the operator's invocation returned; the operator carries that error if and only if its recording was finished with it. |
| Recorder.WrappedErrorsDiffer | condition_trace_internal.go:36-41 | A run whose frozen operator and failed child carry different errors: a callback that wraps a combinator's error is still recorded as the operator. |
| Recorder.InvocationsNeverBlock | condition_trace_internal.go:102-134 | An invocation that has not published always has its next locked region possible, whatever its child answers. |
| Recorder.BeginKeeps | condition_trace_internal.go:80-92 | Claiming a recording keeps the invariant, also when it is in use, finished or retained. |
| Recorder.AnswerKeeps | condition_trace_internal.go:119-132 | Finishing a child and deciding whether it ends the combinator keeps the invariant. |
| Recorder.PublishKeeps | condition_trace_internal.go:94-98 | Publishing keeps the invariant and writes only into unfinished recordings. |
| Recorder.FreezeKeeps | condition_trace_internal.go:55-75 | Freezing one recording keeps the invariant: what is read is accounted for, and stays so whatever happens later. |
| NativeComparison.NativeEqual | cel/schema.go:368-379 | Different types are false; otherwise true is finite-depth structural equality, false is a structural difference, equal values are never denied, any answer the uncached traversal reaches within its budget is the answer given, and graphs that can be afforded are true exactly when equal. |
| NativeComparison.Comparison.Equal | cel/native_equality.go:26-114 | The recursion that spends the budget and fills the cache computes the recursive traversal, on every heap. |
| NativeComparison.Comparison.EqualEntries | cel/native_equality.go:89-112 | The loop over a map's entries compares each key with itself and each value with its counterpart, and stops at the first part that is not true or a key that is missing. |
| NativeComparison.Comparison.EqualPointees | cel/native_equality.go:40-52 | A completed pair is true without a visit; otherwise the pointees are compared, and completed only if true. |
| NativeEqualityMeaning.AnswersAreSound | cel/native_equality.go:23-114 | With or without the cache, true implies equality to a finite depth, false implies a difference within the depth left, and the cache stays sound. |
| NativeEqualityMeaning.EqualityExcludesDifference | cel/native_equality.go:23-25 | Nothing is both structurally equal and different, at any depths. |
| NativeEqualityMeaning.PlansMean | cel/native_equality.go:30-113 | What one visit settles or plans to compare is equivalent to equality, and to difference, one level down, in whatever order maps are ranged over. |
| NativeEqualityMeaning.SameDeeper | cel/native_equality.go:26-114 | Equality within some depth is equality within any greater depth. |
| NativeEqualityShapes.ListsMean | cel/native_equality.go:30-88 | Slices: as fields nil and non-nil differ; otherwise nil counts as empty, and they are equal if their lengths and elements are, different if a length or an element is. |
| NativeEqualityShapes.TablesMean | cel/native_equality.go:26-112 | Maps: as fields nil and non-nil differ; otherwise nil counts as empty, and they are equal if as many entries are found by their keys, each key equal to itself and the values equal. |
| NativeEqualityShapes.BlobsMean | cel/native_equality.go:30-88 | Byte slices: as fields nil and non-nil differ; otherwise nil counts as empty, and lengths and leaves decide. |
| NativeEqualityShapes.PointersMean | cel/native_equality.go:30-88 | A nil pointer equals only a nil pointer, as a field or not; others are as their pointees. |
| NativeEqualityShapes.NilDecides | cel/native_equality.go:30-39 | A visit answers false at once when presence differs and true at once when both values are nil, with the cache or without it. |
| NativeEqualityShapes.NilIsEmpty | cel/native_equality.go:30-39 | A nil and an empty slice or map at the root, in a slice or in a map are equal and compare true. |
| NativeEqualityWork.CacheKeepsAnswers | cel/native_equality.go:40-52 | Whenever the uncached traversal answers anything but a limit, the cached one gives the same answer with at least as much of every budget left. |
| NativeEqualitySharing.SameWithoutRepeats | cel/native_equality.go:40-52 | Whenever the uncached traversal descends into no pair twice, the cached one gives the same answer and leaves the same budgets and log. |
| NativeEqualitySharing.UnsharedComparesTheSame | cel/native_equality.go:40-52 | On a graph whose places are each reached one way, both traversals give the same answer and leave the same budgets. |
| NativeEqualityChain.CacheAnswersMore | cel/schema.go:368-379 | The converse fails from the budget every comparison starts with: on a chain of 16 records with two pointers each to the next, compared with itself, the cached traversal answers true and the uncached one a limit. |
| NativeEqualityWork.EqualNeverDenied | cel/native_equality.go:26-114 | Structurally equal values are answered true or with a limit. |
| NativeEqualityWork.EndlessNeverTrue | cel/native_equality.go:23-25 | A comparison that leads back into itself, however it is reached, is never true. |
| NativeEqualityWork.ComparisonsSpend | cel/native_budget.go:37-59 | On any heap a comparison ends within the node budget and only spends every budget. |
| NativeEqualityWork.DescendsOnce | cel/native_equality.go:40-52 | On an acyclic graph no pair of pointees is descended into twice. |
| NativeEqualityWork.VisitsFollowPairsNotPaths | cel/native_equality.go:40-61 | On an acyclic graph no pair is descended into twice, and the visits, bytes and items spent are at most what the operand and each distinct pair hold without following pointers, not the number of paths. |
| NativeEqualityBudget.AffordableIsDecided | cel/native_equality.go:23-114 | If the left value is acyclic and at most 32 deep and the distinct pairs that can be met hold no more than the budgets, the answer is no limit and is true exactly for structural equality; with leaves that only answer true or false it is false exactly otherwise. |
| NativeEqualityBudget.NeverLimited | cel/native_equality.go:26-114 | Anywhere inside a comparison: with enough left for the place and for the listed pairs not yet descended into, every answer is one a leaf, a nil rule or a length gives, and what a true one took is covered by the pairs it descended into. |
| NativeEqualityChain.ChainIsAffordable | cel/native_equality.go:40-61 | The chain of 16 records meets the condition, although its paths are too many to visit. |
| ParamSchema.ValidateSchema | dynamic/params.go:12-83 | A schema is accepted if and only if every reachable type passes the rules and lies on no cycle, and the plain first-visit walk meets at most 128 types, none with children at depth 16; then at most 128 types are reachable, each by some walk of at most 17. Within all limits that is just passing and acyclicity. A refusal names a limit that is exceeded, a cycle that is reached, or a reachable type that breaks that very rule. |
| ParamSchemaMeaning.AcceptableMeans | dynamic/params.go:12-96 | A schema is accepted if and only if, within the limits of the first-visit walk, every chain of held types from the root meets no type twice and only types that keep the rules: no unsupported kind, decoder or duration, string map keys, at most 64 fields, none embedded, and each exported field not tagged "-" with a proper, distinct name and known options; other fields are not looked at. |
| ParamSchemaMeaning.FieldsMean | dynamic/params.go:51-75 | A struct's fields have no fault if and only if none is embedded and those exported and not tagged "-" have ASCII names of 1 to 64 characters, all different, taken from the tag up to the first comma or else the field, and only known options behind commas. |
| ParamSchemaOrder.FieldOrderDecides | dynamic/params.go:12-34 | Two good structs with the same two fields in either order: one is accepted, with a walk of 32 types, the other refused. |
| ParamSchema.AcceptedIsGood | dynamic/params.go:12-83 | A search that finished the root has bounded the reachable types, and their least depth, though not the length of every walk. |
| ParamSchema.Search.ValidateType | dynamic/params.go:12-34 | A type validated without failure is finished behind its children, leaves the active set as it was, and keeps earlier results, although revisits are cut off. |
| ParamSchema.Search.ValidateFields | dynamic/params.go:51-79 | The loop over fields accepts exactly when no field breaks a rule and all unskipped field types finish. |
| ParamSchema.FinishedIsAcyclic | dynamic/params.go:28-33 | Everything reachable from a finished type passed and is on no cycle. |
| ParamSchema.SplitJoins | dynamic/params.go:62-66 | Splitting a tag at commas loses nothing and leaves no comma inside a part. |
| InputBudget.Budget.Native | cel/input.go:48-96 | A value is accepted exactly when its unfolding fits the depth and the budget left and no context check on the way finds the context done, and then takes exactly its cost; a cancellation is what the last check said. |
| InputBudget.Budget.AllEntries | cel/input.go:84-92 | The loop over a map's entries accepts exactly when all keys and values fit together and no check on the way fails. |
| InputBudget.Budget.Visit | cel/input.go:21-30 | A visit is refused deeper than 32 or without nodes left, and otherwise takes one node; it checks the context exactly when the nodes left have come down to a multiple of sixteen. |
| InputBudget.ProjectBinding | cel/binding.go:226-251 | One binding is accepted exactly when both context checks pass, its value is present and fits, and what is left affords its cost. |
| InputBudget.ProjectBindings | cel/binding.go:219-262 | The bindings of one evaluation are accepted if and only if every projection answers a value that is no nil pointer, each unfolds to depth at most 32, together they are within the node, byte and item budgets, and no context check finds the context done, whatever the map iteration order; a refusal names its reason. |
| InputBudget.FlattenPermuted | cel/input.go:84-92 | Ranging over a map in another order meets the same values at the same cost. |
| InputBudget.UncanceledMeans | cel/input.go:11-96 | Without cancellation bindings are accepted if and only if each is present and unfolds to depth at most 32, and together they take at most 65536 visits, 65536 bytes and 4096 items. |
| InputBudget.LeavesUnfold | cel/input.go:48-72 | Leaves cost one visit, strings and byte slices their bytes as well. |
| InputBudget.CollectionsUnfold | cel/input.go:72-93 | Slices and maps cost one visit, one item for each element or entry, and their elements, or keys and values; a nil one its visit. |
| InputBudget.CyclicNeverFits | cel/input.go:21-24 | A value that leads back into itself fits no depth. |
| InputBudget.CyclicNeverProjected | cel/input.go:21-24 | Bindings one of which leads back into itself are never accepted. |
| Publication.Runtime.Publish | runtime.go:61-81 | A success publishes the engine under the next revision; a failure, also at the last revision, leaves the current publication. |
| Publication.PublishTo | runtime.go:61-81 | Publishing to a nil runtime is refused as such, whatever the engine; to any other it is the lone publisher's step. |
| Publication.RunsKeepInvariant | runtime.go:61-112 | No interleaving of publishers and loads breaks the invariant. |
| Publication.RevisionsCountStores | runtime.go:68-79 | The visible revision is the number of successful stores: none is skipped, repeated or decreased, and none wraps at the largest 64-bit revision. |
| Publication.StoresAreAtomicPublishes | runtime.go:55-58 | Only the store step changes the current publication, and it does what the publisher alone would do at that moment. |
| Publication.ResultsMatchStores | runtime.go:61-81 | Every accepted publisher owns the one store of the revision it was told, with its own engine; a refusal means no engine or no revision left. |
| Publication.FiresUseStoredPairs | runtime.go:101-112 | Every execution uses an engine and identity stored together by one publisher, the current one when it loaded, and later loads never see an earlier one. |

## Left out

- PropagatePanics: no result is promised when a panic propagates, so only recovered panics are modelled, without stacks.
- Trace durations, clocks, textual explanations, `String` and `Error` texts: presentation only.
- Snapshot identity inside events and results: it is copied unchanged, and publication is modelled on its own.
- Generics, defensive copying of slices and strings, and retention by the garbage collector: not functional properties.
- Nested executions masking the recorder: a nested execution is one more callback that does not write to the outer recorder.
- The definition list is one sequence, not the source's two alternative slices; rule and group builders are plain data.
- Long loop bodies of `executeRules` and `equal` are split into methods of the same class, one for each decision.
- Stable sorting is a recursive specification of the library sort the source calls.
- Execution.Fire: callbacks are functions of the call history, so behaviour that depends on anything user code cannot notice is not modelled.
- Conditions.Trace: covers one evaluation whose callbacks use each recording context once; `Recorder` covers all other uses, there without panics that reach the rule.
- Recorder.FrozenOperatorsAreSound: recordings are indexed nodes instead of references, and panics that unwind an invocation appear as invocations that never continue.
- NativeComparison.NativeEqual: a limit is excluded by a sufficient condition, not an exact one; conversions inside a leaf comparison, and limits they hit, belong to the leaf relation.
- NativeEquality: reflection is a heap of pointer, struct, string, byte-slice, slice, map and leaf places; structs list only their exposed fields, and time values are leaves.
- InputBudget.ProjectBinding: as for ProjectBindings, a binding with a descriptor and its mismatch error are not modelled.
- InputBudget.ProjectBindings: protobuf messages and their descriptors are not modelled; a projection's error is one answer without content.
- ParamSchema.ValidateSchema: sizes and decoding methods of types are given facts; which of several faults is reported first follows the search and is not part of the contract.
- CEL parsing, checking and programs, protobuf reflection, native conversion, regular-expression bounds: behaviour of libraries, or small members beside the ones here.
- JSON decoding, the action registry and definition documents: plumbing over a library decoder.
- OpenTelemetry export, scripts, benchmarks and examples: no engine behaviour.
