# Pineapple pipeline: a verified model

This project models the core of the Pineapple pipeline engine and proves that its layers fit together.

1. **The Apple DSL compiler.** `flow.if_()` … `end_if_()` blocks and nested sub-flows are recorded, flattened into a
   global list of guarded calls, renamed and named (`calls`, `flows`, `flow_builder`, `control_flow`, `agreement`,
   `pitfall`, `naming`, `operator_names`, `subflows`, `flow_traversal`, `compiler`), and the loader expands the emitted
   tree again (`expansion`, `flattening`). `recording` says which scripts are accepted.
   The validator's test for exclusive branches is in `exclusion`, `exclusion_groups` and `exclusion_converse`.
2. **The dependency graph.** Field trackers, the virtual row set and additive writers give the edges; a cycle check and
   a transitive reduction follow (`accesses`, `trackers`, `graphs`, `reachability`, `traversal`, `dag`).
3. **Runs.** What one operator does to a frame, when two operators commute, why every run that respects the graph is the
   declared run, and the ready-queue scheduler that produces such runs (`frames`, `operators`, `commute`, `schedule`,
   `append_order`, `scheduler`).
4. **All steps in a row.** `deployment` goes from the recording calls to the graph and any interleaving on it;
   `christening` carries the final names through compilation.
5. **Storage.** What an output means without its stages (`effects`), the row frame, and the column frame with its
   in-place array algorithms (`columns`, `column_store`, `row_frame`, `column_frame`).
6. **The reader-writer lock**, a port of Go's `RWMutex` (`shared_mutex`). It stands alone: the frames use
   `std::shared_mutex`.
7. **JSON text.** The parser, the writer and the rendering of numbers (`texts`, `decimals`, `json_strings`,
   `json_numbers`, `json`, `json_parser`, `json_writer`, `json_round_trip`), and what the parser accepts (`json_reading`).

`Deployment.Deploy` performs recording, traversal, naming, emission, expansion and graph construction, and says exactly
which pipelines are refused. `Deployment.DeployedRunMeansStructuredRun` says that on the graph it ends with, every
interleaving serves a request as the structured pipeline is meant to, apart from control fields.
`ColumnFrames.ReplayOnBoth` says that frames do not depend on the storage mode.

`frames.dfy` gives the meaning of applying an operator's output on plain rows. Both frame classes are proved against it,
and the theory of runs is built on it. Classes stand where the original updates objects in place (`Graph`, `FlowBuilder`,
`Compilation`, `RowFrame`, `ColumnFrame`, `TypedColumnStore`, `SharedMutex`, `JsonParser`, `JsonWriter`); their methods
are tied to functions on values, about which the lemmas speak. The scheduler and the lock are transition systems over
their atomic steps.

## Findings

- A branch that is not due is still checked for the fields of its condition. The coverage check counts a field as
  provided although its writer may be skipped, so an accepted pipeline can fail on the condition of a branch that is
  never reached (`Pitfall`). The flat run is the structured one exactly when the conditions behind each branch taken find
  their fields (`Agreement.Provided`); fields that are present when a block is entered are enough.
- Two appending operators are deliberately left unordered by the scan. Runs are then equal up to the order of rows, and
  literally equal for all behaviours exactly when the graph happens to order them (`AppendOrder`).
- The cycle check lists nodes below a cycle as well as those on one, and can never fail on a graph built from
  declarations (`Traversal.TopologicalCheck`, `Dag.CheckAndReduce`).
- A sub-flow path does not determine its control fields: `a:` with child `b` and `a` with child `:b` give the same ones.
  The check for duplicate explicit names is what keeps control fields apart (`Naming.PathsMayCollide`,
  `Compiler.CaptureFree`).
- The number attached to a repeated generated name is not itself registered, so an accepted list can end up with two
  operators of one name (`OperatorNames.AcceptedListWithClash`); the exact condition is `OperatorNames.DistinctUnlessClash`.
- A flow with an empty name directly below the root compiles, and the loader then refuses the configuration
  (`Flattening.NamelessFlowRefused`).
- A refused addition leaves more rows behind in the column frame than in the row frame; `ColumnFrames.Leftover` says
  which. `item_object` keeps nulls on columns and drops them on rows; `validate_strict_items` differs without rows.

## Model

| member | source | states |
|---|---|---|
| `Accesses.CommonReadFields` | pine-cpp/include/pine/pine.hpp:269-288 | the reads used for ordering are the union of the business, skip and template buckets; when the last two are used, each field stands once, in the order of first occurrence |
| `Accesses.ConflictIffHazard` | pine-cpp/src/dag/dag.cpp:30-105 | two operators conflict if and only if some field, or the row set, is written in place by one and read or written by the other, or appended to by one and read by the other; said over the declared fields and flags |
| `Accesses.SharedReadsAreFree` | pine-cpp/src/dag/dag.cpp:48-57 | operators that share only what both read do not conflict |
| `Accesses.SharedAppendsAreFree` | pine-cpp/src/dag/dag.cpp:44-47 | operators that only append rows do not conflict, whatever fields their rows have |
| `Trackers.AccessStep` | pine-cpp/src/dag/dag.cpp:48-103 | one access handled through its field tracker keeps this: every earlier clashing access already reaches it, every remembered access is still reachable from the tracker although writers clear the lists, and every new edge joins two accesses that clash |
| `Trackers.SettledReaches` | pine-cpp/src/dag/dag.cpp:48-75 | an operator at or above the last in-place writer stays ordered before whatever touches the field next |
| `Graphs.LinkedAdds` | pine-cpp/src/dag/dag.cpp:18-28 | linking two nodes adds exactly one edge and keeps successor and predecessor lists mirrored and free of repetition |
| `Graphs.Graph.AddEdge` | pine-cpp/src/dag/dag.cpp:18-28 | a self-loop and an existing edge change nothing; otherwise exactly that edge is added |
| `Graphs.Graph.ScanOperator` | pine-cpp/src/dag/dag.cpp:36-103 | the accesses of one operator, row-set injection and additive writes included, are all recorded and ordered against the earlier ones |
| `Graphs.Graph.ScanFields` | pine-cpp/src/dag/dag.cpp:30-105 | after a scan every conflicting pair of operators in that name space is connected by a path, and each added edge is a conflict between its two ends |
| `Graphs.ScanOrdersConflicts` | pine-cpp/src/dag/dag.cpp:30-105 | the tracker invariant over all accesses implies a path for every conflict, and a conflict behind every edge |
| `Reachability.BelowACycle` | pine-cpp/src/dag/dag.cpp:178-190 | in a finite set where each member has a predecessor inside, each member lies on a cycle or below one |
| `Reachability.ReductionIsLeast` | pine-cpp/src/dag/dag.cpp:133-149 | the edges without a detour keep reachability in both directions, none of them can be dropped, and every edge set with the same reachability contains them |
| `Traversal.ReachableWithout` | pine-cpp/src/dag/dag.cpp:107-131 | the search answers true exactly when another walk joins the two nodes once their direct edge is left out |
| `Traversal.TopologicalCheck` | pine-cpp/src/dag/dag.cpp:151-191 | reports nothing exactly for acyclic graphs; otherwise it lists, in ascending order, exactly the nodes on a cycle or below one |
| `Traversal.Leftovers` | pine-cpp/src/dag/dag.cpp:178-190 | the nodes that are never counted down to zero are exactly those on or below a cycle |
| `Dag.Reduce` | pine-cpp/src/dag/dag.cpp:133-149 | exactly the edges without a detour in the old graph are kept |
| `Dag.BuildDag` | pine-cpp/src/dag/dag.cpp:195-232 | fails exactly for a missing operator or a bad source, with the first such problem; otherwise the nodes carry their names and sub-flows, and the edges are exactly the required ones without a detour: each joins two operators whose declarations clash or a declared source to its operator, and all such pairs are ordered |
| `Dag.BuiltExactlyWhen` | pine-cpp/src/dag/dag.cpp:195-228 | construction succeeds if and only if every name has an operator and every declared source names earlier operators only |
| `Dag.FirstBadSource` | pine-cpp/src/dag/dag.cpp:212-228 | of the sources of an operator the first bad one is reported, as unknown or as a forward reference |
| `Reachability.ReductionIsUnique` | pine-cpp/src/dag/dag.cpp:133-149 | on forward-going edges the reduction depends on reachability alone |
| `Dag.CheckAndReduce` | pine-cpp/src/dag/dag.cpp:229-230 | on a forward-going graph the cycle check cannot fail, and reduction keeps reachability |
| `Dag.RequiredOrderReached` | pine-cpp/src/dag/dag.cpp:195-229 | the edges of both scans and of the sources reach exactly what the required order reaches |
| `Dag.AddSources` | pine-cpp/src/dag/dag.cpp:212-229 | every declared source becomes an edge from the last operator of that name; an unknown or later source is the error reported |
| `Frames.OrderAccepted` | pine-cpp/src/dataframe/row_frame.cpp:224-247 | an item order passes the checks exactly when it is a permutation of the row numbers |
| `Effects.ScanFindsSpoiled` | pine-cpp/src/dataframe/frame_values.hpp:24-46 | the scan finds exactly the values in which some path of at most a thousand positions ends at NaN or infinity |
| `Effects.AcceptedExactlyWhen` | pine-cpp/src/dataframe/row_frame.cpp:156-274 | a frame takes an output if and only if no common, item or added value is spoiled, indices and lengths fit, removals are in range and the order is a permutation of the rows that stay |
| `Effects.CommonRefused` | pine-cpp/src/dataframe/row_frame.cpp:164-170 | common writes are refused at the first spoiled value, with its field; the writes before it stay |
| `Effects.RowRefused` | pine-cpp/src/dataframe/row_frame.cpp:250-260 | an added row is refused for its first spoiled value |
| `Effects.LastWriteWins` | pine-cpp/src/dataframe/row_frame.cpp:164-203 | a field has the value of the last write to it, and fields without a write are left alone |
| `Effects.RowsThatStay` | pine-cpp/src/dataframe/row_frame.cpp:204-221 | exactly the rows that are not removed stay, in their order |
| `Effects.AppliedMeans` | pine-cpp/src/dataframe/row_frame.cpp:156-274 | after an accepted output each row is a row that stays with what was written to it, arranged as ordered; the added rows follow, those of a recall naming their source, and then the warning |
| `Operators.CommonAsDelta` | pine-cpp/src/dataframe/row_frame.cpp:164-170 | common writes succeed exactly when no value contains NaN or infinity, and then merge into the common row, later writes winning |
| `Operators.CellsAsDelta` | pine-cpp/src/dataframe/row_frame.cpp:172-182 | item writes succeed exactly when every index and value is fine, and then act on each row separately |
| `Operators.ColumnsAsDelta` | pine-cpp/src/dataframe/row_frame.cpp:184-203 | column writes succeed exactly when lengths and values are fine, and then act on each row separately |
| `Operators.InPlaceEffect` | pine-cpp/src/dataframe/row_frame.cpp:164-203 | an output without removals, order and additions merges one delta into the common row and one into each item |
| `Operators.AppendEffect` | pine-cpp/src/dataframe/row_frame.cpp:251-268 | an output with additions only puts a block of rows at the end that does not depend on the rows already there |
| `Commute.LogUnaffected` | pine-cpp/src/runtime/engine.cpp:1113-1190 | without a conflict, one operator finishing does not change what another one sees or does, its skip test included |
| `Commute.StagesCommute` | pine-cpp/src/dag/dag.cpp:48-103 | without a conflict the item stages of two outputs fail together and give the same rows in either order, up to the order of appended blocks |
| `Commute.StepsCommute` | pine-cpp/src/dag/dag.cpp:30-105 | two operators without a conflict give the same frame or failure in either order; exactly the same unless both append rows |
| `Schedule.OrdersAgree` | pine-cpp/src/dag/dag.cpp:195-232 | two orders of the same operators that disagree on swappable pairs only end alike |
| `Schedule.LegalRunAgrees` | pine-cpp/src/dag/dag.cpp:195-232 | every run that respects the graph ends like the declaration order, literally or up to row order |
| `Schedule.EveryRunIsTheDeclaredRun` | pine-cpp/src/dag/dag.cpp:195-232 | when appending operators are ordered, every run that respects the graph ends in literally the frame of the declaration order |
| `AppendOrder.UnorderedAppendsDiffer` | pine-cpp/src/dag/dag.cpp:44-47 | for two appending operators that the graph leaves unordered, some behaviours make two legal runs differ |
| `AppendOrder.DeterministicIffAppendsOrdered` | pine-cpp/src/dag/dag.cpp:44-47 | all legal runs agree for all operator behaviours if and only if the graph orders every two appending operators |
| `Scheduler.AncestorsCommitted` | pine-cpp/src/runtime/engine.cpp:1004-1013 | whatever reaches a started node has been committed before it starts |
| `Scheduler.RunningApart` | pine-cpp/src/runtime/engine.cpp:1033-1193 | operators that run side by side never conflict |
| `Scheduler.NotifyKeeps` | pine-cpp/src/runtime/engine.cpp:1004-1020 | counting a successor down keeps every in-degree equal to the number of predecessors still to report, and readies it exactly at zero |
| `Scheduler.ApplyKeeps` | pine-cpp/src/runtime/engine.cpp:1113-1193 | a commit keeps the frame equal to running the finished operators one by one, and keeps the outputs that others are still computing valid |
| `Scheduler.SomethingEnabled` | pine-cpp/src/runtime/engine.cpp:1283-1305 | while a node is unfinished some event can happen |
| `Scheduler.EveryInterleavingKeeps` | pine-cpp/src/runtime/engine.cpp:974-1305 | the scheduler invariant over every interleaving, and a bound on the number of events |
| `Scheduler.EveryInterleavingEndsAsDeclared` | pine-cpp/src/runtime/engine.cpp:940-1305 | every interleaving stops after finitely many events with each operator committed once and the frame of the declaration order; up to row order when appends are unordered |
| `Scheduler.BuiltGraphIsRunnable` | pine-cpp/src/dag/dag.cpp:195-232 | what graph construction guarantees is what the scheduler needs |
| `SharedMutexes.FireKeeps` | pine-cpp/include/pine/shared_mutex.hpp:64-145 | every atomic operation of any thread keeps the balance between counters, semaphores, the writer phase and the anonymous crowd of readers, token stealing included |
| `SharedMutexes.Exclusion` | pine-cpp/include/pine/shared_mutex.hpp:64-145 | a writer holds the lock together with no reader and no other writer |
| `SharedMutexes.EveryInterleavingExcludes` | pine-cpp/include/pine/shared_mutex.hpp:64-145 | mutual exclusion after every sequence of atomic operations of any number of threads below the reader limit |
| `SharedMutexes.CountersFit` | pine-cpp/include/pine/shared_mutex.hpp:87-145 | counters stay within their range, the writer semaphore never exceeds one, reader tokens never exceed blocked readers, and the assertions in the code hold |
| `SharedMutexes.SomeoneCanMove` | pine-cpp/include/pine/shared_mutex.hpp:64-145 | no lost wake-up: while a thread is not idle, some thread that is not idle can take a step |
| `SharedMutexes.QuietIsReset` | pine-cpp/include/pine/shared_mutex.hpp:153-159 | when all threads are idle every word has its initial value again |
| `SharedMutexes.EveryInterleavingSettles` | pine-cpp/include/pine/shared_mutex.hpp:64-145 | the number of steps is bounded by the operations begun and the compare-and-swap retries; when no step is left the lock is back in its initial state |
| `SharedMutexes.ReaderOutcomes` | pine-cpp/include/pine/shared_mutex.hpp:64-94 | in any reachable state a reader gets in at once if and only if no writer has announced itself; a try gives up exactly when one has |
| `SharedMutexes.TryBegins` | pine-cpp/include/pine/shared_mutex.hpp:121-124 | a writer try gives up at once, changing nothing, exactly when the mutex of the writers is taken |
| `SharedMutexes.WriterOutcomes` | pine-cpp/include/pine/shared_mutex.hpp:102-132 | a writer with the mutex gets the lock at once if and only if no reader holds it or waits for it; otherwise a try backs out and a lock waits |
| `SharedMutexes.TryLeavesNoTrace` | pine-cpp/include/pine/shared_mutex.hpp:121-132 | a try that fails on readers leaves the state as it was |
| `SharedMutexes.FreeLockIsTaken` | pine-cpp/include/pine/shared_mutex.hpp:64-132 | on a lock that nobody holds or waits for each of the four operations gets in, with nobody else moving |
| `SharedMutexes.UnlockWakes` | pine-cpp/include/pine/shared_mutex.hpp:134-145 | a leaving writer posts exactly one token for each blocked reader |
| `SharedMutexes.SharedMutex.LockShared` | pine-cpp/include/pine/shared_mutex.hpp:64-71 | one fetch-add on a 32-bit word without overflow; the sign of the old value decides between reading and blocking |
| `SharedMutexes.SharedMutex.CompareExchangeReader` | pine-cpp/include/pine/shared_mutex.hpp:73-85 | takes the lock, and raises the count by one, exactly when the attempt is not spurious and the count is still the one seen; otherwise gives up exactly when a writer is announced |
| `SharedMutexes.SharedMutex.UnlockShared` | pine-cpp/include/pine/shared_mutex.hpp:87-94 | the decrement, the assertion on the old value, and the decision whether to drain |
| `SharedMutexes.SharedMutex.Drain` | pine-cpp/include/pine/shared_mutex.hpp:96-98 | the last reader that a writer waits for is the one that posts |
| `SharedMutexes.SharedMutex.ReleaseWriterSem` | pine-cpp/include/pine/shared_mutex.hpp:96-98 | the writer semaphore goes from zero to one, never higher |
| `SharedMutexes.SharedMutex.Announce` | pine-cpp/include/pine/shared_mutex.hpp:106-111 | the announcement drives the count negative and remembers the readers to wait for |
| `SharedMutexes.SharedMutex.AddReaderWait` | pine-cpp/include/pine/shared_mutex.hpp:112-119 | the writer waits unless all those readers have drained already |
| `SharedMutexes.SharedMutex.TryAnnounce` | pine-cpp/include/pine/shared_mutex.hpp:121-132 | the lock is taken, and the count becomes that of an announced writer, exactly when the count is zero; otherwise nothing changes and the try backs out |
| `SharedMutexes.SharedMutex.Unannounce` | pine-cpp/include/pine/shared_mutex.hpp:134-139 | the new count is the number of queued readers |
| `SharedMutexes.SharedMutex.ReleaseReaderSem` | pine-cpp/include/pine/shared_mutex.hpp:140-142 | one token is posted for each queued reader |
| `Calls.WithSkipsAdds` | apple/flow.py:73-89 | attaching skip fields adds exactly those to the skips, makes all of them ordering dependencies, and changes nothing else |
| `Calls.Dormant` | pine-cpp/src/runtime/engine.cpp:70-78 | calls that all carry one skip field holding anything but null and false leave frame and trace unchanged |
| `Calls.RunsUnlessSkipped` | pine-cpp/src/runtime/engine.cpp:70-78 | an operator is passed over exactly when a skip field holds anything but null and false |
| `Calls.DedupedLists` | apple/control.py:46-55 | the inputs of a control operator are listed once each in order of first mention |
| `ControlFlow.GuardedStep` | pine-cpp/src/dataframe/operator_input.cpp:113-150 | a guarded operator whose guards are off sees, does and fails exactly like the unguarded one, and leaves control fields alone |
| `ControlFlow.ControlStep` | apple/control.py:40-83 | a control operator records false exactly when no earlier branch was taken and its condition holds; it fails when a field of its condition is absent or the condition raises, even if an earlier branch was taken |
| `ControlFlow.CompiledCarry` | apple/flow.py:64-89 | every compiled call carries all guards in force around it |
| `ControlFlow.BranchMeans` | apple/control.py:40-83 | the body of a branch runs exactly when the branch is due and its condition holds, and the branch that is not due still fails on an absent field |
| `ControlFlow.BranchAndOthersMean` | apple/flow.py:196-282 | of a branch and the ones after it, the first whose condition holds runs, none if an earlier branch was taken; every condition behind is still checked for its fields |
| `ControlFlow.CompiledMeansEnacted` | apple/flow.py:64-301 | the guarded flat calls run the operators of the nested fragment in the same order with the same result apart from control fields, at any place inside other branches and flows, where conditions that are not due are checked for their fields only |
| `Agreement.EnactedIffProvided` | pine-cpp/src/dataframe/operator_input.cpp:175-183 | that meaning is the structured one, in which a condition is looked at only when it is due, exactly when in each entered block the conditions behind the branch taken find their fields; otherwise the request fails |
| `Agreement.FurnishedProvides` | pine-cpp/src/dataframe/operator_input.cpp:175-183 | it is enough that each entered block finds the fields of all its conditions on entry |
| `Agreement.SuppliedFurnishes` | apple/validator.py:97-128 | a request that supplies every field any condition asks for is served as declared, whatever the operators do |
| `Pitfall.StructuredRunSucceeds` | apple/control.py:46-55 | at a concrete pipeline and request the structured run succeeds, while the condition of a branch that is not due lacks its field |
| `Pitfall.FlatRunFails` | apple/validator.py:97-128 | the flat run of that pipeline, whose names are accepted, fails on the same request |
| `Flows.ScriptRecords` | apple/flow.py:101-301 | recording any declarable structured fragment raises no error and leaves exactly the calls, counters and closed blocks of its direct lowering |
| `Flows.BodyOccupies` | apple/flow.py:284-301 | a branch with something in it passes the check for empty branches |
| `Recordings.AcceptedIffDeclarable` | apple/flow.py:101-301 | recording a pipeline, whose user operators carry no control field yet, raises an error if and only if some condition is blank, some branch is empty or some name has a separator |
| `Recordings.EndIfAccepted` | apple/flow.py:284-301 | after any script, end_if_ succeeds if and only if a block is open and in each branch, between its opening and the next one, a call or nested flow carries its field |
| `Recordings.EmptyBranchReported` | apple/flow.py:291-300 | the first branch without such a call or flow is the one reported |
| `Recordings.BranchAccepted` | apple/flow.py:196-282 | after any script, the next branch can be opened if and only if a block is open whose last branch is no else, and the condition is not blank |
| `Recordings.NestedAccepted` | apple/flow.py:178-192 | a nested flow is accepted if and only if its own script is and its name has no slash and no two colons in a row |
| `FlowBuilders.FlowBuilder.ActiveSkipFields` | apple/flow.py:64-71 | the current field of every open block, outermost first |
| `FlowBuilders.FlowBuilder.AddOp` | apple/flow.py:101-176 | the call is recorded last, under all active guards |
| `FlowBuilders.FlowBuilder.AddSubFlow` | apple/flow.py:178-192 | a slash or double colon in the name is refused; otherwise the nested flow is recorded with the active guards |
| `FlowBuilders.FlowBuilder.If` | apple/flow.py:196-220 | a blank condition is refused; otherwise a block is opened and its control call recorded under the outer guards |
| `FlowBuilders.FlowBuilder.ElseIf` | apple/flow.py:222-252 | the errors of the call, and otherwise the next branch with the fields of all earlier ones |
| `FlowBuilders.FlowBuilder.Else` | apple/flow.py:254-282 | the errors of the call, and otherwise the last branch |
| `FlowBuilders.FlowBuilder.EndIf` | apple/flow.py:284-301 | the block is closed, and the first branch that guards nothing is the error, as `Recordings.EmptyBranchReported` spells out |
| `FlowBuilders.MakeControlOp` | apple/control.py:40-83 | the control call of a branch, its inputs listed once each in order of first mention |
| `FlowBuilders.ApplySkipFields` | apple/flow.py:73-89 | skip fields are attached one by one |
| `Naming.RawFieldInjective` | apple/flow.py:196-282 | branch kind and number can be read off a control field |
| `Naming.FieldDeterminesName` | apple/compiler.py:272-303 | across all flows, two control operators with one field have one name |
| `Naming.PathsMayCollide` | apple/compiler.py:290-294 | different flow paths can give the same control fields, so paths alone do not keep them apart |
| `Naming.NamesAtExample` | apple/compiler.py:272-303 | names, fields and paths at an example |
| `OperatorNames.AssignNames` | apple/compiler.py:48-63 | the naming loop: an explicit name used before is refused, a repeated one gets a number |
| `OperatorNames.Assigned` | apple/compiler.py:48-63 | refused exactly when some explicit name occurs earlier; otherwise each name is the own name with its count |
| `OperatorNames.DistinctUnlessClash` | apple/compiler.py:48-63 | accepted names are distinct if and only if no repeated name, with its number, is the own name of an operator |
| `OperatorNames.AcceptedListWithClash` | apple/compiler.py:53-62 | a list that is accepted although an explicit name meets the number of a repeated generated one |
| `SubFlows.RenameControlFields` | apple/compiler.py:272-303 | the renaming loop over the control calls of one flow |
| `SubFlows.RenamesFlow` | apple/compiler.py:250-303 | renaming one control field after the other equals renaming all at once, old names never being new ones |
| `SubFlows.BranchCallSettles` | apple/compiler.py:250-330 | a renamed control call with inherited guards is the control call compiled for its path |
| `SubFlows.UserCallSettles` | apple/compiler.py:305-330 | a user call only gains guards, local ones renamed, inherited ones as they are |
| `SubFlows.LoweredWalks` | apple/compiler.py:395-426 | walking over the children of a recorded fragment appends exactly its compiled calls |
| `SubFlows.TraverseCompiles` | apple/compiler.py:349-426 | traversing a flow recorded from structured code appends exactly its compiled calls to the global list, at any nesting depth, unless a path repeats (`Flattening.RefusedIffPathsRepeat`) |
| `FlowTraversal.Compilation.Visit` | apple/compiler.py:349-426 | the traversal on shared lists: calls, structures, groups and the error for a repeated path |
| `FlowTraversal.Compilation.VisitChildren` | apple/compiler.py:395-418 | children in declaration order, nested flows entered with inherited and renamed guards |
| `FlowTraversal.CollectExclusionGroups` | apple/compiler.py:333-346 | the renamed fields of every closed block with more than one branch |
| `Compiler.CaptureFree` | apple/compiler.py:54-57 | through any nesting, when the name check passes, distinct control operators write distinct fields |
| `Compiler.GuardsHaveOneWriter` | apple/compiler.py:250-330 | every guard of a call is written by exactly one control call, an earlier one, whose own guards the call carries as well |
| `Compiler.RecordedAndFlattened` | apple/compiler.py:36-44 | recording a declarable structured flow raises no error; traversing it gives its compiled calls, and is refused exactly when two nested flows have one path |
| `Compiler.FlatRunMeansStructuredRun` | apple/compiler.py:36-62 | for every initial frame the flat run performs exactly the operators of the structured run, in order, with the same result apart from control fields, if and only if no condition that is not due lacks a field; otherwise it fails |
| `Compiler.AnyParallelRunMeansStructuredRun` | pine-cpp/src/dag/dag.cpp:195-232 | on any graph that covers the conflicts, a complete parallel run succeeds exactly when the structured run does and no condition lacks its fields, and then ends in its frame, apart from control fields |
| `Christening.CompiledChristened` | apple/compiler.py:48-63 | compiling the pipeline whose operators go by their final names gives the compiled calls under these names |
| `Deployment.RecordScript` | apple/flow.py:101-301 | a script of calls on builder objects, nested flows on builders of their own, records what the value-level recording says, or stops at the same mistake |
| `Deployment.Emit` | apple/compiler.py:48-161 | emission is refused exactly for a refused name or a name that is a path, and otherwise gives the operators under their names and the entries of each flow |
| `Deployment.ExpandedAsNamed` | pine-cpp/src/config/config.cpp:459-473 | what was emitted expands exactly when names are distinct and no flow directly below the root is nameless, and then gives back the names in order with their flows |
| `Deployment.Load` | pine-cpp/src/dag/dag.cpp:195-232 | loading succeeds exactly when expansion and graph construction do, and the graph is that of the expanded sequence |
| `Deployment.Deploy` | apple/compiler.py:36-161 | recording, traversal, naming, emission, expansion and graph construction in a row: refused exactly when the stated condition on the pipeline fails, and otherwise the graph is one for its named operators |
| `Deployment.DeployedRunMeansStructuredRun` | pine-cpp/src/runtime/engine.cpp:940-1305 | on the graph of a deployed pipeline every complete interleaving serves a request as the structured pipeline is meant to, apart from control fields; it fails exactly when that one fails or leaves a condition without its fields |
| `Flattening.WalkUnfolds` | apple/compiler.py:395-418 | the entries of one flow unfold into a tree whose leaves are the calls that the walk added |
| `Flattening.ExpansionUndoesFlattening` | apple/compiler.py:148-170 | expanding the emitted tree succeeds exactly when the operator names are distinct, and then lists exactly the operators of the traversal, in its order, each with its path |
| `Flattening.RefusedIffPathsRepeat` | apple/compiler.py:395-426 | the traversal reports a duplicate path exactly when two nested flows have one |
| `Flattening.NamelessFlowRefused` | pine-cpp/src/config/config.cpp:264-286 | a nameless flow directly below the root is recorded and compiled, and the loader then refuses it |
| `Expansion.ExpandEntries` | pine-cpp/src/config/config.cpp:264-286 | the recursive expansion, which terminates on every map of flows, cyclic ones included |
| `Expansion.ExpansionIsDepthFirst` | pine-cpp/src/config/config.cpp:264-286 | expansion succeeds if and only if the entries unfold into a finite tree in which no operator occurs twice, and then lists its operators depth first with the flow of each |
| `Expansion.SuccessUnfolds` | pine-cpp/src/config/config.cpp:264-286 | what a successful expansion has produced is the leaves of a finite tree |
| `Expansion.ForestExpands` | pine-cpp/src/config/config.cpp:264-286 | a finite tree with distinct operators never triggers the cycle or repetition error |
| `Expansion.NoFlowInsideItself` | pine-cpp/src/config/config.cpp:273-280 | a flow that unfolds does not contain itself, directly or not |
| `Exclusion.AreMutuallyExclusive` | apple/validator.py:136-142 | true exactly when for some group both skip lists name a field of it, and some field of it is in one list only |
| `Exclusion.GuardWasTaken` | apple/control.py:58-69 | when a guarded call runs, the control call behind each of its guards ran before and took its branch |
| `Exclusion.ExclusiveNeverBothRun` | apple/validator.py:134-142 | in any flat list with one writer per control field, operators judged exclusive never both run |
| `ExclusionGroups.LoweredBlocks` | apple/compiler.py:333-346 | the fields of every recorded block are chained: each control call reads all earlier branches of its block |
| `ExclusionGroups.ExclusionIsSound` | apple/validator.py:134-142 | for any nesting and any outcome of the conditions, two operators that the collected groups judge exclusive never run in one request |
| `ExclusionConverses.CompiledApart` | apple/compiler.py:305-330 | over any nesting no call is guarded by two branches of one block |
| `ExclusionConverses.FlowCovers` | apple/compiler.py:333-346 | whatever nesting a block stands in, the traversal collects a group with any two of its fields |
| `ExclusionConverses.ExclusiveIffInTwoBranches` | apple/validator.py:134-142 | two operators are judged exclusive if and only if they stand in two different branches of one block |
| `Columns.CompactWithBitmap` | pine-cpp/src/dataframe/column.cpp:48-60 | compaction in place leaves exactly the unflagged elements, in order |
| `Columns.CycleStep` | pine-cpp/src/dataframe/column.cpp:127-138 | filling the free slot from its source keeps the part of the permutation already done |
| `Columns.ReorderInPlace` | pine-cpp/src/dataframe/column.cpp:105-142 | following cycles permutes data and presence flags as ordered, whatever was left in the scratch flags, writing each slot at most once |
| `Columns.FollowCycle` | pine-cpp/src/dataframe/column.cpp:123-140 | one cycle is carried out completely and nothing else moves |
| `Columns.RemoveWithBitmap` | pine-cpp/src/dataframe/column.cpp:321-325 | removal on a whole column keeps data and presence flags together |
| `Columns.Reorder` | pine-cpp/src/dataframe/column.cpp:327-330 | reorder on a whole column keeps data and presence flags together |
| `Columns.ToJsonColumn` | pine-cpp/src/dataframe/column.cpp:340-351 | promotion keeps the content of every slot, absent ones included |
| `Columns.InferKind` | pine-cpp/src/dataframe/column.cpp:415-450 | the inferred kind accepts every non-null value, and is Json only when no other kind would |
| `Columns.SetSlotStores` | pine-cpp/src/dataframe/column.cpp:200-259 | a typed write stores the value exactly; integers come back as the same number |
| `Columns.AppendSlotStores` | pine-cpp/src/dataframe/column.cpp:261-308 | a typed append stores the value exactly |
| `ColumnStores.OneCell` | pine-cpp/src/dataframe/column_frame.cpp:293-298 | writing one slot of a column writes one field of one row |
| `ColumnStores.SelectedRows` | pine-cpp/src/dataframe/column_store.cpp:49-95 | selecting rows in every column selects rows |
| `ColumnStores.SurvivorCount` | pine-cpp/src/dataframe/column_store.cpp:74-78 | the kept count computed from the index set is the number of rows kept |
| `ColumnStores.TypedColumnStore.SetColumn` | pine-cpp/src/dataframe/column_store.cpp:27-42 | a column of another length is refused unless it is the first of an empty store |
| `ColumnStores.TypedColumnStore.RemoveRows` | pine-cpp/src/dataframe/column_store.cpp:49-79 | an index out of range changes nothing; otherwise exactly the listed rows go |
| `ColumnStores.TypedColumnStore.ReorderRows` | pine-cpp/src/dataframe/column_store.cpp:81-95 | all columns are permuted alike, sharing one scratch buffer |
| `ColumnStores.TypedColumnStore.ExtendRows` | pine-cpp/src/dataframe/column_store.cpp:97-107 | empty rows are added at the end |
| `RowFrames.CheckOrder` | pine-cpp/src/dataframe/row_frame.cpp:224-247 | the order check with its seen flags finds the first bad index or repetition, or accepts a permutation |
| `RowFrames.RowFrame.ApplyOutput` | pine-cpp/src/dataframe/row_frame.cpp:156-274 | all stages in order; the new frame and the error, partial effects included; refused exactly when the output is not acceptable |
| `RowFrames.RowFrame.Item` | pine-cpp/src/dataframe/row_frame.cpp:72-88 | null for rows out of range and absent fields |
| `RowFrames.RowFrame.ItemColumn` | pine-cpp/src/dataframe/row_frame.cpp:123-139 | one value per row, null where absent |
| `RowFrames.RowFrame.ToResult` | pine-cpp/src/dataframe/row_frame.cpp:276-310 | exactly the requested fields that are present, with their values, nulls among them |
| `RowFrames.RowFrame.ItemObject` | pine-cpp/src/dataframe/row_frame.cpp:312-330 | a field is in the object exactly when the row has it with a value other than null, and then with that value; nothing for a row out of range |
| `RowFrames.RowFrame.ValidateStrictItems` | pine-cpp/src/dataframe/row_frame.cpp:354-370 | none exactly when every row has every field with a value other than null; otherwise the first field that some row lacks or has null in, with the first such row |
| `ColumnFrames.ColumnFor` | pine-cpp/src/dataframe/column_frame.cpp:38-83 | a column built from rows holds exactly their cells, and no append is ever refused |
| `ColumnFrames.ColumnFrame.constructor` | pine-cpp/src/dataframe/column_frame.cpp:17-86 | the new column frame means exactly the given rows |
| `ColumnFrames.ColumnFrame.WriteItemField` | pine-cpp/src/dataframe/column_frame.cpp:251-299 | creation, promotion and retry together write exactly one field of one row |
| `ColumnFrames.ColumnFrame.ApplyOutput` | pine-cpp/src/dataframe/column_frame.cpp:301-414 | refused exactly when the output is not acceptable, with the error of the rows; the same frame on success and on every earlier failure; after a refused addition exactly the leftover rows more |
| `ColumnFrames.ColumnFrame.Append` | pine-cpp/src/dataframe/column_frame.cpp:389-405 | additions over columns extended in advance give the same rows, or the partial row and the empty ones behind it |
| `ColumnFrames.ColumnFrame.Item` | pine-cpp/src/dataframe/column_frame.cpp:169-188 | reads the same as on rows |
| `ColumnFrames.ColumnFrame.ItemColumn` | pine-cpp/src/dataframe/column_frame.cpp:214-234 | reads the same as on rows |
| `ColumnFrames.ColumnFrame.ToResult` | pine-cpp/src/dataframe/column_frame.cpp:416-451 | the same result as on rows: the requested fields that are present, nulls among them |
| `ColumnFrames.ColumnFrame.ItemObject` | pine-cpp/src/dataframe/column_frame.cpp:453-472 | the whole row, present nulls included, unlike on rows |
| `ColumnFrames.ColumnFrame.ValidateStrictItems` | pine-cpp/src/dataframe/column_frame.cpp:474-492 | as on rows when there are rows; without rows the first field that has no column is reported, with row zero |
| `ColumnFrames.ReplayOnBoth` | pine-cpp/src/dataframe/column_frame.cpp:301-414 | over every sequence of write logs both frames refuse the same log with the same error, or none and are equal |
| `Decimals.Decompose` | pine-cpp/src/config/json.cpp:406-463 | the in-place scan and both stripping loops give the parts of any text |
| `Decimals.DecomposedMeans` | pine-cpp/src/config/json.cpp:406-463 | the parts of a decimal text have its sign and its value, with neither leading nor trailing zeros |
| `Decimals.DecomposedIsCanonical` | pine-cpp/src/config/json.cpp:406-463 | two decimal texts of nonzero numbers have the same parts if and only if they denote the same number |
| `Decimals.MovingThePointKeeps` | pine-cpp/src/config/json.cpp:467-530 | rendering without or with an exponent keeps sign, value and every digit of the text |
| `Decimals.FormShapes` | pine-cpp/src/config/json.cpp:467-530 | one form has no exponent and no idle zeros, the other one digit before the point and a signed exponent without leading zeros |
| `JsonNumbers.FormatNumber` | pine-cpp/src/config/json.cpp:539-586 | the choice between both renderings, and the texts of zeros and non-finite values |
| `JsonNumbers.NumberTextDenotes` | pine-cpp/src/config/json.cpp:539-586 | what is written for a finite double is a decimal text that is rounded to it, with an exponent exactly below a millionth and from 10 to the 21 on |
| `JsonNumbers.ReadsDenoted` | pine-cpp/src/config/json.cpp:354-383 | a decimal text that is rounded to a double, with anything behind it that does not continue a number, is read as that double, the sign of zero included |
| `JsonNumbers.NumberIsDouble` | pine-cpp/src/config/json.cpp:354-383 | whatever number is read is a finite double |
| `JsonRoundTrips.DoublesSurvive` | pine-cpp/src/config/json.cpp:539-586 | every finite double is read back from what is written for it, in any surroundings |
| `JsonStrings.WriteString` | pine-cpp/src/config/json_writer.hpp:36-136 | the loop over safe runs appends the quoted string, whatever was in the buffer |
| `JsonStrings.StringRoundTrip` | pine-cpp/src/config/json.cpp:254-352 | every byte string, quoted anywhere in a text, is read back and the quotation is passed over exactly |
| `JsonStrings.ReadsEveryScalar` | pine-cpp/src/config/json.cpp:294-344 | every Unicode scalar value, in every hexadecimal spelling, upper and lower case mixed, with surrogates where needed, is read as its UTF-8 bytes |
| `JsonStrings.FourIffDigits` | pine-cpp/src/config/json.cpp:298-314 | four bytes are read as a number if and only if they are its digits, and refused when they are no digits |
| `JsonStrings.ReadsSurrogates` | pine-cpp/src/config/json.cpp:315-326 | a low surrogate alone is taken as it is; a high one needs a low one behind it, each failure with its error |
| `JsonStrings.ReadsLetter` | pine-cpp/src/config/json.cpp:264-292 | each of the eight letters is read as its byte, and any other is refused |
| `JsonStrings.WrittenFor` | pine-cpp/src/config/json_writer.hpp:36-136 | what is written for each byte: a letter, a lower-case code for angle brackets, ampersands, control characters and line separators, or the byte itself |
| `JsonStrings.Utf8Keeps` | pine-cpp/src/config/json.cpp:327-340 | the bytes produced for a code point decode to it again |
| `JsonRoundTrips.EmplacedOrdered` | pine-cpp/include/pine/flat_map.hpp:106-124 | adding a member to an object keeps its keys in order and distinct |
| `JsonParsers.JsonParser.ParseString` | pine-cpp/src/config/json.cpp:254-352 | the parser object reads a string as specified and stops behind it |
| `JsonParsers.JsonParser.ParseNumber` | pine-cpp/src/config/json.cpp:354-383 | the parser object passes over the bytes of a number and reads its value |
| `JsonParsers.JsonParser.ParseItems` | pine-cpp/src/config/json.cpp:233-252 | the loop over items with its separators and errors |
| `JsonParsers.JsonParser.ParseMembers` | pine-cpp/src/config/json.cpp:206-231 | the loop over members with its separators and errors; of two members with one key the first stays |
| `JsonParsers.JsonParser.Parse` | pine-cpp/src/config/json.cpp:137-149 | the whole text is one value, or the first error |
| `JsonReadings.ParsedIff` | pine-cpp/src/config/json.cpp:137-149 | a text is parsed if and only if one value stands in it, with blanks around |
| `JsonReadings.SkipMeans` | pine-cpp/src/config/json.cpp:151-155 | skipping ends at the first byte that is not one of six blanks |
| `JsonReadings.ArrayIff` | pine-cpp/src/config/json.cpp:233-252 | an array is read if and only if it is empty or its items stand in the text with commas between them and a bracket behind; missing and trailing commas are refused |
| `JsonReadings.ObjectRead` | pine-cpp/src/config/json.cpp:206-231 | an object is read only when it is empty or its members stand in the text; it holds the first member of each key and nothing else |
| `JsonReadings.StandingObject` | pine-cpp/src/config/json.cpp:206-231 | whenever its members stand in the text an object is read, with the first member of each key |
| `JsonReadings.EmplacedMeans` | pine-cpp/include/pine/flat_map.hpp:106-124 | a key that is there keeps its member; otherwise exactly the new one is added |
| `JsonWriters.JsonWriter.Dump` | pine-cpp/src/config/json_writer.cpp:9-22 | the text that has been appended is the dump of the value, compact or indented |
| `JsonWriters.BreakIs` | pine-cpp/src/config/json_writer.cpp:9-22 | a line break is a line end and indentation times depth spaces; compact text has none |
| `JsonRoundTrips.ParsingUndoesDumping` | pine-cpp/src/config/json_writer.hpp:171-218 | for any number format that survives in context, parsing a dump gives the value, at every indentation and nesting |
| `JsonRoundTrips.DumpsParseBack` | pine-cpp/src/config/json_writer.cpp:9-22 | every value of finite doubles, at every indentation, is parsed back from its dump |
| `JsonRoundTrips.ParsedValuesDump` | pine-cpp/src/config/json.cpp:137-149 | whatever text is parsed, the value can be dumped, and parsing the dump gives it again |

## Left out

- Two frames: window views, `item_fields`, locks and moves of values out of a log are not modelled; `item_fields` may list a column whose cells are all absent, so the two frames differ there.
- Numbers are reals or one non-finite value: signed zero (an Int64 column turns -0.0 into +0.0) and the rounding of doubles are not modelled.
- Columns are values inside the store rather than objects with virtual methods; the in-place algorithms on their backing arrays are modelled on arrays.
- Operators.Step: leaves warnings aside, and an operator is a function of the fields and rows it declares; the input proxy of the engine does not enforce that.
- Operators.WellFormed demands what configuration loading checks (skip fields are reads, additive and mutating exclude each other) and the registry's marker conventions; an additive operator with item inputs but without `consumes_row_set` is excluded, as its reads of the row set would not be seen by the scan.
- Scheduler.EveryInterleavingEndsAsDeclared: which error a failed run reports, cancellation by the caller, traces and metrics are not modelled; after a failure the remaining nodes commit nothing.
- data_parallel: shards, their window views and the merge of their outputs are not modelled.
- Traversal.TopologicalCheck models the list of names in the error; the message calls these nodes involved in the cycle, although nodes below one are listed too.
- SharedMutexes: atomic operations are sequentially consistent steps; C++ memory orderings are not modelled.
- Conditions are functions of the fields they mention, and may raise; the text of Lua scripts, and with it the textual replacement inside the scripts of user operators, is not modelled.
- SubFlows.TraverseCompiles: user operators and conditions neither read nor write names that control fields may have; writing them is refused by the validator for user operators, reading them is not.
- Flows: a flow object that is added to several parents or changed after it was added (rejected by identity at compile time) is not modelled; nested flows are values. Blank conditions are recognised for blanks, tabs and line ends only.
- Flattening.ExpansionUndoesFlattening: a nameless flow directly below the root is excluded here; Flattening.NamelessFlowRefused says what becomes of one.
- FlowTraversal.Compilation.Visit: the check by object identity for a flow that is visited twice is not modelled.
- Deployment.Deploy: the pipeline is one that recording accepts, keeps clear of names that control fields may have, and has no empty operator name (an empty explicit name counts as none in the original); configuration passes from emission to loading as values, without a text between, and of the validators only the checks of names and paths are modelled.
- Deployment.DeployedRunMeansStructuredRun: user operators meet `Operators.WellFormed` and appending operators are ordered by the graph.
- An operator that raises, and strict or defaulted inputs that are missing, are a behaviour without an output; the message is not modelled.
- Decimals.ReadScale: the exponent is an unbounded integer, while the `int` of the original may overflow on a long one.
- JsonNumbers.Conversion: rounding to doubles and the digits of the shortest rendering belong to the standard library and are parameters, of which `Faithful` states what is needed; the fallback for a failing `std::to_chars` is left out.
- JsonRoundTrips.DumpsParseBack: non-finite doubles are left out; they are written as texts that no parser accepts.
- Text is a sequence of bytes, each a `char`. The writer sorts the keys of an object; objects are ordered by key already, so that sorting changes nothing and is not modelled.
- Names generated from an MD5 hash of an operator's parameters are taken as given.
- validate_write_without_read remembers the latest writer only; its completeness, field coverage and dead-code detection are not modelled.
- Template resolution, the request arena, the decoding of configurations, HTTP, Redis, Lua and the Go and Java runtimes are not modelled.
