# A verified model of the statectl engine

statectl runs state changers (assess, transition, assess again, roll back, publish) as the nodes of a
dependency graph on a thread pool. This project models that engine, the registry through which nodes hand
values to later nodes, two changers that edit text files, and the stripping of archive paths, and proves
what can be relied on over whole runs.

How the parts fit together:

- `Outcomes`, `Dag`, `Scheduling`, `RunLog`: reports and outcomes; the dependency multigraph numbered in
  registration order; what the ready-count scheduler means, whose abstract state is just the reports so far;
  the reference, one sequential pass in registration order; legal histories of a run.
- `Driver`, `Nodes`, `Engine`: the classes. `Engine.StateCtl` registers nodes, starts a run and does one
  node's work; `Driver.RunState` has the counters, downstream lists, pool and blocking queue, and the loops
  over them. `wait` may return any non-empty part of the pool, absorbed in any order.
- `Registry`, `Workers`: the write-once registry; one worker's life in atomic steps (one registry read, one
  bind, the callback, one assess, transition or undo a step). `Engine.StateCtl.RunNode` is the same work as
  straight code.
- `Origins`, `RunOrigins`: what a report goes back to, in the outcomes, results and codes themselves: which
  operations were done, in which order and on which worlds, what the factory asked, what the callback got; for
  one node's steps, and for every interleaving of a whole run.
- `Machine`, `Accounts`, `Provenance`, `Determinism`, `Confluence`, `Dataflow`, `SecondRun`: a run as a
  function of its schedule, an arbitrary sequence of node numbers, so that every interleaving of worker steps and
  absorptions is some schedule; what holds in all of them, and when they all end alike. Changers act on a
  world of any type.
- `Transactions`, `Files`, `Substitution`, `ReplaceInFile`, `Lines`, `EnsureLine`: the engine's work on one
  changer in closed form; files whose reads and writes may fail at any point; the two text changers.
- `Verdicts`: what every operation of the text changers answers and leaves, case by case, in terms of where the
  line or the needle stands and of what fails.
- `LineOccurrences`, `TextPlans`, `TextExamples`: whole runs of the two text changers on a disk where nothing
  fails, and small plans for which the hypotheses hold.
- `PathStrip`: stripping leading path components.

Upstream nodes are named by registration number instead of by reference. A deferred factory is a tree of
reads: it asks the registry, goes on in a way that may depend on the answer, and in the end produces a
changer or fails. A publish callback gets the changer, what can be read off the changer object at that
moment, and the result with its details. The changers' descriptions, issue lists and messages are not
modelled; result codes and details are.

The laws about interleavings do not ask what nodes could do in principle. They ask about one run, worked
through node by node in registration order: the changers its nodes came to hold, the names they published,
the registries its factories could have met. If nodes neither above nor below each other kept apart there,
every other interleaving ends in the same state (`Dataflow.EveryRunIsOneByOne`). A factory may take a
snapshot of the whole registry, or read more or fewer names as it finds them bound, as long as it comes to
the same end; factories of nodes that never ran are not asked anything.

What the proofs brought to light:

- The rollback of `ensure_line_in_file` never undoes an insertion that the second assessment, having read
  the file, found wrong. Such a node is reported as failed with a skipped rollback, and the inserted line
  stays. This happens exactly when the anchor pattern is found on the inserted line or the line contains a
  separator other than `\n` and `\r` that `splitlines` knows (`EnsureLine.MismatchIsNeverRolledBack`): the
  assessment rejects only `\n` and `\r`. `EnsureLine.FormFeedStays` shows it for a line with a form feed
  appended to an empty file, `EnsureLine.SecondAnchorStays` for a line `k2` put after the line that starts
  with `k`.
- That rollback, where it succeeds, rewrites the file with newlines and a finished last line, so the text is
  the original one exactly when it was in that form (`EnsureLine.RollbackIsExactOnPlainText`).
  `EnsureLine.NewlineStays` shows a text without a newline at its end come back with one.
- The documentation of `StateChanger` has drivers assess before they transition. The engine does not do so
  for the inverse of a failed node (src/statectl/state_ctl.py:476-477); the model follows the code. For
  `ensure_line_in_file` that makes no difference while nothing fails (`Verdicts.EnsureInverseForetells`). The
  inverse of `replace_in_file` is assessed as invalid on a text that is neither the captured one nor what the
  match makes of it, and its transition overwrites that text all the same (`Verdicts.DriftIsOverwritten`).
- `add_deferred` uses up a number even when it then rejects the dependencies (src/statectl/state_ctl.py:141-144).

## Model

| member | source | states |
|---|---|---|
| Engine.StateCtl.ResolveUpstreams | src/statectl/state_ctl.py:155-171 | succeeds exactly when every dependency is registered, keeps repeats in order, otherwise names the first unknown one |
| Engine.StateCtl.Add | src/statectl/state_ctl.py:116-131 | registers exactly when the changer is new and all dependencies are known; the graph stays acyclic and handles stay one to one; an error changes nothing and says that the changer is a duplicate or names the first unknown dependency |
| Engine.StateCtl.AddDeferred | src/statectl/state_ctl.py:133-153 | the same for factories under a handle never given out before; needs a dependency; the counter moves even when a dependency is unknown, and the error names the first one |
| Engine.DecimalReadsBack | src/statectl/state_ctl.py:141-142 | the number in a placeholder has no leading zeros and can be read back, so deferred nodes have different placeholders |
| Nodes.ExecutionNode.Resolve | src/statectl/_execution_node.py:55-61 | after resolving, the node wraps the produced changer and goes by its name |
| Dag.EdgesCount | src/statectl/state_ctl.py:178-180 | the edge multiset has one edge for each upstream entry, with multiplicity, and as many edges as there are entries |
| Driver.BuildDownstreams | src/statectl/state_ctl.py:174-180 | each node is listed under an upstream as often as it names it, in registration order |
| Driver.ReadyIffCounterIsZero | src/statectl/state_ctl.py:244-249 | for unreported nodes the counter, equal to the unmet upstream entries with repeats, is never negative and is zero exactly for runnable nodes |
| Driver.ReleaseStep | src/statectl/state_ctl.py:244-249 | each decrement finds a positive counter; a node reaching zero is not in flight yet and has nothing unmet; the counters still owe exactly the entries not yet visited |
| Driver.ReleaseEnd | src/statectl/state_ctl.py:244-249 | after the loop the counters are exact again and the pool holds exactly the runnable nodes |
| Driver.RunState.ReleaseDownstreams | src/statectl/state_ctl.py:244-249 | the decrement loop submits exactly the newly runnable nodes and examines each outgoing edge once |
| Driver.SearchVisit | src/statectl/state_ctl.py:253-270 | a node the search blocks is a descendant of the failed one, was not runnable and so not in flight, and its downstream nodes are queued |
| Driver.SearchEnd | src/statectl/state_ctl.py:251-270 | when the queue is empty exactly the unreported descendants were blocked: stopping at nodes with an outcome loses none |
| Driver.RunState.MarkBlocked | src/statectl/state_ctl.py:251-270 | terminates, blocks exactly the unreported descendants, leaves the pool alone, and examines each edge out of a blocked node once |
| Driver.RunState.AbsorbCompletion | src/statectl/state_ctl.py:230-249 | keeps every field in step (counters, pool, outcomes, history, examined edges); a report of an invalid node or a failed transition gives every unreported descendant an empty blocked report, any other report changes no other; in flight afterwards are exactly the unreported nodes all of whose upstreams ended in success or a skip |
| Driver.RunState.DrivePool | src/statectl/state_ctl.py:213-228 | terminates whatever wait returns and in whatever order it is absorbed, with nothing in flight and each node that ran reported as its run says |
| Driver.RunState.RunIsOver | src/statectl/state_ctl.py:192-211 | then every node is reported, the reports are the sequential ones, the history is legal, and every edge was examined exactly once |
| Driver.AllEdgesExamined | src/statectl/state_ctl.py:244-270 | the edges examined over a run are all edges, each once; their number is the number of upstream entries |
| Driver.RunState.CollectReports | src/statectl/state_ctl.py:192-203 | reports in registration order, with blocked as the default for a node without one |
| Engine.StateCtl.Start | src/statectl/state_ctl.py:173-211 | schedule independence: the reports equal the sequential pass; a node is not submitted, and reported as blocked under its registered name and nothing more, exactly if one above it was assessed as invalid or failed its transition, and otherwise has the report of its run; ok means that every outcome is a success or a skip; the edges are all examined |
| RunLog.SubmittedOnceAfterAncestors | src/statectl/state_ctl.py:217-228 | in a legal history a node is submitted once, after all its ancestors completed without failing, and is never blocked as well |
| Scheduling.BlockedExactly | src/statectl/state_ctl.py:240-270 | between absorptions the blocked nodes are exactly the strict descendants of nodes assessed as invalid or with a failed transition, and their reports are otherwise empty |
| Scheduling.FailuresFormAntichain | src/statectl/state_ctl.py:240-270 | no node that ran and failed is an ancestor of another |
| Scheduling.RanAfterGoodAncestors | src/statectl/state_ctl.py:230-249 | a node in flight or one that ran has only ancestors that were absorbed without failing |
| Scheduling.AbsorbKeepsConsistent | src/statectl/state_ctl.py:230-270 | absorbing any runnable node with any result keeps blocking closed downstream and justified upstream |
| Scheduling.QuietMeansComplete | src/statectl/state_ctl.py:192-203 | when nothing is runnable every node has a report, so the default in start is never used |
| Scheduling.ReportsAreSequential | src/statectl/state_ctl.py:213-270 | every report present agrees with the sequential pass, in any order of absorption |
| Scheduling.OkIffNothingFailed | src/statectl/_engine_result.py:18-39 | ok holds exactly when no node was assessed as invalid and no transition failed, because blocked never appears without such a node |
| Outcomes.EngineResult.Ok | src/statectl/_engine_result.py:18-39 | ok for any reports: every outcome is a success or one of the two skips |
| Scheduling.RunsExactly | src/statectl/state_ctl.py:173-270 | at the end of a run the nodes below an invalid one or a failed transition are exactly those blocked, with empty reports, and every other report is that of the node's run |
| Scheduling.AbsorptionsCommute | src/statectl/state_ctl.py:224-228 | the order in which two nodes in flight are absorbed leaves no trace in the reports |
| Registry.InMemoryVariableRegistry.Bind | src/statectl/_modules/in_memory_variable_registry.py:24-28 | binds a fresh name, refuses a bound one, and leaves all other bindings alone |
| Registry.InMemoryVariableRegistry.Read | src/statectl/_modules/in_memory_variable_registry.py:31-55 | get finds exactly the bound value; require finds it exactly if the type asked for is one of the value's types, and tells a wrong type from an unbound name; has and snapshot tell exactly what is bound |
| Engine.StateCtl.RunNode | src/statectl/state_ctl.py:272-307 | one node's work as straight code ends in exactly the report, registry, world and changer that its worker steps lead to, and the report goes back to the operations that were done, in their order, on the node's own changer |
| Engine.StateCtl.ResolveDeferred | src/statectl/state_ctl.py:309-348 | the factory's reads in order, each answered by the registry as it is: the node holds the changer the factory then produces; or it comes to an error, the node holds none, and the report is invalid, without assessment, with the code of that error |
| Engine.StateCtl.FinaliseNode | src/statectl/state_ctl.py:350-418 | transition, second assessment, mismatch and rollback end where the worker steps end |
| Engine.StateCtl.MaybePublish | src/statectl/state_ctl.py:420-466 | only success and already applied publish; the callback is called with the changer, its fields as they are then, and the transition's result or a plain success; a callback that raises leaves the registry alone, and the report that replaces the good one has the code for it and no rollback |
| Engine.StateCtl.BindEntries | src/statectl/state_ctl.py:449-466 | the entries are bound in order, all of them, or those before the first one whose name was bound already, and then the report names that one |
| Engine.StateCtl.MaybeRollback | src/statectl/state_ctl.py:468-489 | the inverse's transition runs once, unassessed, if there is an inverse |
| Origins.StepKeepsOrigin | src/statectl/state_ctl.py:272-489 | every step of a worker keeps account of what its node did: assessed, then transitioned if ready, then assessed again if that succeeded, then undone, or its callback called, and of the exact report each of these leads to |
| Origins.EndHasOrigin | src/statectl/state_ctl.py:272-489 | so does a node run from start to finish on its own |
| RunOrigins.EveryReportHasOrigin | src/statectl/state_ctl.py:173-489 | in every reachable state of every interleaving each node in flight and each report goes back to the operations of the node's own steps, in their order and on the worlds of those moments; a node that was not run has done nothing, and its report says blocked and no more |
| RunOrigins.FactoryFailureStopsBelow | src/statectl/state_ctl.py:309-348 | in every reachable state a deferred node that ran and holds no changer is reported as invalid, without assessment, with the literal code of the error its factory's reads came to; it called nothing, bound nothing, and no node below it is started |
| RunOrigins.CallbackGetsResult | src/statectl/state_ctl.py:420-466 | in every reachable state a callback that was called got the node's changer, what that exposed at one of the node's steps, and the result of its transition, the one in a report of success, also where publishing failed after it; or a plain success where there was no transition |
| RunOrigins.CallStep | src/statectl/state_ctl.py:432-435 | the step that calls it gives it what the changer exposes in the world of that very step and the result so far, and changes nothing in the world |
| RunOrigins.CompleteRunOutcomes | src/statectl/state_ctl.py:173-270 | at rest every node below one that was assessed as invalid or failed its transition is reported as blocked and has done nothing, every other node was run, and ok says just that no node ended so |
| RunOrigins.PublishedIsFound | src/statectl/state_ctl.py:309-348 | in every interleaving the next read of a factory finds what an eligible ancestor published; a checked read finds it exactly if it asks for one of the value's types, and otherwise gets a type error |
| Accounts.RegistryAccounts | src/statectl/state_ctl.py:420-466 | in every reachable state of every interleaving each node accounts, by its progress and by the call of its callback, for exactly what it has bound |
| Accounts.ReportTellsBindings | src/statectl/state_ctl.py:420-466 | a report tells what its node has bound: eligible, exactly what the callback returned; a publish failure with the code for a duplicate x, exactly the entries before the one named x, which somebody else had bound; with the code for a raising callback, nothing; a publish failure has no other code; any other report, nothing |
| Accounts.BoundOnce | src/statectl/_modules/in_memory_variable_registry.py:24-35 | in every interleaving a name is bound at most once, by one node, and keeps that value for the rest of the run |
| Accounts.CausalVisibility | src/statectl/state_ctl.py:309-339 | whenever a node is in flight or has run, each ancestor was absorbed without failing, and what an eligible ancestor published is bound to its value, then and to the end |
| Machine.RestMeansAllReported | src/statectl/state_ctl.py:192-228 | a run that has come to rest has reported every node |
| Machine.RestIsSequential | src/statectl/state_ctl.py:173-228 | its reports are those of the sequential pass over the same node results |
| Determinism.StepsCommute | src/statectl/state_ctl.py:309-339 | steps of two workers commute on registry and world and neither notices the other, if their operations commute there and neither's binding changes the other's read or bind |
| Determinism.Diamond | src/statectl/state_ctl.py:213-339 | in every state on the way to an end whose unordered nodes kept apart, any two steps of different nodes commute: worker steps, reads, callbacks, binds and absorptions |
| Confluence.Residual | src/statectl/state_ctl.py:213-339 | any partial run can be continued to the end that a given complete run reached, and the lengths add up |
| Dataflow.CompleteRunsAgree | src/statectl/state_ctl.py:213-339 | if the nodes of one complete run kept apart, every complete run ends in the same reports, registry and world |
| Confluence.OneByOneIsARun | src/statectl/state_ctl.py:272-307 | running the nodes one by one, from any reachable state on, is a run, its schedule takes them in registration order, and it completes |
| Dataflow.EveryRunIsOneByOne | src/statectl/state_ctl.py:173-339 | dataflow determinism: if in the run node by node unordered nodes came to hold changers that do not interfere, published different names and could lead no factory that ran to another end, every interleaving that comes to rest ends in the state of that run |
| Dataflow.EveryRunCanArrive | src/statectl/state_ctl.py:173-339 | then a run that is cut short anywhere can be completed to the end of that run |
| Dataflow.ShortenRun | src/statectl/state_ctl.py:309-339 | a run without its reads is a run of the plan whose factories come to their end at once |
| Dataflow.ApartIsKeptApart | src/statectl/state_ctl.py:309-339 | factories none of whose reads depends on unordered nodes come to one end |
| Confluence.EveryRunIsPartOfReference | src/statectl/state_ctl.py:173-339 | if moreover no single read depended on what unordered nodes published, no run takes more steps than that run, and one that is cut short can be completed to its end in as many steps as it has fewer |
| Dataflow.OneReportPerNode | src/statectl/state_ctl.py:173-270 | then one report per node exists such that the reports of every run at rest are the sequential pass over them, which is what start returns for them |
| Confluence.EveryRunStops | src/statectl/state_ctl.py:213-228 | on every plan whose factories return, no schedule names a node in flight for ever, whatever the nodes do to each other |
| Confluence.RestIsReachable | src/statectl/state_ctl.py:213-228 | on every plan whose factories return, every reachable state can go on to rest |
| Provenance.MeetsRegistry | src/statectl/state_ctl.py:309-339 | besides what was bound before the run and what its ancestors published, a factory that runs can meet only entries of nodes neither above nor below its own |
| Provenance.ChangersComeFromAncestors | src/statectl/state_ctl.py:309-339 | if no factory that ran can be led to another end, a deferred node holds, in every state of every run, the one changer that its factory produces wherever it is led, as from what was bound before the run and what its ancestors publish alone |
| Provenance.NamesKeepOnPath | src/statectl/state_ctl.py:309-339 | a factory that asks only for names that no unordered node has published is not led astray |
| SecondRun.SecondRunDoesNothing | src/statectl/state_ctl.py:288-295 | after a fully successful run, in which no transition that succeeded disturbed a node that it is not above, a fresh engine over the same nodes skips every node as applied, transitions none and leaves the world as it is, in every interleaving |
| SecondRun.NobodyIsDoomed | src/statectl/state_ctl.py:357-418 | in a run that ends with every node eligible nothing is rolled back at any point, and only nodes that end with success transition |
| SecondRun.NothingIsRefused | src/statectl/state_ctl.py:449-466 | in that second run no bind is refused |
| Transactions.EngineRunIsTransaction | src/statectl/state_ctl.py:288-418 | the worker steps of an unpublished changer amount to assess, transition, assess and undo, and leave the registry alone |
| Substitution.CountZeroIffAbsent | src/statectl/_statechangers/fs/replace_in_file.py:53-58 | the scan counts zero exactly when the needle occurs at no position at all |
| Substitution.CountIsMaximal | src/statectl/_statechangers/fs/replace_in_file.py:53-58 | no set of non-overlapping occurrences is larger than the greedy count |
| Substitution.CountIsReached | src/statectl/_statechangers/fs/replace_in_file.py:53-58 | the greedy count is reached by actual non-overlapping occurrences |
| Substitution.ReplaceIsSplitAndJoin | src/statectl/_statechangers/fs/replace_in_file.py:65-70 | replacing is splitting at the occurrences and joining with the replacement in the first k gaps |
| Substitution.ReplaceLength | src/statectl/_statechangers/fs/replace_in_file.py:65-70 | the length changes by the difference of the two lengths for each replacement made |
| Substitution.ReplaceIsIdentity | src/statectl/_statechangers/fs/replace_in_file.py:111-120 | a positive replacement changes nothing exactly when the needle is absent or replaced by itself |
| Substitution.ReplaceAllConverges | src/statectl/_statechangers/fs/replace_in_file.py:176-192 | a non-empty replacement sharing no character with the needle leaves no occurrence, not even across seams |
| ReplaceInFile.AlreadyAppliedExactly | src/statectl/_statechangers/fs/replace_in_file.py:111-129 | assessed as applied exactly when nothing is expected, the needle is absent, or it is its own replacement |
| ReplaceInFile.ReplaceInFileStateChanger.AssessState | src/statectl/_statechangers/fs/replace_in_file.py:100-159 | the method computes the assessment of the pure description, whichever read fails |
| ReplaceInFile.ReplaceInFileStateChanger.TransitionNow | src/statectl/_statechangers/fs/replace_in_file.py:169-202 | the method's result with its details, the files and the captured text are those of the pure description |
| ReplaceInFile.ReplaceInFileRollbackStateChanger.AssessState | src/statectl/_statechangers/fs/replace_in_file.py:229-284 | the method computes the assessment of the pure description, whichever read fails: applied, ready or invalid as the text is the captured one, what the match makes of it, or another |
| ReplaceInFile.InverseIsReady | src/statectl/_statechangers/fs/replace_in_file.py:176-284 | right after a transition that succeeded the inverse is assessed as ready, unless its read fails |
| ReplaceInFile.ReplaceInFileRollbackStateChanger.TransitionNow | src/statectl/_statechangers/fs/replace_in_file.py:287-302 | writes the captured text back without comparing what it finds |
| ReplaceInFile.AllOrNothing | src/statectl/_statechangers/fs/replace_in_file.py:99-302 | with reads and writes failing anywhere, a node that ends well leaves a text the match does not change; any other end leaves all files as they were unless the rollback is reported as failed |
| ReplaceInFile.OutcomeWithoutFaults | src/statectl/_statechangers/fs/replace_in_file.py:99-302 | with nothing failing, the outcome is decided by the text: success exactly when no occurrence is left, otherwise a rollback to the original |
| ReplaceInFile.DisjointReplacementSucceeds | src/statectl/_statechangers/fs/replace_in_file.py:111-129 | a non-empty replacement sharing no character with the needle succeeds and is then assessed as applied |
| Verdicts.ReplaceAssess | src/statectl/_statechangers/fs/replace_in_file.py:100-159 | the verdict in every case: invalid without a writable readable file, with an empty needle or a negative count; applied where nothing is left to replace; ready with exactly the expected count; otherwise invalid |
| Verdicts.ReplaceTransition | src/statectl/_statechangers/fs/replace_in_file.py:169-202 | the result, the files and the captured text in every case, with the code of each failure |
| Verdicts.ReplaceUndo | src/statectl/_statechangers/fs/replace_in_file.py:287-302 | the inverse writes the captured text back whatever it finds; skipped where nothing was captured or the file is gone; the code of each failure |
| Verdicts.ReplaceAssessUndo | src/statectl/_statechangers/fs/replace_in_file.py:229-284 | the inverse's verdict in every case: applied on the captured text, ready on what the match makes of it, invalid on any other |
| Verdicts.DriftIsOverwritten | src/statectl/_statechangers/fs/replace_in_file.py:261-302 | a drifted text is exactly what the inverse's assessment calls invalid, and its transition overwrites it all the same |
| Verdicts.EmptyNeedleReplaced | src/statectl/_statechangers/fs/replace_in_file.py:65-70 | the empty needle is replaced before each of the first k characters and, beyond that, at the end |
| Verdicts.ReplaceOutcome | src/statectl/_statechangers/fs/replace_in_file.py:99-302 | with nothing failing, the whole report and the files a node ends with, in every case |
| Lines.SplitAfterJoin | src/statectl/_statechangers/fs/ensure_line_in_file.py:88-91 | separator-free lines survive being joined and split |
| Lines.JoinAfterSplit | src/statectl/_statechangers/fs/ensure_line_in_file.py:88-91 | splitting and joining gives a text back exactly when only newlines separate and the last line is finished |
| Lines.SplitsAtBoundary | src/statectl/_statechangers/fs/ensure_line_in_file.py:152 | each of the eleven line boundaries of splitlines ends a line, a carriage return with a newline behind it as one |
| Lines.SplitsNowhereElse | src/statectl/_statechangers/fs/ensure_line_in_file.py:152 | no other character ends a line |
| EnsureLine.OneAnchor | src/statectl/_statechangers/fs/ensure_line_in_file.py:84-115 | the anchor is resolved to a line exactly when the pattern is found there and on no other line |
| EnsureLine.BackwardAgreesWithForward | src/statectl/_statechangers/fs/ensure_line_in_file.py:233-258 | the inverse finds the line exactly where the forward check calls it present, and points at the line |
| EnsureLine.AnchorsAfterInsertion | src/statectl/_statechangers/fs/ensure_line_in_file.py:84-115 | after an insertion the one anchor has moved by the insertion or is no longer the only one |
| EnsureLine.ConvergesExactly | src/statectl/_statechangers/fs/ensure_line_in_file.py:136-226 | from ready, inserting leads to applied exactly when the line has no separator of any kind and the anchor is not found on it; with a separator-free line the alternative is invalid |
| EnsureLine.RemovalUndoesInsertion | src/statectl/_statechangers/fs/ensure_line_in_file.py:233-330 | the inverse restores the exact list of lines in that case, and otherwise finds nothing to remove |
| EnsureLine.NothingToRemove | src/statectl/_statechangers/fs/ensure_line_in_file.py:316-328 | where the forward write never took effect the inverse removes nothing |
| EnsureLine.EnsureLineInFileStateChanger.AssessState | src/statectl/_statechangers/fs/ensure_line_in_file.py:136-178 | the method computes the assessment of the pure description, whichever read fails |
| EnsureLine.EnsureLineInFileStateChanger.TransitionNow | src/statectl/_statechangers/fs/ensure_line_in_file.py:201-226 | the method's result and files are those of the pure description |
| EnsureLine.EnsureLineInFileRollbackStateChanger.AssessState | src/statectl/_statechangers/fs/ensure_line_in_file.py:275-313 | the method computes the assessment of the pure description, whichever read fails: ready exactly when the line is where it would have been put |
| EnsureLine.EnsureLineInFileRollbackStateChanger.TransitionNow | src/statectl/_statechangers/fs/ensure_line_in_file.py:316-337 | the method's result and files are those of the pure description |
| EnsureLine.EveryEnd | src/statectl/_statechangers/fs/ensure_line_in_file.py:136-337 | every way a ready node can end with reads and writes failing anywhere, and the text each leaves |
| EnsureLine.MismatchIsNeverRolledBack | src/statectl/_statechangers/fs/ensure_line_in_file.py:316-328 | with nothing failing a ready node succeeds exactly where insertion converges; otherwise it is reported as failed, the rollback is skipped and the line stays |
| EnsureLine.FormFeedStays | src/statectl/_statechangers/fs/ensure_line_in_file.py:136-178 | an instance: a line with a form feed, appended to an empty file, passes the assessment, and stays after a failed check |
| EnsureLine.SecondAnchorStays | src/statectl/_statechangers/fs/ensure_line_in_file.py:201-226 | an instance: a line on which the anchor pattern is found too makes the anchor ambiguous, and stays after a failed check |
| EnsureLine.UnreadableCheckIsRolledBack | src/statectl/_statechangers/fs/ensure_line_in_file.py:316-337 | if only the second assessment's read fails, the rollback brings the original lines back |
| EnsureLine.RollbackIsExactOnPlainText | src/statectl/_statechangers/fs/ensure_line_in_file.py:88-91 | a rollback that succeeds gives the original text exactly when that was plain |
| EnsureLine.NewlineStays | src/statectl/_statechangers/fs/ensure_line_in_file.py:88-91 | an instance: after a rollback that succeeds, a text without a newline at its end has one |
| Verdicts.SearchExactly | src/statectl/_statechangers/fs/ensure_line_in_file.py:233-258 | the inverse's search finds exactly the line that stands at the start, at the end, or beside the only line its pattern is found on, and says where |
| Verdicts.LinesVerdict | src/statectl/_statechangers/fs/ensure_line_in_file.py:152-178 | the exact meaning of the three verdicts: a line in its place is applied; one that stands elsewhere is an obstacle if the anchor is strict and good enough if not; without an anchor the node is invalid; ready means an anchor and no such line |
| Verdicts.LinesVerdictBySearch | src/statectl/_statechangers/fs/ensure_line_in_file.py:152-258 | the same by the inverse's separate search |
| Verdicts.EnsureAssess | src/statectl/_statechangers/fs/ensure_line_in_file.py:136-178 | the verdict in every case, with a file that is missing, no file, not writable or not readable, and with a line that contains a newline or a carriage return |
| Verdicts.EnsureTransition | src/statectl/_statechangers/fs/ensure_line_in_file.py:201-226 | the result and the files in every case, with the code of each failure; the line is put at the very place |
| Verdicts.EnsureUndo | src/statectl/_statechangers/fs/ensure_line_in_file.py:316-337 | the inverse takes out the line that stands at the place, is skipped where none does or the file is gone; the code of each failure |
| Verdicts.EnsureAssessUndo | src/statectl/_statechangers/fs/ensure_line_in_file.py:275-313 | the inverse's verdict in every case: ready where the line stands at the place, applied where it does not or the file is gone, invalid where the file cannot be read or written |
| Verdicts.EnsureInverseForetells | src/statectl/_statechangers/fs/ensure_line_in_file.py:275-337 | while nothing fails the inverse's verdict foretells its transition: ready, the line is taken out; applied, skipped; invalid, nothing changes |
| Verdicts.EnsureOutcome | src/statectl/_statechangers/fs/ensure_line_in_file.py:136-337 | with nothing failing, the whole report and the files a node ends with, in every case; a strict misplaced line ends as invalid, a lax one as already applied, and neither changes a file |
| TextPlans.TextChangersCommute | src/statectl/_statechangers/fs/replace_in_file.py:99-302 | text changers of different nodes and different files do not interfere, rollbacks included |
| TextPlans.ReplaceOnDisk | src/statectl/_statechangers/fs/replace_in_file.py:99-302 | on the shared disk a replacing node gives the report and leaves the files that the changer does on its own, and keeps what it captured |
| TextPlans.InsertOnDisk | src/statectl/_statechangers/fs/ensure_line_in_file.py:136-337 | the same for a node that inserts a line |
| TextPlans.HeldTextsAgree | src/statectl/state_ctl.py:173-339 | deferred text changers included: if in the run node by node unordered nodes came to edit different files, published different names and could lead no factory to another end, every run at rest ends like it |
| TextPlans.TextRunsAgree | src/statectl/state_ctl.py:173-339 | on a plan of text changers whose unordered nodes edit different files and publish different names, every run at rest ends with the same reports, registry and files |
| TextExamples.TwoEditsAgree | src/statectl/state_ctl.py:173-270 | an instance: two edits of two files, neither waiting for the other, end alike in every interleaving that comes to rest |
| TextExamples.EditPublishedAgrees | src/statectl/state_ctl.py:309-339 | an instance with a variable: an edit that publishes a path, a deferred edit of the file at that path, and an edit of a third file end alike in every interleaving that comes to rest |
| TextPlans.LaterInsertionSpares | src/statectl/_statechangers/fs/ensure_line_in_file.py:201-226 | a line inserted later into the same file leaves an earlier replacement applied, if the needle has no separator and is not found in the line |
| TextPlans.TextSecondRunDoesNothing | src/statectl/state_ctl.py:288-295 | where no change is disturbed by that of a node not above its own, in the same file or another, and the run ended well, every change is there at the end, and a second run skips every node and leaves the files as they are |
| TextExamples.ReplaceThenInsertStays | src/statectl/state_ctl.py:288-295 | an instance with two ordered changes of one file, a replacement and an insertion |
| PathStrip.StrippedComponents | src/statectl/_interfaces/archive/archive.py:8-17 | none exactly when there are too few components; otherwise exactly the remaining components are left |
| PathStrip.StrippingComposes | src/statectl/_interfaces/archive/archive.py:8-17 | stripping a and then b components is stripping a + b, too few included |
| PathStrip.StripsExactly | src/statectl/_interfaces/archive/archive.py:8-17 | a name of parts with slashes of either kind between them, empty and dot parts anywhere: the first k real parts are dropped and the rest joined with forward slashes; none if there are no more than k; the name itself for k <= 0 |

## Left out

- Driver.RunState.DrivePool: takes each node's report as a function of the node; that the reports of interleaved workers are such a function is what `Dataflow.OneReportPerNode` and `Machine.RestIsSequential` add.
- Engine.StateCtl.Start: takes the node reports as a function too, and does not call `RunNode` itself, because the workers interleave; `Dataflow.OneReportPerNode` gives the function.
- Dataflow.EveryRunIsOneByOne: nothing is claimed where, in the run node by node, unordered nodes interfere, publish the same name, or can lead a factory that runs to another end.
- SecondRun.SecondRunDoesNothing: asks of the changers held at the end of the first run that assessing only looks, and that a transition that succeeded leaves what the nodes it is not above have applied as it is, and what they publish; of callbacks that they ignore the result they are given; and of factories that names of unordered nodes cannot lead them to another end.
- Engine.StateCtl.RunNode: is given factories that return after a bounded number of reads.
- Thread pools, locks and futures, the number of workers, and the pool's refusal of fewer than one worker; registry operations are atomic steps, and absorption is one step of the driver.
- Exceptions that a changer raises from assess, transition, rollback or its inverse, and callbacks that return no mapping; the engine re-raises them out of start.
- Callbacks and factories that act on the outside world: a callback only reads the changer object and the result, a factory only reads the registry.
- Starting the same engine twice, and identities that are reused after an object is gone.
- The constructor of a graph node rejecting a node with neither changer nor factory: such a node cannot be expressed.
- Regular expressions in replace, the inside of anchor patterns, encodings, and the newline translation of the real file system: texts are what reading a text file returns.
- What a callback could read off a text changer besides its parameters: these changers expose nothing.
- Other writers to a file during a run of a text changer, and failing operations in plans of several text changers.
- How the digest of the old text is computed, logging, messages, descriptions and issue lists.
- All other changers, the archive, clock, hashing, environment, process and HTTP interfaces, and dependency injection: they add cases and external effects but no new laws.
