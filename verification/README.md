# Valiance: verified model of its analyser, schedulers and scanners

This project models self-contained algorithms and state machines of the Valiance
compiler and proves what the rest of the compiler relies on. All properties hold for
every input, every run and every set-iteration order; nothing is bounded unless the
code bounds it.

* **Definition order and recursion check.** `RecursionCheck` is Tarjan's component
  algorithm over the graph of top-level definitions, in a class with the maps and the
  stack the code updates; it reports exactly the definitions that need inference and lie
  on a cycle. `DefinitionOrder` is the depth-first placement of the definitions that
  need inference. Its specification is a rule ("a definition is placed at the end of the
  chain of first unmet needs") that has one solution only (`DefinitionChains`), and the
  two results compose: whatever a definition needs is inferred before it, exactly when
  the definition does not need itself, in particular when it is not reported.
* **Channel protocol.** `Channel` is one step of the bounded channel, `ChannelQueue`
  shows that it refines one FIFO queue cut at the capacity, `ChannelHistory` and
  `ChannelAccounts` follow a run with its history (what was issued, delivered, woken),
  and `ChannelTotals` states the results about whole runs: delivery order, conservation
  of sends, wake-ups, release.
* **Schedule explorer.** `ScheduleMachine` is the task machine, `SchedulePositions` says what
  one schedule does to the counter and the finalizers by positions in the schedule, `ScheduleTree` and
  `ScheduleExplorer` the enumeration of all interleavings, `ScheduleCount` its size
  (3n)!/6^n, `ScheduleOutcomes` the set of final counter values, with and without
  cancellation, `ScheduleCancel` what an injected cancellation can and cannot do.
* **Task transfer.** `TransferSearch` and `Transfer` are the search for a task-isolated type
  inside a captured type over possibly cyclic object definitions (`TransferTypes`), with the
  cut per path by name and rendering. Renderings are arbitrary: types may share them.
  `TransferOrder` says which violation is reported, `TransferSpelling` exactly when the
  check can be relied on.
* **Import hoisting.** `ImportRuntime` and `ImportPrelude` are the hidden names and the
  rewriting of calls in hoisted declarations, in one session from an empty prelude;
  `ImportSession` states what whole sessions promise.
* **Inference traces.** `Traces` is the ancestry graph and the walk that replays
  refinements onto checkpoints, `TraceOrder` the order in which it does, `TraceCollection`
  the collector with its limit, its budget of visits and what it publishes over a whole
  run, `TraceReplays` what inspections hand out in terms of the operations before.
* **Scanners and indexes.** `CommentRanges`, `SyntaxIndex` with `SyntaxQueries`,
  `Highlight`, `LiveDiagnostics` and `NestingDepth`.

Objects whose methods update fields are classes here with the same fields; loops are
loops with invariants; each such method is proved equal to, or against, a specification
that does not mention it. Graph and path vocabulary is in `Graphs`, list vocabulary in
`Sequences`, names in `Symbols`, optional values in `Options`, definitions as the ordering
phase sees them, and when their contract is complete, in `Definitions`.

Two statements one might expect are false of the code, and the project says exactly when:

* the definition order does not put everything a definition needs before it, but fails
  exactly for the definitions that need themselves (`DefinitionOrder.InferredBeforeUsed`,
  with an example in `DefinitionOrder.CyclesBreakIndirectOrder`);
* the transfer check misses a resource when two objects share a qualified spelling, as the
  names `a.b` and `b` in namespace `a` do, and for no other reason
  (`TransferSpelling.ReliableExactlyWhenSpelledApart`).

The error overlay keeps the text of every line the editor displays
(`LiveDiagnostics.DisplayedLine`). On its own it would repeat characters exactly for an
inverted span strictly inside one fragment (`Highlight.OverlayKeepsTextExactlyWhenSpanFits`,
`Highlight.InvertedSpanRepeatsText`); no provider in the program returns one.

## Model

| member | source | states |
|---|---|---|
| Definitions.IncompleteExactlyWhenErased | src/valiance/analysis/analyser.py:726-737 | a definition has no complete contract exactly when it has no overloads and erasing its results, its parameter list (unless its name starts with a backslash) or the type of a parameter leaves it as it is |
| Definitions.ErasedIsIncomplete | src/valiance/analysis/analyser.py:730-737 | without overloads, erasing the results, a parameter type or the parameter list makes a definition incomplete |
| Definitions.WrittenIsComplete | src/valiance/analysis/analyser.py:730-737 | a definition with all its parameter types and results written is complete, and so is every definition with an overload |
| Definitions.ReferencesAreCalls | src/valiance/analysis/analyser.py:792-812 | the collected references are exactly the names of element calls nested at any depth, in calls inside calls too |
| Definitions.CallableReferencesAreCalls | src/valiance/analysis/analyser.py:792-812 | the references of a function are exactly the names called in its overloads, its parameter defaults or anywhere else in it |
| Definitions.Dependencies | src/valiance/analysis/analyser.py:675-687 | the dependency sets: definition j is a dependency of i exactly when the function of i calls the name of j; a name with several definitions contributes all of them |
| RecursionCheck.CycleFinder.Connect | src/valiance/analysis/analyser.py:752-784 | one visit keeps the whole low-link invariant and extends the report to exactly the incomplete cyclic members of every finished component; it terminates |
| RecursionCheck.CycleFinder.PopComponent | src/valiance/analysis/analyser.py:772-778 | pops exactly the stack segment above the state at entry, each member once, root included |
| RecursionCheck.SegmentIsComponent | src/valiance/analysis/analyser.py:770-778 | the popped segment is one strongly connected component: every member reaches the root and is reached by it |
| RecursionCheck.ComponentCycles | src/valiance/analysis/analyser.py:779 | a member of a component lies on a cycle exactly when the component has a second member or its root depends on itself |
| RecursionCheck.RetireKeepsInv | src/valiance/analysis/analyser.py:770-771 | leaving a visit without popping keeps the invariant: whatever is stacked still reaches a definition being visited |
| RecursionCheck.PopKeepsInv | src/valiance/analysis/analyser.py:772-778 | popping a component keeps the invariant: nothing finished has an edge back to the stack |
| RecursionCheck.ReportComponent | src/valiance/analysis/analyser.py:779-785 | reporting the incomplete members of a recursive component, and nothing otherwise, keeps the report exact and free of duplicates |
| RecursionCheck.IncompleteCycleMembers | src/valiance/analysis/analyser.py:739-790 | terminates on every finite graph and reports exactly the incomplete definitions that can reach themselves in one or more steps, each once |
| RecursionCheck.SelfCallIsReported | src/valiance/analysis/analyser.py:779-785 | a definition that calls itself is reported exactly when it has no overloads and lacks a part of its signature |
| DefinitionOrder.Schedule.VisitIncomplete | src/valiance/analysis/analyser.py:703-712 | a visit places the definition (or finds it in progress), restores `visiting`, keeps everything placed before, and every definition it places ends the chain of first unmet needs |
| DefinitionOrder.OrderIncomplete | src/valiance/analysis/analyser.py:694-715 | schedules every incomplete definition once, each on demand and after its direct dependencies unless they depend on it in turn |
| DefinitionOrder.DeclaredDefinitions | src/valiance/analysis/analyser.py:717-720 | the definitions with complete contracts, all of them, in source order |
| DefinitionOrder.OrderTopLevelDefinitions | src/valiance/analysis/analyser.py:663-724 | reports exactly the incomplete recursive definitions and returns every definition once, the incomplete ones in inference order before the declared ones in source order; for each definition, whatever it needs is inferred before it exactly when it does not need itself, and so for every definition that is not reported, whatever is reported elsewhere |
| DefinitionOrder.OrderIsPermutation | src/valiance/analysis/analyser.py:721-724 | the order names every definition exactly once |
| DefinitionOrder.OrderIsDetermined | src/valiance/analysis/analyser.py:703-715 | only one order of the incomplete definitions meets the on-demand rule, so the rule is a complete specification of the depth-first placement |
| DefinitionOrder.InferenceOrderIsDetermined | src/valiance/analysis/analyser.py:703-724 | the whole order is determined by what it promises |
| DefinitionOrder.DirectDependencyFirst | src/valiance/analysis/analyser.py:708-712 | for every direct edge i to j between incomplete definitions where j cannot reach i among incomplete ones, j precedes i |
| DefinitionOrder.SourceOrderUnlessNeeded | src/valiance/analysis/analyser.py:714-715 | a definition placed before an earlier one in the source is needed by some incomplete definition no later than that one |
| DefinitionOrder.CyclesBreakIndirectOrder | src/valiance/analysis/analyser.py:703-712 | three concrete definitions whose only order places one before another that it needs indirectly and that does not need it: on a cycle the direct-edge statement cannot be strengthened |
| DefinitionChains.OpenIsPrefix | src/valiance/analysis/analyser.py:703-712 | a chain of first unmet needs that is still open starts the chain of the definition placed next |
| DefinitionChains.PlacedSuccessors | src/valiance/analysis/analyser.py:703-712 | when a definition is placed, every dependency of what was placed before is placed or waits in its chain |
| DefinitionChains.FirstExactlyOffCycle | src/valiance/analysis/analyser.py:703-712 | on any graph, the order puts everything a node reaches before it exactly when the node does not reach itself |
| DefinitionOrder.DependenciesComeFirst | src/valiance/analysis/analyser.py:703-715 | everything an incomplete definition reaches through incomplete ones precedes it exactly when it does not reach itself through them, whatever cycles there are elsewhere |
| DefinitionOrder.InferredBeforeUsed | src/valiance/analysis/analyser.py:689-724 | a definition, incomplete or declared, comes after every incomplete definition it depends on, directly or through incomplete ones, exactly when it does not need itself |
| Channel.Oracle.constructor | tools/channel_schedule_oracle.py:23-35 | a new oracle is the empty open channel of the given capacity |
| Channel.Oracle.Action | tools/channel_schedule_oracle.py:41-120 | the in-place step is the step of the protocol, state and reply, for every operation |
| Channel.Oracle.WakeUp | tools/channel_schedule_oracle.py:37-39 | one registration was woken once more, every other one as often as before |
| Channel.Oracle.AnswerReceiver | tools/channel_schedule_oracle.py:48-50 | the longest waiting receiver leaves the queue, answered and woken |
| Channel.Oracle.CommitSender | tools/channel_schedule_oracle.py:69-73 | the longest waiting sender leaves the queue, committed and woken |
| Channel.Oracle.ActSend | tools/channel_schedule_oracle.py:42-63 | a send is rejected, handed to a receiver, buffered or parked, with all counters, statuses and wake-ups |
| Channel.Oracle.ActReceive | tools/channel_schedule_oracle.py:64-88 | a receive takes from the buffer (admitting the longest waiting sender), from a sender, from the closed state, or parks |
| Channel.Oracle.ActClose | tools/channel_schedule_oracle.py:105-120 | closing faults every sender, drains, then dismisses every receiver |
| Channel.Oracle.FaultLoop | tools/channel_schedule_oracle.py:106-110 | the loop faults and wakes exactly the waiting senders, in order |
| Channel.Oracle.DrainLoop | tools/channel_schedule_oracle.py:111-115 | the loop serves waiting receivers from the buffer, pairwise in order |
| Channel.Oracle.DismissLoop | tools/channel_schedule_oracle.py:116-119 | the loop tells every remaining receiver that the channel is closed and wakes it |
| ChannelQueue.StructureKept | tools/channel_schedule_oracle.py:41-120 | every step keeps: buffer within capacity; waiting receivers only with an empty buffer, no waiting senders and an open channel; waiting senders only with an open channel and a full buffer |
| ChannelQueue.EveryRunIsStructured | tools/channel_schedule_oracle.py:41-120 | that structure in every state any run reaches, at any capacity |
| ChannelQueue.CloseNeverDrains | tools/channel_schedule_oracle.py:111-115 | the loop in close that serves receivers from the buffer never runs |
| ChannelQueue.CutAtCapacity | tools/channel_schedule_oracle.py:56-63 | buffer and sender queue are one queue cut at the capacity |
| ChannelQueue.ChannelRefinesQueue | tools/channel_schedule_oracle.py:41-120 | each step of the channel is the same step, with the same reply, of a single FIFO queue |
| ChannelQueue.RunRefinesQueue | tools/channel_schedule_oracle.py:41-120 | whole runs of the channel are runs of the queue |
| ChannelQueue.NothingWaitsInVain | tools/channel_schedule_oracle.py:42-88 | a send parks exactly when the channel is open, full and unattended; a receive exactly when it is open and nothing is offered |
| ChannelQueue.CloseIsIdempotent | tools/channel_schedule_oracle.py:105-120 | closing a closed channel changes nothing |
| ChannelHistory.OrderKept | tools/channel_schedule_oracle.py:41-120 | each step keeps: surviving sends in issue order are delivered, then buffered, then pending |
| ChannelAccounts.AccountedKept | tools/channel_schedule_oracle.py:37-120 | each step keeps the accounts of who received what and who was woken |
| ChannelTotals.SoundKept | tools/channel_schedule_oracle.py:37-120 | every step keeps structure, order, accounts and counters together |
| ChannelTotals.EveryRunIsSound | tools/channel_schedule_oracle.py:37-120 | all of them hold in every reachable state of any run that uses each identifier at most once per direction |
| ChannelTotals.DeliveredInIssueOrder | tools/channel_schedule_oracle.py:41-120 | delivered, buffer and senders in this order are the sends in issue order without the cancelled, faulted and rejected ones |
| ChannelTotals.EverySendIsAccountedFor | tools/channel_schedule_oracle.py:31-35 | every issued send is committed, pending, cancelled, faulted or rejected, and the counters say how many are which |
| ChannelTotals.WokenExactlyOnResolution | tools/channel_schedule_oracle.py:37-40 | a registration is woken at most once, and exactly when it had waited and was then resolved by a counterpart or by close, never by cancellation |
| ChannelTotals.DeliveredOrReleasedOnce | tools/channel_schedule_oracle.py:219-226 | after closing and releasing the buffer, every committed value was delivered to one receive registration or released, once |
| ScheduleMachine.Model.Advance | tools/schedule_explorer.py:67-83 | one quantum on the phase, read and value tables in place, cancellation included |
| ScheduleMachine.Replay | tools/schedule_explorer.py:38-102 | replaying a prefix gives the state it determines, or fails at the first choice that is not ready |
| ScheduleMachine.PrefixFeasible | tools/schedule_explorer.py:64-66 | the start of a replayable prefix is replayable |
| SchedulePositions.FeasibleByPositions | tools/schedule_explorer.py:64-66 | a schedule can be replayed exactly when each choice is a task that has had fewer than three quanta and has not noticed a cancellation |
| SchedulePositions.SecondQuantumWrites | tools/schedule_explorer.py:72-77 | the counter after the second quantum of a task is what it was at its first quantum plus one, whatever was written in between: updates are lost |
| SchedulePositions.OtherQuantaKeepCounter | tools/schedule_explorer.py:67-81 | every other quantum, and one that notices a cancellation, leaves the counter alone |
| SchedulePositions.FinalizersGrow | tools/schedule_explorer.py:67-81 | a finalizer runs in the third quantum of a task, or when a started task notices its cancellation, and in no other quantum |
| SchedulePositions.FinalizersInOrder | tools/schedule_explorer.py:67-81 | finalizers run in the order of the last quanta of their tasks |
| ScheduleTree.VisitMembers | tools/schedule_explorer.py:123-158 | the depth-first walk from a prefix lists exactly its feasible extensions |
| ScheduleTree.VisitDistinct | tools/schedule_explorer.py:123-158 | it lists each of them once |
| ScheduleExplorer.PushChoices | tools/schedule_explorer.py:158 | pushing the children in reverse makes the stack pop their subtrees in order |
| ScheduleExplorer.NothingReady | tools/schedule_explorer.py:137-141 | nothing is ready exactly when every task is terminal: the scheduler never stops early |
| ScheduleExplorer.Explore | tools/schedule_explorer.py:119-159 | terminates; the report counts every feasible prefix and every complete schedule and collects exactly their final values; past the bound there is no report, and the bound fails exactly when there are more schedules |
| ScheduleExplorer.ExploreSchedules | tools/schedule_explorer.py:105-159 | each argument error exactly for its arguments; otherwise the full report or the bound failure, never a truncated count |
| ScheduleExplorer.EveryPrefixOnce | tools/schedule_explorer.py:119-159 | the exploration pops each feasible prefix exactly once and nothing else |
| ScheduleCount.ReadyCarryEverything | tools/schedule_explorer.py:133-136 | the ready tasks carry all the quanta that are left |
| ScheduleCount.CountFrom | tools/schedule_explorer.py:119-159 | from any prefix without cancellation: completions times the product of the factorials of the quanta left per task is the factorial of all quanta left |
| ScheduleCount.NumberOfSchedules | tools/schedule_explorer.py:119-159 | n tasks without cancellation have (3n)!/(3!)^n schedules |
| ScheduleOutcomes.ValueInRange | tools/schedule_explorer.py:26-83 | no complete schedule ends with the counter outside 1 to w, where w tasks can write: all n, or all but task 0 if it is cancelled before step 2; with nobody to write it stays 0 |
| ScheduleOutcomes.ReachableValues | tools/schedule_explorer.py:26-83 | wherever cancellation is injected, some complete schedule ends with value v exactly when the closed form allows it: 1..n without cancellation or from step 2 on, 1..n-1 before that, 0 for a lone task; the schedules are constructed |
| ScheduleOutcomes.FinalValues | tools/schedule_explorer.py:156-159 | the reported set of final values is exactly that closed form, {1, ..., n} without cancellation |
| ScheduleCancel.RunLength | tools/schedule_explorer.py:56-99 | with cancellation injected at any step, no run exceeds 3n quanta |
| ScheduleCancel.TerminatesOnce | tools/schedule_explorer.py:97-98 | each task enters its terminal phase at most once and never leaves it |
| ScheduleCancel.FinalizersOfCompleteRun | tools/schedule_explorer.py:67-80 | the finalizer list has no duplicates and omits only a task 0 cancelled before its first quantum |
| ScheduleCancel.CancelledExactlyWhenCaught | tools/schedule_explorer.py:67-71 | task 0 ends cancelled exactly when it was scheduled after the request |
| ScheduleCancel.CancelledTaskStops | tools/schedule_explorer.py:67-71 | the quantum in which a task notices its cancellation writes nothing, and the task is never scheduled again |
| ScheduleCancel.EveryRunCompletes | tools/schedule_explorer.py:137-141 | every run can be continued until all tasks are terminal |
| TransferTypes.IsolatedByDefinition | src/valiance/analysis/transfer.py:61-67 | a nominal type is isolated exactly when its definition says so, and a channel never is |
| TransferTypes.BoundariesHoldNothing | src/valiance/analysis/transfer.py:59-64 | channels, tasks and functions hold nothing and are not isolated |
| TransferTypes.PartsAreHeld | src/valiance/analysis/transfer.py:53-114 | the traversal looks into exactly what a type holds: arguments, attributes, collections, tuples, unions, intersections and rows, but not tasks, channels or functions |
| TransferSearch.ReachesBothWays | src/valiance/analysis/transfer.py:53-114 | the traversal, which does not look behind an isolated type, reaches one exactly when one is held at any depth |
| TransferSearch.CutLastOpening | src/valiance/analysis/transfer.py:74-84 | a path that opens a key again has a shorter one behind its last opening, because whatever type was opened there has the same attributes: why the cut by name and rendering loses nothing, whatever renderings types share |
| TransferSearch.FoundIsLocated | src/valiance/analysis/transfer.py:66-67 | every violation found is an isolated type sitting at the reported path |
| TransferSearch.IsolatedIsFound | src/valiance/analysis/transfer.py:68-85 | if an isolated type can be reached without opening the keys being visited, the search finds something |
| TransferOrder.PlacesHold | src/valiance/analysis/transfer.py:68-113 | the places of a type, numbered from left to right (arguments and then attributes, items by index, alternatives, the base of a row before its fields), hold exactly what it holds |
| TransferOrder.FoundExactly | src/valiance/analysis/transfer.py:53-114 | at any depth of the traversal something is found exactly when an isolated type can be reached without opening a key that is being opened |
| TransferOrder.FirstFound | src/valiance/analysis/transfer.py:53-114 | the first violation lies, at each step down its path, in the earliest place that holds an isolated type reached without opening a key again |
| TransferOrder.LeftmostIsUnique | src/valiance/analysis/transfer.py:53-114 | that fixes the violation and its path |
| TransferOrder.FirstPlace | src/valiance/analysis/transfer.py:68-113 | the violation lies in the first argument, item, alternative, base or field that carries an isolated type at any depth, or, when no argument does, in the first attribute that carries one without opening the captured type again |
| Transfer.Checker.Visit | src/valiance/analysis/transfer.py:53-114 | returns the first violation in traversal order, cutting by name and rendering as the code does; restores `visiting` on every exit, and terminates on cyclic definitions |
| Transfer.CheckIsExact | src/valiance/analysis/transfer.py:44-116 | when the objects that are opened are spelled apart, there is no violation exactly when no task-isolated type is held, for every way of rendering types |
| Transfer.ValidateTaskTransferType | src/valiance/analysis/transfer.py:44-116 | an isolated type that sits at the reported path; none exactly when no task-isolated nominal type is reachable and otherwise the first one, in the earliest place at each step, when the objects opened are spelled apart |
| TransferSpelling.ReliableExactlyWhenSpelledApart | src/valiance/analysis/transfer.py:74-76 | the check is exact for all definitions of a set of objects exactly when no two of them are spelled alike |
| TransferSpelling.ClashBreaksTheCheck | src/valiance/analysis/transfer.py:74-76 | two objects with one key, one holding the other, which holds a resource: the resource is missed |
| TransferSpelling.KeysDecideFirstViolation | src/valiance/analysis/transfer.py:74-82 | a box holding a box and then a file is reported for its own file when the inner box is rendered like it, and for the file of the inner box otherwise |
| ImportRuntime.RewriteAt | src/valiance/analysis/import_runtime.py:79-120 | rewriting works position by position: what stands somewhere in the result is the rewritten original |
| ImportRuntime.RewriteKeepsShape | src/valiance/analysis/import_runtime.py:86-120 | nothing but runtime bindings of calls changes |
| ImportRuntime.RewriteTwice | src/valiance/analysis/import_runtime.py:79-120 | rewriting twice is rewriting once |
| ImportRuntime.CallsReachTheirSiblings | src/valiance/analysis/import_runtime.py:93-103 | a call that is not bound elsewhere gets the binding of the declaration it is in, if it names it, or else that of the linked name; every other call stays as it was |
| ImportRuntime.BoundCallsKeepTheirProvider | src/valiance/analysis/import_runtime.py:93-103 | a call already bound to another runtime name keeps it; one that is not gets the new binding if it names the declaration, and otherwise the link of the name it calls, if there is one |
| ImportRuntime.OtherNodesStay | src/valiance/analysis/import_runtime.py:93 | a typed node that is no element call is not rebound |
| ImportRuntime.HiddenNamesDiffer | src/valiance/analysis/analyser.py:161-164 | hidden names with different numbers differ, whatever they stand for |
| ImportRuntime.SessionsIssueDifferentNames | src/valiance/analysis/analyser.py:161-165 | hidden names of sessions with different seeds differ, whatever the seeds look like |
| ImportRuntime.DecimalMeans | src/valiance/analysis/analyser.py:164 | the number in a hidden name is written in decimal without leading zeros |
| ImportPrelude.Prelude.AddDeclaration | src/valiance/analysis/analyser.py:144-178 | a repeated request returns the same binding and changes nothing; a new one gets a name used nowhere so far; earlier requests and calls keep their answers |
| ImportPrelude.Prelude.AddProviderDeclarations | src/valiance/analysis/analyser.py:180-218 | a known module returns its links unchanged; a new one gets one fresh link per listed name, each standing for exactly its listed declarations, every declaration hoisted with its calls retargeted |
| ImportPrelude.Prelude.IssueLinks | src/valiance/analysis/analyser.py:197-200 | one link per name, numbered from the size of the binding table on |
| ImportPrelude.LinksDiffer | src/valiance/analysis/analyser.py:197-200 | provider links are injective |
| ImportPrelude.CollectGroups | src/valiance/analysis/analyser.py:194-196 | the listed names in order of first appearance, each with its declarations in order |
| ImportPrelude.NextNameUnused | src/valiance/analysis/analyser.py:161-165 | numbers from the size of the table on are unused by bindings, links and identity records, even with overload groups |
| ImportPrelude.AppendIsStable | src/valiance/analysis/analyser.py:157-160 | appending under fresh names changes no earlier lookup and no earlier group |
| ImportPrelude.HoistedIsPublished | src/valiance/analysis/import_runtime.py:41-76 | every hoisted function or object, imported before or not, is published under its new binding with all its bodies |
| ImportPrelude.HoistedCallsKeepTheirMeaning | src/valiance/analysis/analyser.py:180-218 | in every body of a hoisted declaration, already imported ones included, a call that is not bound elsewhere and names the declaration itself or a sibling is bound to exactly the declarations the provider lists for it; other calls are untouched |
| ImportPrelude.ImportedCallsKeepTheirProvider | src/valiance/analysis/import_runtime.py:41-103 | in every body of an imported declaration a call bound to another runtime name keeps it, and one that is not reaches the declaration, if it names it, or else the link of its name |
| ImportPrelude.HoistedCallsKeepTheirProvider | src/valiance/analysis/analyser.py:180-218 | the same for every declaration of a provider: a call that belongs to another provider is untouched, the others reach the declaration or its listed siblings |
| ImportPrelude.ImportKeepsDeclaration | src/valiance/analysis/import_runtime.py:41-76 | an imported declaration is published under its runtime name and with the identity it is given; nothing else of it but the bindings of calls changes |
| ImportPrelude.HoistedIdentity | src/valiance/analysis/analyser.py:204-215 | a hoisted object that introduces a type has an identity spelled as the name of its module and its own, each part of the module name a namespace; other objects have none |
| ImportSession.EverySessionIsIssued | src/valiance/analysis/analyser.py:144-218 | in every session each name in use was issued with a number below the number of bindings, and the links of each provider are injective |
| ImportSession.RepeatedRequest | src/valiance/analysis/analyser.py:157-160 | repeating a request, however much later in the session, gives the same answer and changes nothing |
| ImportSession.IssuedOnce | src/valiance/analysis/analyser.py:161-200 | a name issued by one request was in use nowhere before and is issued by no other request of the session |
| ImportSession.AnswersStand | src/valiance/analysis/analyser.py:144-218 | over whole sessions no earlier request and no earlier group of overloads changes |
| ImportSession.LinksStand | src/valiance/analysis/analyser.py:194-218 | the links of a provider stand for exactly its listed declarations as long as the session lasts |
| ImportSession.SameNameSameRequest | src/valiance/analysis/analyser.py:156-178 | two declarations given the same name, however far apart, were requested from the same source with the same identity, and are the same declaration unless the name is a provider's link |
| TraceCollection.TraceCollector.Add | src/valiance/analysis/traces.py:50-57 | allocates one node, or at the limit stops collecting and withdraws what was published |
| TraceCollection.TraceCollector.Refine | src/valiance/analysis/traces.py:24-26 | a refinement is a new node on top of one trace, refused at the limit like any allocation |
| TraceCollection.TraceCollector.JoinTraces | src/valiance/analysis/traces.py:29-36 | no trace, the one trace, or an allocation over the distinct traces in order |
| TraceCollection.PresentOnce | src/valiance/analysis/traces.py:31 | joining drops absent traces and repetitions and nothing else |
| TraceCollection.TraceCollector.FinishFunction | src/valiance/analysis/traces.py:87-90 | publishes unless the collector is truncated |
| TraceCollection.TraceCollector.Checkpoints | src/valiance/analysis/traces.py:92-115 | finishes exactly when the visits so far and the distinct visits on paths to the exit fit the budget; then it hands out exactly the checkpoints on paths to the exit, each with the refinements along the path in chronological order, each pair once; otherwise it hands out those of the visits the budget covered, marks the collector and leaves published functions; in either case in the order of the graph (`TraceOrder.Replays`), each pair where it comes first, and cut off only at the end |
| TraceReplays.RefineReplays | src/valiance/analysis/traces.py:106-115 | a refined trace replays what its trace does, in the same order, with the refinement applied last |
| TraceReplays.CheckpointReplays | src/valiance/analysis/traces.py:108-115 | a new checkpoint is replayed first and with nothing to apply, before what its parents replay |
| TraceReplays.JoinReplays | src/valiance/analysis/traces.py:29-36 | a join replays exactly what its traces do, those of the last trace first |
| TraceReplays.PresentInOrder | src/valiance/analysis/traces.py:31 | traces are joined in the order in which they are given first |
| TraceReplays.ListedAreReplays | src/valiance/analysis/traces.py:92-115 | the list in the order of the graph holds exactly the checkpoints on paths to the exit with the refinements along them |
| TraceOrder.WalkUnrolls | src/valiance/analysis/traces.py:94-115 | the walk with its stack and its set of seen visits makes the visits in the order in which unrolling the graph, last parent first, meets them first, as far as the budget goes |
| TraceOrder.WalkReplays | src/valiance/analysis/traces.py:92-115 | a whole walk hands out the list of the graph, each replay where it comes first, and a walk cut short a start of it |
| Traces.PathVisitsAreExact | src/valiance/analysis/traces.py:94-115 | the visits counted against the budget are exactly the pairs of a node and the refinements after it on some path to the exit |
| TraceCollection.WalkWentOver | src/valiance/analysis/traces.py:101-105 | a visit past the budget means that there are more distinct visits than the budget allows |
| TraceCollection.PublishedExactly | src/valiance/analysis/traces.py:50-105 | in every run of operations: the collector is truncated exactly when an allocation was refused or an inspection went over, and it publishes everything finished before that, or nothing once an allocation was refused |
| TraceCollection.NothingPublishedAfterRefusal | src/valiance/analysis/traces.py:50-90 | once an allocation has been refused nothing is ever published again, whatever operations follow |
| TraceCollection.GraphOnlyGrows | src/valiance/analysis/traces.py:50-57 | in every run the graph is acyclic, within the limit, and keeps every node |
| Traces.ClosedHoldsAll | src/valiance/analysis/traces.py:96-115 | a set of visits closed under going one edge back holds every path to the exit |
| Traces.ReplaysPersist | src/valiance/analysis/traces.py:12-26 | later allocations do not change what an exit replays |
| CommentRanges.CommentRanges | src/valiance/source_queries.py:462-501 | terminates; ranges are ordered and disjoint; an offset is covered exactly when a one-character-at-a-time automaton is in a comment there, end of file included; ranges start exactly where comments open |
| CommentRanges.SkipBlock | src/valiance/source_queries.py:486-498 | skips one nested block comment to where the automaton leaves it, or to the end of the text with the depth still open |
| CommentRanges.LineIsComment | src/valiance/source_queries.py:481-485 | a line comment reaches to its newline or to the end of the text and opens nothing inside |
| CommentRanges.OpensWithDelimiter | src/valiance/source_queries.py:481-486 | a comment opens with `#?` or `#/` only |
| SyntaxIndex.FlatIsExact | src/valiance/source_queries.py:529-552 | the flattened view lists each reachable node of the kind exactly once |
| SyntaxIndex.FlatByChains | src/valiance/source_queries.py:534-549 | the view lists exactly the objects of its kind at the end of a chain of containment that does not lead through foreign objects or, for typed nodes, raw syntax |
| SyntaxIndex.ReflattenIsIdentity | src/valiance/source_queries.py:520-532 | flattening a flattened view gives the view again, which justifies returning an index as it is |
| SyntaxQueries.Walker.Visit | src/valiance/source_queries.py:536-549 | the walk with its `seen` set appends exactly the new nodes of the item in pre-order |
| SyntaxQueries.DataclassNodes | src/valiance/source_queries.py:529-552 | each reachable node of the kind once, in pre-order of first occurrence |
| SyntaxQueries.ViewsAreExact | src/valiance/source_queries.py:50-66 | a typed view holds the typed nodes of its product and an untyped one the raw nodes, those that such chains lead to |
| SyntaxQueries.SourceQueries.Install | src/valiance/source_queries.py:39-48 | installing a product replaces what is installed under that key and nothing else; cached views stay right |
| SyntaxQueries.Store | src/valiance/source_queries.py:61-65 | an existing key is replaced in place; a new one goes to the end, dropping the oldest of sixteen |
| SyntaxQueries.SourceQueries.NodeView | src/valiance/source_queries.py:50-66 | after any installs and queries the answer is a fresh flattening of what is installed; at most sixteen entries; a hit changes nothing |
| Highlight.RunEnd | src/valiance/repl.py:241-243 | the end of the longest run |
| Highlight.QuotedEnd | src/valiance/repl.py:315-325 | one past the first unescaped closing quote, or the end of the line |
| Highlight.NumberEnd | src/valiance/repl.py:275-279 | the longest number with optional fraction and exponent |
| Highlight.BlockEnd | src/valiance/repl.py:250-255 | one past the first closing delimiter, or the end of the line |
| Highlight.StylesByFirstCharacters | src/valiance/repl.py:239-301 | the style of each kind of token, by its first characters |
| Highlight.NextToken | src/valiance/repl.py:239-301 | the next token ends where its kind says and has the style its text calls for; progress is made |
| Highlight.TokenEndIsUnique | src/valiance/repl.py:239-301 | a token ends at one place only |
| Highlight.HighlightedFragments | src/valiance/repl.py:232-302 | lossless: the non-empty fragments are the tokens of the line and concatenate to it |
| Highlight.HighlightingIsDetermined | src/valiance/repl.py:232-302 | a line has one highlighting only |
| Highlight.Overlay | src/valiance/repl.py:1261-1276 | the loop splits each fragment against the span |
| Highlight.OverlayMarksSpan | src/valiance/repl.py:1261-1276 | text and base style of each character stay, and exactly the characters inside the span carry the error style |
| Highlight.OverlayKeepsTextExactlyWhenSpanFits | src/valiance/repl.py:1261-1276 | the text survives exactly when no fragment strictly contains an inverted span; every span with start <= end is fine |
| Highlight.InvertedSpanRepeatsText | src/valiance/repl.py:1261-1276 | a concrete line and inverted span that repeat characters, whatever the keywords and types are |
| Highlight.WithErrorIsInjective | src/valiance/repl.py:1273 | the base style can be read back from an error style |
| Highlight.ErrorIsOneMoreClass | src/valiance/repl.py:1273 | an error style has the classes of the base style and `class:error` |
| Highlight.LineFragments | src/valiance/repl.py:1253-1277 | one displayed line for any provider of spans: nothing past the last line, plain tokens without a span, marked ones with a span that fits |
| LiveDiagnostics.ErrorSpans | src/valiance/repl.py:1154-1184 | the one provider there is: the character at the place a hint names, or the first occurrence of the name it mentions; every range ends after it starts |
| LiveDiagnostics.DisplayedLine | src/valiance/repl.py:1253-1277 | with the ranges of that provider every line keeps its text and base styles, and exactly the characters in the range carry the error style |
| NestingDepth.TooDeep | src/valiance/analysis/analyser.py:433-448 | the worklist rejects exactly when some chain of nested items has more than 120 syntax nodes, however many siblings there are |

## Left out

- The real `Channel`, `Scheduler`, virtual machine, ownership and serializer code: only the oracles that describe them are modelled.
- Overload resolution, subtyping, unification and tag algebra: not part of this model.
- AST node handlers, element stack checks, lints and diagnostics text: abstract trees here.
- scripts/sort_builtins.py: not modelled.
- `_discover_reflection_shapes`, module loading, REPL terminal code, LSP transport, campaign runners: not part of this model.
- Transfer.ValidateTaskTransferType: types, those in definitions included, are taken as already normalized; alternatives are visited in the order given, where the code iterates over a set; rendering is a parameter; a path is a sequence of segments instead of a string.
- RecursionCheck.IncompleteCycleMembers: does not fix the order of the report, because the code iterates over sets.
- TraceCollection.TraceCollector.Checkpoints: an inspection is one call that consumes everything it is given, where the code yields one checkpoint at a time and may be abandoned; a checkpoint is its node with the list of refinements to apply, because the `before` and `after` branches they are applied to are not part of this model. Node facts other than a name are left out.
- ImportPrelude.Prelude.AddDeclaration: one session from an empty prelude, because identity records are not cleared between sessions; supertypes handed through to the hoisted node and the plain `add` are not modelled; types, dispatch plans and source nodes are opaque.
- The seed of hidden names is a parameter; hashing a path is not modelled.
- Definitions.Dependencies: definitions are named by their positions; a function is its overloads, its parameters with their types and defaults, its results and the rest of its fields.
- SyntaxQueries.DataclassNodes: products are finite trees with identities, so the walk over cyclic object graphs is not modelled; reuse of an index handed in is `SyntaxIndex.ReflattenIsIdentity`.
- Highlight.NextToken: characters are classified by ASCII ranges where Python uses Unicode classes; keyword and type names are parameters; the three regular expressions are written out as scanners.
- ScheduleMachine.Replay: ready means that the phase is not terminal; comparing with the real scheduler is left out.
- ScheduleExplorer.ExploreSchedules: the guard on 1 to 4 tasks is kept here; the theorems hold for any number.
- LiveDiagnostics.ErrorSpans: what the patterns find in a hint is a parameter; asking for the hint is not modelled.
- Python's recursion limit and memory limits.
