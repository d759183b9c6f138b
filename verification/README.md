# Verified model of the Zero-OS core: boot, jobs, streams, conditions, stats and port forwards

This project models the parts of Zero-OS core that carry its hard promises, and proves those promises
with Dafny 4.11. `dafny verify dfyconfig.toml` checks everything.

What is modelled, one or more files per component:

- **Boot dependency engine.** `Startup.dfy` is the weight of a service: recursion over the dependency
  graph with a chain for cycle detection. `Tree.dfy` is the tree of weighed services, its sorting and the
  three boot slices. `WaitMachine.dfy` is the latch per service. `Boot.dfy` is `RunSlice` with its
  goroutines, hooks and the final wait, as a step relation over every interleaving. The weight proves a
  slice free of rings; the boot proof turns that into freedom from deadlock. `BootSafety.dfy` holds what every run
  keeps, `BootCauses.dfy` why a service ran or was refused, `BootEnds.dfy` how such a boot ends. `WholeBoot.dfy` joins tree and boot: the slices cut from a tree, run one after the other.
- **Job scheduler.** `Queue.dfy` holds the named queues, `Scheduler.dfy` every interleaving of
  `RunFactory`, the dispatcher and `cleanUp`, `SchedulerTable.dfy` what its table holds and in which order it
  serves, `Pids.dfy` the process id table and the reaper, `PidOrigins.dfy` whose status a waiter gets,
  `Job.dfy` the event loop and the restart loop of one job, `JobResults.dfy` its result field by field, `Message.dfy` the packed message metadata and
  the bounded buffer.
- **Stream parser.** `Stream.dfy` is the chunk-fed parser of `N::line` and `N:::block` frames with its
  losslessness, `StreamFrames.dfy` the round trips, `StreamText.dfy` the text between frames, `StreamBehind.dfy` what follows a block, `StreamCuts.dfy` the exact cuts a block survives.
- **Condition language.** `Condition.dfy` is the parser and the evaluator, `ConditionTexts.dfy` the texts:
  printing and parsing back, exactly which are accepted, with which tree, and which hang the parser. `ConditionMeaning.dfy` is what a text says.
- **Statistics.** `Stats.dfy` is the streaming aggregator and the batch aggregation it equals.
- **Port forwards.** `Source.dfy` is the text form `address:port|protocols`, `SourceTexts.dfy` which texts are
  accepted, `PortForward.dfy` the rule
  table, `PortOwners.dfy` what grouping by port keeps, `Reserve.dfy` the port allocator, `PortManager.dfy` the manager
  object and its runs, `PortSets.dfy` what setting a forward means.
- `Runes.dfy` ties the byte tests of both text parsers to UTF-8. `Wrappers.dfy` holds the optional value and the bounded tail that several of them share.

State that the program updates in place is a class whose methods are proved against functions on values;
concurrent code is a state machine whose invariants hold in every reachable state; pure code is functions.
Channels, locks and goroutines appear as steps. Readings of the clock, verdicts of the packet filter, listening
ports, process exits, hook firings and dispatch results are inputs, so each theorem holds for all of them.

## Where the code and its promises differ

The model follows the code. Where that breaks a promise there is a lemma with an input, or a whole family of
inputs, on which it fails, and a lemma that says exactly when the promise holds.

- A service named after a milestone passes the weight computation and then waits for itself
  (`BootEnds.MilestoneNameWeighs`, `BootEnds.MilestoneNameDeadlocks`); a slice always boots exactly when
  every condition is decided and no services that meet theirs wait for each other in a ring
  (`BootEnds.BootCompletesIff`).
- A service that lists `----` can weigh less than what it waits for and fall in no slice
  (`StartupTree.EndMarkerBreaksSlices`); the slices are the tree exactly when every weight reaches the first
  milestone (`StartupTree.SlicesPartitionIff`), and a service weighs at least as much as one it lists exactly
  when the other names it lists do not add up to less than nothing (`Startups.DependencyOrderIff`).
- A service whose dependency failed in an earlier slice can still start (`WholeBoot.SkippedDependencyIgnored`);
  it can exactly when it and what it needs within its own slice meet their conditions
  (`WholeBoot.FailuresStopAtSlice`). Against a dependency in a later slice, or in none, it starts too early
  (`WholeBoot.BootOrderIff`).
- A job put on the channel can wait for ever: behind a call that holds the table lock (`Scheduler.PushJams`),
  behind its own place in the table (`Scheduler.NotifyJams`), or because the dispatcher missed its wake-up
  (`Scheduler.LostWakeupJams`, after which nothing is handed out any more: `Scheduler.NothingIsHanded`). It is
  received in no continuation exactly when `Scheduler.JamIff` says so.
- The second reading of a differential statistic reports a closed sample that belongs to no period
  (`Stats.SecondDifferential`); which readings report what: `Stats.UpdatesIff`. A value
  read behind a clock that has run back is added to the period that is open (`Stats.LateIsAdded`).
- A condition with a trailing space is a syntax error (`ConditionTexts.RoundTrip`). A list broken off behind a
  comma hangs the parser (`ConditionTexts.UnterminatedListHangs`), and exactly such texts do
  (`ConditionTexts.HangsIff`, `ConditionTexts.HangsIffClosable`). An empty argument list panics when examined
  (`ConditionTexts.EmptyListPanics`); a tree panics on an input exactly when a nil child is reached
  (`Condition.ExamineIsMeaning`), and `ConditionTexts.SolidTextIff` says which texts have none. Either stops the
  boot of the slice (`BootEnds.UndecidedNeverBoots`, exactly when: `WholeBoot.GateIff`).
- A block frame cut in its header or terminator is not put together again (`StreamCuts.CutInHeader`,
  `StreamCuts.CutInTerminator`); in any number of reads it arrives exactly when every boundary lies in its payload or at an end (`StreamCuts.CutsIff`).
- What follows a block in the same chunk is scanned from its second byte on (`StreamBehind.BehindBlock`), so a framed
  line right behind a block is not read as one (`StreamBehind.LineBehindBlock`); it is read as it would be alone
  exactly when `StreamBehind.ReadsOnIff` says so.
- When 65535 itself is used the search for free ports goes on below 1024 (`Reservations.ReserveStrays`, exactly
  when the promise holds: `Reservations.ReservePromiseIff`), then waits for reservations to run out, its own
  included, and can hand out one port many times (`Reservations.LonePortRepeats`, only after two minutes:
  `Reservations.RepeatIsLate`). It never ends exactly when every port is listened on or forwarded
  (`Reservations.ForeverIff`).
- A process id used again before its entry is removed, or between the reaping and the lookup of a child nobody
  registered, hands a waiter the status of another process (`Pids.EarlyReuseMisdelivers`,
  `Pids.StrayMisdelivers`). A fork is safe exactly when the entry of its id is gone and no reaped child with it
  waits for its lookup (`Pids.ForkIsSafeIff`), an unregistered child exactly when its id has neither entry nor
  registration under way (`Pids.StrayIsSafeIff`); over whole runs: `Pids.OwnershipIff`.
- Removing a port forward ignores the target and the address it is given (`PortManager.RemoveTakesAnother`,
  exactly when that does no harm: `PortManager.RemoveIsExactIff`).
- A listed source whose address was empty reads back as `0.0.0.0` (exactly when: `Sources.SourceRoundTripIff`).
- A line without a newline ends in front of its last rune when that is wider than one byte
  (`StreamText.LineEndIff`), although the comment promises the end of the text.
- The comment on the job backlog speaks of 100 messages, the constant is 10 and so is what is kept (`Jobs.Run`).

## Model

| member | source | states |
|---|---|---|
| `Startups.ComputeWeight` | base/settings/startup.go:33-61 | the recursion and loop terminate on every graph and return the weight or the first failure from the left |
| `Startups.SumSucceeds` | base/settings/startup.go:45-58 | a sum succeeds exactly when each listed name does |
| `Startups.SumFails` | base/settings/startup.go:50-57 | the first failing name decides the failure of the whole list |
| `Startups.SuccessMeansGoodWalks` | base/settings/startup.go:33-61 | below any chain, success rules out every walk that repeats a key, meets the chain or reaches an unknown name |
| `Startups.FailureHasBadWalk` | base/settings/startup.go:34-57 | every failure exhibits the walk that caused it, cyclic or unknown as reported |
| `Startups.WeightSucceedsIff` | base/settings/startup.go:33-61 | success if and only if no walk through non-milestone names repeats a key, meets the chain or meets an unknown name |
| `Startups.WeightIgnoresChain` | base/settings/startup.go:33-61 | two successful computations under different chains give the same weight |
| `Startups.SubchainSucceeds` | base/settings/startup.go:33-61 | a smaller chain keeps success and value |
| `Startups.DependencySucceeds` | base/settings/startup.go:45-54 | what a weighed service lists can be weighed on its own, with the same value |
| `Startups.WeightEquation` | base/settings/startup.go:39-60 | the weight is that of `boot` for an empty list, else the sum of the independent weights of the listed names |
| `Startups.MilestoneWeight` | base/settings/include.go:38-44 | after milestones alone a service weighs 1, 1000, a million and -1 for each of them, whatever else is configured; after nothing a million |
| `Startups.DependencyOrderIff` | base/settings/startup.go:45-60 | a service weighs at least as much as a service it lists if and only if the other names it lists do not add up to less than nothing |
| `StartupTree.IncludedSettings.constructor` | base/settings/include.go:47-52 | fresh settings are not prepared |
| `StartupTree.IncludedSettings.Prepare` | base/settings/tree.go:59-66 | runs once and gives every service its configured name as key |
| `StartupTree.IncludedSettings.GetStartupTree` | base/settings/tree.go:68-93 | a sorted tree holding exactly the services that can be weighed with their weights, and exactly one error per other service |
| `StartupTree.Gather` | base/settings/tree.go:71-88 | in any map order, members and errors are complete and without repetition |
| `StartupTree.Tree.constructor` | base/settings/tree.go:72-75 | an empty tree |
| `StartupTree.Tree.Append` | base/settings/tree.go:86-87 | appends a service aligned with its weight |
| `StartupTree.Tree.Less` | base/settings/tree.go:33-35 | compares the weights of the two services at those positions |
| `StartupTree.Tree.Swap` | base/settings/tree.go:37-40 | exchanges services together with their weights |
| `StartupTree.Tree.Sort` | base/settings/tree.go:90-90 | sorting by `Less` and `Swap` alone gives weights in order and a permutation of the entries |
| `StartupTree.Tree.Slice` | base/settings/tree.go:42-57 | the services with weight in the half-open range, in tree order, unbounded for -1 |
| `StartupTree.SlicesJoin` | apps/core0/bootstrap/bootstrap.go:388-416 | the three slices one after the other are the sorted tree |
| `StartupTree.SlicesCount` | apps/core0/bootstrap/bootstrap.go:388-416 | the slices hold no service twice, and lose one if a weight lies below the first milestone |
| `StartupTree.SlicesPartitionIff` | apps/core0/bootstrap/bootstrap.go:388-416 | the slices partition the tree if and only if every weight reaches the first milestone |
| `StartupTree.WeightPositive` | base/settings/include.go:38-44 | without the end marker every weight reaches the first milestone |
| `StartupTree.SumPositive` | base/settings/startup.go:45-58 | without the end marker every term lies between one and the sum |
| `StartupTree.TreeDistinct` | base/settings/tree.go:77-88 | no service is in the tree twice |
| `StartupTree.InSliceIff` | base/settings/tree.go:42-57 | a service of the tree is in the k-th boot slice if and only if its weight lies in that range, and in none below the first milestone |
| `StartupTree.WeighedInSlice` | apps/core0/bootstrap/bootstrap.go:388-416 | every weighed service is in the slice its weight says, and in no other |
| `StartupTree.SliceIsWeighed` | apps/core0/bootstrap/bootstrap.go:98-103 | what a slice holds is a weighed service under its own key |
| `StartupTree.DependencySlice` | apps/core0/bootstrap/bootstrap.go:388-416 | a dependency is never in a later slice than its dependent when the other names the dependent lists do not add up to less than nothing |
| `StartupTree.DependencyWeighs` | base/settings/startup.go:45-60 | without the end marker what a weighed service lists can be weighed, weighs no more, and both have a slice |
| `StartupTree.DependencySound` | base/settings/tree.go:68-93 | without the end marker every configured dependency of a tree member is in the tree with no larger weight, and stands in the same or an earlier of the three slices |
| `StartupTree.EndMarkerBreaksSlices` | base/settings/include.go:32-43 | with the end marker a dependent can weigh less than its dependency and be in none of the three slices of any tree |
| `WaitMachine.Machine.constructor` | base/pm/waitmachine.go:26-38 | one open latch per key |
| `WaitMachine.Machine.Release` | base/pm/waitmachine.go:60-74 | closes the latch, overwrites its state even when closed, reports unknown keys |
| `WaitMachine.Machine.Wait` | base/pm/waitmachine.go:46-58 | blocked on the first listed latch that is open, else back with the conjunction of the released states; unknown names passed over |
| `BootSlice.StepKeepsInv` | base/pm/pm.go:274-377 | every step of the loop, a goroutine, a hook or the final wait keeps the boot invariant |
| `BootSlice.RunKeepsInv` | base/pm/pm.go:274-377 | every run keeps it, and phases and latches only move onward |
| `BootSafety.LaunchedNeedsAll` | base/pm/pm.go:322-332 | a service that got as far as `Run` has every transitive same-slice dependency started and released |
| `BootSafety.StartSafety` | base/pm/pm.go:322-371 | in every run no service starts before its same-slice dependencies are released |
| `BootSafety.FailurePropagates` | base/pm/pm.go:295-371 | once a service is skipped, refused or not dispatched, no transitive dependent is ever started, at any two moments of any run |
| `BootCauses.RunLog` | base/pm/pm.go:322-371 | every run is accounted for by its own steps: the state of every latch, every wait under way, every start and every refusal |
| `BootCauses.LaunchedNeedsSuccess` | base/pm/pm.go:322-371 | a service gets as far as `Run` only when every transitive same-slice dependency has fired its early hook or exited with success |
| `BootCauses.FailedExitStops` | base/pm/runnerhook.go:55-64 | a service that exits with an error, its early hook silent or missing, stops every transitive same-slice dependent |
| `BootCauses.LatchIsLastHook` | base/pm/waitmachine.go:60-74 | a dispatched service is released exactly when a hook has fired, with what the last one said |
| `BootCauses.RefusedHasCause` | base/pm/pm.go:324-330 | a service is refused only for a dependency that was skipped, refused or not dispatched, or that exited with an error |
| `BootCauses.StartedIffDispatched` | base/pm/pm.go:365-370 | running exactly when dispatched without an error, failed exactly when dispatched with one; hooks fire on running services alone |
| `BootSafety.StuckIsKnot` | base/pm/waitmachine.go:46-58 | if nothing can move, the unreleased services wait for each other in a ring |
| `BootSafety.NoDeadlock` | base/pm/pm.go:322-376 | without a ring, an unreleased key means that somebody can move, a started service awaits its hook, or the loop stands at a condition that is never decided |
| `BootSafety.WeighedOutsideKnot` | base/settings/startup.go:33-61 | a service whose weight was computed is in no ring |
| `BootSafety.WeighedSliceNeverDeadlocks` | base/pm/pm.go:274-377 | so it is in every run of a slice of weighed services, none named after a milestone |
| `BootEnds.StepUsesBudget` | base/pm/runnerhook.go:41-64 | every step uses up a finite budget; the once-only hooks fire once |
| `BootEnds.RunIsBounded` | base/pm/pm.go:274-377 | no run is longer than the budget of its first state |
| `BootEnds.SettledIsBooted` | base/pm/waitmachine.go:40-44 | without a ring and with all conditions decided, once nobody can move and every started service is released, the final wait has returned, whatever the services go on doing |
| `BootEnds.BootedIsSettled` | base/pm/waitmachine.go:40-44 | and the other way round |
| `BootEnds.UndecidedNeverBoots` | base/pm/pm.go:283-308 | a condition, of a service or of an argument, whose parsing hangs or whose examination panics stops the slice for good |
| `BootEnds.KnotNeverBoots` | base/pm/waitmachine.go:46-58 | with a ring no run ever boots the slice |
| `BootEnds.BootCompletesIff` | base/pm/pm.go:274-377 | all settled runs have booted if and only if every condition is decided and no services that meet theirs wait for each other in a ring |
| `BootEnds.MilestoneNameWeighs` | base/settings/startup.go:46-47 | a service named `boot` that lists `boot` gets a weight |
| `BootEnds.MilestoneNameDeadlocks` | base/pm/pm.go:322-324 | and no run of its slice ends booted |
| `WholeBoot.HappyRun` | base/pm/pm.go:274-377 | from any state in which nothing went wrong there is a complete run in which nothing goes wrong |
| `WholeBoot.CanStartIff` | base/pm/pm.go:322-371 | a service of a ring-free slice starts in some run if and only if it and all it needs within the slice are reached by the loop and meet their conditions |
| `WholeBoot.DecidedIff` | base/pm/pm.go:284-293 | a condition is never decided if and only if its text is broken off behind a comma or its tree reaches a nil child, and holds if and only if its tree means true |
| `WholeBoot.GateIff` | base/pm/pm.go:284-308 | a service holds the loop up for good if and only if its own condition is never decided, or is true and one in front of an argument is never decided; it is let through if and only if its own is true and those of all arguments are decided |
| `WholeBoot.SliceForIsValid` | base/pm/pm.go:274-293 | the keys, lists and conditions `RunSlice` takes from its services |
| `WholeBoot.CutHas` | apps/core0/bootstrap/bootstrap.go:98-103 | a name is in the k-th slice run if and only if its service is weighed and its weight lies there |
| `WholeBoot.CutsShareOut` | apps/core0/bootstrap/bootstrap.go:98-103 | the three slices cut from a tree are valid slices that share out exactly the weighed services by weight |
| `WholeBoot.SharedIsWeighed` | base/settings/startup.go:33-61 | such a slice, no service named after a milestone, holds weighed services without a ring |
| `WholeBoot.BootGoesOn` | apps/core0/bootstrap/bootstrap.go:387-416 | with all conditions decided and no milestone names, `RunSlice` has returned if and only if nobody can move and every started service is released |
| `WholeBoot.EdgeOrdered` | base/settings/startup.go:45-60 | a dependency that reaches the first milestone is in the same or an earlier slice when the other listed names do not add up to less than nothing |
| `WholeBoot.EdgesOrdered` | base/settings/include.go:38-44 | and so is every dependency without the end marker |
| `WholeBoot.BootOrderSafe` | apps/core0/bootstrap/bootstrap.go:387-416 | over the three slices in order a service does not start before a service it lists is released, earlier slices included, if that one is in the same or an earlier slice |
| `WholeBoot.BootOrderIff` | apps/core0/bootstrap/bootstrap.go:387-416 | for a service that can start, the conditions of the slices before its own being decided, this order is kept in every boot if and only if the dependency is in the same or an earlier slice |
| `WholeBoot.FailuresStopAtSlice` | base/pm/waitmachine.go:46-58 | however the earlier slices went, a service of the next one can start if and only if it and what it needs within its own slice meet their conditions |
| `WholeBoot.SkippedDependencyIgnored` | base/pm/waitmachine.go:46-58 | a boot of two services in which the dependency is skipped in the first slice and the dependent starts in the second |
| `Queues.Queue.constructor` | base/pm/queue.go:20-26 | no queues, not closed |
| `Queues.Queue.Close` | base/pm/queue.go:29-34 | the queue is closed; a second call panics |
| `Queues.Queue.Push` | base/pm/queue.go:42-68 | refused when closed; an unnamed job, or the first of its queue, is sent; any other is appended |
| `Queues.Queue.Notify` | base/pm/queue.go:71-91 | drops the front of the job's queue, deletes an empty queue, sends the next job |
| `Scheduler.StepKeepsInv` | base/pm/pm.go:84-140 | every step of `RunFactory`, dispatcher, receive and `cleanUp`, the sleep of the dispatcher and the broadcast included, keeps the table, age, stage and queue invariants |
| `Scheduler.RunKeepsInv` | base/pm/pm.go:84-140 | so does every interleaving |
| `Scheduler.ConcurrencyBound` | base/pm/pm.go:123-140 | jobs started and not yet removed never exceed MaxJobs |
| `Scheduler.TablePassesBound` | base/pm/pm.go:95-108 | while the table itself reaches any size behind a named queue |
| `Scheduler.OneAtATime` | base/pm/queue.go:42-91 | from the offer until the job's own `Notify` no other job of the same queue name is offered, started or finishing |
| `Scheduler.NotifyRemovesFinished` | base/pm/pm.go:379-386 | the entry `Notify` removes is always the finished job |
| `Scheduler.HandedInPushOrder` | base/pm/queue.go:42-91 | under every name jobs are handed out in push order, none left out |
| `Scheduler.HandedOnce` | base/pm/queue.go:42-91 | no job is handed out twice |
| `SchedulerTable.TableIsExact` | base/pm/pm.go:84-140 | in every interleaving the table holds a job exactly from its insertion until its removal: being inserted, queued, offered or started |
| `SchedulerTable.DrainedIsEmpty` | base/pm/pm.go:379-386 | once no job is on its way the table is empty |
| `SchedulerTable.FirstComeFirstServed` | base/pm/queue.go:42-91 | jobs of a queue name are handed out in the order of the calls, with the ids they were asked for under, none left out |
| `Scheduler.JamIff` | base/pm/pm.go:123-140 | in every interleaving a job on offer is received in no continuation if and only if the dispatcher has not passed its test and either the table stays full, counting the started jobs as leaving unless a call holds the lock, or it sleeps, or is about to, with no broadcast owed |
| `Scheduler.NothingIsHanded` | base/pm/pm.go:126-132 | once the dispatcher sleeps, or is about to, and no job is left whose end could wake it, no job is ever handed out again, those not submitted yet included |
| `Scheduler.PushJams` | base/pm/pm.go:95-108 | a run into a jam: a second call blocks in its send with the table lock held |
| `Scheduler.NotifyJams` | base/pm/pm.go:379-386 | a run into a jam with no lock held: the next job of a queue is offered by the end of the job before it |
| `Scheduler.LostWakeupJams` | base/pm/pm.go:126-132 | a run into a jam with room in the table: the broadcasts come between the look at the full table and the sleep |
| `Pids.RunKeepsInv` | base/pm/pm.go:142-198 | every order of forking, registering, reaping, delivering and waiting, children nobody registers included, keeps the table invariant when no id is used too early |
| `Pids.StatusReachesItsWaiter` | base/pm/pm.go:142-198 | what a waiter got is its own process's status, handed over at most once; only the status of a child nobody registered is dropped, and it goes to nobody; the entry is gone exactly behind the delivery |
| `PidOrigins.WaiterGetsItsFork` | base/pm/pm.go:142-198 | what a waiter gets is the exit status its own fork was going to have; one process per fork |
| `Pids.DeliveryMoves` | base/pm/pm.go:158-171 | a reaped process whose waiter has called is never stuck before its entry is deleted |
| `Pids.OwnershipIff` | base/pm/pm.go:142-198 | a complete run keeps every entry with its process and every status on its own channel in every state if and only if no fork meets an entry of its id and no unregistered child is looked up while its id has one |
| `Pids.ForkIsSafeIff` | base/pm/pm.go:163-188 | in every state reached without early reuse, a fork onto an id leaves no continuation that loses or misdirects a status or sends on a closed channel if and only if the entry of the id is gone and no reaped child with it waits for its lookup |
| `Pids.StrayIsSafeIff` | base/pm/pm.go:158-171 | nor does a child nobody registers, if and only if its id has no entry and no registration under way |
| `Pids.StepKeepsInv` | base/pm/pm.go:142-198 | every step keeps it when no fork meets an entry of its id and no unregistered child is looked up while its id has one |
| `Pids.EarlyReuseMisdelivers` | base/pm/pm.go:176-198 | one run from the start in which an id is used again before its entry is removed: the first waiter gets the exit status of the newcomer |
| `Pids.StrayMisdelivers` | base/pm/pm.go:152-171 | one run from the start in which a new process takes the id of an orphan between its reaping and its lookup, and its waiter gets the status of the orphan |
| `Message.NewMeta` | base/pm/stream/message.go:58-65 | level and the union of all flags, packed |
| `Message.NewMetaWithCode` | base/pm/stream/message.go:67-70 | the same with a 32-bit code on top |
| `Message.Unpack` | base/pm/stream/message.go:72-100 | code, level and flags come back from the packed word |
| `Message.BaseDropsCode` | base/pm/stream/message.go:103-105 | `Base` clears the code and keeps level and flags |
| `Message.SetKeepsCode` | base/pm/stream/message.go:93-95 | `Set` keeps code and level |
| `Message.SetFlag` | base/pm/stream/message.go:88-95 | setting the stream flag sets it and leaves the exit flags |
| `Message.ExitFlags` | base/pm/job.go:280-280 | the joint test is the disjunction of the two exit flags |
| `Message.BitsAreFields` | base/pm/stream/message.go:58-105 | the bit operations on the word are the field operations the event loop relies on |
| `Jobs.ShownFields` | base/pm/job.go:272-280 | in the word subscribers see the code is gone, level and exit flags are not, and the exit test is that of the word received |
| `Message.Buffer.constructor` | base/pm/stream/buffer.go:14-19 | empty, with its size |
| `Message.Buffer.Append` | base/pm/stream/buffer.go:35-40 | holds exactly the last `size` elements appended |
| `Wrappers.LastNStep` | base/pm/stream/buffer.go:35-40 | keeping the last n step by step is keeping the last n of everything |
| `Message.Text` | base/pm/stream/buffer.go:21-33 | the concatenation of the held texts in order |
| `Jobs.Loop.constructor` | base/pm/job.go:184-226 | the state before any event, with the backlog of earlier runs |
| `Jobs.Loop.Classify` | base/pm/job.go:257-266 | result, stdout, stderr and critical follow the trace with this message added, read from its packed word |
| `Jobs.Loop.Remember` | base/pm/job.go:250-250 | the backlog is the last 10 messages, as the subscribers see them |
| `Jobs.Loop.Turn` | base/pm/job.go:234-284 | one select turn: a result exactly on an exit message, else the trace grows by the event |
| `Jobs.Loop.Receive` | base/pm/job.go:249-284 | a message turn on the packed word; the code is that of the word before it is dropped |
| `Jobs.Loop.Finish` | base/pm/job.go:294-306 | the assembled result is the trace function, whose fields are said by `JobResults.OutputsOfResult`, `JobResults.DataOfResult` and `JobResults.StateOfResult` |
| `Jobs.Run` | base/pm/job.go:182-307 | stops at the first exit-flagged message with the result of the trace up to it: state, code, last result message, last 100 of each stream, last critical text; the backlog is the last 10 messages of all runs; spawn failure reported; no exit, no result |
| `JobResults.OutputsOfResult` | base/pm/job.go:257-306 | standard output is the text of the last 100 level-1 messages read from the back, standard error that of level 2, critical the last text of level 9 |
| `JobResults.DataOfResult` | base/pm/job.go:257-259 | level and data are those of the last result-level message, empty without one |
| `JobResults.StateOfResult` | base/pm/job.go:240-284 | code of the exit message; success exactly on its success flag, timeout exactly on a failing exit after a timer on a process that takes signals |
| `JobResults.MessageBeforeExit` | base/pm/job.go:257-302 | one more message before the exit adds its text to the output of its level, behind the earlier text and before that of the exit, and leaves the other output, code and state alone |
| `JobResults.DataBeforeExit` | base/pm/job.go:257-304 | one more critical message replaces the critical text, one more result message level and data, any other neither |
| `JobResults.ShownInOrder` | base/pm/job.go:249-280 | a message stands in the backlog between the earlier and the later ones, with text, level and exit flags, without its code |
| `Jobs.Job.constructor` | base/pm/job.go:75-95 | no result, waiters held |
| `Jobs.Job.Publish` | base/pm/job.go:319-320 | the result is set once, before any release |
| `Jobs.Job.ReleaseWaiters` | base/pm/job.go:323-325 | waiters are released only behind a result |
| `Jobs.Job.Wait` | base/pm/job.go:400-403 | blocks until the release, then gives the published result |
| `Jobs.Job.Start` | base/pm/job.go:309-375 | runs exactly until the loop may not go on, publishes the last run's result, then releases |
| `Jobs.RestartBound` | base/pm/job.go:331-374 | neither protected nor recurring: stops after n runs if and only if n is between 1 and max(1, MaxRestart), all runs before failed, and the n-th succeeded, hit the limit or was unscheduled |
| `Jobs.RestartStops` | base/pm/job.go:331-374 | such a job always stops within the limit |
| `JobResults.RestartIff` | base/pm/job.go:331-374 | any command, protected and recurring ones included: never stops in a protected turn, stops when unscheduled, and unless it recurs at the first success or at max(1, MaxRestart) turns that are not protected |
| `StreamParser.NewLineOrEOF` | base/pm/stream/input.go:81-93 | the rune loop returns the next newline, the end, or the start of a wide last rune |
| `StreamParser.Consumer.constructor` | base/pm/stream/input.go:47-52 | an idle consumer |
| `StreamParser.Consumer.Feed` | base/pm/stream/input.go:96-192 | the messages and the carried-over block are those of the chunk function |
| `StreamParser.Consumer.Loop` | base/pm/stream/input.go:121-191 | all slices in bounds, the index grows, and the loop hands over exactly the scanned pieces |
| `StreamParser.ScanLossless` | base/pm/stream/input.go:121-191 | the scan of a chunk gives back every byte, in order |
| `StreamParser.ProcessLossless` | base/pm/stream/input.go:96-192 | so does a chunk that continues an open block |
| `StreamParser.Lossless` | base/pm/stream/input.go:96-192 | for every sequence of chunks the bytes fed are the emitted payloads and the pending block with headers and terminators put back |
| `StreamParser.FramingOnly` | base/pm/stream/input.go:96-192 | what is put back is digits with two or three colons and a terminator, nothing else |
| `StreamFrames.ValueOfDigits` | base/pm/stream/input.go:68-78 | a printed level reads back |
| `StreamFrames.HeaderIs` | base/pm/stream/input.go:23-23 | a printed header is matched whole, the third colon decides for a block |
| `StreamFrames.LevelOfHead` | base/pm/stream/input.go:68-78 | the level of a printed header; one that does not fit 16 bits gives the largest |
| `StreamFrames.LineEndAt` | base/pm/stream/input.go:81-93 | the rune loop cannot step over a newline, whatever bytes stand before it |
| `StreamText.LineEndIff` | base/pm/stream/input.go:81-93 | without a newline the line ends with the text, unless its last rune is wider than one byte: then in front of that rune |
| `Runes.RuneIff` | base/pm/stream/input.go:81-93 | a rune of the loop is wider than one byte exactly when the UTF-8 form of a scalar value outside ASCII stands there |
| `StreamText.HeaderIff` | base/pm/stream/input.go:68-79 | a header is one or more digits and two colons, a third colon makes it the header of a block, and nothing else is one |
| `StreamFrames.ScanOneLine` | base/pm/stream/input.go:138-162 | a printed line is taken off whole, the plain text before it handed over, and the scan goes on behind it |
| `StreamFrames.LinesRoundTrip` | base/pm/stream/input.go:121-163 | any list of printed lines in one chunk comes back as exactly those messages, in order, each with its newline |
| `StreamText.HeaderlessChunk` | base/pm/stream/input.go:122-191 | a chunk with no header at the start of any line is one message of the level of the consumer |
| `StreamText.MixedRoundTrip` | base/pm/stream/input.go:122-191 | framed lines among plain ones come back with their own level, every run of plain lines between them as one message of the level of the consumer, in order |
| `StreamFrames.Collects` | base/pm/stream/input.go:115-118 | payload inside an open block is collected |
| `StreamFrames.Closes` | base/pm/stream/input.go:106-114 | the terminator closes the block with its whole payload |
| `StreamFrames.Opens` | base/pm/stream/input.go:165-183 | what a chunk that starts with a block header does |
| `StreamFrames.BlockRoundTrip` | base/pm/stream/input.go:96-183 | a block frame in any number of chunks cut inside its payload yields one message with its level and payload, and an idle consumer |
| `StreamFrames.WholeFrame` | base/plugin/plugin.go:13-18 | the frame a plugin prints, read in one chunk |
| `StreamBehind.ScanShift` | base/pm/stream/input.go:122-191 | a scan does not depend on what stands before it |
| `StreamBehind.BehindBlock` | base/pm/stream/input.go:168-176 | the block comes out and what follows it in the chunk is scanned from its second byte on |
| `StreamBehind.FirstIsText` | base/pm/stream/input.go:131-137 | text held back is handed over before anything else |
| `StreamBehind.ReadsOnIff` | base/pm/stream/input.go:122-191 | what follows a block is read as it would be alone if and only if it neither starts with a header nor carries one behind a first byte that is no newline |
| `StreamBehind.LineBehindBlock` | base/pm/stream/input.go:168-176 | a framed line of a level below ten right behind a block comes out as plain text, header and all |
| `StreamCuts.GoodRead` | base/pm/stream/input.go:96-183 | one read between two cuts in the payload or at an end leaves the parser exactly where it should stand |
| `StreamCuts.CutInHeader` | base/pm/stream/input.go:121-191 | a cut in the header never gives the message alone, whatever the reads behind it |
| `StreamCuts.CutInTerminator` | base/pm/stream/input.go:99-118 | a cut in the terminator leaves the block open or makes its text too long, whatever the reads behind it |
| `StreamCuts.CutsIff` | base/pm/stream/input.go:96-192 | a frame in any number of reads arrives as its one message if and only if every boundary lies in the payload or at an end |
| `Condition.ExamineIsMeaning` | base/settings/condition.go:33-105 | on every tree and input evaluation panics if and only if a nil child is reached with no earlier sibling deciding, and equals the boolean meaning otherwise |
| `Condition.SolidNeverPanics` | base/settings/condition.go:33-105 | a tree without nil children never panics |
| `Condition.ParseOne` | base/settings/condition.go:120-173 | the recursive method returns what the parser function says, hanging included |
| `Condition.ParseArgs` | base/settings/condition.go:131-157 | the argument loop, turn by turn |
| `ConditionTexts.ParseDoc` | base/settings/condition.go:120-173 | a printed expression anywhere in a text gives its tree and the right end |
| `ConditionTexts.ParseDocs` | base/settings/condition.go:135-155 | a printed argument list gives its trees in order |
| `ConditionTexts.RoundTrip` | base/settings/condition.go:108-192 | any layout of spaces, arguments left out included, parses back to its tree if and only if no space trails it, and evaluation agrees with the meaning of the tree on every input |
| `ConditionTexts.EveryTreePrints` | base/settings/condition.go:17-23 | every tree of keywords and words has such a layout, spelled in its own words: one keyword per constructor and the names themselves |
| `ConditionMeaning.SaysIsMeaning` | base/settings/condition.go:17-103 | the tree of a layout means what its words and brackets say, read without the parser |
| `ConditionMeaning.TextSays` | base/settings/condition.go:120-192 | a layout with no argument left out is accepted and holds on an input exactly when it says so |
| `ConditionMeaning.AcceptedTextSays` | base/settings/condition.go:120-192 | every accepted text with a tree free of nil children holds exactly when its layout says so |
| `ConditionMeaning.KeywordTexts` | base/settings/condition.go:17-23 | for all names a, b: `true`, `false`, `a`, `not(a)`, `and(a,b)`, `or(a,b)` have the trees of those names and hold exactly then |
| `ConditionTexts.ReadIsLayout` | base/settings/condition.go:120-173 | whatever the parser reads, not in front of nothing but spaces, is a layout of the tree it returns |
| `ConditionTexts.ArgsAreLayout` | base/settings/condition.go:131-157 | so is every argument list it closes |
| `ConditionTexts.AcceptedIff` | base/settings/condition.go:177-192 | a text is accepted with a tree if and only if it is a layout of that tree; the empty text is true |
| `ConditionTexts.SolidTextIff` | base/settings/condition.go:120-192 | an accepted text gives a tree without nil children if and only if its layout leaves out no argument of a keyword, and then never panics |
| `ConditionTexts.HangsIff` | base/settings/condition.go:135-155 | the parser hangs if and only if the text is a layout broken off behind a comma |
| `ConditionTexts.HangsIffClosable` | base/settings/condition.go:135-155 | equivalently, if and only if the text ends in a comma and some closing brackets behind it would make it acceptable |
| `ConditionTexts.ClosedIsDecided` | base/settings/condition.go:177-192 | and that test always ends |
| `ConditionTexts.ParserDecides` | base/settings/condition.go:177-192 | a text that does not end in a comma is accepted or refused |
| `ConditionTexts.UnterminatedListHangs` | base/settings/condition.go:135-155 | a concrete text on which the parser does not end |
| `ConditionTexts.EmptyListPanics` | base/settings/condition.go:123-142 | an empty list is accepted and panics when examined |
| `Stats.Cell.Feed` | apps/core0/stats/stats.go:31-59 | the new running sample and the closed one |
| `Stats.NewCells` | apps/core0/stats/stats.go:81-83 | one empty sample object per duration, none shared |
| `Stats.State.constructor` | apps/core0/stats/stats.go:73-86 | nothing read, nothing logged |
| `Stats.State.Log` | apps/core0/stats/stats.go:107-120 | appends a defined sample and keeps the last five |
| `Stats.State.FeedAll` | apps/core0/stats/stats.go:149-154 | every duration is fed once; exactly the closed samples are returned |
| `Stats.State.LogAll` | apps/core0/stats/stats.go:150-153 | every closed sample is logged under its duration |
| `Stats.State.FeedOn` | apps/core0/stats/stats.go:99-157 | raw value or rate, first reading, repeated reading: the new state and the reported samples, whose meaning is said by `Stats.RepeatedReading`, `Stats.StreamIsBatch` and `Stats.UpdatesIff` |
| `Stats.BatchStep` | apps/core0/stats/stats.go:31-59 | one more value changes the fold exactly as it changes the batch aggregation |
| `Stats.PeriodTruncates` | apps/core0/stats/stats.go:31-32 | a period starts at the nearest multiple of its duration toward zero |
| `Stats.RepeatedReading` | apps/core0/stats/stats.go:122-137 | a reading that is not later than the one before it changes the last reading and nothing else, and reports nothing |
| `Stats.LateIsAdded` | apps/core0/stats/stats.go:31-59 | a value behind a clock that has run back counts in the open period |
| `Stats.EffectiveShape` | apps/core0/stats/stats.go:122-157 | over strictly increasing times every reading but the first of a differential counts, at its own time |
| `Stats.StreamIsBatch` | apps/core0/stats/stats.go:99-157 | over any readings past the first period, repeated ones and a clock that runs back included, the running sample is the exact aggregate of the open period and the history is the last at most five closed ones |
| `Stats.ReportIff` | apps/core0/stats/stats.go:31-59 | a value reports the running sample if and only if its period is over, and the closed samples grow by exactly that one |
| `Stats.UpdatesIff` | apps/core0/stats/stats.go:122-157 | a reading reports a sample if and only if it is not the first, is later than the one directly before it and the period of the last effective value is over; it is the exact sample just closed, or the undefined one before the first effective value |
| `Stats.SecondDifferential` | apps/core0/stats/stats.go:129-157 | the second reading of a differential always reports the undefined sample |
| `Sources.GetSource` | apps/core0/helper/socat/rule.go:74-110 | the parsed source, or refusal for a bad protocol, number or port |
| `Sources.PrintedIsRead` | apps/core0/helper/socat/rule.go:44-110 | a printed source is read back, a missing address filled in |
| `Sources.ParsedIsSane` | apps/core0/helper/socat/rule.go:74-110 | whatever is accepted has a port of 1 to 65535, protocols, and no separator in its address |
| `Sources.SourceRoundTripIff` | apps/core0/helper/socat/rule.go:44-110 | the round trip is exact if and only if the source is sane and carries an address |
| `SourceTexts.AcceptedSourceIff` | apps/core0/helper/socat/rule.go:74-110 | a text stands for a source if and only if it is written as optional address, blanks, a number of 1 to 65535, anything unread, and optional protocols that mean that source |
| `SourceTexts.PortDecides` | apps/core0/helper/socat/rule.go:74-110 | a number alone is accepted exactly from 1 to 65535; `0.0.0.0:` in front or tcp named behind makes no difference, udp makes it udp |
| `Runes.BlankIff` | apps/core0/helper/socat/rule.go:98-100 | a blank in front of the number is the UTF-8 form of a white space other than a newline |
| `SourceTexts.DigitlessRefused` | apps/core0/helper/socat/rule.go:98-100 | a text without a digit is refused |
| `PortForwards.NamespaceUnpacks` | apps/core0/helper/socat/types.go:31-33 | system and id come back from a namespace |
| `PortForwards.NamespaceInjective` | apps/core0/helper/socat/types.go:31-33 | namespaces are equal exactly when system and id are |
| `PortForwards.RulesFollowForwards` | apps/core0/helper/socat/socat.go:149-171 | filtering the rules by mark or port is filtering the forwards |
| `PortForwards.DropSays` | apps/core0/helper/socat/socat.go:177-181 | dropping the first n found rules by their handles leaves exactly the other rules, in order |
| `PortForwards.CutFollows` | apps/core0/helper/socat/socat.go:177-181 | dropping rules one by one takes protocols off the forwards in order |
| `PortOwners.PortOwnership` | apps/core0/helper/socat/socat.go:59-134 | all rules with one destination port come from a single forward |
| `PortOwners.RuleIffForward` | apps/core0/helper/socat/socat.go:68-97 | a port has a rule if and only if a forward holds it |
| `PortOwners.GroupingIsExact` | apps/core0/helper/socat/socat.go:216-239 | grouping by port gives back every forward whole, with all protocols in order, and nothing else |
| `Reservations.NextFree` | apps/core0/helper/socat/socat.go:394-404 | the inner loop, one reading of the clock per reservation looked up: where it stops, and that it stops exactly when some probe finds a free port |
| `Reservations.Search` | apps/core0/helper/socat/socat.go:388-414 | under any clock that moves the call hands out, reserves and ends as specified |
| `Reservations.SearchIsOrderly` | apps/core0/helper/socat/socat.go:391-414 | whatever the clock, with 65535 not used: the call ends with n ports or reports exhaustion with fewer, its ports lie in 1024..65534 and do not decrease, and every port passed over was used or seen reserved |
| `Reservations.ReserveSucceeds` | apps/core0/helper/socat/socat.go:391-414 | enough free ports, and no reservation runs out during the pass: the n smallest of 1024..65534, strictly increasing |
| `Reservations.ReserveExhausts` | apps/core0/helper/socat/socat.go:406-408 | too few and 65535 not taken: an error, after all free ports |
| `Reservations.ReserveStrays` | apps/core0/helper/socat/socat.go:394-404 | too few and 65535 used: the free ports below 1024 follow; after those the call waits until reservations run out and ends with n ports, unless every port is used |
| `Reservations.ReservePromiseIff` | apps/core0/helper/socat/socat.go:391-414 | the call ends, stays in range and fails exactly for want of free ports, if and only if 65535 is not used or enough are free |
| `Reservations.ForeverIff` | apps/core0/helper/socat/socat.go:393-404 | a call goes on for ever if and only if it wants a port and every port is listened on or forwarded |
| `Reservations.HandedWasFree` | apps/core0/helper/socat/socat.go:394-404 | nothing used is handed out, and nothing reserved before a reading of the clock past its end |
| `Reservations.ReservedAfter` | apps/core0/helper/socat/socat.go:410-411 | a call leaves reserved what was, and what it handed out for two minutes |
| `Reservations.RepeatIsLate` | apps/core0/helper/socat/socat.go:393-412 | a call hands out one port twice only if it takes more than two minutes |
| `Reservations.LonePortRepeats` | apps/core0/helper/socat/socat.go:393-412 | with one unused port left a call for n ports ends with that port n times |
| `PortManager.DoKeepsOwned` | apps/core0/helper/socat/socat.go:59-214 | every operation keeps one forward per port |
| `PortManager.RunPortOwnership` | apps/core0/helper/socat/socat.go:59-214 | after any run from an empty table every rule on a port belongs to one live forward |
| `PortManager.TrimmedOwned` | apps/core0/helper/socat/socat.go:177-181 | a removal that stops at a failing drop still keeps one forward per port |
| `PortManager.TrimmedAll` | apps/core0/helper/socat/socat.go:207-211 | when no drop fails the covered forwards are gone and the others unchanged |
| `PortManager.RemoveAllIsLocal` | apps/core0/helper/socat/socat.go:187-214 | leaves every other namespace untouched, even when a drop fails, and empties its own when none does |
| `PortManager.RemoveUndoesSet` | apps/core0/helper/socat/socat.go:141-184 | removing by the same host text restores the forwards |
| `PortManager.ListedTextRemoves` | apps/core0/helper/socat/socat.go:141-184 | removing by a listed text takes away that forward and no other |
| `PortManager.RemoveIsExactIff` | apps/core0/helper/socat/socat.go:141-184 | a removal takes away exactly the forward named by namespace, source and target if and only if every live forward of the namespace on that port has that source and target |
| `PortManager.RemoveTakesAnother` | apps/core0/helper/socat/socat.go:141-184 | a removal that takes away a forward with another source and target |
| `PortManager.ListedApart` | apps/core0/helper/socat/socat.go:304-307 | two live forwards never share a listed text |
| `PortManager.NoDoubleReservation` | apps/core0/helper/socat/socat.go:346-415 | over any run a port handed out is not handed out again by a call that is over within two minutes, unless it was forwarded in between |
| `PortSets.HandedIsFree` | apps/core0/helper/socat/socat.go:346-415 | a port handed out is not listening for tcp, not forwarded, and a reservation of it had run out at some reading of the clock during the call |
| `PortManager.Manager.constructor` | apps/core0/helper/socat/socat.go:45-47 | no rules, no reservations |
| `PortManager.Manager.SetPortForward` | apps/core0/helper/socat/socat.go:59-134 | refused for a bad host, a failing lookup, a forwarded port or rejected rules; else the forward, rules and listing of `PortSets.SetAddsForward`, `PortSets.SetAddsRules` and `PortSets.SetIsListed` |
| `PortSets.SetAddsForward` | apps/core0/helper/socat/socat.go:99-134 | one forward more, with the namespace, address and target of the call and the parsed source; the reservation of its port is gone, the others stay |
| `PortSets.RefusedSetChangesNothing` | apps/core0/helper/socat/socat.go:63-97 | a refused call leaves forwards and reservations as they were |
| `PortSets.SetAddsRules` | apps/core0/helper/socat/socat.go:99-127 | one rule per protocol behind the old ones, with port, limiting address, mark, address and target of the call |
| `PortSets.SetIsListed` | apps/core0/helper/socat/socat.go:279-310 | every later listing of the namespace is the earlier one with the text of the source mapped to the target of the call; other namespaces keep theirs |
| `PortManager.Manager.Append` | apps/core0/helper/socat/socat.go:106-127 | the new rules stand behind the old ones |
| `PortManager.Manager.DropAll` | apps/core0/helper/socat/socat.go:177-181 | drops what a lookup found until a drop fails: exactly the rules dropped so far are gone, and success means all of them |
| `PortManager.Manager.RemovePortForward` | apps/core0/helper/socat/socat.go:141-184 | removes the forward on that port in that namespace, whatever its target and address; bad host, failing lookup and failing drop reported with what they leave |
| `PortManager.Manager.RemoveAllOf` | apps/core0/helper/socat/socat.go:187-214 | removes the forwards of the namespace; failing lookup and failing drop reported with what they leave |
| `PortManager.Manager.RulesFromMatches` | apps/core0/helper/socat/socat.go:216-239 | the loop computes the grouping |
| `PortManager.Manager.List` | apps/core0/helper/socat/socat.go:279-310 | exactly the live forwards of the namespace, text to target |
| `PortManager.Manager.ListAll` | apps/core0/helper/socat/socat.go:241-277 | exactly the namespaces of the system with live forwards, each with its exact listing |
| `PortManager.Manager.ReservePorts` | apps/core0/helper/socat/socat.go:346-415 | the search over listening, forwarded and reserved ports, with its effect on the reservations |

## Left out

- Process spawning, signals, capabilities, redis, netlink, libvirt, HTTP, containers, clients: foreign calls or plumbing around the modelled core.
- The JSON, TOML and regular-expression engines: only the header pattern and the word token are modelled, as hand-written matchers; the patterns of match hooks are a hook that may fire.
- Liveness of the scheduler beyond jams: exactly when a job on the channel can still be received is stated, fairness and starvation are not.
- How `RunSlice` rewrites the arguments of a service: which condition texts it meets there, and on which names, is an input.
- Closing the job queue while jobs are under way: closing is modelled on the queue object, not in the interleavings.
- Panics inside a running job, subscribers, process statistics and callbacks of a job.
- Starting a service blocks on the scheduler in the program; in the boot model `Run` is one non-blocking step that starts the job or fails, and hooks fire when the environment makes them.
- The order in which the final wait of a boot slice visits the keys: it passes any released key in any order.
- Update in place of the boot, scheduler and process id tables: they are state machines on values, because their promises are about interleavings; the queue, the wait machine and the job itself are also given as classes.
- StartupTree.Tree.Sort: the library sort is replaced by an insertion sort through the same two operations, because only their contract and the order of the result matter.
- Startups.ComputeWeight: weights are mathematical integers, 64-bit overflow is not modelled.
- Pids.StatusReachesItsWaiter: one waiter per registered process; a second call of the wait function on the same id is not modelled.
- Stats.StreamIsBatch: floating point is modelled by reals, without NaN and rounding; durations are positive and no reading is earlier than the duration.
- Rule text: rules are structured values; the text handed to the packet filter and the pattern that reads it back are not modelled.
- PortManager.Manager.RulesFromMatches: the error for a rule text that does not match the pattern is not modelled, because every rule in the table is one the manager wrote.
- Reservations.Search: the cache's clean-up of expired entries, which no call can observe, is not modelled.
- WaitMachine.Machine.Wait: looks at all its latches in one moment; that each state is read as its latch is passed is in the boot model.
- Resolving addresses through the forwards, bridges, cgroups, disks, mounts and the machine manager: mostly field copying around external tools.
