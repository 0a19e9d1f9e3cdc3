# ConsulX, modelled in Dafny

ConsulX is a client library for Consul. What makes it hard is a handful of small
concurrent state machines and in-place data transformations: layered configuration
that follows the KV store, discovery watches that never wait for their consumer, a
balancer that owns watches, a single-use lifecycle with background tasks, and the
arithmetic of rate limiting and backoff. This project models those and proves what
they keep over every run. `dafny verify dfyconfig.toml` checks all of it.

Two forms are used. Code that changes maps, slices or fields in place is a class or a
method with a loop, proved against a function on values; the properties are then
lemmas about that function. Code that runs beside other code is a state machine: a
datatype for the shared state, `Can` and `After` for one step, `Run` for a sequence of
steps of every party in any order, and an inductive invariant. A mutex section, an
atomic operation and a channel operation are one step each. Where a class implements
steps of such a machine, its methods are proved to have exactly the effect of `After`.

| file | what it models |
|---|---|
| `ConfigTree`, `FolderDecode` | layers as trees: deep merge, decoding of flat keys, precedence |
| `ConfigHeap`, `ConfigLoad` | the same on mutable maps, and the loader that combines them |
| `ConfigWatch`, `ConfigPublish` | folder watchers, the wake-up channel, the reload loop and what it publishes |
| `ConfigFollow` | these three together: from the keys in the store to the current value |
| `BlockingIndex`, `Limiter` | the index rules and the token bucket shared by every watch |
| `Instances`, `DiscoveryWatch` | comparing and diffing instance lists, and the watch goroutine |
| `Balancer`, `Grace`, `Pickers`, `Ejection` | ownership of watches, stale grace, the built-in strategies, passive ejection |
| `Lifecycle` | Start, Stop, background tasks, and the registration they keep |
| `Backoff`, `Health`, `ServiceId`, `Decimal` | retrying, shared health checks, generated IDs |
| `Arithmetic`, `Outcomes` | products and quotients; Option and Result |

Durations and clock readings are integers (nanoseconds), tokens and multipliers are
reals, indexes and counters are unbounded. Random numbers, clock readings, the answers
of the server and the choice of the next step are parameters. Binding a tree to a value
and validating it is one partial function.

## Where the code does less than one would hope

Each of these has a lemma with a concrete run or input, and beside it the exact condition
or the exact bound of what does hold.

- A later call of `Stop` returns nil although the first one failed to deregister, while
  the agent still holds the service (`Lifecycle.LaterNilSaysNothing`). Nil from the
  first call does mean the service is gone (`Lifecycle.NilMeansGone`).
- A registration hook that makes the ID depend on the endpoint registers one client
  under two IDs, one after the other and both accepted, once the endpoint moves and the
  agent forgets the first (`Lifecycle.HookMovesId`); for every other hook there is one ID
  (`Lifecycle.OneIdForAll`). With any hook the agent holds at most one of them at a time
  (`Lifecycle.OneHeldAtATime`).
- The stale grace stores when instances were seen and what was seen in two separate
  atomic operations, and readings of the clock need not be stored in order.
  balancer/balancer.go:218-221 calls the race benign. A call between the two stores is
  served instances that nobody saw for longer than the grace
  (`Grace.OldInstancesServed`); two overlapping calls with different states can leave
  the older state with the newer time for good (`Grace.OldInstancesStay`); and a time
  stored late refuses instances that were seen within the grace
  (`Grace.RefusedWithinGrace`). `Grace.GraceExactly` says for which runs a call that
  meets no other is served as documented: when the time was stored last by a call that
  saw instances latest, and the state last by one whose state such a call saw, or when
  nobody saw any. Only overlapping stores of different states lose coherence
  (`Grace.CoherenceKept`), and with neither them nor late times the grace always holds
  (`Grace.ServedNewest`).
- A watch can start after the parent context of the balancer ended: `entry` checks the
  context and calls `Watch` later under the same mutex, which cancelling does not take
  (`Balancer.StartsAfterCancel`). It does so exactly when a call past the check is about
  to start one (`Balancer.NoneStartsExactly`). It is at most one watch
  (`Balancer.OneStartsOnceCancelled`), it is owned like the others, and none starts once
  `Close` took the mutex (`Balancer.NoneStartsOnceClosed`).
- `ReportFailure` reads the clock before it takes the mutex, so a report can be
  overwritten by one that was read earlier, and the ejection ends early
  (`Ejection.LateWriterShortens`). `Ejection.RuleExactly` says for which sequences of
  reports the intended rule holds, `Ejection.EjectedExactly` what holds for all of them.
- A watch loop sends at most 2 + W / MinInterval requests in every window of length W
  exactly when each is sent the moment it is allowed (`Limiter.PlainBoundExactly`): any
  lateness lets three fall in a shorter window (`Limiter.LateRequestsBunch`).
  `Limiter.RequestsInWindow` gives the bound with the lateness in it, which never exceeds
  3 + W / MinInterval.
- With jitter, a first delay of an odd number of nanoseconds is halved and truncated, so
  more than 2 * maxElapsed / D sleeps can start: `Backoff.AtMostTwiceExactly` gives the
  exact condition on the policy, for every D. A first delay of one nanosecond can be
  truncated to nothing without end: `Backoff.BoundedExactly` says for exactly which
  policies the sleeps have a bound at all.
- A folder filled and emptied again between two answers to its own watcher stays in the
  evaluated configuration (`ConfigWatch.FilledForAMomentStays`). Once nothing is under
  way these folders, if the loop read them while they were filled, are exactly the stale
  ones, and they are empty now (`ConfigWatch.NoWakeUpLost`).
- Among unknown statuses the one reported depends on the order in which components are
  visited, exactly when two of the contributed statuses count as down and are spelled
  differently (`Health.AnyOrderExactly`); the severity does not (`Health.ReportsAgree`).
- A rejected state is meant to be reported once, and any change to be reported again
  (kvconfig/watch.go:147-149, 175-177). `load` returns no tree when a key is both a value
  and a folder (kvconfig/kvconfig.go:181-184), which buildValue's comment takes for
  "Consul could not be read". Such a state is therefore reported at every reload
  (`ConfigPublish.ConflictReportedTwice`, and exactly these:
  `ConfigPublish.RepeatReportedExactly`), and a rejected state that comes back after it
  is not reported although it changed (`ConfigPublish.ConflictHidesRejection`, exactly:
  `ConfigPublish.ChangeReportedExactly`).
- The comment at reliability.go:207-208 says that `setDegraded` and `setRunning` never
  override Starting, Stopping or Stopped. Starting is overridden by design: the guard
  right below admits it. For Stopping the check and the swap are separate steps, so it
  can be overridden (`Lifecycle.StoppingOverwritten`); it survives exactly when no task
  has read a started state and not yet swapped (`Lifecycle.StoppingSurvivesExactly`).
  `Lifecycle.StoppedIsTerminal` is proved from the tasks being joined, not from the check.

## Model

| member | source | states |
|---|---|---|
| ConfigTree.MergeLeaf | kvconfig/kvconfig.go:276-292 | at every path the merged tree has the leaf of the source where the source decides, and the leaf of the destination everywhere else |
| ConfigTree.Precedence | kvconfig/kvconfig.go:170-188 | for any number of layers and any path, the merged leaf is `v` exactly when some layer has `v` there and no later layer has anything at that path or a non-object above it |
| ConfigTree.MergeIntoEmpty | kvconfig/kvconfig.go:285-287 | the copy made for a new key holds exactly what the source holds |
| ConfigTree.SubtreeLeaf | kvconfig/kvconfig.go:319-333 | a subtree has the leaves below its path and no others, and none if the path leads to no object |
| FolderDecode.JoinSplit | kvconfig/kvconfig.go:224 | joining the segments of a key gives the key back, so different keys have different paths |
| FolderDecode.SplitJoin | kvconfig/kvconfig.go:224 | a key is cut at every slash: any segments without a slash, joined by slashes, are recovered by splitting |
| FolderDecode.InsertLeaf | kvconfig/kvconfig.go:225-246 | a setting is accepted exactly when no leaf lies strictly above or below its path, and changes that one leaf and nothing else |
| FolderDecode.InsertAllLeaves | kvconfig/kvconfig.go:219-248 | any list of settings decodes exactly when no path is a strict segment-prefix of another, and the leaves are then exactly the last value given to each path |
| FolderDecode.SettingsMembers | kvconfig/kvconfig.go:220-224 | folder markers contribute nothing, every other key exactly its path and value |
| FolderDecode.DecodeKeys | kvconfig/kvconfig.go:219-248 | in terms of the listed keys alone: a listing decodes exactly when no key that is a value, followed by a slash, starts another such key; the leaf at a path is then exactly the value of the key that is the prefix and the path joined by slashes |
| FolderDecode.OneKeyOneLeaf | kvconfig/kvconfig.go:224-246 | the key made of the prefix and any slash-free segments, the last not empty, has its one leaf exactly at these segments |
| FolderDecode.DecodeLeaves | kvconfig/kvconfig.go:219-248 | the same in terms of paths: no non-marker path is a strict prefix of another; the leaves are exactly the map from path to value |
| FolderDecode.DecodeOrder | kvconfig/kvconfig.go:219-248 | the same pairs in any order give the same tree, or are refused alike |
| FolderDecode.RefusedStays | kvconfig/kvconfig.go:239-245 | once a pair is refused nothing that follows changes the outcome |
| ConfigHeap.MergeInto | kvconfig/kvconfig.go:278-292 | merging in place, in any key order, leaves the destination holding the pure merge, changes no map of the source, and leaves the two trees without a common map |
| ConfigHeap.MergeKey | kvconfig/kvconfig.go:279-291 | one key: the destination gets there what the pure merge has, everything else stays |
| ConfigHeap.InsertSetting | kvconfig/kvconfig.go:225-246 | walking down the maps, creating the missing ones, stores exactly what inserting on values gives; it fails exactly when that does |
| ConfigLoad.Contexts | kvconfig/kvconfig.go:147-161 | the folders in full: prefix/context/ and then prefix/context-separator-profile/ for each profile in order, first for the shared context and then, if it is another, for that of the application |
| ConfigLoad.DecodeFolder | kvconfig/kvconfig.go:219-248 | the loop builds new maps holding exactly the decoded folder, and fails exactly when decoding does |
| ConfigLoad.Load | kvconfig/kvconfig.go:170-188 | the loaded maps are new and hold the merge of all layers in order; the first failing folder decides the error; the index is the highest one |
| ConfigLoad.FirstFailure | kvconfig/kvconfig.go:173-186 | a failure ends the reading, whatever the later folders hold |
| ConfigLoad.LoadedValue | kvconfig/kvconfig.go:170-248 | end to end, from listed keys: an application reads `v` at a path exactly when one folder lists the key that joins it with that value and no later folder has a key at, above or below that path |
| BlockingIndex.NextIndex | internal/blocking/blocking.go:20-28 | the next index is 0 exactly when the index went backwards, and otherwise at least both the last one and the one received |
| ConfigWatch.FolderWatcher.Answered | kvconfig/watch.go:268-287 | handling an answer signals exactly on the first answer, after a failure, or when the index moved and the folder has or had keys |
| ConfigWatch.InvRun | kvconfig/watch.go:134-163 | in every interleaving, a watcher that is up to date has its folder evaluated or a reload that will see it under way or signalled |
| ConfigWatch.NoWakeUpLost | kvconfig/watch.go:134-163 | when the loop is idle, nothing is signalled, every watcher has handled the newest index and the last load could list every folder, the last evaluation is what the store holds, as far as its folders decode, but for exactly the folders emptied after the loop read them filled, while their watcher had last seen them empty and no signal was queued; those are empty now |
| ConfigWatch.FilledForAMomentStays | kvconfig/watch.go:274-282 | such a folder exists: a run after which a key that is gone stays evaluated |
| ConfigWatch.NoNeedlessReload | kvconfig/watch.go:245-285 | once nothing is under way, whatever the watchers are answered, nothing is signalled or reloaded before a folder is written, a request fails, or the index of a folder with keys moves |
| ConfigWatch.AsksFromZero | kvconfig/watch.go:242-269 | in every run a folder is asked for without an index exactly until its first answer and from a failure to the next answer, and is then not held back |
| ConfigPublish.Publisher.Evaluate | kvconfig/watch.go:161-194 | an evaluation without a tree is reported; a rejected tree exactly when it is not the one rejected last; an accepted value becomes current when it differs |
| ConfigPublish.PublishedDiffer | kvconfig/watch.go:189-200 | in every run exactly the values that differ from the one accepted before are published, in order: the first differs from the initial one and no other equals the one before it |
| ConfigPublish.ReceivedInOrder | kvconfig/watch.go:195-200 | the consumer receives published values in the order they were published, each at most once |
| ConfigPublish.CurrentIsAccepted | kvconfig/watch.go:147-203 | in every run the current value is the one bound from the last accepted tree; an evaluation reports exactly when it read no tree, or rejected one and the last tree read before was accepted or is another; a waiting loop's pending change is the current value |
| ConfigPublish.RepeatReportedExactly | kvconfig/watch.go:165-187 | for every state of the folders read twice in a row, the second reading is reported exactly when the layers cannot be read |
| ConfigPublish.ChangeReportedExactly | kvconfig/watch.go:147-187 | a rejected state that follows another one is reported exactly unless the other could not be read and the last tree before it was this one |
| ConfigPublish.ConflictReportedTwice | kvconfig/kvconfig.go:181-184 | a folder with the keys a and a/b, evaluated twice, is reported twice |
| ConfigPublish.ConflictHidesRejection | kvconfig/watch.go:166-180 | a rejected tree, then that folder, then the tree again: the last one is not reported |
| ConfigFollow.CurrentFollowsStore | kvconfig/watch.go:103-204 | when nothing is under way and no folder was filled for a moment and read then (the exception of `ConfigWatch.NoWakeUpLost`), the last evaluation read exactly what the store holds; if its layers decode and bind, their value is the current one, and otherwise the current value is that of the last accepted tree |
| ConfigFollow.CurrentHasLastWord | kvconfig/watch.go:103-204 | under the same two assumptions, if the folders decode and bind, the current value is bound from a tree that has, at every path, the value listed by the folder with the last word on it |
| Limiter.ReserveIsSchedule | internal/blocking/blocking.go:54-67 | one reservation on tokens and time does to the empty instant exactly what virtual scheduling does, and grants at the same moment; truncating the wait loses nothing |
| Limiter.Bucket.Wait | internal/blocking/blocking.go:50-81 | the bucket refines virtual scheduling, also for callers that arrive while an earlier reservation waits |
| Limiter.GrantSpacing | internal/blocking/blocking.go:50-81 | any two grants are as far apart as the intervals between them, but for one bucket less one |
| Limiter.GrantIsEarliest | internal/blocking/blocking.go:50-81 | no call waits longer than it must: it proceeds when it arrives or, if later, at an instant by which the calls since an earlier one used up a full bucket and what refilled |
| Limiter.GrantsInWindow | internal/blocking/blocking.go:45-81 | any window of length W holds at most burst + W / interval grants, whatever the order of the callers' clocks |
| Limiter.RequestsInWindow | discovery/watch.go:188-205 | a watch loop sends at most 2 + (W + lateness) / interval requests in any window, and never more than 3 + W / interval |
| Limiter.PlainBoundExactly | discovery/watch.go:188-205 | the bound 2 + W / interval holds in every window of every loop never later than `late` exactly when `late` is zero |
| Limiter.LateRequestsBunch | discovery/watch.go:196-205 | for every interval and every lateness, a loop with three requests in a window shorter than the interval |
| Instances.EqualIsSameFilled | discovery/instance.go:219-234 | comparing field by field forgets no field: equal means the same but for nil against empty collections |
| Instances.IndexByKey | discovery/watch.go:264-267 | the index holds exactly the keys of the list, each with its last position |
| Instances.Diff | discovery/watch.go:262-285 | for any two lists, also with repeated keys, the loop over a map it strikes keys from builds exactly the event defined on the lists |
| Instances.DiffExact | discovery/watch.go:262-285 | for lists that name each node and ID once, Added, Removed and Changed hold exactly the instances whose node and ID were not there before, are not there any more, or were there with other contents |
| Instances.PatchReaches | discovery/watch.go:262-285 | applying an event to a view of the old list gives a view of the new one, and the three parts have no key in common |
| DiscoveryWatch.Watch.Handle | discovery/watch.go:227-237 | an answer moves the index; a list equal to the last one sent is no news, any other becomes the snapshot |
| DiscoveryWatch.Watch.TakeBack | discovery/watch.go:242-246 | an unread event is taken back; if it was read, the consumer has seen the last one sent |
| DiscoveryWatch.Watch.Send | discovery/watch.go:247-248 | the event sent leads from what the consumer has seen to the new list |
| DiscoveryWatch.ConsumerView | discovery/watch.go:233-248 | for every interleaving, patching an empty view with the events actually received gives the instances of the last one; with nothing pending that is the current snapshot |
| DiscoveryWatch.NeverBlocks | discovery/watch.go:242-259 | at most one event and one error are pending and neither send ever blocks |
| DiscoveryWatch.HeldMeansUpToDate | discovery/watch.go:196-238 | while the watch waits with an index, its snapshot equals the answer at that index; a server that holds the request back has no newer answer |
| DiscoveryWatch.RestartNeverBlocks | discovery/watch.go:211-231 | in every run a request carries index 0 exactly when none was answered before, or the last one failed or was answered with an index that went backwards; and then it is not held back |
| DiscoveryWatch.SnapshotsDiffer | discovery/watch.go:233-237 | no published snapshot equals the one before it |
| DiscoveryWatch.PendingErrorIsLast | discovery/watch.go:211-213 | while the watch pauses after a failure, an unread error is that of the last one, counted from the last answer |
| Balancer.Sort | balancer/balancer.go:438-445 | visiting the map in any order keeps exactly the services whose last use lies less than the idle time before now, and takes out the watches of the others |
| Balancer.Guarded.Enter | balancer/balancer.go:397-418 | past the check, the published watch of the service is returned, or one started under a new number; none if the query is refused |
| Balancer.Guarded.Release | balancer/balancer.go:434-450 | one janitor round publishes exactly the services still in use and takes out exactly the idle ones |
| Balancer.JanitorTakesIdle | balancer/balancer.go:434-450 | in every run, a round at `now` takes out a published watch exactly when the last call of `entry` or of a reader that used it lies an idle time or more before `now`; the others stay published |
| Balancer.JanitorEndsIdle | balancer/balancer.go:434-460 | whatever the janitor ends, at any time, was published and unused for an idle time at the round that took it out |
| Balancer.JanitorExactly | balancer/balancer.go:414-418 | there is a janitor exactly when an idle time is set and a watch was started |
| Balancer.OneServicePerWatch | balancer/balancer.go:397-418 | in every run two services never share a published watch |
| Balancer.EveryWatchIsOwned | balancer/balancer.go:381-455 | in every interleaving each watch started is published, held by the janitor, or ended; while open, no ended watch is published |
| Balancer.CloseEndsEveryWatch | balancer/balancer.go:469-487 | once any of several overlapping calls of Close returned, every watch has ended |
| Balancer.NoneStartsOnceClosed | balancer/balancer.go:469-481 | once closed, no watch starts and none comes back |
| Balancer.OneStartsOnceCancelled | balancer/balancer.go:392-409 | once the context ended at most one watch starts, that of a call already past the check, and none comes back |
| Balancer.NoneStartsExactly | balancer/balancer.go:392-409 | once the context ended, no run starts a watch if and only if no call past the check is about to start one: one with an accepted query for a service without a published watch |
| Balancer.StartsAfterCancel | balancer/balancer.go:394-405 | a balancer can get where one does: a run in which the context ends between the check and the start |
| Grace.Entry.WithGrace | balancer/balancer.go:222-239 | one call serves and remembers exactly what the two variables say |
| Grace.ServedExactly | balancer/balancer.go:139-146 | calls one after the other: an empty state is replaced exactly when an earlier call saw instances, the last of those within the grace, and by what that one saw |
| Grace.ServedWasSighted | balancer/balancer.go:218-239 | calls in any interleaving of their atomic operations: what replaces an empty state was seen by some call, and some call saw instances within the grace |
| Grace.CoherenceKept | balancer/balancer.go:226-233 | what is stored comes from one sighting whenever no call is between its two stores, in every run without overlapping stores of different states |
| Grace.GraceExactly | balancer/balancer.go:218-239 | after any run, every new call that meets no other and reads the clock after all sightings is served what a latest sighting saw exactly when that is within the grace, and nothing else otherwise, if and only if nobody saw instances, or the time was stored last by a latest call and the state last by one whose state a latest call saw |
| Grace.ServedNewest | balancer/balancer.go:218-239 | for callers that keep to it: in every run without overlapping stores of different states and with times stored in order, any call that meets no other is served so |
| Grace.OldInstancesServed | balancer/balancer.go:226-238 | a call between the two stores of another: a run that serves instances nobody saw for longer than the grace |
| Grace.OldInstancesStay | balancer/balancer.go:226-238 | two overlapping stores of different states: after both calls are over, a call that meets no other is served instances nobody saw for twice the grace |
| Grace.RefusedWithinGrace | balancer/balancer.go:227-236 | times stored out of order: a call is refused instances that were seen within the grace |
| Pickers.RoundRobinIsEven | balancer/balancer.go:66-70 | of any m picks in a row from n instances, each with the counter the one before left, m / n select each index, rounded down or up |
| Pickers.RandomIsUniform | balancer/balancer.go:84-109 | at random, and by weight when the weights add up to nothing, one number of those below n selects each index |
| Pickers.SlotIsUnique | balancer/balancer.go:112-117 | a draw falls on the share of one instance only |
| Pickers.WeightedIsProportional | balancer/balancer.go:93-119 | of the numbers below the total weight exactly max(weight, 0) select an instance: the warning weight while it warns, else the passing weight, at least one |
| Pickers.WeightedIndex | balancer/balancer.go:104-119 | the two loops select the instance on whose share the draw falls; the fallback after them is never reached |
| Pickers.Picker.PickIndex | balancer/balancer.go:57-119 | each strategy selects its index and moves its counter as specified |
| Ejection.NewSnapshot | discovery/watch.go:52-58 | the endpoints are those of the instances, index by index |
| Ejection.Service.ReportFailure | balancer/ejection.go:51-77 | the new set has the reported address until one window later and every other entry that had not expired, and no more |
| Ejection.EjectedExactly | balancer/ejection.go:63-76 | after any sequence of reports with clock readings in any order, an address is ejected exactly by its last report, and not once a later report found it expired |
| Ejection.HostPortNamesOne | discovery/instance.go:120-125 | two instances are named alike by a report exactly when address and port are the same, IPv6 or not |
| Ejection.EjectedIffReported | balancer/ejection.go:51-77 | with readings in order, an address is ejected at t exactly when it was reported at some r with t < r + window |
| Ejection.RuleExactly | balancer/ejection.go:51-77 | for readings in any order, that rule holds at every time past all of them exactly when the last report for the address carries its latest reading, or some reading lies a window or more after that |
| Ejection.LateWriterShortens | balancer/ejection.go:63-67 | otherwise it need not: two reports after which the address is not ejected |
| Ejection.Service.Keep | balancer/ejection.go:83-99 | the indexes kept are exactly those not ejected, or none when nothing or everything would be filtered |
| Ejection.CandidatesExactly | balancer/ejection.go:79-108 | the candidates are exactly the instances not ejected, in the order of the list, and the whole list when ejection is off or all are ejected |
| Ejection.NeverEjected | balancer/balancer.go:263-284 | every strategy selects a listed instance, and an ejected one only when all listed are ejected |
| Ejection.NextIsEven | balancer/balancer.go:263-284 | round robin over whoever is not ejected: while the n candidates stay the same, m calls of `Next` in a row return each of them m / n times, rounded down or up |
| Ejection.Service.Next | balancer/balancer.go:263-284 | the instance chosen and the counter afterwards are those of the specification |
| Ejection.Service.NextEndpoint | balancer/balancer.go:290-329 | the fast path returns the endpoint of the instance `Next` would return from the same snapshot, clock, picker and draw, and moves the picker alike |
| Lifecycle.Errors.Report | lifecycle.go:91-102 | nothing is sent on a closed channel; otherwise the error is buffered, or counted as dropped when the buffer is full |
| Lifecycle.StoppedIsTerminal | lifecycle.go:114-143 | in every run with reads and swaps split, nothing overwrites Stopped and no task is alive once it is reached |
| Lifecycle.StoppingSurvivesExactly | reliability.go:207-219 | once Stop has swapped to Stopping, every run keeps it until Stopped replaces it, if and only if no task has read a started state and is about to swap |
| Lifecycle.StoppingOverwritten | reliability.go:207-219 | a client can get where it does not: a run in which a task that read Running overwrites Stopping with Degraded |
| Lifecycle.ClosedOnce | lifecycle.go:260-271 | errs and done are closed at most once, errs before done, done only when stopped, and no task reports after that |
| Lifecycle.DegradesAndRecovers | reliability.go:207-219 | a running client with a task can become degraded and running again |
| Lifecycle.OneBaseForAll | registration.go:245-316 | whatever the hook does, every request carries what it makes of one ID, the configured one if there is one |
| Lifecycle.OneIdForAll | registration.go:245-316 | with a hook that keeps the ID, every request of a client carries one ID, the only one the agent ever holds for it, whenever the agent forgets it in between |
| Lifecycle.OneHeldAtATime | reliability.go:57-84 | whatever the hook does, the agent never holds two IDs of a client at once |
| Lifecycle.NoRegisterAfterDeregister | lifecycle.go:200-239 | whatever the hook does, the shutdown deregistration is the last request of the client |
| Lifecycle.DeregistersExactly | lifecycle.go:225-239 | without DeregisterOnShutdown no request is a deregistration; with it, once Stop returned, one was sent exactly when the agent had accepted a registration: of the ID accepted last, as the last request, and Stop returned nil exactly when it was accepted |
| Lifecycle.NilMeansGone | lifecycle.go:200-239 | whatever the hook does, if Stop deregisters and its first call returned nil, the agent holds nothing of this client, then and later |
| Lifecycle.LaterNilSaysNothing | lifecycle.go:204-209 | nil from a later call does not mean that: for every such configuration a run in which it is false |
| Lifecycle.HookMovesId | registration.go:111-149 | the condition on the hook is exact: for any other hook a run in which one client is registered under two IDs, both accepted |
| Backoff.BaseMultiplies | internal/backoff/backoff.go:43-47 | the delay before jitter starts at the initial one, and each is the one before times the multiplier, at least one; the cap cuts both |
| Backoff.EveryDelayReached | internal/backoff/backoff.go:48-56 | with jitter every whole delay from half of that up to it is reached by some random number |
| Backoff.DelayRange | internal/backoff/backoff.go:36-56 | every delay lies between half the delay before jitter and all of it, in whole nanoseconds, never above the cap; without jitter it is all of it and never decreases |
| Backoff.Retry | internal/backoff/backoff.go:79-106 | the loop ends, calls and sleeps as the recursive definition over the rounds it meets |
| Backoff.RetryExactly | internal/backoff/backoff.go:79-106 | how the loop ends: every round but the last failed and slept to the end; the last succeeded, was permanent, met the end of the context, or had no attempt or no time left; the error returned is that of the last call |
| Backoff.CallsBounded | internal/backoff/backoff.go:40-42 | the function is called at most MaxAttempts times when that is positive |
| Backoff.SleepPlanned | internal/backoff/backoff.go:92-98 | every sleep is the delay of its round and is not planned to end after the limit |
| Backoff.SleepsFit | internal/backoff/backoff.go:96-98 | all the sleeps started together fit in what is left of the limit |
| Backoff.SleepsBounded | internal/backoff/backoff.go:79-106 | the sleeps number at most the limit divided by the least possible delay |
| Backoff.AtMostTwiceExactly | internal/backoff/backoff.go:36-56 | at most 2 * limit / D sleeps in every run, exactly when D is even, or there is no jitter, or no second attempt, or D is one nanosecond and there is no fourth attempt or the delays double up to a cap of two or more |
| Backoff.BoundedExactly | internal/backoff/backoff.go:36-106 | for every positive first delay and limit, some number bounds the sleeps of every run if and only if the first delay is over a nanosecond, or there is no jitter, or the attempts are limited, or the delays grow and the cap lets them |
| Health.Worse | health/health.go:51-56 | one of the two statuses, and as severe as either |
| Health.OneCheckAtATime | health/health.go:269-288 | in every interleaving at most one call of a component's check runs at a time |
| Health.AnswersArePublished | health/health.go:292-307 | a probe answers with the published result of the call it joined, or with the timeout, never the timeout when the result was announced before it looked |
| Health.AnswersAreReturned | health/health.go:279-325 | an answer other than that timeout is what the checker returned to the call joined, the timeout if its deadline had passed by then, or that it panicked |
| Health.ResultsStay | health/health.go:280-285 | a published result never changes |
| Health.Shared.Join | health/health.go:269-288 | a probe joins the call in flight, or starts one if there is none |
| Health.Shared.Settle | health/health.go:281-284 | publishing the result ends the call, so the next probe starts another |
| Health.Registry.Set | health/health.go:149-165 | a pushed state replaces a checked component; a pushed one keeps its scopes unless new ones are given |
| Health.Registry.Probe | health/health.go:224-264 | in any map order the report holds exactly the components in scope, each with its pushed state or what its check answered, an empty status as down; its status is the worst met, folded in the order visited, and its severity is the maximum over them |
| Health.Registry.Ready | health/health.go:192-202 | while draining the instance is down whatever its components say, and they are still reported |
| Health.ReportsAgree | health/health.go:252-263 | two visits in different orders give the same components and the same severity |
| Health.ReportStatus | health/health.go:252-263 | the report is up exactly when every component is, and degraded exactly when some is and the others are up |
| Health.OverallExactly | health/health.go:45-56 | the statuses given in any other order have the same overall status if and only if all of them that count as down are spelled alike |
| Health.AnyOrderExactly | health/health.go:224-264 | all visits of a registry, in whatever order the map yields the components, report the same status if and only if all components in scope that count as down are spelled alike |
| ServiceId.Sanitize | internal/serviceid/serviceid.go:18-39 | the loop with its dash flag writes the words of the text joined by single dashes, cut to size |
| ServiceId.SanitizedIsClean | internal/serviceid/serviceid.go:14-39 | only [a-z0-9._-], no leading, trailing or doubled dash, at most 128 bytes, for every text |
| ServiceId.FixedIffClean | internal/serviceid/serviceid.go:14-39 | sanitising leaves a text alone exactly when it is already clean |
| ServiceId.Idempotent | internal/serviceid/serviceid.go:18-39 | sanitising twice is sanitising once |
| ServiceId.CapitalsBecomeSmall | internal/serviceid/serviceid.go:18-39 | a text that is clean but for ASCII capitals only has these made small |
| ServiceId.PortIsRecoverable | internal/serviceid/serviceid.go:46-69 | whatever the name and host, the port can be read back from the ID, which stays within 128 bytes |
| ServiceId.IdIsReadable | internal/serviceid/serviceid.go:41-69 | an ID that fits is the sanitised name, the sanitised host or the random text, and the port, joined by dashes |
| ServiceId.CutIsLeast | internal/serviceid/serviceid.go:60-69 | one that does not fit loses the end of its base only, and has 127 or 128 bytes |
| ServiceId.DifferentPorts | internal/serviceid/serviceid.go:41-52 | two ports never share an ID, whatever the names and hosts |
| ServiceId.IdIsClean | internal/serviceid/serviceid.go:46-69 | an ID with a port is itself clean exactly when the port is not negative |

## Left out

- Limiter.RequestsInWindow: the lateness of a request is a parameter, because the timer and the scheduler add one; `PlainBoundExactly` says when the bound holds without it.
- ConfigTree.SubtreeLeaf: takes the path already trimmed and split into segments.
- Health.AnswersArePublished: the context of the probe and the deadline of the call are one step that may come at any time; how long a probe waits is not modelled.
- ConfigFollow.CurrentFollowsStore: says nothing while the last load could not list a folder; such a load is not retried before the next signal.
- Goroutine scheduling and fairness: the machines say what can never happen in any order of steps, not that a step is eventually taken.
- The closing of the channels of a watch, its `Ready` channel and the end of the configuration watcher: one-shot steps at the end of a run.
- Requests in parts: a listing, a response and a registration request are one step each, so a request that reaches the agent while its answer is lost is not modelled.
- The error channel of the configuration watcher (kvconfig/watch.go:218-227): it has several producers and may drop an error, but never blocks.
- Comparing configuration trees and values is equality; reflect.DeepEqual differs on NaN and on nil against empty.
- YAML and JSON formats and `normalizeTree` (kvconfig/kvconfig.go:200-217, 251-274): a decoded document is any tree, which `Precedence` covers.
- Binding and validation by reflection (internal/bind): one partial function from tree to value.
- List values inside a merged tree stay shared with the source; the heap model treats a list as a value.
- Copies of instances handed to callers (clone, fromEntry, discovery/instance.go:147-205, 236-260): instances are values, so sharing of their slices and maps is not modelled.
- `sortInstances` (discovery/instance.go:210-217): one call of a library sort.
- The retry in `current` when a watch was released between two steps (balancer/balancer.go:333-353), and the clock readings of the janitor one by one: a round of the janitor reads them together.
- Custom pickers, which may return an instance that is not listed; random numbers are any value in range.
- The random ID strategy and the content of a UUID: a generated ID is any text chosen once.
- Float rounding, overflow to infinity and 64-bit wrap-around of durations, indexes and the round-robin counter: exact reals and integers.
- Text is a sequence of characters; lower-casing outside ASCII is any function from character to character.
- `RequestTimeout`, the drain delay, TTL heartbeats, maintenance mode, feature checks and the definition sent to the agent: each is one formula, one branch or a copy of fields.
- `Live` and `Health` of the health registry (health/health.go:205-218): one call of the modelled probe each.
- Removing a component from the health registry and setting its draining flag (health/health.go:167-181): one assignment each; the flag is a field the probes read.
- Applications that call Register or Deregister themselves beside the managed lifecycle.
- HTTP, TLS, the official client, configuration overlays, logging, metrics, the HTTP health handler and the adapters under contrib.
