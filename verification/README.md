# Verified model of the rules engine

This project models the engine package of a webhook rules engine (`engine/src`) in Dafny and proves what its
four stateful cores promise. Check everything with `dafny verify dfyconfig.toml`.

The source is asynchronous: code runs undisturbed from one `await` to the next, and anything may happen in
between. Each core is therefore modelled twice. A specification gives the state and one function per stretch of
code between awaits; a run is any sequence of such steps, and the main results hold for all runs. Beside it
stands a class with the source's own fields and loops, whose methods are proved to take exactly the
specification's steps. The clock is an integer that comes from outside and never goes back.

- **Integration adapter** (`Semaphore`, `Breaker`, `PromiseCache`, `Retry`, and together in `Adapter` and
  `IntegrationAdapter`): the permits with hand-over and abortable waiters, the percentage circuit breaker, the
  time-to-live cache in order of last use, the backoff, and any interleaving of calls through all of them.
- **Condition evaluator** (`JsonText`, `Canonical`, `CanonicalMeaning`, `CanonicalKeys`, `ObjectGraph`, `WhenTree`,
  `Predicates`, `PredicateMemo`): the canonical printer on trees and on object graphs with cycles, the keys built
  from it, short-circuit evaluation with a depth limit, and the memo that all rules of an event share.
- **Scheduled checks** (`ScheduledStore`, `ScheduledWorker`, `WorkerOverlap`, `WorkerRechecks`, `WorkerLease`):
  claims under a lease, overlapping batches, deadlines, repeats and the ten-failure cap, as a protocol over store,
  batches and clock.
- **Aggregation windows** (`TimeOrder`, `AggregationStore`, `AggregateStrategy`) and **registration**
  (`Registration`): bisected buckets against an append log, the threshold decision that rests on them, and which
  batches become a registry.

`JoinedNames` says when names joined by a separator coincide, for lease names (`:`) and failure counters (NUL)
alike; `Lists` and `Entries` hold what several modules share.

Strings are sequences of 16-bit code units. Percentages and configured fractions are exact reals.

## Results that bound what the code promises

Some natural statements are false of the code. Each has a lemma with a run or input that shows it, and the exact
condition under which it holds:

- The event memo gives a wrong value when a predicate pins `failOpen` to something other than `true`
  (`PredicateMemo.ConflictBreaksMemo`); `MemoTransparentIff` is the exact condition.
- A childless `all` at the depth limit counts as false though registration accepts it (`WhenTree.NestedEmptyAll`);
  every node of an accepted tree means what it says exactly under `MeansItselfIff`, and `EvaluateIsMeaning` says
  what every accepted tree means.
- Half-open lets through as many calls as there are permits; a single probe is guaranteed exactly under
  `Adapter.OneProbeIff`.
- A late rejection deletes the live entry that replaced its own (`PromiseCache.LateRejectionDropsNewer`):
  `DropsForeignIff` says which rejections do, `CanLoseLiveIff` that every cache able to hold a live entry has such
  a run. A recently used key is therefore only retained while none of its promises is rejected.
- Without a backoff a retry follows a failed attempt even after the signal has fired (`Retry.NoBackoffNoAbort`);
  `QuietAfterAbortIff` is the exact condition.
- Overlapping batches can work on the same record, with the default settings as soon as a batch has two
  (`WorkerLease.DefaultsKeepOneApart`); the exact bound is `DisjointIff`.
- Overlapping batches can also both repeat a check, so that there are more repeats than fit before the deadline
  (`WorkerLease.LongChecksRepeatTwice`); `BoundedIff` is the exact condition, `WorkerRechecks.RechecksSpaced` what
  always holds.
- Lease names of rule identifiers with colons can coincide, and then handling one record frees the other's lease
  (`ScheduledStore.ClashFrees`); `ClaimedTwiceIff` is the exact condition.
- Failure counters of rule identifiers with NUL can coincide (`ScheduledWorker.SharedName`);
  `AttemptNamesClashIff` is the exact condition.
- An aggregated action attached twice fires by halves for most thresholds (`AggregateStrategy.AttachedTwice`);
  `TogetherIff` is the exact condition on a rule.

Where the design documents and the code differ, the model follows the code:

- `adr/006-aggregation-windows.md` takes the first attached action's count as the threshold value for all; the
  code compares each action's own count. `AggregateStrategy.FireTogether` shows that for aggregated actions
  attached once each the two agree.
- `adr/007-temporal-absence-rules.md` describes a heap and says the in-memory store ignores the lease time; the
  code sorts the candidates of every claim and honours the lease.
- `adr/005-external-integration-resilience.md` names libraries for cache, breaker and semaphore; the code has its
  own, and its half-open state is not limited to one probe.

## Model

| member | source | states |
|---|---|---|
| JsonText.StringRoundTrip | engine/src/engine/utility/canonical.ts:22-28 | a printed string literal, whatever units it holds, reads back as the same string with nothing of what follows consumed (section 7 of RFC 8259) |
| JsonText.IntRoundTrip | engine/src/engine/utility/canonical.ts:28 | a printed integer reads back as itself |
| CanonicalMeaning.PrintRoundTrip | engine/src/engine/utility/canonical.ts:5-29 | the text of any tree value, read by an independent parser, is the value's canonical form: keys sorted, the values the printer cannot represent replaced |
| CanonicalMeaning.PrintDeterminesValue | engine/src/engine/utility/canonical.ts:5-29 | two values print alike if and only if they are the same up to key order and the printer's merges |
| CanonicalKeys.SeparatorIsUnique | engine/src/engine/predicates.ts:100-101 | a key splits into name and text in one way only, even when the name holds `@`, quotes or braces |
| CanonicalKeys.MemoKeyInjective | engine/src/engine/predicates.ts:100-101 | memo keys are equal if and only if names are equal and arguments are the same up to key order and merges |
| CanonicalKeys.CacheKeyInjective | engine/src/engine/adapter.ts:223-227 | cache keys are equal if and only if methods are equal and the inputs have the same properties with the same values, a top-level `signal` apart; lists and strings have their indexed parts, other inputs no properties |
| CanonicalKeys.SignalIsIgnored | engine/src/engine/adapter.ts:223-227 | adding a `signal` to an input anywhere among its properties leaves its cache key unchanged |
| ObjectGraph.Printer.CanonicalJsonInner | engine/src/engine/utility/canonical.ts:5-29 | terminates on every graph, leaves the ancestor set as it found it and prints the text of the graph's unfolding |
| ObjectGraph.CanonicalJson | engine/src/engine/utility/canonical.ts:1-3 | from an empty ancestor set, the text of the whole unfolding |
| ObjectGraph.CycleMarksAreBackEdges | engine/src/engine/utility/canonical.ts:7-18 | a position of the printed tree holds the cycle mark if and only if the edge into it leads back to an enclosing container |
| ObjectGraph.AcyclicUnfoldsToTree | engine/src/engine/utility/canonical.ts:7-25 | a graph with sharing but no cycles prints as its tree, no shared container being taken for a cycle |
| ObjectGraph.GraphTextDeterminesUnfolding | engine/src/engine/utility/canonical.ts:1-29 | two graphs print alike if and only if their unfoldings are the same value |
| WhenTree.EvaluateIsMeaning | engine/src/engine/predicates.ts:32-70 | on every tree that registration accepts, the walk yields the boolean meaning of the tree with childless `all`s at the depth limit read as false, and evaluates exactly the leaves that short-circuiting demands, in document order |
| WhenTree.AcceptedTreeMeansItself | engine/src/engine/predicates.ts:32-70 | without a childless `all` at the limit, the walk means what the tree says |
| WhenTree.MeansItselfIff | engine/src/engine/predicates.ts:32-70 | every node of an accepted tree, at its depth, evaluates to its own meaning for all leaf values if and only if no childless `all` sits at the limit |
| WhenTree.NestedEmptyAll | engine/src/engine/predicates.ts:46 | an accepted, plainly true tree that evaluates to false, so that the condition is needed |
| Predicates.ResolveArguments | engine/src/engine/predicates.ts:88-92 | nothing exactly when some callback throws, otherwise every use-site argument in key order with its constant or its callback's result |
| Predicates.MergeArguments | engine/src/engine/predicates.ts:94-98 | the merge that PredicateMemo.LookupMerge characterises property by property |
| PredicateMemo.LookupMerge | engine/src/engine/predicates.ts:94-98 | a merged property is the pinned one where that is defined and the use-site one otherwise |
| Predicates.Evaluation.ResolveUse | engine/src/engine/predicates.ts:72-157 | result, memo and the calls made are those of the memo specification, the error and cached paths included; what that value is PredicateMemo.IsolatedAnswers says |
| Predicates.Evaluation.EvaluateNode | engine/src/engine/predicates.ts:32-70 | the loops and the recursion thread one memo exactly as the specification does |
| Predicates.Evaluation.Run | engine/src/engine/evaluation-runner.ts:37-78 | all rules of an event share one memo, a rule without condition matches |
| PredicateMemo.UseIsIsolatedValue | engine/src/engine/predicates.ts:72-157 | with a memo filled by earlier uses, a `use` yields the value it has on its own |
| PredicateMemo.IsolatedAnswers | engine/src/engine/predicates.ts:38-157 | the one value of a leaf, read off what user code does: an inline function's `true`; for a use the boolean its predicate returns for the merged arguments, `failOpen` of those when it throws or the schema rejects them, the pinned or constant `failOpen` when a callback throws, false for an unknown name |
| PredicateMemo.UseOutcome | engine/src/engine/predicates.ts:72-157 | an event whose only rule is a use of a registered predicate: the rule's value is what the predicate returns for the arguments that have, per key, the pinned value or else the use-site one |
| PredicateMemo.RuleAsksDemanded | engine/src/engine/predicates.ts:46-66 | evaluating a rule leaves the memo and the predicate calls that asking exactly the leaves demanded by short-circuiting, in document order, leaves |
| PredicateMemo.SharedMemoIsTransparent | engine/src/engine/evaluation-runner.ts:38-68 | every rule of an event has the value it has without a memo, and no two predicate calls of the event have the same name and the same merged arguments |
| PredicateMemo.EvaluateEvent | engine/src/engine/evaluation-runner.ts:37-78 | an event evaluated from a fresh memo gives each rule the boolean meaning of its (capped) tree for any leaf values that are the leaves' answers as IsolatedAnswers has them |
| PredicateMemo.ConflictBreaksMemo | engine/src/engine/predicates.ts:77-84 | a predicate that pins `failOpen` to anything but `true`, used twice, gets its second value wrong |
| PredicateMemo.MemoTransparentIff | engine/src/engine/predicates.ts:77-157 | the memo is transparent for all rules and all predicate behaviours if and only if every predicate pins `failOpen` to `true` or not at all |
| Semaphore.Normalize | engine/src/engine/adapter.ts:80-82 | no limit without a configured concurrency, otherwise its floor, but at least one permit |
| Semaphore.StepValid | engine/src/engine/adapter.ts:80-143 | every acquire, release, signal and abort keeps permits, queue, grants and settlements consistent |
| Semaphore.Run | engine/src/engine/adapter.ts:80-143 | every run of such steps from a consistent state ends in a consistent state with the same limit |
| Semaphore.EveryInterleaving | engine/src/engine/adapter.ts:80-143 | in all interleavings: unreleased permits equal `active` and never exceed the limit, a non-empty queue means all permits are out, grants follow arrival past nobody still waiting, each call is settled at most once, and rejected only if its signal fired |
| Semaphore.SettledForGood | engine/src/engine/adapter.ts:103-143 | a call that has left the queue never returns to it |
| Semaphore.SettledWithin | engine/src/engine/adapter.ts:103-122 | a waiter with i others ahead of it is settled by the time i+1 permits have been given back, whatever happens in between |
| Semaphore.AcquireOutcome | engine/src/engine/adapter.ts:124-143 | a new call holds a permit when there is one, whatever its signal; without one it is rejected exactly when its signal has fired, and is last in the queue otherwise |
| Semaphore.ReleasePassesOn | engine/src/engine/adapter.ts:103-122 | the first use of a release rejects exactly the waiters ahead whose signal has fired and gives the permit to the next one, or gives it up when there is none; any other use changes nothing |
| Semaphore.AbortRejects | engine/src/engine/adapter.ts:134-138 | the listener of a queued call whose signal has fired takes it out of the queue, keeps the others in order and rejects it, permits staying as they are; any other listener changes nothing |
| Semaphore.SignalClearsQueue | engine/src/engine/adapter.ts:124-143 | once a signal has fired and the listeners of its waiters have run, whatever happens in between and later, nobody with that signal is queued |
| Semaphore.AdapterSemaphore.Acquire | engine/src/engine/adapter.ts:124-143 | takes the step that AcquireOutcome describes, valid states stay valid |
| Semaphore.AdapterSemaphore.Release | engine/src/engine/adapter.ts:103-122 | the loop that skips aborted waiters takes the step that ReleasePassesOn describes |
| Semaphore.AdapterSemaphore.OnAbort | engine/src/engine/adapter.ts:134-138 | takes the step that AbortRejects describes |
| Semaphore.AdapterSemaphore.RemoveWaiter | engine/src/engine/adapter.ts:98-101 | the waiter is spliced out of the queue, the others keep their order |
| Breaker.ClosedMeansBelow | engine/src/engine/adapter.ts:145-181 | whatever overlapping calls do, a closed breaker has no failures or 100·failures < threshold·total |
| Breaker.CountersAreOutcomes | engine/src/engine/adapter.ts:160-181 | the counters are exactly the outcomes, since the last reset, of calls that finished outside half-open |
| Breaker.FailureOpensIff | engine/src/engine/adapter.ts:171-181 | in every run a failure outside half-open opens the breaker, or sets the opening time of an open one anew, if and only if 100·f ≥ threshold·(s+f) for the outcomes s and f counted since the last reset, this one included; otherwise the state stays |
| Breaker.OtherEvents | engine/src/engine/adapter.ts:150-175 | a success closes the breaker only half-open, with both counters at zero; a failure half-open opens it; a check takes an open one half-open exactly from the reset time on; nothing else changes its state |
| Breaker.OpenStaysShut | engine/src/engine/adapter.ts:145-158 | from opening until the reset time nothing is admitted; later failures only push the reset time on |
| Breaker.AdapterBreaker.BeforeBreakerCall | engine/src/engine/adapter.ts:150-158 | admits exactly when the breaker is not open or its reset time has passed, and takes the specification's step; without a breaker every call is admitted |
| Breaker.AdapterBreaker.AfterBreakerSuccess | engine/src/engine/adapter.ts:160-169 | the new state is the specification's, unchanged without a breaker |
| Breaker.AdapterBreaker.AfterBreakerFailure | engine/src/engine/adapter.ts:171-181 | takes the specification's step; outside half-open one more failure is counted and the breaker opens exactly when 100·failures ≥ threshold·total; unchanged without a breaker |
| PromiseCache.EveryRunValid | engine/src/engine/adapter.ts:229-251 | in every run the map is ordered by last use and within its bound, and every entry holds a promise created under its key, due a time-to-live after creation, whose rejection handler has not run |
| PromiseCache.InsertionFindsKeyAbsent | engine/src/engine/adapter.ts:229-244 | after a miss the key is absent, so insertion adds at the recent end |
| PromiseCache.CallOutcome | engine/src/engine/adapter.ts:229-251 | a call is served the entry under its key exactly when that is alive, and makes it the most recent; otherwise a new promise due a time-to-live from now takes the recent end, the dead entry goes and so do the oldest until the bound is met |
| PromiseCache.RejectionOutcome | engine/src/engine/adapter.ts:250 | a rejection takes the entry under the promise's key and nothing else |
| PromiseCache.HitIsFresh | engine/src/engine/adapter.ts:229-251 | after any run, a hit serves a promise created under the same key less than a time-to-live ago whose rejection handler has not run |
| PromiseCache.EvictDropsOldest | engine/src/engine/adapter.ts:245-249 | eviction cuts off the shortest prefix that brings the map within its bound |
| PromiseCache.RecentlyUsedIsRetained | engine/src/engine/adapter.ts:229-251 | a key stays cached with its promise while fewer than `max` other keys are asked for and none of its promises is rejected |
| PromiseCache.RecentlyUsedHits | engine/src/engine/adapter.ts:229-251 | such a key, asked for again in time, is a hit |
| PromiseCache.LateRejectionDropsNewer | engine/src/engine/adapter.ts:250 | the rejection of an expired entry's promise deletes the live entry that replaced it |
| PromiseCache.DropsForeignIff | engine/src/engine/adapter.ts:250 | in every valid state a rejection deletes an entry of another promise if and only if the entry under its key holds one |
| PromiseCache.CanLoseLiveIff | engine/src/engine/adapter.ts:229-251 | some run under a clock that does not go back loses a live entry to the rejection of another promise if and only if time-to-live and bound are positive |
| PromiseCache.AdapterCache.GetCached | engine/src/engine/adapter.ts:229-240 | hit and new order are the specification's |
| PromiseCache.AdapterCache.SetCached | engine/src/engine/adapter.ts:242-251 | the eviction loop equals the specification's eviction |
| Retry.Sleep | engine/src/engine/adapter.ts:52-66 | a wait is cut short if and only if it has a length and the signal has fired before it or fires before it is over; otherwise it ends after that length |
| Retry.RunWithRetry | engine/src/engine/adapter.ts:183-201 | the trace meets IsTrace: attempts follow each other after base·2^(k−1) plus the draw if there is jitter, up to the first success, the last attempt, or a signal that fires before the pause after a failed attempt is over |
| Retry.OneTrace | engine/src/engine/adapter.ts:183-201 | attempts, durations, draws and signal leave one such trace: result, starts and total wait |
| Retry.WithoutSignal | engine/src/engine/adapter.ts:183-201 | without a signal the attempts are those up to the first that succeeds, or all of them |
| Retry.InvocationsBounded | engine/src/engine/adapter.ts:183-201 | at most n attempts, all n when the call fails, success at the last one made and failure at all before it |
| Retry.TotalBackoffOfCall | engine/src/engine/adapter.ts:195-197 | a call that fails for good has waited between base·(2^(n−1)−1) and that plus (n−1)·(base−1) |
| Retry.NoAttemptAfterAbort | engine/src/engine/adapter.ts:52-66 | with a backoff, or from the last attempt on, no attempt but the first starts after the signal has fired |
| Retry.QuietAfterAbortIff | engine/src/engine/adapter.ts:52-66 | in all environments no attempt but the first starts after the signal has fired if and only if there is only one attempt or the base of the backoff is positive |
| Adapter.StepValid | engine/src/engine/adapter.ts:203-289 | every step of overlapping calls through cache, semaphore, breaker and retry keeps the joint invariant |
| Adapter.CallOutcome | engine/src/engine/adapter.ts:255-263 | a call asks for a permit exactly when the cache has no live entry under its key |
| Adapter.ProceedOutcome | engine/src/engine/adapter.ts:207-219 | with its permit a call starts its first attempt when the breaker is not open or its reset time has passed; otherwise it is an error and gives the permit back |
| Adapter.FinishOutcome | engine/src/engine/adapter.ts:210-220 | a call that ends reports success or failure to the breaker, gives its permit back, and is an error exactly when it did not succeed |
| Adapter.EveryInterleaving | engine/src/engine/adapter.ts:203-289 | in all interleavings: no more calls in flight than permits, attempts within the configured number, one breaker outcome per call that ended and none for rejected calls or retries, a closed breaker below its threshold, a half-open one never without a call to decide it, and no cache entry misfiled or known to have failed |
| Adapter.OpenAdmitsNothing | engine/src/engine/adapter.ts:145-158 | after the breaker opens no call gets through before the reset time, whatever earlier calls do |
| Adapter.ProbeDecides | engine/src/engine/adapter.ts:150-181 | with one permit, the half-open breaker changes only by the outcome of the one call in flight: closed with both counters at zero, or open from now |
| Adapter.OneProbeIff | engine/src/engine/adapter.ts:150-158 | half-open means exactly one call in flight in all runs if and only if the concurrency is one or the breaker can never open |
| IntegrationAdapter.IntegrationAdapter.Call | engine/src/engine/adapter.ts:255-263 | the wrapped method up to its await: state and promise served are the specification's |
| IntegrationAdapter.IntegrationAdapter.Proceed | engine/src/engine/adapter.ts:207-211 | with the permit: admitted and started, or rejected with the permit given back |
| IntegrationAdapter.IntegrationAdapter.NextAttempt | engine/src/engine/adapter.ts:189-199 | the next turn of the retry loop touches neither breaker nor semaphore |
| IntegrationAdapter.IntegrationAdapter.Finish | engine/src/engine/adapter.ts:211-220 | outcome to the breaker, then permit to the semaphore |
| IntegrationAdapter.IntegrationAdapter.OnRejected | engine/src/engine/adapter.ts:250 | the handler deletes what is under its key |
| TimeOrder.PlaceIsStable | engine/src/utility/aggregation-store.ts:88-101 | inserting after all entries of the same time equals appending, time by time |
| TimeOrder.StableSortUnique | engine/src/utility/aggregation-store.ts:63-101 | order by time and then by arrival leaves one list |
| TimeOrder.WindowIsSlice | engine/src/utility/aggregation-store.ts:109-117 | between lower and upper bound lies exactly the window, nothing when they cross |
| TimeOrder.CountIsDifference | engine/src/utility/aggregation-store.ts:119-124 | the difference of the bounds is the window's size, less what lies strictly between crossed bounds |
| AggregationStore.LowerBound | engine/src/utility/aggregation-store.ts:64-73 | the bisection finds where entries at or after the target start |
| AggregationStore.UpperBound | engine/src/utility/aggregation-store.ts:76-85 | the bisection finds where entries after the target start |
| AggregationStore.InsertSorted | engine/src/utility/aggregation-store.ts:88-101 | the bisected splice equals insertion after all entries not later |
| AggregationStore.InMemoryAggregationStore.Append | engine/src/utility/aggregation-store.ts:104-107 | the bucket becomes the one of the longer log, all others stay |
| AggregationStore.InMemoryAggregationStore.List | engine/src/utility/aggregation-store.ts:109-117 | the entries of the key's bucket in the window |
| AggregationStore.InMemoryAggregationStore.Count | engine/src/utility/aggregation-store.ts:119-124 | the exact number for windows of any sign |
| AggregationStore.InMemoryAggregationStore.AppendAndCount | engine/src/utility/aggregation-store.ts:126-138 | an append followed by a count at that instant |
| AggregationStore.InMemoryAggregationStore.Prune | engine/src/utility/aggregation-store.ts:140-151 | every bucket loses exactly the entries older than the cutoff |
| AggregationStore.ListIsLogWindow | engine/src/utility/aggregation-store.ts:63-138 | after any operations, as long as no pruning reached into the window, a list is the append log's entries in the window ordered by time and then arrival, and the count their number |
| AggregationStore.PruneUnseen | engine/src/utility/aggregation-store.ts:140-151 | with a clock that does not go back, pruning changes no later read with a window no longer than the pruning age |
| AggregateStrategy.HandleAggregateStrategy | engine/src/engine/strategy-handlers.ts:56-124 | one append per aggregated action, those at the threshold queued in order, then the plain actions if any was |
| AggregateStrategy.HandlePlainStrategy | engine/src/engine/strategy-handlers.ts:43-54 | the plain actions in attachment order |
| AggregateStrategy.PlainOutcome | engine/src/engine/strategy-handlers.ts:43-54 | plain actions are queued once per attachment and nothing else is |
| AggregateStrategy.AllHoldTheSameTimes | engine/src/engine/strategy-handlers.ts:66-101 | after any serial run, aggregated actions attached equally often hold entries of the same times |
| AggregateStrategy.BucketCopies | engine/src/engine/strategy-handlers.ts:66-101 | after any serial run, in every window an action's bucket holds each event of the key as often as the action is attached |
| AggregateStrategy.FireTogether | engine/src/engine/strategy-handlers.ts:66-101 | where no aggregated action is attached twice, all fire together, exactly when at least `count` entries of the key lie in the trailing window of the append log |
| AggregateStrategy.TogetherIff | engine/src/engine/strategy-handlers.ts:66-101 | the aggregated actions of a rule fire together in all serial runs if and only if `count` is at most one or all are attached equally often, m times, with m = 1 or count mod m = 1 |
| AggregateStrategy.ActionsSeeTheCount | engine/src/engine/actions.ts:52-74 | when the queued actions run they see as many entries as were counted, of the same times for all of them |
| AggregateStrategy.AttachedTwice | engine/src/engine/strategy-handlers.ts:66-101 | a rule with one action attached twice always queues both or neither if and only if `count` is at most one or odd |
| ScheduledStore.ClaimIsFront | engine/src/utility/scheduled-store.ts:64-84 | a claim is the front of the eligible records stably sorted by due time |
| ScheduledStore.ClaimReturns | engine/src/utility/scheduled-store.ts:64-84 | a claim returns no more than the limit, each record in the store, due and unleased, none twice, in ascending order, and a record left out means the limit was reached by earlier ones |
| ScheduledStore.ClaimOutcome | engine/src/utility/scheduled-store.ts:78-83 | a claim leaves the records alone and leases exactly those it returns, from now on |
| ScheduledStore.EnqueueOutcome | engine/src/utility/scheduled-store.ts:41-62 | the record is under its key, the key's lease is gone, all other records and leases are as before |
| ScheduledStore.RemoveOutcome | engine/src/utility/scheduled-store.ts:87-91 | neither record nor lease is left, all others are as before |
| ScheduledStore.RescheduleOutcome | engine/src/utility/scheduled-store.ts:93-101 | a record that is there has the new due time and no lease; where there is none nothing changes |
| ScheduledStore.GroupsKeepPlaces | engine/src/utility/scheduled-store.ts:41-58 | setting a record keeps its place or puts it last, dropping one keeps the order of the others, so ties of a claim are in the order of first enqueueing |
| ScheduledStore.LeasesClashIff | engine/src/utility/scheduled-store.ts:28-29 | lease names of two rules can coincide if and only if one identifier with its colon begins the other, never for identifiers without colons |
| ScheduledStore.ClashFrees | engine/src/utility/scheduled-store.ts:87-91 | with coinciding names, removing one record frees the other, which is claimed again under its lease |
| ScheduledStore.ClaimedTwiceIff | engine/src/utility/scheduled-store.ts:28-101 | some run of the store has a record claimed again under its lease, after operations on records of its own and another rule but not on it, if and only if the two identifiers differ and clash |
| ScheduledStore.LeaseHolds | engine/src/utility/scheduled-store.ts:64-101 | a lease never shortens while its record is not enqueued, removed or rescheduled, whatever times claims bring |
| ScheduledStore.ClaimFences | engine/src/utility/scheduled-store.ts:64-101 | a claimed record is not returned by a claim at a time before its lease ends, unless touched in between |
| ScheduledStore.InMemoryScheduledStore.Enqueue | engine/src/utility/scheduled-store.ts:41-62 | the record replaces the one under its key and loses its lease |
| ScheduledStore.InMemoryScheduledStore.Claim | engine/src/utility/scheduled-store.ts:64-85 | the nested loops, sort and slice return the specified claim and lease exactly it |
| ScheduledStore.InMemoryScheduledStore.Remove | engine/src/utility/scheduled-store.ts:87-91 | record and lease are gone |
| ScheduledStore.InMemoryScheduledStore.Reschedule | engine/src/utility/scheduled-store.ts:93-101 | an existing record moves and loses its lease, a missing one changes nothing |
| ScheduledWorker.CountersAlwaysMatch | engine/src/engine/scheduled-worker.ts:96-107 | in every run the counter under a joined name is the failures in a row of the runs of that name modulo ten, between one and nine where present |
| ScheduledWorker.DropAtTheTenth | engine/src/engine/scheduled-worker.ts:229-240 | a failing run drops its record exactly at every tenth failure in a row |
| ScheduledWorker.AttemptNamesTellApart | engine/src/engine/scheduled-worker.ts:221-223 | counter names are equal if and only if rule, key and time are, within one rule and between rules that do not clash |
| ScheduledWorker.AttemptNamesClashIff | engine/src/engine/scheduled-worker.ts:221-223 | counters of two rules can coincide if and only if one identifier with the joining character begins the other |
| ScheduledWorker.RechecksMeetDeadlines | engine/src/engine/scheduled-worker.ts:201-210 | in every run of a new worker, also when an enqueue replaced a claimed record: a record whose check was not repeated since it was enqueued is due one delay after that, a repeated one by the deadline counted from there |
| ScheduledWorker.FinishOutcome | engine/src/engine/scheduled-worker.ts:96-107 | in every run of a new worker: pass, skip, a missing rule and a repeat past the deadline take record and lease away, a repeat in time moves the record that is there and frees its lease, without a registry nothing happens, and a failure takes the record away exactly at every tenth in a row; the batch goes on to its next record |
| ScheduledWorker.FinishedStaysFinished | engine/src/engine/scheduled-worker.ts:195-205 | a check that is finished is in no later batch until its key is enqueued again |
| ScheduledWorker.TickOutcome | engine/src/engine/scheduled-worker.ts:79-95 | a due tick sets the timer again and, with a registry, claims at most a hundred records under a lease of twice the poll but at least thirty seconds; nothing else claims |
| ScheduledWorker.EnqueueEventOutcome | engine/src/engine/strategy-handlers.ts:126-144 | in every run, enqueueing puts a record under the key that is due a delay from now with the deadline counted from now, and frees the key's lease |
| ScheduledWorker.StoppedClaimsNothing | engine/src/engine/scheduled-worker.ts:58-73 | between a stop and the next start nothing is claimed |
| ScheduledWorker.Worker.Start | engine/src/engine/scheduled-worker.ts:51-56 | a started worker has a timer, a second start changes nothing |
| ScheduledWorker.Worker.Stop | engine/src/engine/scheduled-worker.ts:58-69 | no timer is left |
| ScheduledWorker.Worker.RunTick | engine/src/engine/scheduled-worker.ts:79-95 | the timer is set again before the claim is made |
| ScheduledWorker.Worker.FinishRun | engine/src/engine/scheduled-worker.ts:96-107 | one record's outcome is applied, its counter cleared or advanced |
| ScheduledWorker.Worker.RunScheduledCheck | engine/src/engine/scheduled-worker.ts:147-210 | the store afterwards is as CheckOutcome says: record and lease gone when the check is finished, the record moved when it is to be repeated in time, otherwise unchanged |
| ScheduledWorker.Worker.HandleScheduledFailure | engine/src/engine/scheduled-worker.ts:229-240 | counted up to nine, dropped at the tenth |
| WorkerOverlap.LeaseKeepsBatchesApart | engine/src/engine/scheduled-worker.ts:91-111 | for rules whose lease names cannot coincide: if n time limits add up to less than the lease, no record is ever pending in two batches of at most n records |
| WorkerOverlap.FailuresALeaseApart | engine/src/engine/scheduled-worker.ts:96-107 | a record under a lease is in no batch claimed before the lease ends, unless something frees it |
| WorkerOverlap.ClaimsALeaseApart | engine/src/engine/scheduled-worker.ts:91-107 | in every run of a new worker, two claims of a record with nothing between them that frees it, such as those around a failed run, are at least a lease apart |
| WorkerRechecks.RechecksBounded | engine/src/engine/scheduled-worker.ts:201-210 | where n time limits add up to less than the lease, batches have at most n records, lease names cannot coincide and no key is enqueued while in a batch: a key not enqueued again is repeated at most as often as the least time between repeats fits between its due time and its deadline |
| WorkerRechecks.RechecksSpaced | engine/src/engine/scheduled-worker.ts:91-111 | however batches overlap, a key enqueued while in no batch, and not again, is repeated k times only if (k−1)·min(a, lease)+a fits between its due time and its deadline, a being the least time between repeats |
| WorkerLease.DisjointIff | engine/src/engine/scheduled-worker.ts:91-111 | for rules whose lease names cannot coincide: overlapping batches never share a record in all runs with batches of at most n if and only if n time limits add up to less than the lease |
| WorkerLease.BoundedIff | engine/src/engine/scheduled-worker.ts:91-111 | for such rules: in all runs with batches of at most n, k repeats with at least a between them have k·a fit between due time and deadline, if and only if n time limits add up to less than the lease or no rule leaves more than two leases between the two |
| WorkerLease.RepeatedTwice | engine/src/engine/scheduled-worker.ts:91-111 | whenever n time limits reach the lease, a run in which two overlapping batches repeat one check, for any time between repeats that leaves a lease before the deadline |
| WorkerLease.LongChecksRepeatTwice | engine/src/engine/scheduled-worker.ts:91-111 | with a poll of 10 s, a time limit of 40 s and a deadline of 4000 s, a check that asks for an hour each time is repeated twice |
| WorkerLease.DefaultsKeepOneApart | engine/src/engine/engine.ts:50-52 | with the default poll and time limit this holds for batches of one and fails for two |
| Registration.BuildRegistry | engine/src/engine/registration.ts:30-245 | returns if and only if the batch is well-formed, then files every entity as registered; otherwise reports at least one issue |
| Registration.EntitiesFound | engine/src/engine/registration.ts:30-85 | in a built registry every predicate and action is found under its name, with its definition or the kind it was registered as, and has no issue with its arguments |
| Registration.NamesAreUnique | engine/src/engine/registration.ts:30-85 | no two predicates, integrations or rules of a built registry share a name |
| Registration.DispatchedRulesAreSound | engine/src/engine/registration.ts:87-177 | every rule dispatched for an event is for that event, has a condition within the depth limit over registered predicates, and attachments its strategy can run: aggregated ones only in aggregating rules of that event, scheduled ones only in scheduling rules |
| Registration.CheckUse | engine/src/engine/registration.ts:87-114 | finds nothing if and only if the tree is within the depth limit and uses registered predicates only |
| Registration.CheckAttachments | engine/src/engine/registration.ts:117-177 | finds nothing if and only if every attachment is known and allowed by the rule's strategy and the kind the strategy needs is there |
| Registration.BuildDispatch | engine/src/engine/registration.ts:226-234 | an event's list holds its rules, and there is no empty list |
| Registration.DispatchedOnce | engine/src/engine/registration.ts:226-234 | every rule is in its event's list at its place among that event's rules, and in no other list |
| Registration.PlainRulesQueueAll | engine/src/engine/strategy-handlers.ts:43-54 | a matched plain rule queues one pending action per attachment, in order |
| Registration.AggregateRulesCanFire | engine/src/engine/registration.ts:164-170 | an aggregating rule has an aggregated action, and every attachment of it belongs to one of the two rounds |
| Registration.NoFallback | engine/src/engine/predicates.ts:72-74 | for every event, evaluating the rules of the registry built of a batch comes out the same whatever value an unknown name would yield |
| Registration.UnknownNameFallsBack | engine/src/engine/predicates.ts:72-74 | a use of an unregistered name comes out differently for the two values, so the equation above means that the fallback is not taken |
| Registration.BuiltRulesQueue | engine/src/engine/registration.ts:117-177 | in a built registry every plain rule queues one action per attachment in order, and every aggregating rule has an aggregated action |

## Left out

- CanonicalMeaning.PrintDeterminesValue: numbers are integers below 10^21 in absolute value, which print in full; fractions, larger numbers, bigints, symbols, `toJSON` methods and lists with holes are not values of the model, and `undefined`, functions and non-finite numbers count as what they print as
- Predicates.MergeArguments: a property named `__proto__`, whose assignment sets the prototype in the source, is merged like any other
- PredicateMemo.SharedMemoIsTransparent: predicates depend on the event and their merged arguments only, arguments are JSON data, schema parsing is part of what a predicate replies, and the memo's promises are settled values because rules run one after another
- Predicates.Evaluation.Run: the rule loop without strategies, abort checks, matched count and emitted events
- Semaphore.EveryInterleaving: a step is atomic and steps come in any order, which includes but does not spell out the order of microtasks; a concurrency that is not a number is not modelled
- Breaker.ClosedMeansBelow: the percentage is computed exactly, not in floating point, where for instance 57 failures in 100 calls come to just below 57 percent
- Breaker.AdapterBreaker.AfterBreakerFailure: the same exact percentage
- Breaker.FailureOpensIff: the same exact percentage
- PromiseCache.EveryRunValid: the two readings of the clock within one call are one instant
- Retry.TotalBackoffOfCall: backoffs are whole milliseconds and random draws are any integers below the base
- Adapter.EveryInterleaving: a failed attempt and its wait are one step, during which only the number of the attempt is kept; how long they take is the matter of `Retry`
- AggregationStore.ListIsLogWindow: times are integers, and the three nested maps of a bucket's name are one map from name triples, so empty inner maps left by reads do not show
- AggregateStrategy.HandleAggregateStrategy: abort checks and emitted events, and the separate append and count used for stores without a combined one
- AggregateStrategy.FireTogether: deliveries are serial, transforms do not throw, the clock stands still within an event and nothing aborts it
- AggregateStrategy.ActionsSeeTheCount: argument merging of queued actions and their execution are not modelled
- ScheduledWorker.RechecksMeetDeadlines: the strategy of a rule stays the same during a run
- WorkerOverlap.LeaseKeepsBatchesApart: store operations take no time and the watchdog of a run fires on time, so `CancellationScope` appears as the bound on the time a run may take
- WorkerLease.DisjointIff: timers may fire late, so a tick may come at any time at least a poll after the last
- ScheduledWorker.Worker.RunScheduledCheck: the check, its time limit and the actions it queues appear as the outcome they come to
- WorkerLease.BoundedIff: keys are not enqueued while they are in a batch
- ScheduledWorker.Worker.Stop: aborting running checks appears as their failing, and waiting for them is not modelled
- Registration.BuildRegistry: which issues are reported in which order is not stated, and validating pinned arguments is given with each entity as the schema's list of issues
- Objects are updated in place through sequences and maps that the methods reassign; sharing of inner arrays with callers, which the source avoids by copying, does not show
- The demo application with its web server, storage, dashboard and fetching; loggers, emitters, context factories and builders, which only carry data
- User callbacks are functions that return or throw; schemas, random numbers and durations are given
- `engine/src/engine/action-executor.ts`, `engine/src/engine/utility/duration.ts` and the manual clock: argument-to-call plumbing, parsing of duration strings and a test clock, none of which touches the protocols above
