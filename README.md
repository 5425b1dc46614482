# abortable: a Dafny model

`abortable` is a JavaScript library. It provides `Abortable`, a Promise
subclass that can be cancelled, and the combinators `all`, `race`, `any` and
`allSettled` built on it. This project models the library's two stateful
engines in Dafny and proves properties of the models.

1. **The per-handle abort state machine.** The repository holds three
   versions of it. Each one is modelled separately:
   - **Newest:** `lib/methods.js` + `lib/abortable.js` + `lib/dummy.js`
     (modules `Methods`, `Consensus`, `Abortable` and `Dummy`);
   - **Counting:** `lib/abort.js` (module `AbortCounting`), which never lets
     `_unabortedCount` drop below 0;
   - **Oldest:** `lib/index.js` + `lib/dummyPromise.js` (module `Legacy`),
     with its `_abortIndirect` and `_abortCallbacks` callback queue.

   Every version keeps its handles in an arena, a `seq` of handle records
   stored in a class where the handle's id is its position. Each operation
   is a method that updates the arena in place. A ghost specification
   function says what the arena and the event log become, and every method
   ensures `(handles, log) == XOf(old(handles), old(log), ...)`. The lemmas
   state what the library promises about those functions. `_clear()` recurses
   over followers and terminates only when the follower graph is acyclic, so a
   ghost `rank` (followers rank below the handle they follow) stands witness
   for the acyclicity.
2. **The combinator engine.** `lib/collection.js` and its subclasses
   (module `Collections`, with the reports that reach its handlers in
   module `CollectionReports`) and `lib/any.js` (module `CollectionAny`). A
   `Collection` class keeps the parallel `state`/`result` arrays, the
   `numPending` counter, the first-error latch, the race latch and a log of
   output events: item `.then()` calls, abort requests sent to items, and the
   output's resolve and reject calls. A `Fields` snapshot lets each handler be
   stated as a pure function of the old snapshot, and lemmas prove what the
   handlers promise over those functions.

Things the model takes as given:
- Native Promise settlement, and calls to user abort handlers and done
  callbacks, appear as appended events. None of them re-enters the machine.
- The handlers `run()` subscribes all close over the one `let index` of
  lib/collection.js:43, so each of them reports at the item count, not at
  its own item (see Findings). The report functions accept any index up to
  the number of entries, and `CollectionReports.ReportsOf` folds a sequence of
  reports under either binding: as written (`SharedIndex`) or with an index
  per item (`PerItemIndex`). The per-item lemmas also take each thenable to
  report at most once, as a native promise does.
- `lib/index.js` imports `./dummy` but reads `_isAbortable` and
  `_followerIndex`, which are fields of `lib/dummyPromise.js`'s
  `DummyPromise`. The oldest version is therefore modelled with
  `DummyPromise` as its placeholder.
- `lib/collection.js` runs in strict mode. Under `await`, the first
  rejection attaches `result` and `state` to the error
  (lib/collection.js:90-93), and setting a property on a truthy primitive
  throws a `TypeError` there (see `Collections.FirstErrorOf`).
- Identity of errors and values is modelled as value equality.

## Model

| member | source | states |
|---|---|---|
| `Values.NewAbortError` | lib/error.js:19-22 | an AbortError whose message is the given one, or 'Aborted' when none is given or it is empty |
| `Values.Count.Inc` | lib/methods.js:112 | `count++` stays a number on a number (one more) and NaN on undefined/NaN |
| `Values.Count.Dec` | lib/methods.js:229 | `count--` stays a number on a number (one less) and NaN on undefined/NaN |
| `Utils.IsPromise` | lib/utils.js:15-18 | false for every falsy value; otherwise true exactly when `.then` is a function |
| `Utils.IsAbortable` | lib/utils.js:25-27 | true exactly for a thenable with a truthy `_isAbortable`, so it implies `IsPromise` |
| `Utils.Once.constructor` | lib/utils.js:37-38 | a fresh `once` wrapper has not been called and `fn` has not run |
| `Utils.Once.Call` | lib/utils.js:39-44 | the first call runs `fn` and stores its result; every later call returns the stored result without running `fn` |
| `Utils.CallOnceRepeatedly` | lib/utils.js:29-45 | over any number of calls, `fn` runs at most once (exactly once if called at all) and every call returns the first call's result |
| `Utils.PushOrCreate` | lib/utils.js:55-63 | the property afterwards is an array: a one-element array when absent, otherwise the old elements in order followed by the new one |
| `Utils.PushOrCreateCall` | lib/utils.js:47-63 | a call leaves the property as `PushOrCreate` says and returns undefined, which is not the new length promised by the doc comment |
| `Utils.MinusOne` | lib/dummyPromise.js:26 | `v - 1` is NaN for undefined and for NaN, and one less for a finite number |
| `IsAbortableExport.IsAbortableValue` | lib/isAbortable.js:19-21 | false for null and undefined; otherwise equal to `utils.isAbortable`; a thenable without a truthy `_isAbortable` is not abortable even with an `abort` method |
| `Methods.ClearedState` | lib/methods.js:132-138 | the fields `_clear()` resets: not abortable, no handler, awaiting, followers or error, count undefined; the other flags are kept |
| `Methods.ToAbortable` | lib/methods.js:64-65 | a value is abortable exactly when it refers to a handle of the arena, and it yields that handle |
| `Methods.AbortOf` | lib/methods.js:220-249 | `_abort` keeps the arena's size and its links in range (the recursion is well founded on the number of `_awaiting` links) |
| `Methods.ConsensusOf` | lib/methods.js:235-248 | the consensus part of `_abort` keeps the arena's size and its links in range |
| `Methods.Recorded` | lib/methods.js:222-233 | unilateral: overwrite the error and leave the count; otherwise keep the first recorded error and decrement the count; links and handler untouched |
| `Methods.PropagateOf` | lib/methods.js:269-273 | `_abortPropagate` keeps the arena's size and its links in range |
| `Methods.ClearOf` | lib/methods.js:124-139 | `_clear` keeps the arena's size and the follower ranking |
| `Methods.ClearListOf` | lib/methods.js:126-130 | clearing the followers one after another keeps the arena's size and the ranking |
| `Methods.AbortOfKeepsFollowers` | lib/methods.js:220-249 | `_abort` never changes any handle's `_followers` |
| `Methods.ConsensusOfKeepsFollowers` | lib/methods.js:235-248 | the consensus part of `_abort` never changes any `_followers` |
| `Methods.PropagateOfKeepsFollowers` | lib/methods.js:269-273 | `_abortPropagate` never changes any `_followers` |
| `Methods.AbortOfProgresses` | lib/methods.js:220-249 | `_abort` only moves handles towards aborted: no handle stops being aborted or starts being able to abort, and the log only grows |
| `Methods.ConsensusOfAborts` | lib/methods.js:235-237 | after consensus the handle is aborted and cannot abort, and every handle only progresses |
| `Methods.PropagateOfProgresses` | lib/methods.js:269-273 | `_abortPropagate` only moves handles towards aborted |
| `Methods.FollowedOf` | lib/methods.js:110-116 | `_followed` increments the count by one, appends the follower at the end of `_followers` (creating the list if absent), and changes no other handle |
| `Methods.FollowedOfLinks` | lib/methods.js:110-116 | `_followed` keeps the links in range and keeps the ranking when the follower ranks lower |
| `Methods.FollowOf` | lib/methods.js:89-100 | `_follow` keeps every `_followers` list and the links in range |
| `Methods.SettledOf` | lib/methods.js:62-81 | `_settled` keeps the arena's size, its links and its ranking |
| `Methods.ClearOfWellLinked` | lib/methods.js:124-139 | `_clear` keeps every link in range |
| `Methods.ClearListOfWellLinked` | lib/methods.js:126-130 | clearing a list of followers keeps every link in range |
| `Methods.ClearOfShape` | lib/methods.js:124-139 | `_clear` leaves `h` cleared, changes other handles only by clearing them, and leaves alone every other handle that ranks at or above `h` |
| `Methods.ClearListOfShape` | lib/methods.js:126-130 | clearing a list changes handles only by clearing them, and never handles ranked at or above the bound |
| `Methods.ClearOfClosed` | lib/methods.js:124-139 | every handle `_clear` clears has all its former followers cleared too |
| `Methods.ClearListOfCleared` | lib/methods.js:126-130 | after the loop every follower in the list is cleared |
| `Methods.ClearListOfClosed` | lib/methods.js:126-130 | the loop's clearing is closed under following |
| `Methods.ClearDisablesFollowers` | lib/methods.js:124-139 | after `_clear()` on `h`, every handle that followed `h`, directly or through other followers, is cleared, so none of them can abort |
| `Methods.ClosedReaches` | lib/methods.js:126-130 | a clearing closed under following reaches every handle reachable through `_followers` |
| `Methods.AbortWithoutConsensus` | lib/methods.js:226-232 | a non-unilateral abort that leaves the count above 0 records only the first error and decrements the count; nothing else changes and nothing is called |
| `Methods.AbortFiresHandler` | lib/methods.js:222-261 | on consensus a handle awaiting nothing with a handler becomes aborted and not abortable, loses its handler, and calls it once with the recorded error (a unilateral abort's own error); other handles are unchanged |
| `Methods.ConsensusPropagates` | lib/methods.js:240-245 | on consensus a handle awaiting `t` drops the link and its own error, and `t` gets a non-unilateral abort with that error |
| `Methods.AbortPropagatesUp` | lib/methods.js:220-273 | a whole `_abort` that reaches consensus on an awaiting handle equals a non-unilateral abort of the awaited handle with the winning error |
| `Methods.Invoke` | lib/methods.js:287-289 | the default handlers return or rethrow their input; a user handler ends as it ends |
| `Methods.ConformAbortArgs` | lib/methods.js:190-201 | a boolean first argument is `unilateral` (no error); a non-null non-Error throws; a non-boolean non-null `unilateral` throws; a missing `unilateral` is false |
| `Methods.Registry.Allocate` | lib/abortable.js:51-63 | appends the new handle's record at the end of the arena |
| `Methods.Registry.SealFate` | lib/methods.js:48-52 | returns true exactly when the fate was not yet sealed; afterwards it is sealed and nothing else changed |
| `Methods.Registry.Resolved` | lib/methods.js:24-27 | the first resolve or reject seals and settles the handle; a later call changes no abort state; every call reaches the native resolve, with the settled value |
| `Methods.Registry.Rejected` | lib/methods.js:38-41 | the first settlement seals and clears the handle; a later call changes nothing; every call reaches the native reject |
| `Methods.Registry.Settled` | lib/methods.js:62-81 | the arena, log and returned value are those of `SettledOf`: follows a handle that can abort (after `_followed`), otherwise clears |
| `Methods.Registry.Follow` | lib/methods.js:89-100 | drops the abort handler, then propagates a pending abort to the target or records `_awaiting` |
| `Methods.Registry.Followed` | lib/methods.js:110-116 | the arena becomes `FollowedOf`: one more consumer and the follower appended |
| `Methods.Registry.Clear` | lib/methods.js:124-139 | the loop clears every follower recursively, then the handle: the arena becomes `ClearOf` |
| `Methods.Registry.ClearFollowers` | lib/methods.js:126-130 | the loop over `_followers` clears each follower in order: the arena becomes `ClearListOf` |
| `Methods.Registry.OnAbort` | lib/methods.js:148-161 | a non-function throws TypeError; a second call throws 'onAbort() cannot be called twice'; after the fate is sealed only the call is recorded; if already aborted the handler is called at once with the error and not kept; otherwise it is stored |
| `Methods.Registry.NoAbort` | lib/methods.js:169-172 | irrevocably clears `_canAbort` and returns the handle itself |
| `Methods.Registry.Abort` | lib/methods.js:188-212 | invalid arguments throw and change nothing; a handle that cannot abort is returned unchanged; otherwise `_abort` runs with the given error or a default AbortError |
| `Methods.Registry.AbortInternal` | lib/methods.js:220-249 | the arena and log become `AbortOf` |
| `Methods.Registry.AbortConsensus` | lib/methods.js:235-248 | sets the flags, then propagates up `_awaiting` or fires the handler: the arena and log become `ConsensusOf` |
| `Methods.Registry.AbortDo` | lib/methods.js:256-261 | clears the handler before calling it once with the recorded error |
| `Methods.Registry.AbortPropagate` | lib/methods.js:269-273 | deletes this handle's error and aborts the target with it: `PropagateOf` |
| `Methods.Registry.Handled` | lib/methods.js:287-295 | a handler that returns settles the handle with its value; one that throws clears the handle and rethrows |
| `Consensus.AbortEach` | lib/methods.js:220-273 | a sequence of child aborts keeps the arena's size and its links in range |
| `Consensus.FirstError` | lib/methods.js:226 | the error kept is the one already recorded, else the first one sent |
| `Consensus.AbortedChild` | lib/methods.js:235-245 | a child whose abort went up is aborted, cannot abort, awaits nothing and has given up its error |
| `Consensus.ChildAbortCounts` | lib/methods.js:220-273 | one child's abort, while others still consume the parent, aborts the child and only decrements the parent's count and records the first error |
| `Consensus.PartialAbortKeepsParent` | lib/methods.js:226-232 | while fewer children than the parent's count have aborted, the parent is not aborted and nothing is called; it has counted the aborts and kept the first error |
| `Consensus.FullAbortAbortsParent` | lib/methods.js:229-261 | once as many children as the count have aborted, the parent is aborted; if it awaits nothing, its handler runs exactly once, with the first error |
| `Dummy.InitialDummy` | lib/dummy.js:24-29 | a new dummy can abort, is not sealed, and has no handler and no awaiting |
| `Dummy.DummyClearOf` | lib/dummy.js:123-126 | `_clear` makes the dummy not abortable and drops the handler, nothing else |
| `Dummy.DummySettledOf` | lib/dummy.js:80-104 | an Abortable that can still abort becomes `_awaiting`; any other value (falsy, non-abortable, or an Abortable that cannot abort) clears the dummy |
| `Dummy.DummyResolvedOf` | lib/dummy.js:42-45 | only the first settlement has an effect; afterwards the fate is sealed |
| `Dummy.DummyRejectedOf` | lib/dummy.js:56-60 | only the first settlement has an effect, and it clears |
| `Dummy.DummyOnAbortAsWrittenOf` | lib/dummy.js:113-115 | as written: the handler is stored while the dummy can abort, and the call is not recorded |
| `Dummy.DummyOnAbortOf` | lib/methods.js:148-157 | (corrected) the checked `_onAbort`: a non-function and a second call throw; the call is recorded; the handler is stored only while the dummy can abort |
| `Dummy.DummyOnAbortByOf` | lib/dummy.js:113-115 | under the as-written rule `onAbort` never throws, records nothing and stores the handler while the dummy can abort; under the corrected rule a second or non-function call throws and changes nothing; neither touches the settlement fields |
| `Dummy.DummyAbortable.constructor` | lib/dummy.js:24-29 | the initial dummy state, with no native calls yet |
| `Dummy.DummyAbortable.SealFate` | lib/dummy.js:67-71 | true exactly when this call sealed the fate |
| `Dummy.DummyAbortable.Resolved` | lib/dummy.js:42-45 | the state becomes `DummyResolvedOf`; the native resolve always receives the value itself |
| `Dummy.DummyAbortable.Rejected` | lib/dummy.js:56-60 | the state becomes `DummyRejectedOf`; the native reject is always called |
| `Dummy.DummyAbortable.Settled` | lib/dummy.js:80-104 | returns the value unchanged in every case; the state becomes `DummySettledOf` |
| `Dummy.DummyAbortable.OnAbortAsWritten` | lib/dummy.js:113-115 | the state becomes `DummyOnAbortAsWrittenOf` |
| `Dummy.DummyAbortable.OnAbort` | lib/methods.js:148-157 | (corrected) the state and the thrown error are those of `DummyOnAbortOf` |
| `Dummy.DummyAbortable.OnAbortBy` | lib/dummy.js:113-115 | the state and the thrown error are those of `DummyOnAbortByOf` under the given rule |
| `Dummy.DummyAbortable.Clear` | lib/dummy.js:123-126 | the state becomes `DummyClearOf` |
| `Dummy.DoubleOnAbortAsWritten` | lib/dummy.js:113-115 | two `onAbort` calls in an executor: as written, neither throws and the second handler replaces the first |
| `Dummy.DoubleOnAbort` | lib/methods.js:150-151 | (corrected) with the check, the second call throws 'onAbort() cannot be called twice' and the first handler stays |
| `Dummy.ResolveFirstDropsHandler` | lib/dummy.js:113-115 | with `_onAbort` as written (and under either rule), resolving with a non-followable value, or rejecting, before `onAbort` in the executor leaves no handler stored |
| `Abortable.DummyStepOf` | lib/abortable.js:44-47 | each executor callback goes to the dummy: resolve and reject reach the native function; `onAbort` reaches the dummy's `_onAbort` under the rule (as written: lib/dummy.js:113-115, which never throws) |
| `Abortable.DummyRunOf` | lib/abortable.js:39-49 | running the executor's calls, under either rule, gives one outcome per call, never unseals the fate, and keeps what the dummy awaits in the arena |
| `Abortable.TransferredState` | lib/abortable.js:52-63 | `_canAbort`, `_isFateSealed`, `_abortHandler`, `_onAbortWasCalled` and `_awaiting` equal the dummy's; not aborted, count 0, no followers or error, no internal then expected |
| `Abortable.Lifted` | lib/abortable.js:51-71 | a new handle nobody follows ranks below every existing one |
| `Abortable.ConstructedOf` | lib/abortable.js:51-71 | the new handle is appended; the handle it awaits counts it and has it appended as follower; the rest is unchanged |
| `Abortable.DummyRunOfStep` | lib/abortable.js:39-49 | the run visits the executor's calls in order |
| `Abortable.SealedRunKeepsState` | lib/dummy.js:42-45 | once sealed, further resolve and reject calls leave the dummy unchanged and each still reaches the native function |
| `Abortable.AsWrittenRunNeverThrows` | lib/dummy.js:113-115 | with `_onAbort` as written no executor call throws and `_onAbortWasCalled` keeps its value, so the new Abortable still accepts a later `onAbort` |
| `Abortable.ExecutorDoubleOnAbort` | lib/abortable.js:39-49 | an executor calling `onAbort(f1)` then `onAbort(f2)`: as written neither call throws and `f2` is the handler with the call unrecorded; with the checks (corrected) the second call throws and `f1` stays |
| `Abortable.RunExecutor` | lib/abortable.js:39-49 | the dummy ends in the state of `DummyRunOf` under the given rule and logs its native calls |
| `Abortable.Construct` | lib/abortable.js:24-72 | a non-function executor throws a TypeError from `super(executor)` (abortable.js:27) and changes nothing; otherwise the executor runs on a fresh dummy under the given rule, the new handle takes its state, and an executor that did nothing leaves a handle that can abort; as written no call throws and the new handle has not recorded `onAbort` |
| `Abortable.LiftedRanks` | lib/abortable.js:51-71 | adding a handle with no followers at the bottom keeps the ranking |
| `Abortable.FollowedRecordFollower` | lib/abortable.js:69 | taken to act as `_followed`: one more consumer and the new handle appended |
| `Abortable.ResolveReaction` | lib/abortable.js:95 | a missing resolve handler is the identity |
| `Abortable.RejectReaction` | lib/abortable.js:96 | a missing reject handler rethrows |
| `Abortable.Then` | lib/abortable.js:81-119 | with `_expectingInternalThen` set, the flag is reset and the count is untouched; otherwise the handlers get their defaults, the count goes up by exactly one, and the child awaits the parent only if the parent can abort |
| `Abortable.LateCall` | lib/abortable.js:44-47 | after construction, a resolve, a reject or an onAbort call acts on the real handle through its own methods, since `p` was rebound |
| `AbortCounting.LinksUpdate` | lib/abort.js:63-68 | replacing one handle changes the number of `_awaiting` links by the links it removes and adds, which bounds the propagation chain |
| `AbortCounting.LinkedUpdate` | lib/abort.js:63-68 | storing a handle whose link stays in range keeps every link in range |
| `AbortCounting.SameLink` | lib/abort.js:49-56 | storing a handle with the same link keeps the links and their number |
| `AbortCounting.Counted` | lib/abort.js:53-56 | the count is decremented only when positive, so a non-negative count stays non-negative; consensus comes exactly when the count was not positive or was 1 |
| `AbortCounting.Recorded` | lib/abort.js:48-56 | the first recorded error wins and the count is decremented only while positive; links, handler and flags are untouched |
| `AbortCounting.AbortOf` | lib/abort.js:44-72 | `_abort` keeps the arena's size and its links in range |
| `AbortCounting.ConsensusOf` | lib/abort.js:58-71 | the consensus part keeps the arena's size and its links in range |
| `AbortCounting.PropagateOf` | lib/abort.js:92-96 | `_abortPropagate` keeps the arena's size and its links in range |
| `AbortCounting.NonNegativeUpdate` | lib/abort.js:53-56 | storing a handle with a non-negative count keeps every count non-negative |
| `AbortCounting.AbortKeepsCountsNonNegative` | lib/abort.js:44-72 | an abort, however far it propagates, leaves no `_unabortedCount` negative |
| `AbortCounting.ConsensusKeepsCountsNonNegative` | lib/abort.js:58-71 | the consensus part leaves no count negative |
| `AbortCounting.PropagateKeepsCountsNonNegative` | lib/abort.js:92-96 | propagation leaves no count negative |
| `AbortCounting.AbortWaitsForConsensus` | lib/abort.js:48-56 | a handle counting more than one consumer keeps the first error, is one consumer down, and nothing else happens |
| `AbortCounting.ConsensusFiresHandler` | lib/abort.js:58-84 | on consensus with nothing awaited the handle is aborted and cannot abort; its handler, if any, is taken off and called once with the first error; other handles are unchanged |
| `AbortCounting.ConsensusPropagates` | lib/abort.js:58-68 | on consensus with an awaited handle the link is cut and this handle's error deleted before the awaited handle is aborted with it |
| `AbortCounting.ConformAbortArg` | lib/abort.js:20-30 | a non-null non-Error argument throws; no error gives a default AbortError |
| `AbortCounting.CountingRegistry.Abort` | lib/abort.js:20-37 | a bad argument throws and changes nothing; a handle that cannot abort is returned unchanged; otherwise `_abort` runs with the error or a default AbortError |
| `AbortCounting.CountingRegistry.AbortInternal` | lib/abort.js:44-72 | the arena and log become `AbortOf` |
| `AbortCounting.CountingRegistry.AbortConsensus` | lib/abort.js:58-71 | the arena and log become `ConsensusOf` |
| `AbortCounting.CountingRegistry.AbortDo` | lib/abort.js:79-84 | clears the handler before calling it with the recorded error, so it fires at most once |
| `AbortCounting.CountingRegistry.AbortPropagate` | lib/abort.js:92-96 | deletes this handle's error and aborts the target with it: `PropagateOf` |
| `Legacy.Cleared` | lib/index.js:101-108 | `_clear` turns off `_isAbortable` and drops handler and awaiting; an Abortable also drops followers, error and callbacks, and its count becomes NaN; a placeholder drops its follower index (lib/dummyPromise.js:41-46); kind and sealed flag stay |
| `Legacy.ClearedLinks` | lib/index.js:101-108 | a cleared handle refers to no handle it did not refer to before |
| `Legacy.ClearOf` | lib/index.js:93-109 | `_clear` keeps the arena's size and ranking |
| `Legacy.ClearListOf` | lib/index.js:95-99 | clearing the followers in order keeps the arena's size and ranking |
| `Legacy.ClearOfLinked` | lib/index.js:93-109 | `_clear` keeps every link in range |
| `Legacy.ClearListOfLinked` | lib/index.js:95-99 | clearing a list of followers keeps every link in range |
| `Legacy.ClearOfClears` | lib/index.js:93-109 | after `_clear` the handle cannot abort and has no handler or awaiting; every handle keeps its kind and sealed flag |
| `Legacy.ClearListOfKinds` | lib/index.js:95-99 | clearing a list keeps every kind and sealed flag |
| `Legacy.ClearOfFrame` | lib/index.js:93-109 | a handle that is not `h` and does not rank below it is left alone |
| `Legacy.ClearListOfFrame` | lib/index.js:95-99 | clearing a list leaves alone every handle ranked at or above the bound |
| `Legacy.ClearListOfClears` | lib/index.js:95-99 | after the loop no handle of the list can abort |
| `Legacy.ClearOfKeepsCleared` | lib/index.js:93-109 | `_clear` never makes a handle abortable again |
| `Legacy.ClearListOfKeepsCleared` | lib/index.js:95-99 | clearing a list never makes a handle abortable again |
| `Legacy.LiveUpdate` | lib/index.js:174-182 | replacing one handle changes the number of handles with a positive count by what it removes and adds, which bounds the abort chain |
| `Legacy.Indirected` | lib/index.js:174-179 | `_abortIndirect` keeps the first error, appends the callback to `_abortCallbacks` and decrements the count, touching nothing else |
| `Legacy.AbortOf` | lib/index.js:138-146 | `_abort` keeps the arena's size and its links in range |
| `Legacy.AbortDoOf` | lib/index.js:148-154 | `_abortDo` clears both the handler and the error, then calls the handler once with the error and a done callback |
| `Legacy.PropagateOf` | lib/index.js:167-172 | `_abortPropagate` keeps the arena's size and its links in range |
| `Legacy.IndirectOf` | lib/index.js:174-182 | `_abortIndirect` keeps the arena's size and its links in range |
| `Legacy.QueuedUpdate` | lib/index.js:156-165 | replacing one handle changes the number of callback queues by what it removes and adds, which bounds `_abortDone` |
| `Legacy.DoneOf` | lib/index.js:156-165 | `_abortDone` only takes callback queues away, leaves its own queue empty, and only appends to the log |
| `Legacy.DoneListOf` | lib/index.js:162-164 | running the queued callbacks only takes queues away and only appends to the log |
| `Legacy.CallsOf` | lib/index.js:162-164 | one call event per callback, in order |
| `Legacy.DoneRunsCallbacksInOrder` | lib/index.js:156-165 | `_abortDone` calls the queued callbacks exactly in the order they were queued, then the queue is empty |
| `Legacy.FlatDoneList` | lib/index.js:162-164 | callbacks whose own handles have no queue are just called in order |
| `Legacy.DoneTwiceIsDone` | lib/index.js:156-160 | a second `_abortDone` does nothing |
| `Legacy.ProgressedTrans` | lib/index.js:138-182 | progress along the abort chain composes |
| `Legacy.AbortOfProgresses` | lib/index.js:138-146 | `_abort` leaves its handle unable to abort, only turns `_isAbortable` off elsewhere, keeps every follower list and kind, and only appends to the log |
| `Legacy.PropagateOfProgresses` | lib/index.js:167-172 | `_abortPropagate` only progresses the arena |
| `Legacy.IndirectOfProgresses` | lib/index.js:174-182 | `_abortIndirect` only progresses the arena |
| `Legacy.IndirectWaits` | lib/index.js:174-182 | while the count does not reach 0 the first error is kept, the callback queued, the count decremented, and nothing else happens |
| `Legacy.IndirectLastFiresHandler` | lib/index.js:174-182 | when the count reaches 0 on a handle with a handler, the callback is queued, the handle stops being abortable and its handler is called once with the first error, which is taken off with the handler |
| `Legacy.AbortPrefersHandler` | lib/index.js:138-146 | `_abort` prefers a registered handler over forwarding to `_awaiting` |
| `Legacy.FollowedOf` | lib/index.js:85-91 | `_followed` increments the count, sets the follower's `_awaiting` to this handle, and appends the follower; nothing else changes |
| `Legacy.FollowedOfLinks` | lib/index.js:85-91 | `_followed` keeps the arena linked and, for a lower-ranked follower, ranked |
| `Legacy.SettledOf` | lib/index.js:73-83 | `_settled` keeps the arena's size, links and ranking |
| `Legacy.RankedOfSameFollowers` | lib/index.js:93-99 | the ranking depends only on follower lists |
| `Legacy.FollowedReturn` | lib/index.js:85-91 | `_followed` gives back undefined as written, and the new length of the follower list under the corrected rule |
| `Legacy.FollowerIndexOf` | lib/dummyPromise.js:25-26 | `_followed(this) - 1`, computed from what `_followed` returns: NaN as written; under the corrected rule the old length of the list, the index at which the follower now sits |
| `Legacy.PlaceholderResolvedOf` | lib/dummyPromise.js:23-33 | the placeholder's `_resolved` logs exactly one event, the owner's native resolve with the value, and keeps the arena's size, links and ranking |
| `Legacy.PlaceholderStepOf` | lib/dummyPromise.js:23-50 | one executor call on the placeholder keeps the arena linked and ranked |
| `Legacy.PlaceholderRunOf` | lib/index.js:22-29 | the executor's calls give one outcome each and keep the arena linked and ranked |
| `Legacy.InitialPlaceholder` | lib/dummyPromise.js:15-21 | a new placeholder is abortable and not sealed, with no handler, no awaiting and no follower index |
| `Legacy.TransferredState` | lib/index.js:31-40 | the Abortable takes `_isAbortable`, `_isFateSealed`, `_abortHandler` and `_awaiting` from the placeholder; no followers, error or callbacks; count 0 |
| `Legacy.InstallOf` | lib/index.js:42 | `_followers[index] = this` replaces an element only for an index inside the array; NaN or undefined changes no element |
| `Legacy.RunRank` | lib/index.js:19-29 | ranks during construction: the placeholder sits below every old handle |
| `Legacy.Raised` | lib/index.js:19-45 | ranks after construction: the new Abortable sits below its placeholder |
| `Legacy.AppendLinks` | lib/index.js:19-45 | adding a handle with no followers and nothing queued keeps the arena linked and ranked |
| `Legacy.RunRanked` | lib/index.js:19-29 | the arena with a new placeholder is linked and ranked |
| `Legacy.ConstructOf` | lib/index.js:19-45 | construction adds exactly two handles and keeps the arena linked and ranked |
| `Legacy.InstallLinks` | lib/index.js:42 | installing the Abortable in the follower list keeps the arena linked and ranked |
| `Legacy.ClearOfUnfollowed` | lib/index.js:93-109 | a handle that no follower list holds is untouched by `_clear` elsewhere and stays unheld |
| `Legacy.ClearListOfUnfollowed` | lib/index.js:95-99 | the same for clearing a list |
| `Legacy.FollowedInto` | lib/dummyPromise.js:23-28 | resolving a new placeholder with an abortable `t` seals it, makes it await `t` with the computed index, and makes `t` count and list it |
| `Legacy.ResolvedRun` | lib/dummyPromise.js:23-33 | an executor that resolves with an abortable `t` runs the placeholder into `FollowedInto` and calls the native resolve once |
| `Legacy.ResolvedWithAbortable` | lib/index.js:19-45 | after such an executor the Abortable is abortable, sealed and awaits `t`; `t`'s new last follower is the Abortable (corrected) or its placeholder (as written) |
| `Legacy.FollowerLostAsWritten` | lib/dummyPromise.js:25-26 | as written, the placeholder stays in `t`'s followers and the Abortable is in no follower list, so clearing `t` leaves the Abortable abortable |
| `Legacy.FollowerInstalled` | lib/index.js:42 | with `pushOrCreate` returning the new length, the Abortable takes its placeholder's place and clearing `t` clears it |
| `Legacy.FreshAbortable` | lib/index.js:31-40 | an Abortable whose executor did nothing is abortable, unsealed, with no handler, links, error or callbacks and count 0 |
| `Legacy.ConstructNothing` | lib/index.js:19-45 | an executor that calls nothing adds an untouched placeholder and a fresh Abortable and logs nothing |
| `Legacy.ResolvedWithPlain` | lib/dummyPromise.js:23-33 | resolving with a non-abortable value seals and clears the placeholder, so the Abortable is sealed and cannot abort; nothing else changes |
| `Legacy.ResolvedOf` | lib/index.js:47-50 | the last event of `_resolved` is always the native resolve with the value; the arena keeps its size, links and ranking |
| `Legacy.DequeuedRanked` | lib/index.js:156-165 | taking callback queues away keeps the ranking |
| `Legacy.RejectedOf` | lib/index.js:52-59 | the last event of `_rejected` is always the native reject with the reason; the arena keeps its size, links and ranking |
| `Legacy.SealedSettlementOnlyForwards` | lib/index.js:47-59 | once sealed, resolve and reject only reach the native callbacks |
| `Legacy.ClearOfClearsFollowers` | lib/index.js:93-99 | `_clear` on an Abortable leaves none of its followers able to abort |
| `Legacy.FirstResolveFollows` | lib/index.js:73-91 | the first resolve with an abortable Abortable, with no pending error, seals the handle and makes it await the target, which counts one more consumer and lists it last |
| `Legacy.FirstResolveClears` | lib/index.js:73-83 | the first resolve with anything else seals and clears the handle and all its followers |
| `Legacy.RejectWithAbortErrorRunsCallbacks` | lib/index.js:52-59 | rejecting first with the pending abort error runs the queued callbacks in order, then clears, then calls the native reject |
| `Legacy.OnAbortOf` | lib/index.js:67-71 | `_onAbort` records the handler only while abortable, and with an error pending calls it at once and drops both |
| `Legacy.LegacyAbortError` | lib/index.js:123-127 | null or undefined become a default AbortError with message "Aborted"; an Error is kept; a boolean or any other value throws ".abort() must be called with an Error or null" |
| `Legacy.AbortWithErrorOf` | lib/index.js:133-136 | recording the error and aborting keeps the arena's size and links |
| `Legacy.AbortCallOf` | lib/index.js:120-131 | `abort` keeps the arena's size and links |
| `Legacy.AbortGuards` | lib/index.js:120-131 | a handle that cannot abort ignores every argument, even an invalid one; otherwise an invalid argument throws and changes nothing, and a valid one leaves the handle unable to abort |
| `Legacy.AbortCallsHandler` | lib/index.js:120-154 | `.abort()` on an abortable handle with a handler calls it once with a default AbortError and takes handler and error off |
| `Legacy.LegacyRegistry.SealFate` | lib/index.js:61-65 | true exactly when this call sealed the fate; a later call changes nothing (borrowed by the placeholder, lib/dummyPromise.js:53) |
| `Legacy.LegacyRegistry.Followed` | lib/index.js:85-91 | the arena becomes `FollowedOf`; it returns `FollowedReturn` of the old follower list under the given index rule, undefined as written |
| `Legacy.LegacyRegistry.Clear` | lib/index.js:93-109 | the loop clears each follower, then this handle: `ClearOf` |
| `Legacy.LegacyRegistry.AbortDo` | lib/index.js:148-154 | the arena and log become `AbortDoOf` |
| `Legacy.LegacyRegistry.AbortInternal` | lib/index.js:138-146 | the arena and log become `AbortOf` |
| `Legacy.LegacyRegistry.AbortPropagate` | lib/index.js:167-172 | the arena and log become `PropagateOf` |
| `Legacy.LegacyRegistry.AbortIndirect` | lib/index.js:174-182 | the arena and log become `IndirectOf` |
| `Legacy.LegacyRegistry.AbortDone` | lib/index.js:156-165 | the queue is taken off before the callbacks run, in order: `DoneOf` |
| `Legacy.LegacyRegistry.RunCallbacks` | lib/index.js:162-164 | the loop calls each queued callback in order, each finishing its own handle's abort: `DoneListOf` |
| `Legacy.LegacyRegistry.Settled` | lib/index.js:73-83 | the arena and log become `SettledOf` |
| `Legacy.LegacyRegistry.Resolved` | lib/index.js:47-50 | the arena and log become `ResolvedOf` |
| `Legacy.LegacyRegistry.Rejected` | lib/index.js:52-59 | the arena and log become `RejectedOf` |
| `Legacy.LegacyRegistry.OnAbort` | lib/index.js:67-71 | the arena and log become `OnAbortOf` |
| `Legacy.LegacyRegistry.AbortWithError` | lib/index.js:133-136 | the arena and log become `AbortWithErrorOf` |
| `Legacy.LegacyRegistry.Abort` | lib/index.js:120-131 | the arena, log and result become `AbortCallOf` |
| `Legacy.LegacyRegistry.Handled` | lib/index.js:200-209 | a handler that returns settles the handle with its value; one that throws clears the handle and rethrows |
| `Legacy.LegacyRegistry.PlaceholderResolved` | lib/dummyPromise.js:23-33 | the arena and log become `PlaceholderResolvedOf` under the given index rule, the index taken from what `Followed` returns |
| `Legacy.LegacyRegistry.PlaceholderRejected` | lib/dummyPromise.js:35-39 | the first call seals the fate and throws, since `this.clear` is not a function, so the native reject is not reached; a later call only reaches it |
| `Legacy.LegacyRegistry.PlaceholderOnAbort` | lib/dummyPromise.js:48-50 | the handler is recorded only while abortable |
| `Legacy.LegacyRegistry.RunPlaceholder` | lib/index.js:22-29 | the executor's calls run on the placeholder in order: `PlaceholderRunOf` under the given index rule |
| `Legacy.LegacyRegistry.Construct` | lib/index.js:19-45 | the arena, log and thrown errors become `ConstructOf` under the given index rule |
| `Legacy.LegacyRegistry.Then` | lib/index.js:184-198 | the handlers get their defaults, the count goes up by one, and the child awaits the handle only while it is abortable; the child is not added to `_followers` |
| `Legacy.LegacyRegistry.StaticResolve` | lib/index.js:211-215 | an Abortable is returned unchanged; anything else is wrapped in a new Abortable that resolves with it, `ConstructOf` under the given index rule |
| `Collections.CountPendingZero` | lib/collection.js:64 | the count of pending entries is 0 exactly when no entry is pending, so `numPending == 0` means every item has reported |
| `Collections.CountPendingUpdate` | lib/collection.js:73 | a pending entry that reports lowers the count by one; an entry that stays pending leaves it |
| `Collections.CountPendingAppend` | lib/collection.js:46-47 | a new entry adds one to the count exactly when it is pending |
| `Collections.Put` | lib/collection.js:78-79 | `array[index] = v` sets that element and keeps every other; at the length it appends |
| `Collections.InitialFields` | lib/collection.js:21-33 | the constructor's fields: nothing iterated, no entries, count 0, no error; the race latch at `PENDING` and `null` (lib/race.js:15-20); they satisfy the collection invariant for every subclass |
| `Collections.RunStatus` | lib/collection.js:45-56 | an item's first status is `PENDING` exactly for a thenable, and never `REJECTED` |
| `Collections.ThenCalls` | lib/collection.js:50-53 | the subscriptions the walk makes are at most one per item |
| `Collections.ThenCallsReachExactlyThenables` | lib/collection.js:44-59 | `run` calls `.then` on every thenable, once each and in input order, and on nothing else (what those handlers then report is `CollectionReports.ReportsOf`) |
| `Collections.NoThenCalls` | lib/collection.js:44-59 | an input of plain values only is never subscribed to |
| `Collections.FirstPlainIsFirst` | lib/race.js:22-29 | `FirstPlain` finds the first item that is not a thenable, and finds none only when every item is a thenable |
| `Collections.AbortsUpTo` | lib/collection.js:112-120 | the loop sends at most one abort per entry |
| `Collections.AbortsReachExactlyPendingAbortables` | lib/collection.js:112-120 | `_abort` calls `_abortIndirect` on every pending entry that holds an abortable, once each and in index order, with the given error, and on no other entry |
| `Collections.AllDone` | lib/all.js:18-21 | `all` rejects exactly when it has errored, with the first error, and otherwise resolves with the `result` array as it stands (in input order only under a per-item index, `CollectionReports.PerItemAllResolves`; as written see `CollectionReports.SharedAllResolvesWithLastValue`) |
| `Collections.RaceDone` | lib/race.js:40-43 | `race` does nothing exactly while its latch is pending; otherwise it settles the way the latch went, with the latched value |
| `Collections.RaceAltDone` | lib/collectionRace.js:40-43 | this race always settles: it rejects exactly when the latch is `REJECTED` and otherwise resolves with `raceResult`, `null` if nothing reported |
| `Collections.SettledRecords` | lib/allSettled.js:21-25 | one record per entry: fulfilled exactly when the entry resolved, holding that entry's result; an entry still `PENDING` gives a rejected record (as written, every thenable's, `CollectionReports.SharedStaleEntries`) |
| `Collections.StatusName` | lib/allSettled.js:22-24 | a record's `status` is `'fulfilled'` or `'rejected'`, and `'fulfilled'` exactly for a fulfilled record |
| `Collections.DoneEvents` | lib/allSettled.js:19-26 | `done` settles the output at most once; `allSettled` always resolves, with the records |
| `Collections.PlainItemsAllFulfilled` | lib/allSettled.js:21-25 | over plain values only, every record is fulfilled with its value, in order |
| `Collections.Latch` | lib/race.js:22-38 | the race latch takes the first report and ignores every later one |
| `Collections.FirstReportWins` | lib/race.js:22-38 | whatever reports follow, the race ends on the first |
| `Collections.ReportFacts` | lib/collection.js:70-102 | a pending entry that reports leaves one fewer pending, leaves none pending exactly when it was the last, is remembered if it rejected, and means not all are pending |
| `Collections.RaceLatchOf` | lib/race.js:22-37 | only the race subclasses latch a report, and the latch is the only field that can change |
| `Collections.ResolvedOneSimpleOf` | lib/collection.js:77-80 | the entry becomes `RESOLVED` with the value and the count, error and events stay |
| `Collections.ResolvedOneOf` | lib/collection.js:70-75 | at any index up to the number of entries (at the end it appends): the entry becomes `RESOLVED` with the value, the count goes down by one, the error stays, a race latches, and `done` runs exactly when the count reaches 0 |
| `Collections.ResolvedAtPendingEntry` | lib/collection.js:70-75 | (per-item index, corrected) a resolution of a pending entry keeps the collection valid, changes only that entry, and runs `done` exactly when no entry is left pending |
| `Collections.RejectedOneOf` | lib/collection.js:82-102 | at any index up to the number of entries: the entry becomes `REJECTED`; the first error is kept; a first rejection aborts the pending abortables; a truthy primitive first error under `await` throws before the count changes; `done` runs at once without `await` and when the count reaches 0 with it |
| `Collections.RejectedAtPendingEntry` | lib/collection.js:82-102 | (per-item index, corrected) a rejection of a pending entry changes only that entry, keeps the collection valid unless it throws, and under `await` settles exactly when no entry is left pending |
| `Collections.ValidAfterRejection` | lib/collection.js:82-102 | (per-item index, corrected) a rejection of a pending entry leaves a valid collection: the count is the pending entries and `errored` means some entry rejected |
| `Collections.LaterRejectionOf` | lib/collection.js:82-102 | at any index up to the number of entries, a later rejection keeps the first error, sends no abort and counts one off |
| `Collections.FirstRejectionOf` | lib/collection.js:86-97 | at any index up to the number of entries, the first rejection records the error and aborts the pending abortables; a truthy primitive error under `await` throws when `result` is set on it |
| `Collections.RecordRejectionOf` | lib/collection.js:83-84 | at any index up to the number of entries, the entry becomes `REJECTED` with the error, the race subclasses latch it, nothing else changes |
| `Collections.FirstErrorOf` | lib/collection.js:86-97 | `errored` and `error` are set; `result` and `state` are attached to a truthy object error under `await`; a truthy primitive throws in strict mode; otherwise the pending abortables get the collection's own AbortError |
| `Collections.SettleRejectionOf` | lib/collection.js:99-101 | one fewer pending; `done` runs without `await`, or with it when this was the last pending entry |
| `Collections.AbortPendingOf` | lib/collection.js:112-120 | `_abort` changes nothing but the events, to which it adds the aborts of the pending abortables |
| `Collections.AllStaysRejectedOnResolve` | lib/all.js:18-21 | once `all` has errored, a later resolution at any index can only reject the output with the first error |
| `Collections.AllStaysRejectedOnReject` | lib/all.js:18-21 | once `all` has errored, a later rejection at any index never throws and can only reject the output with the first error |
| `Collections.AwaitWaitsOnResolve` | lib/collection.js:73-74 | a resolution that leaves the count above 0 sends nothing |
| `Collections.AwaitWaitsOnReject` | lib/collection.js:101 | under `await`, a rejection that leaves the count above 0 settles nothing; it can only send aborts |
| `CollectionReports.HandlerIndex` | lib/collection.js:43-52 | as written every handler passes the count of items `run()` walked; with a per-item binding, its own item's index |
| `CollectionReports.ReportOf` | lib/collection.js:50-53 | a handler runs `resolvedOne` or `rejectedOne` at the index its binding gives, and never shrinks the entries |
| `CollectionReports.ReportsOf` | lib/collection.js:50-53 | the handlers run in report order; one outcome per report; the entries never shrink |
| `CollectionReports.ReportsCount` | lib/collection.js:70-102 | under either binding each report counts one off except one that throws; at most one throws, and only before the first error |
| `CollectionReports.ResolutionsSettleOnLast` | lib/collection.js:70-75 | under either binding, resolutions as many as the count: the error stays and `done` runs once, on the report that brings the count to 0 |
| `CollectionReports.SharedKeepsItems` | lib/collection.js:43-52 | as written, reports never touch the entries `run()` made; they all write the one entry after them, which holds the last report |
| `CollectionReports.CountPendingRun` | lib/collection.js:45-47 | after the walk the pending entries are exactly as many as the thenables |
| `Collections.RanOver` | lib/collection.js:41-64 | the state `run()` leaves: the items as results, a status per item, no error, the subscriptions, `done` only when no item is a thenable |
| `Collections.RunRanOver` | lib/collection.js:41-64 | `run()` over a list of items leaves exactly that state |
| `CollectionReports.SharedAllSettles` | lib/all.js:18-21 | as written, from a valid `all` that has not failed, resolutions as many as the count resolve the output once with the entries followed by the last value |
| `CollectionReports.SharedAllResolvesWithLastValue` | lib/collection.js:43-52 | as written, `all` over items with thenables resolves with the items themselves (thenables, not their values) followed by the last resolution's value |
| `CollectionReports.SharedStaleEntries` | lib/collection.js:112-120 | as written, after any reports a thenable's entry is still `PENDING`: `allSettled` records it as rejected with the thenable as reason, and an abort still reaches it if it is abortable |
| `CollectionReports.PerItemEntriesStep` | lib/collection.js:77-80 | one more per-item resolution sets its own entry and leaves every unreported entry |
| `CollectionReports.PerItemResolutions` | lib/collection.js:70-80 | (corrected) with a per-item index, resolutions of distinct pending entries keep the collection valid, set each entry to its value and leave every other entry |
| `CollectionReports.PerItemAllSettles` | lib/all.js:18-21 | (corrected) with a per-item index, as many distinct resolutions as the count leave every entry resolved and resolve the output once with the results |
| `CollectionReports.PerItemAllResolves` | lib/collection.js:41-75 | (corrected) with a per-item index, `all` over items whose thenables each resolve once resolves once with each thenable's value at its place and every plain item as it is, in input order |
| `Collections.TakeOf` | lib/collection.js:45-58 | one turn adds the item's entry; a thenable adds one to the count and is subscribed to; a plain value is resolved at once and latched by a race |
| `Collections.WalkOf` | lib/collection.js:43-59 | the walk over `n` items leaves `n` entries |
| `Collections.WalkEntries` | lib/collection.js:44-59 | as the loop leaves them, the entries are the items in input order, pending exactly for a thenable; the other fields stay |
| `Collections.WalkCount` | lib/collection.js:46 | after the walk the count is the number of pending entries and none is rejected |
| `Collections.WalkEvents` | lib/collection.js:50-53 | the walk's only events are the subscriptions, in order |
| `Collections.WalkLatch` | lib/race.js:22-29 | after the walk a race's latch holds the first plain item, or is still pending if there is none |
| `Collections.RunOf` | lib/collection.js:41-68 | a non-iterable input throws and changes nothing; otherwise an entry per item in input order (before any report arrives), the count of pending entries, a race latched on the first plain item, a `.then` call per thenable, and `done` at once exactly when no item is pending |
| `Collections.RunSettles` | lib/collection.js:61-64 | after the walk, `done` runs exactly when no entry is pending; the collection stays valid and its events are the subscriptions and, then, what `done` sends |
| `Collections.WalkFacts` | lib/collection.js:43-59 | the full walk from the constructor's state is valid and leaves the entries, events and latch that `RunOf` states |
| `Collections.AllOfNothing` | lib/collection.js:61-64 | `all` of an empty input resolves at once with no results |
| `Collections.RaceOfNothing` | lib/race.js:40-43 | `race` of an empty input never settles |
| `Collections.RaceAltOfNothing` | lib/collectionRace.js:40-43 | this race resolves an empty input with `null` at once |
| `Collections.AllSettledAsWritten` | lib/allSettled.js:34-36 | as written, the options object is taken as the input, so `run` throws a TypeError for every input and `await` is off |
| `Collections.AllSettledOf` | lib/allSettled.js:19-26 | with the input passed first: `await` is on, an entry per item, and plain values only resolve at once with a fulfilled record for each, in order |
| `Collections.PlainRunSettles` | lib/collection.js:41-68 | a run over plain values only subscribes to nothing and resolves with a fulfilled record for each item, in order |
| `Collections.Collection.Done` | lib/all.js:18-21 | `done` of the collection's subclass (also lib/race.js:40-43, lib/collectionRace.js:40-43, lib/allSettled.js:19-26) appends `DoneEvents` and changes nothing else |
| `Collections.Collection.constructor` | lib/collection.js:21-33 | a new collection is valid and its fields are `InitialFields` (lib/race.js:15-20 for the race latch) |
| `Collections.Collection.LatchReport` | lib/race.js:22-38 | the fields become `RaceLatchOf` |
| `Collections.Collection.ResolvedOneSimple` | lib/collection.js:77-80 | the fields become `ResolvedOneSimpleOf` |
| `Collections.Collection.Run` | lib/collection.js:41-68 | the fields and result become `RunOf` |
| `Collections.Collection.Walk` | lib/collection.js:43-59 | the loop leaves `WalkOf` over every item |
| `Collections.Collection.Take` | lib/collection.js:45-58 | the fields become `TakeOf` |
| `Collections.Collection.ResolvedOne` | lib/collection.js:70-75 | at any index up to the number of entries, the fields become `ResolvedOneOf` |
| `Collections.Collection.RejectedOne` | lib/collection.js:82-102 | at any index up to the number of entries, the fields and what is thrown become `RejectedOneOf` |
| `Collections.Collection.RecordRejection` | lib/collection.js:83-84 | at any index up to the number of entries, the fields become `RecordRejectionOf` |
| `Collections.Collection.FirstError` | lib/collection.js:86-97 | the fields and what is thrown become `FirstErrorOf` |
| `Collections.Collection.SettleRejection` | lib/collection.js:99-101 | the fields become `SettleRejectionOf` |
| `Collections.Collection.Abort` | lib/collection.js:104-110 | the pending abortables are aborted with the output's error and one fresh, uncalled `once` wrapper of the callback |
| `Collections.Collection.AbortAndCallBack` | lib/collection.js:104-110 | however many aborted items call back, the callback runs once if any item was aborted and never otherwise |
| `Collections.Collection.AbortPending` | lib/collection.js:112-120 | the loop leaves `AbortPendingOf` |
| `CollectionAny.NewAggregateError` | lib/any.js:89-97 | the fallback AggregateError holds the given errors, in order, and the message |
| `CollectionAny.OutputsAppend` | lib/any.js:57-63 | an event adds one to the output count exactly when it settles the output |
| `CollectionAny.AnyDone` | lib/any.js:57-63 | `done` settles the output: it resolves exactly when some entry resolved, with the first value, and otherwise rejects with an AggregateError over every result and the message "All promises were rejected" |
| `CollectionAny.ExitOf` | lib/any.js:49 | the base `exit` appends `AnyDone` of the current fields and changes nothing else |
| `CollectionAny.BaseResolvedOneDoOf` | lib/any.js:34 | the base step records the entry, counts it off and settles at 0 |
| `CollectionAny.ResolvedOneDoOf` | lib/any.js:24-38 | a resolution records the entry, the latch holds the first value, and the output still settles at most once |
| `CollectionAny.FirstResolutionOf` | lib/any.js:24-38 | the first resolution latches the value; without `await` the output resolves with it at once; with it, only if it was the last report; `abortPending` follows |
| `CollectionAny.FirstResolutionValid` | lib/any.js:24-38 | after the first resolution the latch matches the entries, the count is forced to 0 without `await`, and the output is settled at most once |
| `CollectionAny.FirstResolutionEvents` | lib/any.js:24-34 | the base step resolves the output with the first value at once without `await`, and with it only when that was the last pending entry |
| `CollectionAny.LaterResolutionOf` | lib/any.js:24-38 | a later resolution keeps the first value and at most resolves the output with it |
| `CollectionAny.RejectedOneDoOf` | lib/any.js:40-50 | a rejection records the entry, counts it off and settles at 0, the output still at most once |
| `CollectionAny.Counted` | lib/any.js:41-46 | the entry becomes `REJECTED` with the error and the count goes down by one; events, option and latch stay |
| `CollectionAny.RejectedOneValid` | lib/any.js:40-50 | a rejection keeps the collection's invariant: the latch agrees with the entries, the count with the pending entries, and the output settles at most once |
| `CollectionAny.AllRejectedGivesAggregate` | lib/any.js:40-63 | rejections only: the output settles exactly when no entry is pending, and then with an AggregateError over all the results |
| `CollectionAny.AllPendingCount` | lib/any.js:17-22 | with every entry pending the count is the number of entries |
| `CollectionAny.AnyCollection.Done` | lib/any.js:57-63 | appends `AnyDone` and changes nothing else |
| `CollectionAny.AnyCollection.constructor` | lib/any.js:17-22 | every given item is an entry, pending and counted; the latch is `PENDING` and `undefined`; no event yet |
| `CollectionAny.AnyCollection.Exit` | lib/any.js:49 | the base `exit` calls `done` |
| `CollectionAny.AnyCollection.AbortPending` | lib/any.js:37 | the call of the base `abortPending` is logged and nothing else changes |
| `CollectionAny.AnyCollection.BaseResolvedOneDo` | lib/any.js:34 | the fields become `BaseResolvedOneDoOf` |
| `CollectionAny.AnyCollection.ResolvedOneDo` | lib/any.js:24-38 | the fields become `ResolvedOneDoOf` |
| `CollectionAny.AnyCollection.RejectedOneDo` | lib/any.js:40-50 | the fields become `RejectedOneDoOf` |

## Left out

- The native Promise machinery (`super(...)`, `super.then`, microtask order) is not modelled. Native resolve and reject calls, user abort handlers and done callbacks are appended events, and none of them re-enters a model.
- lib/abortableMethod.js is not part of this model. Its behaviour is one microtick of scheduler timing.
- lib/finally.js is not part of this model. It is a thin wrapper over `then` whose meaning is native Promise semantics.
- lib/resolve.js, lib/reject.js and lib/constants.js are not part of this model. They are one-line wrappers and a Symbol.
- lib/debug.js and the logging calls are not modelled, because they only print through the `debug` package.
- lib/error.js is reduced to its default message (`Values.NewAbortError`). The native Error subclass and its stack are not modelled.
- The foreign-abortable branch of `DummyAbortable._settled` (lib/dummy.js:90-98) is not modelled. The code itself marks it as wrong (infinite recursion). The model treats such a value as not followable.
- `toAbortable`, `isAbortableInstance` and `_followedRecordFollower` are called but their bodies are not in the repository. The model gives them the plain behaviour their callers rely on: `Methods.ToAbortable` and `Abortable.FollowedRecordFollower`.
- The base-class `resolvedOneDo`, `abortPending` and `exit` that lib/any.js calls are not in the repository (lib/collection.js has none of them). `CollectionAny` gives them the plainest behaviour lib/any.js relies on, and logs `abortPending` as one event.
- `CollectionAny.AnyCollection.constructor`: it starts from the state the base class would leave once every item is a pending thenable it has subscribed to (`numPending == |items|`, every entry pending). Plain values among the items, and the base walk that would subscribe to them, are not modelled for `any`, since that base class is not in the repository.
- lib/any.js:76 calls `new CollectionAny(options).run(iterable)`, the same shape as the lib/allSettled.js:35 finding: against `constructor(iterator, options)` and the argument-less `run()` of lib/collection.js:21 and 41, the options would be taken as the input. Because lib/any.js also relies on base methods that lib/collection.js does not have, it evidently targets another version of the base class, so this is not claimed as a finding.
- The native `AggregateError` detection in `createAggregateErrorClass` (lib/any.js:86) is not modelled. The runtime reflection behind it has no counterpart in the model. The fallback class's `name` is a constant only (`CollectionAny.AggregateErrorName`).
- The item `.then()` calls and the output's resolve and reject are events. The reports reach the handlers after `run()` has returned, in the order `CollectionReports.ReportsOf` is given them. A thenable that calls its handler synchronously inside `.then()`, while `run()` is still looping, is not modelled.
- `CollectionReports.PerItemResolutions`, `CollectionReports.PerItemAllSettles` and `CollectionReports.PerItemAllResolves` take each thenable to report at most once and at its pending entry, as a native promise does. lib/collection.js has no guard against a duplicate report. Under the as-written binding no such assumption is made (`CollectionReports.SharedKeepsItems` holds for any reports).
- `Collections.RejectedOneOf`: the `result` and `state` arrays that `rejectedOne` attaches to the first error are live references. The model records only that they were attached (`errorAnnotated`), not that later updates show through them.
- The follower graph of each abort machine is assumed acyclic, through the ghost `rank` its operations take (`CanFollow`). A cyclic graph would make `_clear` recurse forever, and the model does not cover it.
- `Utils.Once.Call`: a `fn` that throws is not modelled. lib/utils.js:40-42 sets `called` before running `fn`, so after a throw every later call returns undefined without running `fn` again.
- `canAbort()` (lib/methods.js:178-180) only reads `_canAbort`. The model reads the field directly, and `Methods.AbortOfProgresses` states that an abort never makes it true again.
- Object identity of errors and values is modelled as value equality.
- lib/index.js with a non-function executor is not modelled: lib/index.js:19-29 has no check of its own, so the native executor throws inside `super` and `new Abortable(x)` returns a rejected promise. Its `noAbort`, `isAbortable` and static `reject` are not modelled either. None of them is among that version's core operations; lib/methods.js and lib/abortable.js cover the same behaviour for the newest version.
- `Abortable.Construct`: for a non-function executor the TypeError comes from the native `super(executor)` (lib/abortable.js:27), whose message the engine chooses. The model gives it the message of lib/abortable.js:28, a line that is never reached.
- `Dummy.DummyOnAbortAsWrittenOf`: lib/dummy.js stores a non-function argument as the handler, but the model stores no handler for it, because a handler in the model is always a function.
- `Legacy.OnAbortOf`: like `Legacy.LOnAbort`, `Legacy.LegacyRegistry.OnAbort` and `Legacy.LegacyRegistry.PlaceholderOnAbort`, it takes the handler as a function. lib/index.js:67-70 and lib/dummyPromise.js:48-50 store whatever value is passed. The model does not capture that a falsy value counts as no handler (lib/index.js:141), nor that a truthy non-function throws a TypeError when `_abortDo` calls it (lib/index.js:153).
- `Legacy.LegacyRegistry.PlaceholderRejected`: lib/dummyPromise.js:36 calls `this.clear()`, which does not exist. The model throws a TypeError there and does not claim that the placeholder clears.
- lib/collectionAll.js is textually the same `done()` as lib/all.js. Both are modelled by the `All` variant and `Collections.AllDone`.
- test.js, foo.js and the test files are not modelled. They are scratch scripts and tests, and serve only as evidence for properties.

## Findings

| source | as written | input that shows it | evidently intended | confidence | as-written member | corrected member |
|---|---|---|---|---|---|---|
| lib/dummy.js:113-115 | `DummyAbortable._onAbort` stores any argument and does not record the call, so a second `onAbort` in an executor silently replaces the first handler | an executor that calls `onAbort(f)` and then `onAbort(g)` | the checks of lib/methods.js:148-151: a non-function throws a TypeError and a second call throws 'onAbort() cannot be called twice' | not executed | `Dummy.DoubleOnAbortAsWritten` | `Dummy.DoubleOnAbort` |
| lib/utils.js:55-63 | `pushOrCreate` returns undefined, so `res._followed(this) - 1` (lib/dummyPromise.js:26) is NaN and `awaiting._followers[NaN] = this` (lib/index.js:42) changes no element; the new Abortable is in no `_followers` list, so clearing its target leaves it abortable | `new Abortable(resolve => resolve(t))` for an abortable Abortable `t`, followed by `t`'s `_clear()` | `pushOrCreate` returns the new length, as its doc comment says (lib/utils.js:48); the Abortable then takes its placeholder's place and is cleared with `t` | not executed | `Legacy.FollowerLostAsWritten` | `Legacy.FollowerInstalled` |
| lib/collection.js:43 | `let index` is declared once, before the `for...of` loop, so the `.then` handlers of lines 51-52 all close over one binding, which holds the number of items when they run; every report writes `result[n]` and `state[n]`, and the thenables' own entries stay `PENDING` with the thenable as their result | `all([t0, t1])` for two promises resolving with `v0` and then `v1`: it resolves with `[t0, t1, v1]` | a binding per iteration, so each handler reports at its own item's index and `all` resolves with `[v0, v1]` | not executed | `CollectionReports.SharedAllResolvesWithLastValue` | `CollectionReports.PerItemAllResolves` |
| lib/allSettled.js:35 | `new CollectionAllSettled({await: true}).run(iterable)` passes the options object as the iterator, and `run` ignores its argument, so `for...of` over a plain object throws a TypeError and `await` is off | `allSettled([1, 2])` | `new CollectionAllSettled(iterable, {await: true}).run()`, matching `constructor(iterator, options)` in lib/collection.js:21 | not executed | `Collections.AllSettledAsWritten` | `Collections.AllSettledOf` |
