# Verified model of the cwsandbox client SDK

A Dafny model of the parts of the TypeScript SDK in `packages/cwsandbox` whose
correctness depends on order and time: the direct data plane's channel pool and
credential cache, the bounded stream queue, the polling and retry loops, the guarded
update of a network config, and the codecs between chunks, frames, lines and words.

`dafny verify dfyconfig.toml` checks it.

## How it is built

Code that updates an object is a class whose methods change the same fields in the same
order; each method is proved to take one step of a specification on values, and the
properties are proved of that specification for every sequence of steps. The code between
two `await`s is one step, so a sequence of steps is an arbitrary interleaving of callers.
The modules named `...Laws` say what single steps and whole calls come to in the plainest
terms (statuses, codes, bytes, milliseconds), without the specification's own helpers.

| modules | what they model |
|---|---|
| `ChannelPool`, `DirectChannels`, `OrderedMap`, `PoolLaws` | the LRU cache of reference-counted channels, as a value and as a class over a JavaScript `Map` |
| `CredentialCache`, `DirectDataPlanes`, `CacheLaws` | single-flight credential issues and the bounded state map, driving the pool |
| `ChannelCoverage`, `DetachedStates` | which channels discarding a sandbox retires, and what becomes of a state that the map drops while it is in use |
| `DirectAcquire`, `AcquireLaws` | the budget, backoff and cooldown around getting a direct lease |
| `QueueModel`, `AsyncQueues`, `QueueLaws` | the bounded queue with waiting consumers and producers |
| `Worlds`, `RetryTransient`, `WaitForSandbox`, `RetryLaws`, `WaitLaws` | polling with nested deadlines |
| `DnsNames`, `NetworkCodec`, `NetworkUpdate`, `NetworkConfigClients`, `NameLaws`, `NetworkLaws` | network rules: validation, storage, reading, guarded update |
| `Bits`, `WebSocketFrames`, `WebSocketEcho`, `WebSocketLaws` | frames of section 5.2 of RFC 6455, and the echo server |
| `LogLines`, `LogStreams`, `LogLaws` | the log line splitter |
| `ShellCommands` | quoting by sections 2.2.1, 2.2.2 and 2.3 of the POSIX.1-2017 Shell Command Language |
| `WorkerPool`, `MapConcurrency` | mapping with bounded concurrency |
| `ServiceAddresses`, `SandboxHandles` | the addresses a sandbox handle shows |
| `ByteStreams` | collected output, file chunks and their reassembly |
| `HintedRetry`, `FileRetry`, `FileLaws` | file calls over the direct data plane or the gateway |
| `LeaseTraffic` | any number of file calls at once, as a run of the channel pool |
| `Sequences`, `Reals`, `Wrappers` | joining and splitting, minimum and maximum, and the option type |

Assumptions:

- Servers, clocks, random numbers, schedulers and abort signals are scripts fixed in
  advance and otherwise arbitrary, so what is proved of a loop holds for all of them. In
  `Worlds` time moves only in a sleep, by exactly the time asked for, and in an attempt,
  by at most the timeout it was given; in `HintedRetry` a sleep may overshoot and a call
  may take any time; in `DirectAcquire` waits and pauses end on time.
- Time is in `real` milliseconds. A transport error's retry delay is a whole number of
  nanoseconds, as a protobuf duration is; that gives the retry loop its measure.
- Queue items are never `undefined`, and neither is the value a queue fails with.
- A network config server swaps on the etag when a request carries one, and never uses an
  etag twice. A masked field that the document leaves unset is cleared, as the public
  types say.

Where the code and what is said about it differ, the model follows the code:

- A push that was woken may hand its item straight to a waiting consumer, and then the
  free place wakes nobody. With more concurrent pushes than capacity a push can be left
  waiting beside free room; `NoStarvationIffRoomForEveryPusher` gives the exact condition.
  Each stream of the SDK has one producer, which meets it.
- The log splitter cuts a line once 64 KiB of it have gathered, so a longer line is cut or
  not depending on how it arrived. `ChunkingIsInvisibleIffLinesAreShort` gives the exact
  condition.
- The public comment on the update's `etag` says that the config is read first when the
  etag is omitted. The code reads whenever `egress` or `ingress` is written; only which
  etag is sent depends on the option. Without etags on reads and without one from the
  caller the write is not pinned, and `SafeIffPinned` says what that means.
- An empty chunk that arrives when collected output is at its limit reports truncation
  although nothing was lost; `TruncationIsReportedRightlyIff` says exactly when.
- The map may drop a state that is in use: at once, when it was just added
  (`StateIsKeptIff`), or by discarding its sandbox at any time while a credential issue is in
  flight (`OnlyDiscardDropsMidIssue`), as stopping or deleting a sandbox does. The bundle is
  then stored in a state the map no longer holds, and discarding the sandbox misses its
  channel. `DiscardRetiresIff` gives the exact condition for one discard,
  `AlwaysCoveredIffNeverStrays` for whole runs, and `OneSandboxIsEnough` the shortest run.

## Model

| member | source | states |
|---|---|---|
| ChannelPool.StepKeepsInv | packages/cwsandbox/src/transports/node-grpc/direct-data-plane.ts:92-223 | any acquire, release (also of a failed connection), lease discard or key discard keeps: the lease count is the number of unreleased leases; a closed channel is unleased, not cached and was closed once; what is neither cached nor closed is leased and marked for closing; at most `maxIdleChannels` cached entries are idle; map order is touch order |
| ChannelPool.Run | packages/cwsandbox/src/transports/node-grpc/direct-data-plane.ts:92-223 | the same after every interleaving of such steps, leases being returned in any order, also after their key was given to another entry |
| ChannelPool.EveryChannelIsAccountedFor | packages/cwsandbox/src/transports/node-grpc/direct-data-plane.ts:92-223 | spelled out for every channel ever made, after every run that starts empty: closed at most once; never while leased; open and unmarked while cached; otherwise closed, or leased and marked |
| ChannelPool.LeasedChannelIsOpen | packages/cwsandbox/src/transports/node-grpc/direct-data-plane.ts:124-155 | a channel is never closed under a caller that holds it |
| ChannelPool.NothingLeaks | packages/cwsandbox/src/transports/node-grpc/direct-data-plane.ts:167-200 | once all leases are back, each channel ever made is either cached and open or closed exactly once |
| ChannelPool.MapOrderIsTouchOrder | packages/cwsandbox/src/transports/node-grpc/direct-data-plane.ts:202-205 | of two cached entries the one earlier in the map was touched earlier, and conversely |
| ChannelPool.StaleLeaseIsHarmless | packages/cwsandbox/src/transports/node-grpc/direct-data-plane.ts:167-192 | a lease whose key now belongs to another entry, or to none, changes no entry but its own and leaves the cache as it is |
| ChannelPool.ReleaseEvictsAtMostOne | packages/cwsandbox/src/transports/node-grpc/direct-data-plane.ts:177-223 | a release evicts at most one entry |
| ChannelPool.ReleaseEvictsOldestIdle | packages/cwsandbox/src/transports/node-grpc/direct-data-plane.ts:207-223 | the evicted entry is unleased, and every idle entry that stays cached was touched after it |
| ChannelPool.EvictIsSweep | packages/cwsandbox/src/transports/node-grpc/direct-data-plane.ts:207-223 | the eviction loop, which deletes while it walks, comes to one pass that takes the oldest idle entries in excess of the bound, closes exactly those and touches no lease |
| ChannelPool.DiscardKeysRetires | packages/cwsandbox/src/transports/node-grpc/direct-data-plane.ts:160-175 | discarding cache keys keeps the pool sound and leaves none of them cached |
| PoolLaws.AcquireTakesTheCached | packages/cwsandbox/src/transports/node-grpc/direct-data-plane.ts:100-125 | an acquire takes the channel cached under its key, and makes a new one only if there is none; it adds one lease to it and makes it the latest of the map, and no other channel or lease changes |
| PoolLaws.DiscardingReleaseRetires | packages/cwsandbox/src/transports/node-grpc/direct-data-plane.ts:142-190 | a lease returned with `discard`, as when its connection failed: its channel is in no pair of the map and marked, and is closed once, at once if no other lease holds it and otherwise not yet |
| PoolLaws.PlainReleaseKeeps | packages/cwsandbox/src/transports/node-grpc/direct-data-plane.ts:177-192 | a lease returned without keeps its cached channel open, cached and the latest of the map, unless the pool keeps no idle channel at all |
| PoolLaws.StaleReleaseRetires | packages/cwsandbox/src/transports/node-grpc/direct-data-plane.ts:177-192 | a channel no longer cached is closed with its last lease, however that is returned |
| PoolLaws.EvictsOnlyAboveTheBound | packages/cwsandbox/src/transports/node-grpc/direct-data-plane.ts:207-223 | a release takes another channel out of the map only if as many idle ones as allowed stay cached |
| PoolLaws.LeaseDiscardRetires | packages/cwsandbox/src/transports/node-grpc/direct-data-plane.ts:153-175 | a lease's `discard` takes its channel out of the map, to close with its last lease |
| PoolLaws.KeyDiscardRetires | packages/cwsandbox/src/transports/node-grpc/direct-data-plane.ts:160-175 | so does the discard of its key, which does nothing when the key is not cached |
| DirectChannels.DirectChannelPool.Acquire | packages/cwsandbox/src/transports/node-grpc/direct-data-plane.ts:100-155 | the synchronous part of `acquire` makes the step of that name on the whole state |
| DirectChannels.DirectChannelPool.Release | packages/cwsandbox/src/transports/node-grpc/direct-data-plane.ts:128-134 | a lease releases once; the rest is the step `Release`, eviction included, whose effect with and without `discard` the rows of `PoolLaws` give |
| DirectChannels.DirectChannelPool.DiscardEntry | packages/cwsandbox/src/transports/node-grpc/direct-data-plane.ts:167-175 | marks, uncaches if it is the cached one, closes if idle: the step `DiscardEntry` |
| DirectChannels.DirectChannelPool.DiscardLease | packages/cwsandbox/src/transports/node-grpc/direct-data-plane.ts:153-157 | a lease's own discard retires its entry, cached or not: the step `DiscardEntry` |
| DirectChannels.DirectChannelPool.Discard | packages/cwsandbox/src/transports/node-grpc/direct-data-plane.ts:160-165 | discards the entry cached under a key, if any |
| DirectChannels.DirectChannelPool.EvictIdle | packages/cwsandbox/src/transports/node-grpc/direct-data-plane.ts:207-223 | the loop over the map makes the step `EvictIdle` |
| CredentialCache.StepKeepsInv | packages/cwsandbox/src/transports/node-grpc/direct-data-plane.ts:228-425 | every step keeps: pending slots and unsettled issues are the same thing; state keys are distinct; at most 2048 states are kept or each of them has an issue pending |
| CredentialCache.OneIssueInFlight | packages/cwsandbox/src/transports/node-grpc/direct-data-plane.ts:332-363 | at most one credential issue is in flight per state and permission |
| CredentialCache.CleanupIsOwn | packages/cwsandbox/src/transports/node-grpc/direct-data-plane.ts:355-361 | the cleanup of an issue deletes the slot that holds it, and no other unsettled issue loses its slot, though the map is trimmed |
| CredentialCache.TrimFromIsSweep | packages/cwsandbox/src/transports/node-grpc/direct-data-plane.ts:413-425 | trimming keeps what one pass over the oldest states without a pending issue would keep |
| CredentialCache.SystemStepKeepsInv | packages/cwsandbox/src/transports/node-grpc/direct-data-plane.ts:228-425 | cache and pool together: both invariants survive every step of either, and the channels of retired credentials are uncached at once |
| CredentialCache.Run | packages/cwsandbox/src/transports/node-grpc/direct-data-plane.ts:228-425 | both invariants at every boundary of every interleaving of cache and pool steps |
| CredentialCache.EveryRunIsBounded | packages/cwsandbox/src/transports/node-grpc/direct-data-plane.ts:332-425 | after every run that starts empty no two issues are in flight for one permission of one state, and at most 2048 states are kept or each has an issue pending |
| CacheLaws.IssuesOnlyWhenNeeded | packages/cwsandbox/src/transports/node-grpc/direct-data-plane.ts:332-363 | a request for a credential starts an issue exactly when the state has no bundle for the permission that stays good for 30 s and no issue for it pending |
| CacheLaws.StoreKeepsTheRest | packages/cwsandbox/src/transports/node-grpc/direct-data-plane.ts:347-354 | an issue that succeeds stores its bundle under its permission alone and retires just the key of the one it replaces, if that differs |
| CacheLaws.SettlingFreesTheSlot | packages/cwsandbox/src/transports/node-grpc/direct-data-plane.ts:355-361 | an issue that has settled leaves its slot free for another |
| CacheLaws.KnownStateIsMadeLatest | packages/cwsandbox/src/transports/node-grpc/direct-data-plane.ts:400-411 | `stateFor` a known sandbox returns its state, makes it the latest of the map and changes nothing else |
| CacheLaws.NewStateIsAdded | packages/cwsandbox/src/transports/node-grpc/direct-data-plane.ts:400-411 | a sandbox not known gets a new, empty state, the latest of the map when fewer than 2048 are kept |
| CacheLaws.DiscardTakesOneOut | packages/cwsandbox/src/transports/node-grpc/direct-data-plane.ts:271-280 | discarding a sandbox takes its state, and no other, out of the map |
| ChannelCoverage.DiscardRetiresIff | packages/cwsandbox/src/transports/node-grpc/direct-data-plane.ts:271-280 | discarding a sandbox uncaches a channel exactly when the state that the map holds for that sandbox has its bundle |
| ChannelCoverage.CoveredIff | packages/cwsandbox/src/transports/node-grpc/direct-data-plane.ts:271-280 | every cached channel has a bundle in some state of the map exactly when each has a sandbox whose discard uncaches it |
| ChannelCoverage.StepKeepsCoveredIff | packages/cwsandbox/src/transports/node-grpc/direct-data-plane.ts:228-425 | every step of cache and pool keeps that, except exactly the one that connects with a bundle no state in the map has any more |
| ChannelCoverage.AlwaysCoveredIffNeverStrays | packages/cwsandbox/src/transports/node-grpc/direct-data-plane.ts:228-425 | over whole runs: every channel is within reach of a discard at every moment if and only if no such connection is ever made |
| ChannelCoverage.EveryRunIsCoveredIff | packages/cwsandbox/src/transports/node-grpc/direct-data-plane.ts:228-425 | the same of every run that starts empty |
| DetachedStates.StateIsKeptIff | packages/cwsandbox/src/transports/node-grpc/direct-data-plane.ts:400-425 | a state just added is trimmed at once exactly when 2048 others are kept and each of them has an issue pending |
| DetachedStates.OnlyDiscardDropsMidIssue | packages/cwsandbox/src/transports/node-grpc/direct-data-plane.ts:271-363 | while a credential issue of a state is in flight, exactly discarding its sandbox drops it, at any time |
| DetachedStates.DetachedForGood | packages/cwsandbox/src/transports/node-grpc/direct-data-plane.ts:228-425 | no step brings a state that the map has dropped back into it |
| DetachedStates.DetachedThroughRuns | packages/cwsandbox/src/transports/node-grpc/direct-data-plane.ts:228-425 | nor does any run of cache and pool |
| DetachedStates.StoredBundleIsReachedIff | packages/cwsandbox/src/transports/node-grpc/direct-data-plane.ts:347-354 | a bundle with a new key is within reach of a discard of a sandbox exactly when the map still holds the state it was issued for there |
| DetachedStates.DiscardMissesDetached | packages/cwsandbox/src/transports/node-grpc/direct-data-plane.ts:271-280 | a bundle that only a dropped state has is missed for good: after any run, whatever sandbox is discarded, its channel stays cached |
| DetachedStates.ChannelCanBeStranded | packages/cwsandbox/src/transports/node-grpc/direct-data-plane.ts:271-330 | a run in which the state is dropped at birth, by trimming: the sandbox has a cached channel, and discarding it changes nothing |
| DetachedStates.OneSandboxIsEnough | packages/cwsandbox/src/transports/node-grpc/direct-data-plane.ts:271-354 | and the ordinary one, five steps with one sandbox: it is discarded while its credential is issued, the bundle is stored and connected with all the same, and no discard uncaches that channel |
| DirectDataPlanes.DirectDataPlane.StateFor | packages/cwsandbox/src/transports/node-grpc/direct-data-plane.ts:400-411 | moves a known state to the end or adds one and trims; the state it returns is in the map exactly when the sandbox was known, or there was room, or an older state had no issue pending |
| DirectDataPlanes.DirectDataPlane.EnsureCredential | packages/cwsandbox/src/transports/node-grpc/direct-data-plane.ts:332-352 | returns the cached bundle exactly when it stays good for more than 30 s; otherwise waits for the pending issue, and starts a new one exactly when none is pending |
| DirectDataPlanes.DirectDataPlane.StoreBundle | packages/cwsandbox/src/transports/node-grpc/direct-data-plane.ts:347-354 | stores the bundle and discards the channel of the one it replaces when their keys differ |
| DirectDataPlanes.DirectDataPlane.SettleIssue | packages/cwsandbox/src/transports/node-grpc/direct-data-plane.ts:356-361 | deletes the pending slot and trims |
| DirectDataPlanes.DirectDataPlane.DiscardSandbox | packages/cwsandbox/src/transports/node-grpc/direct-data-plane.ts:271-280 | forgets the sandbox and discards exactly the channels of its credentials |
| DirectDataPlanes.DirectDataPlane.TrimStates | packages/cwsandbox/src/transports/node-grpc/direct-data-plane.ts:413-425 | the trimming loop makes the step `TrimStates`, the pool following key by key |
| DirectAcquire.Dialer.AcquireDirect | packages/cwsandbox/src/transports/node-grpc/direct-data-plane.ts:282-330 | auto mode in a cooldown fails at once and leaves it as it is; otherwise up to twelve tries in direct mode and one in auto mode, each coming to what its credential, its connection, the deadline and the signal, whichever is first, make of it; another try follows exactly UNAVAILABLE in direct mode with time for the next pause; the result is what the last try came to, or the reason of the signal that cut the pause after it; fallback errors surface as one kind and start a cooldown of 30 s, a lease clears it, nothing else touches it |
| DirectAcquire.Dialer.EndsInTime | packages/cwsandbox/src/transports/node-grpc/direct-data-plane.ts:288-330 | a call ends within its budget, and a lease before the end of it; the only fallback error a caller sees is the common one, or the reason of its own signal |
| DirectAcquire.Dialer.Try | packages/cwsandbox/src/transports/node-grpc/direct-data-plane.ts:295-309 | one try: the credential and the permission, then the channel, each waited for no longer than the deadline and the signal allow |
| DirectAcquire.Dialer.Within | packages/cwsandbox/src/transports/node-grpc/direct-data-plane.ts:541-576 | a wait ends with its promise, its deadline or the signal, whichever comes first |
| DirectAcquire.PausesAddUp | packages/cwsandbox/src/transports/node-grpc/direct-data-plane.ts:284-313 | the doubling pauses are one second from the third on, and their sum is known |
| AcquireLaws.TriesFollow | packages/cwsandbox/src/transports/node-grpc/direct-data-plane.ts:288-330 | a try is followed by another exactly when, in direct mode, it came to UNAVAILABLE with time left for the next pause of 200, 400, 800 and then 1000 ms, and nothing but the signal keeps that try from following |
| AcquireLaws.LastTryIsTheResult | packages/cwsandbox/src/transports/node-grpc/direct-data-plane.ts:313-330 | the last try is the result: a lease, which lifts the cooldown; one common error, with a cooldown of 30 s, for exactly the errors that mean no direct channel; any other error as it is |
| AcquireLaws.BudgetIs | packages/cwsandbox/src/transports/node-grpc/direct-data-plane.ts:288-290 | 10 s in direct mode and 1 s in auto mode, or the caller's timeout if that is less |
| AcquireLaws.FallsBackIff | packages/cwsandbox/src/transports/node-grpc/direct-data-plane.ts:534-539 | which errors those are |
| QueueModel.StepKeepsInv | packages/cwsandbox/src/streaming/async-queue.ts:29-138 | every push, wake-up, tryPush, next, close or fail keeps: the buffer is the unserved part of what was accepted and within capacity; waiting calls are exactly the unserved ones in order; each settled call has its own item or the end |
| QueueModel.Run | packages/cwsandbox/src/streaming/async-queue.ts:29-138 | the same after every schedule |
| QueueModel.NthCallGetsNthItem | packages/cwsandbox/src/streaming/async-queue.ts:93-128 | the n-th `next()` gets the n-th accepted item, or the end if the queue closed before that item; until then it waits |
| QueueModel.NothingLostOrReordered | packages/cwsandbox/src/streaming/async-queue.ts:50-128 | delivered items followed by buffered ones are the accepted ones; consumers never wait beside an item; a closed queue has no waiter |
| QueueModel.StepKeepsEnoughUnlessItOvertakes | packages/cwsandbox/src/streaming/async-queue.ts:50-72 | the steps that lose a wake-up are exactly those in which a woken push, with as many woken as there is capacity, hands its item straight to a waiting consumer while another push waits |
| QueueModel.NoStarvationIffRoomForEveryPusher | packages/cwsandbox/src/streaming/async-queue.ts:50-72 | no push is ever left waiting beside a free place, under any schedule, if and only if no more pushes run at once than the capacity |
| QueueModel.ManyPushersCanStarve | packages/cwsandbox/src/streaming/async-queue.ts:108-138 | with one push more than the capacity, the run that loses a wake-up |
| QueueLaws.TheEndReachesEveryCall | packages/cwsandbox/src/streaming/async-queue.ts:29-128 | over every run: each call past the last item gets the error of the first `fail`, or the plain end if the queue was closed first, and waits while neither has come |
| QueueLaws.CloseSettlesAll | packages/cwsandbox/src/streaming/async-queue.ts:29-48 | the first `close` or `fail` settles every waiting call with the end or the error, wakes every waiting push and keeps the buffer; a later one does nothing |
| QueueLaws.NextTakesEndsOrWaits | packages/cwsandbox/src/streaming/async-queue.ts:108-128 | `next()` gets the first buffered item and wakes the first waiting push, or gets the end or the error, or waits |
| QueueLaws.PushTakesOrWaits | packages/cwsandbox/src/streaming/async-queue.ts:50-72 | a push is dropped by a closed queue, waits when the buffer is full, and else goes to the longest-waiting call or to the end of the buffer |
| QueueLaws.ResumeIsPush | packages/cwsandbox/src/streaming/async-queue.ts:55-71 | a push that is woken does as one that starts |
| QueueLaws.TryPushTakesIff | packages/cwsandbox/src/streaming/async-queue.ts:74-91 | `tryPush` succeeds exactly when the queue is open and a call waits or there is room |
| AsyncQueues.AsyncQueue.Push | packages/cwsandbox/src/streaming/async-queue.ts:50-72 | makes the step `Push`, and says when it suspends |
| AsyncQueues.AsyncQueue.Resume | packages/cwsandbox/src/streaming/async-queue.ts:55-71 | a woken push re-checks its condition: the step `Resume` |
| AsyncQueues.AsyncQueue.TryPush | packages/cwsandbox/src/streaming/async-queue.ts:74-91 | makes the step `TryPush` |
| AsyncQueues.AsyncQueue.Next | packages/cwsandbox/src/streaming/async-queue.ts:108-128 | makes the step `Next`: the first buffered item, or, closed and empty, the end or the error it was failed with, or a wait |
| AsyncQueues.AsyncQueue.Close | packages/cwsandbox/src/streaming/async-queue.ts:29-37 | makes the step of that name: each waiting call gets the end, and each waiting push is woken |
| AsyncQueues.AsyncQueue.Fail | packages/cwsandbox/src/streaming/async-queue.ts:39-48 | makes the step of that name: each waiting call gets the error, and each waiting push is woken |
| RetryTransient.RetryTransientRpc | packages/cwsandbox/src/internal/retry-transient-rpc.ts:77-163 | each retry has a timeout from 100 to 15000 ms that ends within min(first failure + budget, deadline); no pause passes that point; tries and pauses alternate, each pause being the hint, or a backoff on the pause before; only retryable failures are retried; the last answer is returned or its error rethrown; it gives up on such a failure only with less than 100 ms left |
| RetryTransient.AtMost150Tries | packages/cwsandbox/src/internal/retry-transient-rpc.ts:77-163 | with the 30 s budget and no server hints there are at most 150 tries |
| RetryTransient.NextSleepMs | packages/cwsandbox/src/internal/retry-transient-rpc.ts:127-141 | the pause is the clamped hint, or jitter between 200 ms and the backoff ceiling, or what is left of the window |
| RetryTransient.Pause | packages/cwsandbox/src/internal/retry-transient-rpc.ts:122-161 | one pause keeps all of the above, and goes round again only with time for another try |
| RetryLaws.TransientFailuresAreRetried | packages/cwsandbox/src/internal/retry-transient-rpc.ts:77-163 | exactly the unavailable, timed-out and exhausted failures that the caller has not ruled out are retried, until less than 100 ms of the window is left |
| RetryLaws.FirstTimeout | packages/cwsandbox/src/internal/retry-transient-rpc.ts:77-100 | the first try has 15 s, or the budget, or the time to the deadline, whichever is least, and 1 ms if there is none |
| RetryLaws.RetryTimeout | packages/cwsandbox/src/internal/retry-transient-rpc.ts:143-161 | a retry has 15 s or what is left of the window, and never less than 100 ms |
| RetryLaws.PauseLength | packages/cwsandbox/src/internal/retry-transient-rpc.ts:127-141 | a pause is what the server asked for, within 10 s and the window, or from 200 ms to half as long again as the one before and 2 s |
| RetryLaws.TriesFollowPauses | packages/cwsandbox/src/internal/retry-transient-rpc.ts:122-161 | the next try starts when the pause is over |
| WaitForSandbox.WaitForSandbox | packages/cwsandbox/src/runtime/wait.ts:79-221 | whatever the server answers, a bounded wait ends by its deadline with every attempt and sleep inside it, after at most one round per 200 ms and two more; each round starts on time and its poll is what a burst of the calls made came to; the pauses back off from 200 ms to 2 s; each result is justified by the last poll, and an abort by the signal; a stop-owned wait never surfaces not-found, and gives up on the terminal state exactly when an unbroken not-found run has lasted 2 s; what is reported is exactly what the polls and the further Gets found, in order, the last once more on a normal return |
| WaitForSandbox.Round | packages/cwsandbox/src/runtime/wait.ts:94-219 | one round: a poll, and then a pause or a justified end |
| WaitForSandbox.AfterStatus | packages/cwsandbox/src/runtime/wait.ts:140-220 | the rest of a round that found a status |
| WaitForSandbox.ReportsAreReal | packages/cwsandbox/src/runtime/wait.ts:140-158 | no status is ever reported as unspecified |
| WaitForSandbox.LastReportSatisfies | packages/cwsandbox/src/runtime/wait.ts:145-163 | the last thing reported before a normal return satisfies the target |
| WaitForSandbox.GetStatusForWait | packages/cwsandbox/src/runtime/wait.ts:345-380 | a poll is one burst of tries inside the deadline, or none when that has passed; its answer is the last reply, but the deadline wins over an error |
| WaitForSandbox.GraceRepoll | packages/cwsandbox/src/runtime/wait.ts:260-323 | at most two more Gets, inside the deadline, each two seconds after the last answer and with two seconds of its own, and why no more; what comes of each; the status never changes |
| WaitForSandbox.Observe | packages/cwsandbox/src/runtime/wait.ts:140-196 | how a status decides the wait, status by status in a table, but for an abort in place of a normal return; what is reported; and that an abort here follows the signal |
| WaitForSandbox.AfterNotFound | packages/cwsandbox/src/runtime/wait.ts:101-138 | the two-second grace window: when it gives up, when it times out, how long it sleeps |
| WaitForSandbox.PauseAfterStatus | packages/cwsandbox/src/runtime/wait.ts:198-220 | the pause is the interval, capped during startup and by the deadline |
| WaitLaws.TheFirstDecisionEndsTheWait | packages/cwsandbox/src/runtime/wait.ts:94-220 | no poll before the last found a status that decides the wait; a last poll that did makes the result: for a wait for running, a normal return on running, paused, completed or unspecified, and errors of their own on failed and terminated; for any other target, the target, and errors on the other terminal statuses |
| WaitLaws.ExitCodeIsAskedFor | packages/cwsandbox/src/runtime/wait.ts:260-323 | before a normal return on a completed sandbox without an exit code, and not for a stop, Gets ask for the code until one has it or fails, two were made or time is up; otherwise none is made |
| WaitLaws.NotFoundHasTwoSeconds | packages/cwsandbox/src/runtime/wait.ts:101-138 | a stop-owned wait goes on after a not-found answer only within two seconds of the first of an unbroken run of them, and then pauses for the interval, but no longer than to the end of those two seconds and to the deadline |
| WaitLaws.PollResultIs | packages/cwsandbox/src/runtime/wait.ts:345-380 | no poll is made past the deadline; a poll comes to what its burst did, but an error that comes after the deadline becomes the timeout |
| WaitLaws.PauseAfterStatusIs | packages/cwsandbox/src/runtime/wait.ts:198-220 | the pause after a status, in milliseconds: the interval, at most 500 in the first 15000 of a start that is pending or creating, and never past the deadline |
| WaitLaws.Intervals | packages/cwsandbox/src/runtime/wait.ts:240-242 | the intervals are 200, 300, 450, 675, 1012.5 and 1518.75 ms, and 2 s from then on |
| NetworkCodec.ValidateNetworkOptions | packages/cwsandbox/src/internal/network.ts:28-37 | accepts exactly the valid documents and otherwise names the first fault |
| NetworkCodec.ReadUndoesWrite | packages/cwsandbox/src/transports/node-grpc/mappers.ts:484-616 | every document that validation accepts is stored so that it reads back in canonical form with nothing unsupported |
| NetworkCodec.EgressRoundTrip | packages/cwsandbox/src/transports/node-grpc/mappers.ts:1320-1359 | the same for one egress rule |
| NetworkCodec.IngressRoundTrip | packages/cwsandbox/src/transports/node-grpc/mappers.ts:1362-1377 | the same for one ingress rule |
| NetworkCodec.PortsRoundTrip | packages/cwsandbox/src/transports/node-grpc/mappers.ts:529-539 | the same for a list of ports |
| NetworkCodec.CanonicalIsIdempotent | packages/cwsandbox/src/transports/node-grpc/mappers.ts:1263-1297 | canonical documents are valid, their own canonical form, and read back alike |
| NetworkCodec.ToSdkConfigRules | packages/cwsandbox/src/transports/node-grpc/mappers.ts:1300-1313 | every rule mapped, or nothing when any cannot be shown |
| NetworkCodec.ToSdkNetworkConfig | packages/cwsandbox/src/transports/node-grpc/mappers.ts:1263-1297 | the document shown, and the lists that cannot be |
| DnsNames.NormalizeIsIdempotent | packages/cwsandbox/src/internal/network.ts:61-77 | an accepted hostname is in the form it is accepted in |
| DnsNames.OneLeftmostWildcard | packages/cwsandbox/src/internal/network.ts:290-302 | an accepted hostname has a star only as its whole first label, with more labels after it |
| NameLaws.NormalizesIff | packages/cwsandbox/src/internal/network.ts:61-77 | a hostname is accepted exactly when, trimmed and in lower case, it has at most 253 characters and is a name of letters, digits, inner hyphens and dots between letters or digits, or a star and a dot before one |
| NameLaws.SubdomainIff | packages/cwsandbox/src/internal/network.ts:24-26 | the same without the wildcard, without taking the name apart into labels |
| NameLaws.TrimIs | packages/cwsandbox/src/internal/network.ts:62-62 | trimming takes the white space off both ends, and no more |
| NameLaws.EgressIsAcceptedIff | packages/cwsandbox/src/internal/network.ts:112-166 | an egress rule is accepted exactly when it names one destination, its hostname or blocks are in order, its ports are in range, and a hostname has only TCP on 443 |
| NameLaws.IngressIsAcceptedIff | packages/cwsandbox/src/internal/network.ts:198-219 | the same of ingress |
| NameLaws.NetworkIsAcceptedIff | packages/cwsandbox/src/internal/network.ts:28-37 | a document is accepted exactly when its rules are and no egress rules stand beside denied egress |
| NetworkUpdate.PinnedUpdateIsSafe | packages/cwsandbox/src/runtime/network-config.ts:146-193 | an update pinned to an etag never removes a stored rule the SDK cannot represent, whatever others write before its read and before its write, also when its answer is lost |
| NetworkUpdate.SafeIffPinned | packages/cwsandbox/src/runtime/network-config.ts:162-192 | and only such an update: rules are safe beside every other writer exactly when reads carry etags or the caller gave one issued before the call, unless the update never reaches the server |
| NetworkUpdate.UnpinnedUpdateLosesRules | packages/cwsandbox/src/runtime/network-config.ts:180-189 | the writes of others that lose a rule otherwise |
| NetworkUpdate.OnlyMaskedFieldsChange | packages/cwsandbox/src/runtime/network-config.ts:183-192 | whatever is written is the masked fields as given; the others stay, and an empty mask writes nothing; `WrittenFieldsAre` says it field by field |
| NetworkUpdate.DefaultMaskIsTheSetFields | packages/cwsandbox/src/runtime/network-config.ts:213-231 | without a mask, exactly the fields set on the document are written |
| NetworkUpdate.WrittenListReadsBack | packages/cwsandbox/src/runtime/network-config.ts:183-192 | a rule list that was written reads back in canonical form and is not reported unsupported |
| NetworkLaws.BlockedIff | packages/cwsandbox/src/runtime/network-config.ts:162-181 | an update whose read succeeds is refused exactly for the first list, egress before ingress, that it writes and that has a rule the SDK cannot show; a list it leaves alone never stops it |
| NetworkLaws.SentCallsEnd | packages/cwsandbox/src/runtime/network-config.ts:162-192 | a call that sends its write ends as the write does: stale exactly when the caller's etag, or without one the etag read for a rule list, is no longer current |
| NetworkLaws.UnsentCallsEnd | packages/cwsandbox/src/runtime/network-config.ts:150-192 | the calls that send nothing, and why: nothing named, no time left, the read failed, or a refusal |
| NetworkLaws.WrittenFieldsAre | packages/cwsandbox/src/runtime/network-config.ts:183-192 | field by field: a named flag is stored as given or cleared to false, a named mode as given or unset, and whatever is not named stays |
| NetworkLaws.EgressIsHiddenIff | packages/cwsandbox/src/transports/node-grpc/mappers.ts:1320-1359 | the egress rules that cannot be shown: an unknown or absent destination, an empty hostname, one with exceptions or with ports other than HTTPS, an unknown tenant, `any` unset, a selector without pod labels |
| NetworkLaws.IngressIsHiddenIff | packages/cwsandbox/src/transports/node-grpc/mappers.ts:1362-1377 | the ingress rules that cannot be shown: an unknown or absent source, an unknown tenant, `any` unset |
| NetworkLaws.UnsupportedIff | packages/cwsandbox/src/transports/node-grpc/mappers.ts:1263-1313 | a list is reported unsupported exactly when it has such a rule, and then none of it is shown |
| NetworkLaws.ShownEgressIs | packages/cwsandbox/src/transports/node-grpc/mappers.ts:1320-1359 | a rule that is shown says what is stored, part by part |
| NetworkLaws.ShownIngressIs | packages/cwsandbox/src/transports/node-grpc/mappers.ts:1362-1377 | the same of ingress |
| NetworkLaws.ReadShowsTheRest | packages/cwsandbox/src/transports/node-grpc/mappers.ts:1263-1297 | the flags as stored, and a list that can be shown rule for rule |
| NetworkLaws.CanonicalKeepsFields | packages/cwsandbox/src/transports/node-grpc/mappers.ts:484-616 | the canonical form differs from the document only in a hostname's spelling and ports and in defaults spelled out |
| NetworkUpdate.UniqueKeeps | packages/cwsandbox/src/transports/node-grpc/mappers.ts:1257-1259 | the request names the fields of the mask |
| NetworkUpdate.UniqueIsUnique | packages/cwsandbox/src/transports/node-grpc/mappers.ts:1257-1259 | each of them once |
| NetworkConfigClients.UpdateNetworkConfigRecord | packages/cwsandbox/src/runtime/network-config.ts:146-193 | the call, against a server others write to and a network that may fail the read, drop the write or lose its answer, comes to the function `Call`, is refused exactly as `BlockedIff` says, and changes the store only when the server wrote |
| WebSocketFrames.ParseUndoesEncode | e2e/scripts/websocket-echo.js:32-66 | reading gives back any frame, in any of the three length forms, masked or not, and leaves the bytes after it |
| WebSocketFrames.StrictPrefixIsIncomplete | e2e/scripts/websocket-echo.js:33-56 | of a frame that has not fully arrived nothing is read |
| WebSocketFrames.ParseIsSound | e2e/scripts/websocket-echo.js:32-66 | a frame that is read is one that was written: its encoding and the rest are the buffer |
| WebSocketFrames.ParseExtends | e2e/scripts/websocket-echo.js:32-66 | more bytes do not change a frame that is complete |
| WebSocketFrames.UnmaskingUndoesMasking | e2e/scripts/websocket-echo.js:60-64 | masking twice is masking not at all |
| WebSocketEcho.WriteFrame | e2e/scripts/websocket-echo.js:11-30 | sends the final, unmasked encoding in the shortest length form |
| WebSocketEcho.TryReadFrame | e2e/scripts/websocket-echo.js:32-66 | the bit operations and the in-place loop compute the specified parse |
| WebSocketEcho.RepliesAppend | e2e/scripts/websocket-echo.js:68-92 | bytes that arrive later are answered after, wherever the split was; after a close nothing more is sent |
| WebSocketEcho.EveryFrameIsAnswered | e2e/scripts/websocket-echo.js:78-89 | a client that sends whole frames gets the right answer to each, in order, up to its close |
| WebSocketLaws.FrameIsAnswered | e2e/scripts/websocket-echo.js:72-89 | in bytes: a ping is ponged and a text or binary message sent back with its payload, a close is answered and ends the connection, any other frame is ignored |
| WebSocketLaws.PlainBytesAre | e2e/scripts/websocket-echo.js:11-30 | the bytes sent: 0x80 and the opcode, the length in one byte, or 126 and two, or 127 and eight, and the payload |
| WebSocketLaws.MaskedBytesAre | e2e/scripts/websocket-echo.js:33-64 | the bytes of a client's frame: the mask bit, the length, the mask, and each byte of the payload with its turn of the mask |
| WebSocketLaws.XorIsBitwise | e2e/scripts/websocket-echo.js:60-64 | a byte is masked bit by bit |
| WebSocketEcho.Echo.OnData | e2e/scripts/websocket-echo.js:70-91 | after any sequence of data events what was sent is a function of the bytes received alone |
| LogLines.ChunkingIsInvisibleIffLinesAreShort | packages/cwsandbox/src/streaming/log-stream.ts:184-220 | a reader gets the same lines however the text was cut into chunks, if and only if no line gathers 64 KiB before the last character of the text |
| LogLines.ChunksDoNotMatter | packages/cwsandbox/src/streaming/log-stream.ts:184-210 | with such lines, feeding in chunks is feeding at once |
| LogLines.CutShows | packages/cwsandbox/src/streaming/log-stream.ts:205-209 | otherwise, two ways to cut the text that a reader can tell apart |
| LogLines.NothingIsLost | packages/cwsandbox/src/streaming/log-stream.ts:184-210 | what was emitted followed by what is kept is the text; what is kept has no newline and is under 64 KiB |
| LogLines.DeliveredIsTheText | packages/cwsandbox/src/streaming/log-stream.ts:184-220 | after the end, everything was delivered, in order |
| LogLaws.LinesAreWhole | packages/cwsandbox/src/streaming/log-stream.ts:184-210 | what is released before the end is a line with its newline, or at least 64 KiB without one |
| LogLaws.Utf8IsTheEncodedLength | packages/cwsandbox/src/streaming/log-stream.ts:184-206 | the size of a text is the number of bytes that section 3 of RFC 3629 gives it |
| LogLines.SplitIsCut | packages/cwsandbox/src/streaming/log-stream.ts:194-202 | `split` and the loop cut where the specification cuts |
| LogStreams.LogStream.HandleLineData | packages/cwsandbox/src/streaming/log-stream.ts:184-210 | one chunk releases the lines specified and keeps the tail specified |
| LogLaws.ItemsAre | packages/cwsandbox/src/streaming/log-stream.ts:170-230 | a chunk is handed over as it is, or its lines as lines, or as entries with its metadata |
| LogLaws.LastItemIs | packages/cwsandbox/src/streaming/log-stream.ts:212-230 | and so is a last line without a newline |
| LogStreams.LogStream.Dispatch | packages/cwsandbox/src/streaming/log-stream.ts:145-164 | over a run of events, readers have what the chunks received amount to, each entry with the metadata of the chunk that completed it; nothing but an error gets through after the end |
| LogStreams.LogStream.Finish | packages/cwsandbox/src/streaming/log-stream.ts:115-155 | the end of a stream, or of `close` once its controls are done, hands over the last unterminated line, unless an error came first |
| LogStreams.LogStream.EndCancel | packages/cwsandbox/src/streaming/log-stream.ts:94-113 | cancelling ends the queue once the controls are done, unless an error came first; what was in the buffer is dropped |
| LogStreams.LogStream.BeginCancel | packages/cwsandbox/src/streaming/log-stream.ts:94-111 | from its start no data or end gets through, only an error |
| LogStreams.LogStream.BeginClose | packages/cwsandbox/src/streaming/log-stream.ts:115-128 | the same of `close` |
| ShellCommands.ShellReadsTheCommand | packages/cwsandbox/src/internal/commands.ts:8-14 | for every directory and command, the rendered line reads by the token rules of a POSIX shell as the words `cd` and the directory, `&&`, the word `exec` and the words of the command, unchanged; without a directory the command is passed on |
| ShellCommands.QuotedScans | packages/cwsandbox/src/internal/commands.ts:30-32 | a quoted value adds exactly itself to the word being read |
| ShellCommands.RenderingIsInjective | packages/cwsandbox/src/internal/commands.ts:8-32 | no two directories or commands are rendered alike |
| WorkerPool.RunKeepsInv | packages/cwsandbox/src/internal/map-concurrency.ts:23-32 | after every interleaving of workers, the k-th mapper call was for item k, each call is with its worker or its value is stored at its index |
| WorkerPool.StoppedRunIsComplete | packages/cwsandbox/src/internal/map-concurrency.ts:23-35 | when all workers have stopped, either a call was rejected or the results are the mapper's values in input order, and which is decided by the calls alone |
| WorkerPool.BoundedConcurrency | packages/cwsandbox/src/internal/map-concurrency.ts:18-23 | no more calls are in flight than were allowed, whatever the number given: one when it is below one or not finite |
| WorkerPool.FullConcurrency | packages/cwsandbox/src/internal/map-concurrency.ts:18-35 | and that many do get in flight: the number given, rounded down, or one for each item if that is less |
| MapConcurrency.StepsRunOut | packages/cwsandbox/src/internal/map-concurrency.ts:23-32 | every step brings the end nearer, so no schedule goes on for ever |
| MapConcurrency.MapWithConcurrency | packages/cwsandbox/src/internal/map-concurrency.ts:9-36 | under every scheduler resolves to the mapper's values in input order just when no call is rejected, and otherwise rejects with the first rejection as soon as it comes |
| ServiceAddresses.KeyIsInjective | packages/cwsandbox/src/sandbox.ts:590-592 | two services share a key exactly when they share a port and a name, an absent name being the empty one |
| ServiceAddresses.MergeIsExact | packages/cwsandbox/src/sandbox.ts:594-642 | a merge has no key twice and exactly those that came in, or came earlier and are still exposed, each with the address that came last |
| ServiceAddresses.MergeIsInOrder | packages/cwsandbox/src/sandbox.ts:610-642 | exposed ports first and in their order, then what else came in, in its order |
| ServiceAddresses.SameServiceIff | packages/cwsandbox/src/sandbox.ts:590-592 | addresses, and an address and a port, go together exactly when port and name agree |
| ServiceAddresses.MergeIsUnique | packages/cwsandbox/src/sandbox.ts:594-642 | with distinct keys in, the order of the exposed ports and the preference for what came in leave one merge |
| SandboxHandles.MergeServiceAddresses | packages/cwsandbox/src/sandbox.ts:594-642 | computes that merge, or nothing when the status does not keep addresses or none is known |
| SandboxHandles.SandboxHandle.UpdateMetadata | packages/cwsandbox/src/sandbox.ts:426-461 | after any response addresses are shown only while creating or running, and how they, the status, the exposed ports and the startup mark follow from it |
| ByteStreams.OutputAccumulator.Append | packages/cwsandbox/src/streaming/command-process.ts:82-95 | the chunks kept are the first bytes produced up to the limit; truncation is reported exactly when more were produced or an empty chunk came last at the limit |
| ByteStreams.TruncationIsReportedRightlyIff | packages/cwsandbox/src/streaming/command-process.ts:82-95 | truncation is reported just when bytes were lost, unless exactly the limit was produced and the last chunk was empty |
| ByteStreams.AppendNothing | packages/cwsandbox/src/streaming/command-process.ts:82-95 | a full accumulator given an empty chunk reports a truncation and has lost nothing |
| ByteStreams.OutputAccumulator.BytesValue | packages/cwsandbox/src/streaming/command-process.ts:101-111 | copies them into one buffer |
| ByteStreams.SplitFileChunk | packages/cwsandbox/src/transports/node-grpc/file-adapter.ts:699-703 | non-empty pieces of 64 KiB but the last, which together are the chunk |
| ByteStreams.IterateFileChunks | packages/cwsandbox/src/transports/node-grpc/file-adapter.ts:676-697 | the pieces of all chunks together are the source |
| ByteStreams.ReadViaSingleStreamExec | packages/cwsandbox/src/runtime/file-transfer.ts:138-203 | the whole file, or the exact error: over the ceiling, shorter than expected, or failed |
| ByteStreams.OneEnd | packages/cwsandbox/src/runtime/file-transfer.ts:138-203 | these ends exclude one another, and the ceiling error means exactly that the stream is over 256 MiB |
| ByteStreams.WriteThenRead | packages/cwsandbox/src/runtime/file-transfer.ts:138-203 | what was split for writing reads back as it was, up to the ceiling |
| HintedRetry.RetryHintedUnavailable | packages/cwsandbox/src/transports/node-grpc/retry-hinted-unavailable.ts:100-146 | at most `maxAttempts` calls, each answered as the server does; another follows only a hinted failure, after a pause for the delay asked for (at most 10 s), stretched by at most a fifth, and with at least 5 s left, which is its timeout; the first has the caller's timeout; the last answer is returned unless the signal fires; when it gives up, and why |
| HintedRetry.Jittered | packages/cwsandbox/src/transports/node-grpc/retry-hinted-unavailable.ts:121-121 | the delay is stretched by at most a fifth, never shortened |
| FileLaws.HintedFailuresAreRetried | packages/cwsandbox/src/transports/node-grpc/retry-hinted-unavailable.ts:100-146 | a failure is retried exactly when it is of the kind retried (UNAVAILABLE, or exhausted for overload) and asks for a delay of at most 10 s, unless the calls have run out, the time left does not hold the delay and 5 s more, or the signal fires |
| FileRetry.AcquireFileLease | packages/cwsandbox/src/transports/node-grpc/direct-data-plane.ts:236-269 | a lease exactly when the data plane connects; its refusal is the error; no access means the gateway in auto mode and an error in direct mode; gateway mode asks nothing |
| FileRetry.WithRetiringFileRetry | packages/cwsandbox/src/transports/node-grpc/file-adapter.ts:234-293 | the attempts, the gateway's turn and the answer follow from what the data plane and the servers say: each attempt is refused, or makes its calls through its lease or else the gateway, retried as hinted; a second attempt follows exactly a first whose shard was retiring; the gateway takes over exactly when an auto-mode attempt stayed overloaded and at least a second is left, with that as its timeout; the result is the last answer; the trace is that of these attempts, and the unreachable error is not reached |
| FileRetry.EveryCallIsBalanced | packages/cwsandbox/src/transports/node-grpc/file-adapter.ts:234-293 | of every such call: each lease is released once, on every path, discarded just when its channel was unavailable; direct mode never calls the gateway and gateway mode has no lease; a read makes at most 9 calls and a write at most 7 |
| FileRetry.AttemptBalances | packages/cwsandbox/src/transports/node-grpc/file-adapter.ts:247-278 | the same of one attempt |
| FileLaws.SecondAttemptIff | packages/cwsandbox/src/transports/node-grpc/file-adapter.ts:247-293 | a second attempt is made exactly when the first had a lease and failed because its shard was retiring |
| FileLaws.GatewayFollowsIff | packages/cwsandbox/src/transports/node-grpc/file-adapter.ts:234-293 | the gateway takes over exactly in auto mode, after a last attempt with a lease that failed for overload, with at least 1 s of the caller's time left |
| FileLaws.TraceOfAnAttempt | packages/cwsandbox/src/transports/node-grpc/file-adapter.ts:247-278 | what an attempt leaves: its lease acquired, its calls through it, and its release, discarded exactly when the answer was UNAVAILABLE; without a lease, calls to the gateway |
| FileLaws.CallsOfAnAttempt | packages/cwsandbox/src/transports/node-grpc/file-adapter.ts:247-278 | through a lease up to three calls, for overload; through the gateway one for a write, and up to three for a read, less the attempts before |
| FileRetry.EveryLeaseIsReleasedOnce | packages/cwsandbox/src/transports/node-grpc/file-adapter.ts:248-277 | what a balanced trace says of each lease |
| FileRetry.NoLeaseTwice | packages/cwsandbox/src/transports/node-grpc/file-adapter.ts:234-293 | in a call no lease is acquired twice, and each that is acquired is released once |
| LeaseTraffic.TrafficRuns | packages/cwsandbox/src/transports/node-grpc/direct-data-plane.ts:92-223 | any interleaving of callers that each keep to one lease at a time, of failed connections and of retired keys is a run of the pool, and the leases out at its end are those that callers hold |
| LeaseTraffic.QuietTrafficLeaksNothing | packages/cwsandbox/src/transports/node-grpc/direct-data-plane.ts:92-223 | once balanced calls have ended, however they were interleaved, every channel they made is cached and open or was closed exactly once, and the idle bound holds |
| LeaseTraffic.FileCallsLeakNothing | packages/cwsandbox/src/transports/node-grpc/file-adapter.ts:234-293 | so it is after any number of unary file calls at once, whatever the data plane and the servers answered them |
| LeaseTraffic.HangUpRetires | packages/cwsandbox/src/transports/node-grpc/direct-data-plane.ts:142-155 | in any such traffic, a connection that fails leaves its channel out of the map, marked, and closed once if nobody else holds it |
| FileRetry.Attempt | packages/cwsandbox/src/transports/node-grpc/file-adapter.ts:247-278 | one attempt, from what the data plane said to the release, and the trace it leaves |
| FileRetry.SelectedReadStream | packages/cwsandbox/src/transports/node-grpc/file-adapter.ts:171-212 | what the reader got is what the last run delivered, up to where the reader stopped, and an earlier one delivered nothing; a second run is attempted exactly when the first was direct, delivered nothing and its shard was retiring; whether a run is made, and through what, follows from what the data plane says |
| FileLaws.SecondStreamIff | packages/cwsandbox/src/transports/node-grpc/file-adapter.ts:171-212 | a streamed read is begun again exactly when its first lease delivered nothing and found its shard retiring |
| FileRetry.EveryStreamIsBalanced | packages/cwsandbox/src/transports/node-grpc/file-adapter.ts:171-212 | leases are balanced, also when the reader stops early, and direct mode never reads through the gateway |

## Left out

- gRPC, TLS, certificates, key generation and channel readiness: a connection or a
  credential request simply succeeds or fails.
- Parsing of status details and the mapping to error classes: their outcome (code, trusted
  reason, retry delay) is an input.
- UTF-8: log chunks are text already decoded, so characters split across chunks and byte
  order marks are not modelled; nor is `close()` racing a dispatch that is blocked on a
  full queue.
- Pagination (`iterateListPages`, `listNetworkConfigRecords`) and `retryCreateCapacity`:
  the first is one loop over page tokens, the second has the shape of the two retry loops
  that are modelled.
- WebSocket fragmentation, FIN handling, the HTTP upgrade, and the rounding of lengths
  above 2^53.
- Service validation, and the checks that only tell a wrong JavaScript type from a right
  one: the types of the model rule those values out.
- Lower-casing outside ASCII is modelled only as far as it can lead to an accepted
  hostname.
- The abort signal is a time after which waits end with an error; listeners and their
  removal are not modelled, nor an abort that ends a call to the server early.
- `selectedWriteStream`, the fallback from unary file calls to streams, and the size check
  before a streamed read: straight-line code around the modelled parts. One run of a read
  stream counts as one call.
- The terminal session and the command process around `OutputAccumulator`.
- WaitForSandbox.WaitForSandbox: an unbounded wait need not end, so the model cuts it off
  after an arbitrary number of rounds, and says so in its result.
- DirectAcquire.Dialer.AcquireDirect: does not join what its tries do to the caches, which
  `CredentialCache` and `ChannelPool` state for every order of such steps.
- FileRetry.WithRetiringFileRetry: claims no bound in time, as each direct attempt gets the
  caller's whole timeout again.
- ServiceAddresses.MergeIsUnique: asks for distinct keys; with a key twice in one list the
  original takes the first or the last entry, depending on the loop.
- WebSocketEcho.Echo.OnData: writes after the socket has ended are lost, where the original
  also raises an error event.
