# A verified model of the Resilix Go SDK

This project models the parts of the Resilix Go SDK that carry state and proves what
they promise:

* **The distributed lock** (`lock/redlock.go`). N nodes with clocks of their own, any
  number of Acquire, Extend and Release calls, one step per `Eval`, lost requests and
  lost replies. Two tokens are never inside a validity window for the same key at the
  same instant.
* **The resilience stack** (`breaker`, `retry`, `backoff`). The breaker is a function of
  the history of timed events; any number of concurrent `Do` calls share it.
* **The client's life cycle** (`client.go`). `execute` and `Close` over one read/write
  lock, the closed flag and the inflight slots, with the executor's steps inside.
* **The in-memory backend and the layer over it** (`resilixtest/mock.go`,
  `services.go`, `keybuilder`). Lazy expiry, sorted sets, index ranges, bulk batches,
  cursor scans, key joining.

## How it is put together

| file | content |
|---|---|
| `RedlockNode.dfy` | node, scripts, window and drift arithmetic |
| `RedlockProtocol.dfy` | the lock as a log of interleaved actions |
| `RedlockSafety.dfy`, `RedlockRuns.dfy` | what all runs keep |
| `RedlockLocker.dfy` | the Locker's loops, refining the protocol |
| `RedlockProgress.dfy` | when the lock's calls must succeed |
| `RedlockExtend.dfy` | what a nil result of Extend is worth |
| `BreakerHistory.dfy`, `Breaker.dfy` | the breaker as counts over its history; the mutable class |
| `ExecutorProtocol.dfy`, `HalfOpenTrap.dfy`, `RetryBudget.dfy` | concurrent `Do` calls; two consequences |
| `Backoff.dfy` | delays |
| `ClientProtocol.dfy`, `ClientRuntime.dfy` | `execute` and `Close` as a log of interleaved actions; the code, refining it |
| `KvSpec.dfy`, `Strings.dfy`, `Ranges.dfy`, `ZSets.dfy` | abstract stores, listings, ranges and sorted sets |
| `KvLaws.dfy` | what writes make later reads say, in terms of answers only |
| `ExpirePass.dfy` | one pass of Expire commands: what it leaves, answers and counts |
| `MockBackend.dfy`, `Services.dfy`, `KeyBuilder.dfy` | the code over them |
| `Wrappers.dfy`, `Durations.dfy` | Option and Result; units of time |

Concurrent code appears twice. A *protocol* module gives a state, the atomic actions and
`Exec`, which replays a log of actions; a run is a log that `Exec` accepts, and the
safety results speak of every such log. A *class* then carries the source's loops and
branches; before each of its steps a method `Interfere` lets everybody else take any
number of steps, and the object invariant says that the object is where its log of
actions leads. So the results about all runs are results about the code.

## What is assumed

* Lock tokens are unique, nodes distinct, and an `Eval` takes effect, if at all, before
  it returns. Client clocks agree. A node clock never runs backwards and gains at most
  one part in 99 on real time; a clock 1% fast is a special case
  (`RedlockNode.OnePercentIsAllowed`). A key is taken to be gone as soon as the node's
  reading in milliseconds reaches its deadline, the earliest a node could drop it.
* Whoever holds a lock token has one call in progress with it at a time. Calls with a
  token that was not drawn for the key are modelled and shown to be refused.
* The breaker reads a clock that does not run backwards. MaxAttempts, the threshold, the
  timeout and the slot limits are positive, as `New` and `Normalize` make them.
* An operation of the in-memory backend happens at one instant. During a bulk call or a
  client Scan the clock stands still and nobody else uses the backend; the client may
  turn a request away, repeat one that failed, or give up.
* Integers do not overflow; delays are computed in exact reals and truncated as in the
  source.

## Where the code differs from what is said about it

* The comment beside the clock drift factor says 10%; the constant is 0.01. The
  allowance it gives is enough for every ttl exactly when node clocks run at no more
  than 100/99 of real time (`RedlockNode.DriftIsEnoughExactlyWhen`).
* The configured maximum delay caps neither the first delay nor the jitter, which is added
  after the cap. Before jitter no delay exceeds it exactly when the base delay does not
  (`Backoff.CapNeedsBaseBelowMax`). What `Duration` returns never exceeds it exactly when,
  besides, there is no jitter or the longest delay with the largest jitter is at most one
  nanosecond above it (`Backoff.CapHoldsIff`). The default jitter of 0.2 with the default
  maximum of 750ms breaks this: `Backoff.JitterPassesTheCap` is a delay of 870ms.
* A `Do` call that leaves on its context records nothing, and only a record frees
  half-open slots. When all slots of a half-open episode were taken by calls that left
  this way and none is in flight, the breaker never lets a request through again
  (`ExecutorProtocol.ForeverClosedToTrafficIffTrapped`). This state can be reached
  exactly when MaxAttempts is at least 2 and the classifier calls some error retryable
  (`HalfOpenTrap.TrapReachableIffRetries`).
* `Bulk.Expire` counts every command that came back without an error, whether or not it
  renewed anything. The total is the number of renewals exactly when all keys whose
  commands met no injected error are alive and, for a negative ttl, distinct
  (`ExpirePass.CountsRenewalsIff`). A missing key is counted
  (`ExpirePass.MissingKeyIsCounted`), and so is a live key that a negative ttl ended one
  command earlier (`ExpirePass.EndedKeyIsCountedTwice`).
* `Extend` looks neither at its ttl nor at the time that passed. When it returns nil, the
  caller is inside a window exactly if now < start + ttl - drift, start being the instant
  of the call (`RedlockLocker.Locker.Extend`). With a ttl under a millisecond nil means
  that a majority deleted the key, and the lock is lost
  (`RedlockExtend.ShortNilLosesTheMajority` for every run, on any cluster;
  `RedlockExtend.ShortExtendLosesTheLock` for a run in which it happens); with any ttl nil
  may come after the window has passed (`RedlockExtend.LateExtendMissesItsWindow`).

## Model

| member | source | states |
|---|---|---|
| RedlockNode.ScriptFrame | sdk/go/lock/redlock.go:156-196 | no script touches another key or a live entry of another token; deletes and renewals touch no entry of another token at all |
| RedlockNode.FreshDeadlineCovers | sdk/go/lock/redlock.go:163-171 | a key written at or after start, with the ttl cut to milliseconds, outlives start + ttl - drift on an allowed clock |
| RedlockNode.SetCovers | sdk/go/lock/redlock.go:163-171 | a SET answered with 1 makes the node hold the key through the whole window |
| RedlockNode.ExtendCovers | sdk/go/lock/redlock.go:198-206 | a renewal answered with 1 covers the new window, and no renewal shortens the earlier of the two windows |
| RedlockNode.CoversTick | sdk/go/lock/redlock.go:216-218 | coverage survives the passing of time, at any allowed clock speed |
| RedlockNode.DriftIsEnoughExactlyWhen | sdk/go/lock/redlock.go:28-29 | the allowance suffices for every ttl if and only if node clocks run at no more than 100/99 of real time |
| RedlockNode.WindowInNumbers | sdk/go/lock/redlock.go:87-88 | the window is open exactly while less than 99 hundredths of the ttl, less two milliseconds, have gone by |
| RedlockNode.DriftInNumbers | sdk/go/lock/redlock.go:216-218 | the allowance is a hundredth of the ttl, rounded down, and two milliseconds |
| RedlockNode.AllowanceIsTight | sdk/go/lock/redlock.go:216-218 | for every ttl from a millisecond on, on some allowed clock a free node that answers the SET drops the key within 1.02 milliseconds of the window's end |
| RedlockSafety.QuorumsMeet | sdk/go/lock/redlock.go:54-65 | two majorities share a node, for every number of nodes |
| RedlockSafety.InvStep | sdk/go/lock/redlock.go:76-206 | every step of every caller keeps the protocol's invariant |
| RedlockSafety.MutualExclusion | sdk/go/lock/redlock.go:76-129 | in every run two tokens inside a validity window for one key are the same token |
| RedlockSafety.WinnerKeepsMajority | sdk/go/lock/redlock.go:83-90 | at every instant of its window a token has a live entry on more than half of the nodes |
| RedlockSafety.FailureLeavesNoTrace | sdk/go/lock/redlock.go:92-103 | after ErrNotAcquired or a context exit, if the deletes of the last rollback arrived, no node holds the token under any key |
| RedlockRuns.PassesAndWaits | sdk/go/lock/redlock.go:82-103 | at most `retries` passes and one wait less; ErrNotAcquired only after all of them |
| RedlockRuns.ForeignEntriesUntouched | sdk/go/lock/redlock.go:173-206 | any sequence of others' Release, Extend and rollback steps, interleaved with steps about other keys and with time passing, leaves every entry of a token as it was, live or not |
| RedlockRuns.LiveForeignEntriesUntouched | sdk/go/lock/redlock.go:154-171 | whatever others do, acquiring included, and however time passes, an entry that has not reached its deadline is changed only by its own token's steps |
| RedlockRuns.CountsAreReal | sdk/go/lock/redlock.go:118-206 | in every run, whatever was lost, no loop's count exceeds the number of nodes on which its scripts really gained, renewed or deleted the key, as was asked |
| RedlockProgress.FreeNodesAreWon | sdk/go/lock/redlock.go:82-90 | a quorum of free nodes is enough: if the Evals sent to them work, nobody else acquires the key there and the pass takes less than 0.99 ttl - 2ms, the first pass wins, whatever happens on the other nodes |
| RedlockProgress.HolderExtends | sdk/go/lock/redlock.go:116-129 | Extend renews the lock if the caller still owns it: if a quorum of nodes holds the key, the Evals sent to them work, and the loop is over before they lose it, it counts a quorum and gives the new window, open if less than 0.99 ttl - 2ms have gone by, whatever others do |
| RedlockProgress.HolderReleases | sdk/go/lock/redlock.go:106-114 | likewise Release counts a quorum |
| RedlockProgress.BackersHold | sdk/go/lock/redlock.go:83-90 | in every run a token inside its window has such a quorum until the window ends |
| RedlockLocker.Cluster.Eval | sdk/go/lock/redlock.go:163-206 | one Eval is one step of the protocol with the fate the network has for it; a token that is not the key's gets false and changes nothing |
| RedlockLocker.Locker.constructor | sdk/go/lock/redlock.go:54-65 | the quorum is the least strict majority, never below one |
| RedlockLocker.Locker.TryAcquire | sdk/go/lock/redlock.go:133-142 | sends one Eval to every node, in order, and counts those won |
| RedlockLocker.Locker.ReleaseAll | sdk/go/lock/redlock.go:144-152 | sends one delete to every node and counts the confirmed deletions |
| RedlockLocker.Locker.Attempt | sdk/go/lock/redlock.go:83-90 | wins exactly if the loop counted a quorum and took less than 0.99 ttl - 2ms, and then the window runs to start + ttl - drift |
| RedlockLocker.Locker.Acquire | sdk/go/lock/redlock.go:76-104 | success: an open window that lasts at least 0.99 ttl - 2ms from the call on, nobody else inside one, a live majority; failure: no window, and no trace if the last rollback arrived; the session has the Locker's retries, so that with PassesAndWaits all passes were made before ErrNotAcquired; the context's error only if it can end and passes are left |
| RedlockLocker.Locker.Release | sdk/go/lock/redlock.go:108-114 | ends the window; nil exactly when the loop counted a quorum, which means this call deleted the key on a majority and less than half of the nodes still hold the token; a foreign token is refused |
| RedlockLocker.Locker.Extend | sdk/go/lock/redlock.go:118-129 | nil exactly when the loop counted a quorum, which means that a majority was renewed, or for a ttl under a millisecond deleted; the window is then start + ttl - drift, and it is open exactly if that instant has not passed; failure gives the earlier of the two windows; a foreign token is refused |
| RedlockExtend.ShortNilLosesTheMajority | sdk/go/lock/redlock.go:118-129 | in every run, on any cluster: nil with a ttl under a millisecond leaves fewer than half of the nodes holding the key |
| RedlockExtend.ShortExtendLosesTheLock | sdk/go/lock/redlock.go:118-129 | on a cluster of one node, with a lock taken for ten seconds: for every ttl under a millisecond Extend returns nil, and the node no longer holds the key |
| RedlockExtend.LateExtendMissesItsWindow | sdk/go/lock/redlock.go:118-129 | on a cluster of one node, with a lock taken for ten seconds: for every ttl and every elapsed time of at least ttl - drift Extend returns nil outside the window |
| BreakerHistory.HalfOpenDiscipline | sdk/go/internal/breaker/breaker.go:54-79 | while tripped, the requests let through since the last record are the first halfOpenMax that came a timeout after the last failure |
| BreakerHistory.FullEpisodeNeedsARecord | sdk/go/internal/breaker/breaker.go:71-76 | once the half-open slots are used up no request passes until something is recorded |
| BreakerHistory.AdmitsInNumbers | sdk/go/internal/breaker/breaker.go:54-113 | after any history with a last failure: let through exactly if the failures since the last success are fewer than the threshold, or the timeout since the last failure has passed and fewer than the half-open limit came in time before |
| BreakerHistory.CleanAdmits | sdk/go/internal/breaker/breaker.go:54-59 | without a failure since the last success everything is let through |
| Breaker.CircuitBreaker.constructor | sdk/go/internal/breaker/breaker.go:36-52 | starts closed with an empty history and positive limits |
| Breaker.CircuitBreaker.Allow | sdk/go/internal/breaker/breaker.go:54-79 | admits exactly what the history admits, and the fields stay the history's image |
| Breaker.CircuitBreaker.RecordSuccess | sdk/go/internal/breaker/breaker.go:81-93 | closes from any state, fields again the history's image |
| Breaker.CircuitBreaker.RecordFailure | sdk/go/internal/breaker/breaker.go:95-113 | open afterwards exactly if it was not closed or the threshold is reached |
| Breaker.CircuitBreaker.State | sdk/go/internal/breaker/breaker.go:121-125 | closed iff failures since the last success are below the threshold, half-open iff something was admitted since the last record |
| ExecutorProtocol.Accounting | sdk/go/internal/retry/executor.go:44-84 | in every run admissions = successes + failures + context exits + calls in flight |
| ExecutorProtocol.EveryCallIsPaced | sdk/go/internal/retry/executor.go:53-84 | each admitted call runs fn between 1 and MaxAttempts times and records exactly once, or never if its context ended it |
| ExecutorProtocol.RecordsAreCalls | sdk/go/internal/retry/executor.go:53-84 | in every run the recorded failures and successes are the calls that failed and succeeded |
| ExecutorProtocol.ForeverClosedToTrafficIffTrapped | sdk/go/internal/retry/executor.go:70-76 | for every classifier: no continuation admits anything if and only if the breaker is tripped, its half-open slots are used up and no call is in flight |
| HalfOpenTrap.TrapReachableIffRetries | sdk/go/internal/retry/executor.go:53-77 | for every classifier, one that retries everything included: that state is reachable if and only if MaxAttempts exceeds one and some error is retryable |
| RetryBudget.FailuresSpendTheBudget | sdk/go/internal/retry/executor.go:44-84 | with J retryable errors in the backend's queue, min(J div m, T) calls fail by exhaustion; a rejection means T*m backend calls; the first success comes after J mod m failures; the backend is called J times in vain and once for each success |
| RetryBudget.NothingPassesAfterwards | sdk/go/internal/breaker/breaker.go:54-113 | once T calls failed, exactly T*m requests have reached the backend and none can follow |
| KvSpec.QueueFailsTheFirstCalls | sdk/go/resilixtest/mock.go:151-162 | J injected errors fail exactly the first J calls of that operation, in order |
| ClientRuntime.Executor.Attempt | sdk/go/internal/retry/executor.go:54-68 | one run of fn: its answer, the record it leads to, and whether a retry follows |
| ClientRuntime.Executor.Wait | sdk/go/internal/retry/executor.go:70-76 | the delay asked for and the two ways the wait can end |
| ClientRuntime.Executor.Do | sdk/go/internal/retry/executor.go:44-84 | the result is the one fn's answers and the context explain: the first success, the first final error, the last error when attempts run out, or the context's end; recorded outcome, attempts and delays of a call not seen before fit it; the code after the loop is not reached |
| ClientRuntime.Executor.OneExplanation | sdk/go/internal/retry/executor.go:53-77 | fn's answers, the classifier and the context explain only one result and number of attempts of an admitted call |
| ClientRuntime.Executor.DelaysOfOneCall | sdk/go/internal/retry/executor.go:53-77 | the delays a Do call really asked for stay within (MaxAttempts - 1) * max * (1 + jitter) |
| ClientProtocol.NothingRunsOnceClosed | sdk/go/client.go:91-96 | once `closed` is set, and when backend.Close is called, no action runs, no slot is taken, nobody is in the chain |
| ClientProtocol.ClosedForGood | sdk/go/client.go:91-96 | in every run `closed` stays set from the moment it is |
| ClientProtocol.NothingStartsOnceClosed | sdk/go/client.go:213-219 | no step of a run after `closed` was set enters the terminal handler, takes a slot or calls the executor |
| ClientProtocol.InflightConservation | sdk/go/client.go:228-232 | slots in use are the goroutines between admission and release, at most MaxInflight, none when nobody is there |
| ClientProtocol.ClientRunsExecutor | sdk/go/client.go:236-236 | the executor's part of a client run is a run of the executor |
| ClientProtocol.AccountingInside | sdk/go/client.go:213-252 | the breaker's accounting holds inside the client, with nothing in flight once closed |
| ClientRuntime.RedisClient.AcquireSlot | sdk/go/client.go:272-284 | takes a slot only while one is free; gives up only with a context that ends; waits only with all slots taken |
| ClientRuntime.RedisClient.Terminal | sdk/go/client.go:221-245 | the result is a failed hook, a context that ended at the gate, or the answer of one new Do call about this work; the slot is given back on every path that took it |
| ClientRuntime.RedisClient.Execute | sdk/go/client.go:213-252 | a closed client refuses, and only a closed client; without middleware the result is the terminal handler's; every way out gives the read lock back |
| ClientRuntime.RedisClient.Close | sdk/go/client.go:91-96 | returns with the client closed and quiet, and with the backend's error |
| Backoff.Strategy.constructor | sdk/go/internal/backoff/backoff.go:19-40 | defaults make the parameters valid |
| Backoff.Strategy.Duration | sdk/go/internal/backoff/backoff.go:42-53 | never negative; at most max if base <= max and the jitter leaves room |
| Backoff.NominalIsCappedPower | sdk/go/internal/backoff/backoff.go:42-53 | with base <= max the delay is min(base * multiplier^(attempt-1), max), between base and max |
| Backoff.PowersMultiply | sdk/go/internal/backoff/backoff.go:47-47 | one step multiplies once, and steps add up |
| Backoff.CapNeedsBaseBelowMax | sdk/go/internal/backoff/backoff.go:43-50 | before jitter, the cap holds for all attempts, and delays never shrink, if and only if base <= max |
| Backoff.CapHoldsIff | sdk/go/internal/backoff/backoff.go:42-70 | no returned delay exceeds max if and only if base <= max and, unless the jitter is 0, the longest delay, which is base for multiplier 1 and max otherwise, with the largest jitter is at most one nanosecond above max |
| Backoff.JitterPassesTheCap | sdk/go/internal/backoff/backoff.go:42-70 | base 500ms, max 750ms, multiplier 2, jitter 0.2: the second delay can be 870ms |
| Backoff.JitterBounds | sdk/go/internal/backoff/backoff.go:55-70 | a jittered delay is never negative and at most (1 + jitter) times the delay |
| Backoff.JitterAtTheEnds | sdk/go/internal/backoff/backoff.go:55-70 | the middle draw changes nothing; the lowest draw takes away the whole share of jitter, at most all of the delay |
| Backoff.JitterIsLinear | sdk/go/internal/backoff/backoff.go:55-70 | between draws the delay grows in proportion, 2 * jitter * delay over the whole range, up to rounding |
| Backoff.TotalDelay | sdk/go/internal/retry/executor.go:53-77 | the delays of one Do call sum to at most (MaxAttempts - 1) * max * (1 + jitter) |
| MockBackend.Backend.CheckError | sdk/go/resilixtest/mock.go:151-162 | own queue first, consumed in order; the queue for all operations is not consumed |
| MockBackend.Backend.GetKV | sdk/go/resilixtest/mock.go:164-174 | answers from the live part and leaves the live part alone |
| MockBackend.Backend.MGet | sdk/go/resilixtest/mock.go:230-243 | the eager store's answer and live keys |
| MockBackend.Backend.MSet | sdk/go/resilixtest/mock.go:245-255 | the eager store's answer and live keys |
| MockBackend.Backend.DeleteEach | sdk/go/resilixtest/mock.go:263-270 | removes the named live keys and counts each once |
| MockBackend.Backend.Exists | sdk/go/resilixtest/mock.go:273-286 | counts the positions that name a live key |
| MockBackend.Backend.Expire | sdk/go/resilixtest/mock.go:288-301 | the eager store's answer and live keys |
| MockBackend.Backend.TTL | sdk/go/resilixtest/mock.go:303-317 | the eager store's answer; changes nothing |
| MockBackend.Backend.Scan | sdk/go/resilixtest/mock.go:914-942 | one page of the ascending listing of the live keys |
| MockBackend.Backend.Run | sdk/go/resilixtest/mock.go:203-347 | for every sequence of operations under a monotone clock, with any injected errors, the replies and live keys are those of a store that purges before each operation |
| KvLaws.SetThenRead | sdk/go/resilixtest/mock.go:215-228 | after Set: the value, and the time left, until the ttl has passed; for good, with no expiry, if the ttl is not positive |
| KvLaws.MSetThenRead | sdk/go/resilixtest/mock.go:245-255 | after MSet every value stays for good, whatever expiry its key had |
| KvLaws.DelThenRead | sdk/go/resilixtest/mock.go:257-271 | after Del the keys are gone |
| KvLaws.DelCounts | sdk/go/resilixtest/mock.go:257-271 | Del counts the named keys that Get would have found, once each |
| KvLaws.ExpireThenRead | sdk/go/resilixtest/mock.go:288-301 | true exactly if Get would find the key, which then keeps its value until the new ttl has passed |
| KvLaws.CountThenRead | sdk/go/resilixtest/mock.go:319-347 | Incr and Decr answer one more or less than the number found, 0 where there is none, and store it for good |
| KvLaws.DecrUndoesIncr | sdk/go/resilixtest/mock.go:319-347 | Decr undoes Incr at any later time, if numbers are read back as written |
| KvLaws.OtherKeysUntouched | sdk/go/resilixtest/mock.go:203-347 | no operation changes what later reads of other keys say |
| KvLaws.TtlTellsGet | sdk/go/resilixtest/mock.go:303-317 | TTL tells for how long Get will find the key |
| KvLaws.MGetIsGets | sdk/go/resilixtest/mock.go:230-243 | MGet is a Get of every key in turn |
| KvLaws.ExistsCounts | sdk/go/resilixtest/mock.go:273-286 | Exists counts the positions whose key Get would find |
| KvLaws.ScanLists | sdk/go/resilixtest/mock.go:914-942 | a scan without a limit lists the keys Get would find, once each, in ascending order |
| KvLaws.ScanPages | sdk/go/resilixtest/mock.go:914-942 | a page is the part of that list from the cursor on, as long as asked for, and says where the next one starts |
| KvLaws.ErrorsGoFirst | sdk/go/resilixtest/mock.go:151-162 | an injected error is the answer and changes nothing; the operation's own queue goes before the queue for all |
| KvLaws.ErrorsAreUsedUp | sdk/go/resilixtest/mock.go:151-162 | only the operation's own queue is used up, from its front |
| KvLaws.RunSnoc | sdk/go/resilixtest/mock.go:203-347 | in a run each operation starts where the last one ended |
| KvLaws.RunsFollow | sdk/go/resilixtest/mock.go:203-347 | runs follow one another |
| Strings.LessMeans | sdk/go/resilixtest/mock.go:926-926 | the order of keys is lexicographic by characters, with a proper prefix first |
| MockBackend.Backend.LRange | sdk/go/resilixtest/mock.go:486-512 | the elements whose positions are in range |
| MockBackend.Backend.SliceZSet | sdk/go/resilixtest/mock.go:1175-1203 | the range of the slice, or of its reverse |
| MockBackend.Backend.ReverseInPlace | sdk/go/resilixtest/mock.go:1180-1182 | swapping from both ends reverses |
| MockBackend.Backend.ZRevRange | sdk/go/resilixtest/mock.go:634-641 | ZRevRange(s, e) is the reverse of the range -e-1 to -s-1 |
| MockBackend.Backend.ZAdd | sdk/go/resilixtest/mock.go:600-623 | the slice stays sorted and distinct, stands for the updated map, and the count is the number of new members |
| MockBackend.Backend.ZRem | sdk/go/resilixtest/mock.go:643-664 | the slice and the map without the members, and how many went |
| MockBackend.Backend.ZMPop | sdk/go/resilixtest/mock.go:1097-1123 | popped and remaining entries are the old slice of the first non-empty key cut in two, the lower scores popped for MIN, the higher ones otherwise; a negative count panics there and changes nothing |
| ZSets.SortZSet | sdk/go/resilixtest/mock.go:1169-1173 | some reordering by score |
| ZSets.ValidMeans | sdk/go/resilixtest/mock.go:1169-1173 | a valid slice ascends by score and names each member once |
| ZSets.LastUpdateWins | sdk/go/resilixtest/mock.go:607-621 | of several updates of a member in one ZAdd the last one wins |
| ZSets.OthersStay | sdk/go/resilixtest/mock.go:607-621 | members that are not updated keep their score |
| ZSets.KeepConcat | sdk/go/resilixtest/mock.go:654-661 | removing goes entry by entry and keeps the order of the rest |
| ZSets.PermutationKeepsScores | sdk/go/resilixtest/mock.go:1169-1173 | whichever reordering the sort gives, the map stays |
| ZSets.CutScores | sdk/go/resilixtest/mock.go:1108-1120 | cutting a slice divides its map into disjoint parts |
| Ranges.SliceIsRange | sdk/go/resilixtest/mock.go:494-511 | clamping yields exactly the positions in range, in order |
| Ranges.SliceInNumbers | sdk/go/resilixtest/mock.go:494-511 | both ends included, counted from the start or, as negative numbers, from the end |
| Ranges.SliceOutside | sdk/go/resilixtest/mock.go:494-511 | ends outside the list are moved to its ends, empty ranges give nothing |
| Ranges.RangeDuality | sdk/go/resilixtest/mock.go:1175-1203 | reverse ranges and ranges of the reverse agree, for all integers |
| Ranges.RangesPartition | sdk/go/resilixtest/mock.go:486-512 | LRange(0, k-1) followed by LRange(k, -1) is the list |
| Services.Chunk | sdk/go/services.go:725-735 | non-empty batches, all full but the last, that concatenate to the input, and how many |
| Services.PagesInNumbers | sdk/go/services.go:725-735 | the number of batches is the size of the list divided by the batch size, rounded up |
| Services.Client.ValidKeysMeans | sdk/go/validation.go:15-25 | at least one key, and none of only white space |
| Services.DropTwice | sdk/go/services.go:679-696 | deleting in two goes removes the same keys and counts each once |
| Services.Client.TryDel | sdk/go/internal/retry/executor.go:53-84 | however often the client repeats a Del that failed, it takes effect once or not at all |
| Services.Client.BulkDelete | sdk/go/services.go:679-696 | all batches: total and live store of one single Del, in one backend call for every batch of the given size, 128 by default; a failed batch: exactly those of the batches before it; without errors and refusals it is done |
| Services.Client.BulkGet | sdk/go/services.go:658-677 | every key of the list with its live value, in one backend call for every batch; without errors and refusals it is done |
| ExpirePass.OnePassRenews | sdk/go/resilixtest/mock.go:288-301 | what one pass of Expire commands over a list, duplicates and injected errors included, leaves in the eager store and answers at each position |
| ExpirePass.CountsRenewalsIff | sdk/go/services.go:715-721 | the number of commands without an error is the number of renewals if and only if the keys of those commands are alive and, for a negative ttl, distinct |
| ExpirePass.EveryKeyRenewedIff | sdk/go/services.go:698-723 | without injected errors every command renews its key if and only if all keys are alive and, for a negative ttl, distinct |
| ExpirePass.MissingKeyIsCounted | sdk/go/services.go:715-721 | a missing key: counted once, renewed never |
| ExpirePass.EndedKeyIsCountedTwice | sdk/go/services.go:715-721 | a live key named twice with a negative ttl: counted twice, renewed once |
| Services.Client.BulkExpire | sdk/go/services.go:698-723 | with any injected errors: live store and total are those of one pass over the batches that went through, the whole list unless one failed; the total counts the replies without an error, and is the number of renewals exactly under the condition above; one pipeline for every batch of the given size, 128 by default |
| Services.Client.Deliver | sdk/go/client.go:200-204 | stops right after the first callback that fails |
| Services.Client.Scan | sdk/go/client.go:174-211 | ends for every count; each live key once in ascending order, or exactly those up to the failure; one backend call for every page of `count` keys |
| KeyBuilder.KeysAreReadableIff | sdk/go/keybuilder/builder.go:36-43 | for every separator that is not empty, splitting a key gives its segments back if and only if each segment but the last is followed by the first separator found from its start, and the last contains none |
| KeyBuilder.ReadableIffFree | sdk/go/keybuilder/builder.go:16-24 | for a separator of one character that means that no segment contains it |
| KeyBuilder.JoinMeans | sdk/go/keybuilder/builder.go:36-43 | one separator between any two parts, in their order |
| KeyBuilder.JoinUndoesSplit | sdk/go/keybuilder/builder.go:36-43 | joining the pieces of any key gives the key back |
| KeyBuilder.NoCollisions | sdk/go/keybuilder/builder.go:36-43 | readable segment lists never give the same key |
| KeyBuilder.Builder.Build | sdk/go/keybuilder/builder.go:36-43 | prefix and segments joined |
| KeyBuilder.Builder.SubThenBuild | sdk/go/keybuilder/builder.go:61-70 | building in a child equals building in the parent with the child's segments first |

## Left out

- The go-redis driver, and the Geo, Bit, HyperLogLog and Script services: they forward to a library whose code is not part of this repository.
- The other methods of `services.go`: they validate their arguments and forward them.
- Telemetry, logging, state-change notifications, configuration, the CLI and the Python placeholder: input and output.
- Middleware bodies, hooks and panics: the terminal handler runs any number of times, one after the other, and its result may be replaced; client calls made from inside a hook are not modelled.
- The default error classifier: the classifier is an arbitrary predicate.
- Custom admission controllers, and an executor without a breaker: the client always builds one.
- Mock pub/sub, streams and consumer groups, hashes, sets and list pushes and pops.
- ZAdd, ZRem and ZMPop start from slices without duplicates; `AddZSet`, which may duplicate members, is not a step.
- ZRem and ZMPop: the result slices of the source share memory with the stored ones; here slices are values.
- Float rounding, NaN scores and integer overflow.
- Evals delivered after the call returned, and node restarts that lose keys.
- Retry pacing in Acquire, and the randomness of tokens beyond their being unused.
- Acquire: the instant at which the caller sees the result is the instant of the validity check.
- Execute and Close: a run may end while they wait for the lock or a slot; that the wait ends is not stated.
- Execute: how errors are wrapped with the operation's name and keys.
- MockBackend.Backend.Run: the clock is read once per operation, where the source may read it once per key.
- KeyBuilder: an empty separator, with which keys cannot be taken apart, and how values other than strings are rendered.
