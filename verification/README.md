# Verified models of the Beryl 7 router daemon

Dafny models of the stateful engines inside the Go daemon under `go-agent/`, and of the
taint analyser under `tools/dev_scripts/`, with proofs of what they guarantee over every input, every
run and every interleaving. Each file is one module.

| file | models |
|---|---|
| `WriterQueue.dfy` | the bounded single-consumer write queue, as an object and as a protocol of goroutines |
| `EventBus.dfy`, `BusProtocol.dfy` | the 256-slot event ring, its clones and its subscribers, on the heap; publishers, subscriptions and clears interleaved |
| `CircuitBreaker.dfy`, `TokenBucket.dfy`, `FixedWindow.dfy`, `AiClient.dfy` | the gates in front of cloud calls, and the other fixed-window limiters |
| `StateDistance.dfy`, `Learning.dfy`, `SkillStore.dfy`, `TableRuns.dfy`, `StoreLife.dfy` | the learning store: distance, learners, tables, RAM and flash; runs of updates on its rows; its lives over restarts and power losses |
| `WeightedHistory.dfy`, `ReflectedWalk.dfy`, `Telemetry.dfy` | latency filter, shaper rates, traffic classifier |
| `TaintWorklist.dfy`, `TaintMeaning.dfy`, `TaintLimits.dfy` | taint propagation over one function body; what its rules and its report mean in terms of the text; what they miss and how many passes they need |
| `LogRotation.dfy` | size-based log rotation |
| `Watchdog.dfy` | checkpoint file, safe mode, rollback |
| `WifiBoost.dfy` | the Wi-Fi bandwidth switch of the tick loop |
| `Wrappers.dfy`, `IntMath.dfy`, `RealMath.dfy` | an option type; the smaller of two integers; real arithmetic, `sqrt` and `exp` |

## How to read the models

* A Go struct that its methods update is a class; `Valid()` ties its fields to a ghost history of
  everything that has happened to it, and the run-level theorems are lemmas about such histories.
* A section that holds a lock is one method call. Where a lock is given up in the middle, the code is
  several steps: the breaker's `Call` is `Start` and `Finish`, and a call of the AI client is the budget,
  `Begin`, `Ask` and `End`, between which other goroutines may take theirs; in the writer queue every
  statement of `Enqueue`, `Stop` and the worker is a step of its own, and the read-write lock is part of the
  state.
* Floating point is `real`. `math.Sqrt` is any function that gives the nonnegative root, `math.Exp` any
  positive increasing function that is 1 at 0. A clock is a parameter that never goes back.
* Where a file operation, an external command or an HTTP exchange can fail, its outcome is a parameter,
  and so is the point at which a crash interrupts it.

## What the code does that its documentation does not say

The models follow the code.

* The breaker opens after 3 failures in a row, the daily limits are 1000 calls and $3.00. The FAQ
  (`docs/FAQ.md:30`), the cost analysis (`docs/COST_ANALYSIS.md:29-30`), `docs/TROUBLESHOOTING.md:91` and
  `README.md:35` speak of 5 failures and $1.00.
* HALF_OPEN lets every caller through, not one probe: for any n there is a run with n calls outside the
  lock in it (`HalfOpenRunsAny`).
* A refusal by the token bucket and a missing key are failures to the breaker. With a key and a service that
  answers everything, the breaker is not CLOSED if and only if the last three guarded calls to complete were
  refusals of the bucket (`RateLimitingAloneOpensTheBreaker`), and a burst of eight calls gets there
  (`BurstOpensTheBreaker`). It is the completions that decide: in terms of the last three attempts at the
  bucket the equivalence holds as long as no two calls have been out at once
  (`AttemptsDecideWithoutOverlap`), and fails in both directions when they have (`OverlapCloses`,
  `OverlapOpens`). A call that breaker or bucket refuses has been charged to the daily budget.
* Call sites estimate $0.0001 a call, so no run of the client is ever refused for its cost (`Analyze`).
* A z-score at alpha 0.2 never exceeds 2 (`TriggerReachable`): the default trigger of 2.5 and the
  shaper's own z > 2 test never fire. The 1.8 threshold of the stabilizer can be reached.
* A shaper rate is 80% of the peak, 15% less in a spike; the 50% floor never decides (`RateFormula`). A
  comment in the source speaks of 88%.
* Only the receive counter is checked for going backwards (`DeltaIsTrueUnlessWrapped`).
* A signature row is called an exponential moving average in a comment; it is the exact mean of its
  first 500 samples (`ExactMean`), and only then a weighted mean in which each sample takes 1/500
  (`PastTheCap`).
* The first reward of a Q-table row is stored unclamped (`RangeAfter`).
* `Clone` is called a deep copy; it copies one level. A later write to a referenced value shows in the clone
  if and only if it changes something and the map refers to it (`NestedValuesAreShared`), so exactly maps of
  plain values are isolated.
* Raising the backup count keeps the files a suffix of the log if and only if the lines in the backups that
  count again are the last ones dropped (`RaisingKeepsSuffix`); `RaisingBackupCountRevivesStaleLines` is a case
  in which they are not.
* The raw configuration export shares the checkpoint's path, so a restart after it comes up in safe mode
  (`RebootAfterExport`). A rollback whose import succeeds restores an export if and only if nothing has been
  saved or exported at that path since that export (`RollbackRestoresLastExport`); it does not look at the checksum, and its
  own save makes a second rollback in a row only set the defaults (`ExportThenRollback`).
* A second concurrent `Stop` may return while accepted tasks are still queued
  (`SecondStopMayReturnEarly`): a `Stop` waits if and only if it is the one that set the flag
  (`OnlyTheFirstStopWaits`).
* The /boost reply promises a revert after 10 idle seconds; the code needs 60 low-traffic ticks of 5
  seconds (`RevertNeedsSixtyIdleTicks`).
* In `a, b := f()` the analyser pairs only `a` with the call: in any body the statement means no more than
  `a := f()`, and `b` gets nothing from it (`SecondResultIsLost`).
* The analyser lower-cases a receiver but not the names it looks it up in, so a header kept in a variable is
  recognised if and only if the name has no capitals, contains "header" or ends in ".h"
  (`ReceiverRecognised`, `ReadThroughVariable`).
* ClearSubscribers does not stop a publication that has already held the lock (`SentAfterClear`).

## Model

| member | source | states |
|---|---|---|
| WriterQueue.DBWriterQueue.constructor | go-agent/orchestrator/writer_queue.go:19-31 | a new queue is empty and open; a size of zero or less becomes 128 |
| WriterQueue.DBWriterQueue.Enqueue | go-agent/orchestrator/writer_queue.go:60-75 | true exactly when not stopped and fewer tasks than the capacity are buffered; then, and only then, the task is accepted, last in line |
| WriterQueue.DBWriterQueue.ExecuteTask | go-agent/orchestrator/writer_queue.go:44-57 | a task is called once, a nil task not at all |
| WriterQueue.DBWriterQueue.WorkerLoop | go-agent/orchestrator/writer_queue.go:34-42 | on a closed channel the loop ends with an empty buffer and every task ever accepted called, in order |
| WriterQueue.DBWriterQueue.Stop | go-agent/orchestrator/writer_queue.go:78-89 | the first Stop drains: calls are those of all accepted tasks; any later one changes nothing |
| WriterQueue.SafeUnderEveryInterleaving | go-agent/orchestrator/writer_queue.go:34-89 | under every interleaving: no send on or second close of a closed channel, buffer within capacity, accepted = finished ++ in flight ++ buffered in order, and an Enqueue reports success exactly when its task was accepted, once |
| WriterQueue.SendSucceedsWithRoom | go-agent/orchestrator/writer_queue.go:67-74 | in every reachable state a call about to send is accepted if and only if fewer jobs than the capacity are buffered, and adds its job and nothing else |
| WriterQueue.CapacityIsUsed | go-agent/orchestrator/writer_queue.go:60-75 | for every capacity c a run in which c Enqueue calls succeed before the worker has moved, and the next one fails |
| WriterQueue.OfferTakesWhatFits | go-agent/orchestrator/writer_queue.go:67-74 | the non-blocking send takes a task if and only if the buffer has room |
| WriterQueue.FirstStopDrains | go-agent/orchestrator/writer_queue.go:78-89 | when the Stop that set the flag has returned, every accepted task has run and the buffer is empty |
| WriterQueue.StopFreezesAcceptance | go-agent/orchestrator/writer_queue.go:60-89 | once stopped is set, no step of any goroutine gets another task accepted |
| WriterQueue.WorkerAlwaysProgresses | go-agent/orchestrator/writer_queue.go:34-42 | after the close the worker is never blocked, each of its moves lowers a measure that no other step raises |
| WriterQueue.DrainFromClose | go-agent/orchestrator/writer_queue.go:34-42 | from any state after the close a run of the worker alone, of a length known in advance, ends with everything accepted finished |
| WriterQueue.SomebodyCanMove | go-agent/orchestrator/writer_queue.go:34-89 | no deadlock: in every reachable state with a call that has not returned, some call or the worker can take a step |
| WriterQueue.StepsRunOut | go-agent/orchestrator/writer_queue.go:34-89 | every step of a call or of the worker lowers a measure, so without new calls no run goes on for ever |
| WriterQueue.EveryCallReturns | go-agent/orchestrator/writer_queue.go:34-89 | every run can be completed, within a number of steps known in advance, to one in which every call has returned, a waiting Stop included |
| WriterQueue.SecondStopMayReturnEarly | go-agent/orchestrator/writer_queue.go:78-85 | for every capacity a run in which a second Stop has returned while an accepted task is still queued |
| WriterQueue.OnlyTheFirstStopWaits | go-agent/orchestrator/writer_queue.go:78-89 | in every run, a Stop that has returned waited for the worker if and only if it set the flag |
| WriterQueue.LockInvStep | go-agent/orchestrator/writer_queue.go:60-89 | a writer inside the lock excludes every other goroutine from it, at every step |
| WriterQueue.PcInvStep | go-agent/orchestrator/writer_queue.go:60-89 | at most one Stop wins, nobody past the check sends after the flag is set, the channel is closed only by the winner |
| WriterQueue.DataInvStep | go-agent/orchestrator/writer_queue.go:34-89 | every step keeps capacity, order and conservation of tasks |
| WriterQueue.AnswerInvStep | go-agent/orchestrator/writer_queue.go:60-75 | every step keeps accepted tasks and successful Enqueue calls in one-to-one correspondence |
| WriterQueue.InvRun | go-agent/orchestrator/writer_queue.go:34-89 | all of these hold in every reachable state |
| EventBus.Clone | go-agent/orchestrator/event_bus.go:33-51 | nil for nil; else a new event over a new map, equal in each field and in the entries |
| EventBus.CopyData | go-agent/orchestrator/event_bus.go:45-48 | the entry-by-entry copy is a new map equal to the old |
| EventBus.NestedValuesAreShared | go-agent/orchestrator/event_bus.go:33-51 | what a clone stands for is unchanged by a later write to a cell if and only if the write changes nothing or no entry refers to the cell |
| EventBus.WritesThatShow | go-agent/orchestrator/event_bus.go:33-51 | whatever happens to the heap, what a map stands for is unchanged if and only if no cell it refers to has changed |
| EventBus.PlainMapsAreIsolated | go-agent/orchestrator/event_bus.go:33-51 | a map of plain values is not affected by anything |
| EventBus.EventBus.constructor | go-agent/orchestrator/event_bus.go:55-70 | an empty ring and no subscribers |
| EventBus.EventBus.Subscribe | go-agent/orchestrator/event_bus.go:73-77 | the handler is registered last for its type, other types keep theirs |
| EventBus.EventBus.ClearSubscribers | go-agent/orchestrator/event_bus.go:80-84 | no type has a subscriber left |
| EventBus.EventBus.Store | go-agent/orchestrator/event_bus.go:100-107 | the ring, written at its head modulo 256, still holds the last min(n, 256) publications of the full history, now with this one |
| EventBus.EventBus.Publish | go-agent/orchestrator/event_bus.go:87-124 | without interference: one more record in the history; one delivery, with contents of its own, to exactly the subscribers registered, in order; events without a type ignored; the publisher's event gains only a missing timestamp |
| EventBus.EventBus.GetRecentEvents | go-agent/orchestrator/event_bus.go:127-145 | exactly the last min(k, 256, n) publications, oldest first, as new objects |
| EventBus.Dispatch | go-agent/orchestrator/event_bus.go:112-123 | one clone per subscriber, no two sharing an event or a map |
| EventBus.LaterWritesAreIsolated | go-agent/orchestrator/event_bus.go:33-124 | when publisher and one subscriber overwrite their maps afterwards, the stored history and every other delivery are unchanged |
| EventBus.SlotOf | go-agent/orchestrator/event_bus.go:138-142 | the slot counted from the head is the slot of the publication counted from the end |
| BusProtocol.SentToThoseRegistered | go-agent/orchestrator/event_bus.go:97-124 | under every interleaving of publishers, Subscribe and ClearSubscribers, a publication is handed to exactly the subscribers registered when it held the lock, in order, once each |
| BusProtocol.NobodyAfterClear | go-agent/orchestrator/event_bus.go:80-124 | a publication that takes the lock after a clear and before the next Subscribe goes to nobody, ever |
| BusProtocol.SentAfterClear | go-agent/orchestrator/event_bus.go:107-123 | one that held the lock before the clear may be handed out after it |
| BusProtocol.InvRun | go-agent/orchestrator/event_bus.go:73-124 | in every run the history is the events in the order of their locked sections, the subscriber lists those subscribed since the last clear, and each publisher has handed out a prefix of its list |
| BusProtocol.ListIsKept | go-agent/orchestrator/event_bus.go:107-112 | the list copied under the lock is the one handed out from, whatever comes later |
| CircuitBreaker.CircuitBreaker.constructor | go-agent/ai/circuit_breaker.go:19-27 | closed, with 300 s for a timeout of zero or less |
| CircuitBreaker.CircuitBreaker.Start | go-agent/ai/circuit_breaker.go:30-39 | the first critical section admits exactly when the history (three trailing failures, none started since, within the timeout) does not block |
| CircuitBreaker.CircuitBreaker.Finish | go-agent/ai/circuit_breaker.go:43-57 | the second critical section, in any order among concurrent callers, keeps state, failure count and failure time equal to functions of the history |
| CircuitBreaker.TrailingCounts | go-agent/ai/circuit_breaker.go:46-56 | failCount is the number of failures completed since the last completed success |
| CircuitBreaker.ClosedUnlessThreeFailed | go-agent/ai/circuit_breaker.go:43-57 | not CLOSED if and only if the last three completions all failed |
| CircuitBreaker.QuietWhileOpen | go-agent/ai/circuit_breaker.go:30-39 | in every lawful run, after a completion that leaves three trailing failures, each call within the timeout and before another completion is refused |
| CircuitBreaker.HalfOpenRunsAny | go-agent/ai/circuit_breaker.go:29-58 | for every timeout and every n > 0 there is a lawful run with n calls running in HALF_OPEN |
| CircuitBreaker.HalfOpenAdmitsAll | go-agent/ai/circuit_breaker.go:30-39 | a lawful run in HALF_OPEN goes on with an admission at any time, never with a refusal, and stays HALF_OPEN |
| CircuitBreaker.RunningNonnegative | go-agent/ai/circuit_breaker.go:29-58 | never more completions than starts |
| TokenBucket.TokenBucket.constructor | go-agent/ai/ai_client.go:77-99 | the bucket starts full, with 5 tokens |
| TokenBucket.TokenBucket.Allow | go-agent/ai/ai_client.go:165-180 | admits exactly when no window of the run ending now would exceed 5 + T/6; tokens stay in [0, 5] |
| TokenBucket.WindowBound | go-agent/ai/ai_client.go:165-180 | between any two attempts of any run, T seconds apart, at most 5 + T/6 are admitted |
| TokenBucket.RefillDecides | go-agent/ai/ai_client.go:168-175 | comparing the refilled level with 1 is the same as checking every window |
| TokenBucket.LevelNext | go-agent/ai/ai_client.go:165-180 | the capped, refilled, spent level is again the least room over all windows |
| TokenBucket.GreedyNext | go-agent/ai/ai_client.go:165-180 | deciding each attempt that way extends a greedy run to a greedy run |
| FixedWindow.PeriodBound | go-agent/ai/ai_client.go:122-148 | between two restarts a limiter never grants more than its limit |
| FixedWindow.SlidingBound | go-agent/ai/ai_client.go:122-148 | any window in which no full period elapses is granted at most twice the limit |
| FixedWindow.TwiceAttained | go-agent/ai/ai_client.go:122-148 | for every limiter a lawful run in which twice the limit is granted within a period |
| FixedWindow.ResetsApart | go-agent/ai/ai_client.go:128-133 | two restarts of a window are a full period apart |
| FixedWindow.Budget.constructor | go-agent/ai/ai_client.go:77-99 | nothing used, the first day starts now |
| FixedWindow.Budget.CheckBudgetBeforeCall | go-agent/ai/ai_client.go:122-148 | the call is refused exactly in air-gapped mode, when it is the day's 1001st, or when its cost would pass $3.00; both histories stay lawful fixed-window runs |
| FixedWindow.Account | go-agent/ai/ai_client.go:130-147 | a granted or refused call leaves both counters and the start of the day equal to what two lawful histories say |
| FixedWindow.Charge | go-agent/ai/ai_client.go:130-147 | under any rule, a grant that fits or a refusal extends a lawful history to a lawful one |
| FixedWindow.CountersSay | go-agent/ai/ai_client.go:130-135 | the counters give what a call arriving now finds used |
| FixedWindow.Budget.Count | go-agent/ai/ai_client.go:130-147 | the new counters and the answer, for any cost |
| FixedWindow.Budget.AnyDayBound | go-agent/ai/ai_client.go:122-148 | any 24 hours of any run grant at most 2000 calls, and at most $6 unless a cost was negative |
| FixedWindow.CostLimitNeverDecides | go-agent/ai/ai_client.go:201-202 | when every grant was charged the call sites' estimate, which every run of the client keeps, the day's cost plus one more call is at most $0.1001 |
| FixedWindow.IpLimiter.constructor | go-agent/cmd/main.go:1406-1410 | no address has used anything |
| FixedWindow.IpLimiter.Check | go-agent/cmd/main.go:1412-1421 | grants exactly when the address has room in the current minute; every address keeps a lawful run of its own (limit 60, or 10 for approvals) |
| FixedWindow.StillSees | go-agent/cmd/main.go:1790-1799 | a request by anyone keeps the count of any one address equal to what its own history used, up to the limit |
| FixedWindow.IpLimiter.AnyMinuteBound | go-agent/cmd/main.go:1412-1421 | in any minute of any run an address is granted at most twice the limit: 120, or 20 |
| FixedWindow.LineLimiter.constructor | go-agent/parser/parser.go:58-71 | no line used |
| FixedWindow.LineLimiter.Admit | go-agent/parser/parser.go:58-71 | admits exactly when fewer than 100 lines were admitted in the current second, as a lawful fixed-window run |
| FixedWindow.LineLimiter.AnySecondBound | go-agent/parser/parser.go:58-71 | any span shorter than a second admits at most 200 lines |
| AiClient.AIClient.constructor | go-agent/ai/ai_client.go:77-99 | a client with full budget, closed breaker of 300 s and full bucket |
| AiClient.AIClient.SetAPIKey | go-agent/ai/ai_client.go:101-105 | sets the key and nothing else |
| AiClient.AIClient.SetAirgappedMode | go-agent/ai/ai_client.go:107-114 | sets the mode and nothing else |
| AiClient.AIClient.Begin | go-agent/ai/circuit_breaker.go:30-39 | whatever calls are out: let through exactly when the history does not block, and then one more is out |
| AiClient.AIClient.Ask | go-agent/ai/ai_client.go:226-237 | whatever calls are out: refused exactly when no window of attempts has room, then without a key, else a request begins |
| AiClient.AIClient.End | go-agent/ai/circuit_breaker.go:43-57 | in any order among the calls that are out: the breaker hears a failure for every outcome but an answer, and the call is done |
| AiClient.AIClient.Analyze | go-agent/ai/ai_client.go:201-240 | uninterrupted, whatever calls are out: refused by the budget exactly in air-gapped mode or from the day's 1001st call on, never for the cost; then exactly when the breaker blocks; then by the bucket exactly when no window has room; then by key and exchange; what each refusal leaves untouched and what it has charged |
| AiClient.AIClient.ChargeBudget | go-agent/ai/ai_client.go:201-202 | the first gate at the call sites' estimate: which of its reasons applies |
| AiClient.AIClient.CallThroughBreaker | go-agent/ai/ai_client.go:210-213 | uninterrupted: refused exactly when the breaker blocks, without using a token; else one start and one completion in its history, failed for every outcome but an answer |
| AiClient.AIClient.Execute | go-agent/ai/ai_client.go:226-240 | uninterrupted: token, then key, then exchange; one attempt is logged, a request begins only with both, and the completion follows |
| AiClient.AIClient.BreakerFollowsCompletions | go-agent/ai/ai_client.go:201-240 | in every run of the client, however its calls overlap, the breaker is not CLOSED if and only if the last three guarded calls to complete went without an answer |
| AiClient.AIClient.RateLimitingAloneOpensTheBreaker | go-agent/ai/ai_client.go:210-240 | with a key and a healthy service, if and only if the last three to complete are refusals of the bucket |
| AiClient.AIClient.AttemptsDecideWithoutOverlap | go-agent/ai/ai_client.go:210-240 | as long as no two guarded calls have been out at once and none is, if and only if the last three attempts at the bucket were refused |
| AiClient.OverlapCloses | go-agent/ai/circuit_breaker.go:29-58 | a run of a healthy client whose last three attempts were refused while the breaker is CLOSED: an earlier call is answered after them |
| AiClient.OverlapOpens | go-agent/ai/circuit_breaker.go:29-58 | a run of a healthy client whose last attempt was granted while the breaker is not CLOSED |
| AiClient.BeginAgrees | go-agent/ai/circuit_breaker.go:30-39 | starting a call keeps breaker, bucket and calls in agreement: completions are the breaker's outcomes, calls out are those it counts as running |
| AiClient.AskAgrees | go-agent/ai/ai_client.go:226-237 | so does an attempt at the bucket |
| AiClient.EndAgrees | go-agent/ai/circuit_breaker.go:43-57 | so does a completion, in any order |
| AiClient.BurstOpensTheBreaker | go-agent/ai/ai_client.go:201-240 | on a new client eight calls in a burst, every exchange answered, are five answers and three refusals and leave the breaker OPEN |
| AiClient.BurstCall | go-agent/ai/ai_client.go:201-240 | one call of the burst |
| StateDistance.DistanceIsMetric | go-agent/skillstore/store.go:700-748 | nonnegative, symmetric, zero exactly between equal signatures (flags included), triangle inequality |
| StateDistance.OneFeatureApart | go-agent/skillstore/store.go:700-748 | the distance of signatures that differ in one feature only: that difference in its unit, times the root of its weight |
| StateDistance.CauchySchwarz | go-agent/skillstore/store.go:700-748 | Cauchy-Schwarz for weighted coordinates in any number, the core of the triangle inequality |
| StateDistance.Minkowski | go-agent/skillstore/store.go:700-748 | the length of a sum is at most the sum of the lengths |
| StateDistance.FindNearestState | go-agent/skillstore/store.go:762-811 | the scan succeeds exactly when some row is within the threshold, with the first row at the minimum over all rows |
| StateDistance.NearestIsLipschitz | go-agent/skillstore/store.go:762-811 | the minimum distance changes by at most the distance the query moves |
| Learning.ClampIsInert | go-agent/skillstore/store.go:590-596 | from a value in [-0.8, 1] a reward in that range moves it a fifth of the way, unclamped and within the range |
| Learning.ClampIsNearest | go-agent/skillstore/store.go:590-596 | the clamp moves a value to the nearest one in [-0.8, 1] |
| Learning.RangeAfter | go-agent/skillstore/store.go:590-596 | a row is in [-0.8, 1] if and only if it was updated after its insertion or its first reward was in that range |
| Learning.QIsWeightedMean | go-agent/skillstore/store.go:583-596 | for rewards in range a row is exactly their exponentially weighted mean |
| Learning.EqualRewards | go-agent/skillstore/store.go:583-596 | n equal rewards r give r + (4/5)^n (q0 - r) |
| Learning.ExactMean | go-agent/skillstore/store.go:835-847 | up to 500 samples a feature is the exact arithmetic mean |
| Learning.CountIsCapped | go-agent/skillstore/store.go:835-847 | the sample count is min(start + n, 500) |
| Learning.PastTheCap | go-agent/skillstore/store.go:835-847 | from 500 samples on a feature is the exponentially weighted mean in which each sample takes 1/500, and the count stays |
| Learning.AverageStaysInHull | go-agent/skillstore/store.go:835-847 | in any run a feature stays within the bounds of its samples |
| SkillStore.RowFeatures | go-agent/skillstore/store.go:835-847 | in a signature row each numeric feature runs as a capped mean of its own, the flags are those of the last sample |
| SkillStore.MergeJoins | go-agent/skillstore/store.go:835-847 | a merged row is, feature by feature, the weighted mean of row and sample, with at most 499 samples keeping their weight |
| TableRuns.RowsLearn | go-agent/skillstore/store.go:583-596 | after any list of updates a row is what the learning law makes of exactly the rewards addressed to it, in order, and bears the time of the last; a row none is addressed to is unchanged |
| TableRuns.LearnedIsQAfter | go-agent/skillstore/store.go:590-596 | that law: a new row starts with the first reward as it is, a row that was there goes on from its value |
| TableRuns.UpdateAll | go-agent/skillstore/store.go:583-617 | the open store, given any list of rewards, holds exactly these rows |
| TableRuns.RowsSample | go-agent/skillstore/store.go:835-847 | after any list of named samples a row has taken exactly those of its name, in order, the first of a new row with count 1 |
| TableRuns.RecordSamples | go-agent/skillstore/store.go:814-850 | the open store, given any list of named samples, holds exactly these rows |
| TableRuns.NewStoreKnows | go-agent/skillstore/store.go:277-297 | what a new store recommends in each of its seven states, and at which value |
| SkillStore.SeedingKeepsLearned | go-agent/skillstore/store.go:277-297 | seeding keeps every row that is there and is idempotent |
| SkillStore.SeedingIsIdle | go-agent/skillstore/store.go:277-297 | a database with the seed rows is left as it is |
| SkillStore.QueryBest | go-agent/skillstore/store.go:685-688 | no row of the state has a higher value, and none of the same value is newer; none exactly when the state has no row |
| SkillStore.TopIsBest | go-agent/skillstore/store.go:685-688 | the first row in that order has the highest value of the state, and is below zero exactly when all are |
| SkillStore.SelectSignatures | go-agent/skillstore/store.go:762-785 | every stored signature is listed |
| SkillStore.FindNearest | go-agent/skillstore/store.go:762-811 | over the table: a nearest state, exactly when one is within the threshold |
| SkillStore.Media.constructor | go-agent/skillstore/store.go:124-140 | a device with the given flash content and empty RAM |
| SkillStore.Media.Open | go-agent/skillstore/store.go:124-140 | the database in RAM, else the flash copy, else a new one, each with missing seed rows added |
| SkillStore.Media.PowerLoss | go-agent/skillstore/store.go:124-140 | RAM is gone, flash stays |
| StoreLife.MilestoneFiresOncePerLoss | go-agent/skillstore/store.go:605-630 | over every sequence of updates, signatures, configurations, latch checks, flushes, closings, restarts and power losses, with statements that may fail, the callback of a latch fires at most once more than power losses discarded the latch, which are at most all power losses |
| StoreLife.EveryLossMayFireAgain | go-agent/skillstore/store.go:605-630 | the bound is attained for every number of losses |
| StoreLife.FiresAreCovered | go-agent/skillstore/store.go:605-630 | in every state, fires are covered by discards and the latch still set, discards by losses |
| StoreLife.StepIsCovered | go-agent/skillstore/store.go:605-630 | in every step |
| StoreLife.RowsStayInRange | go-agent/skillstore/store.go:583-596 | over every such sequence with rewards in [-0.8, 1], every row of the RAM and the flash database stays in that range |
| StoreLife.Perform | go-agent/skillstore/store.go:124-140 | what happens to store and media objects is a step of such a sequence, with exactly its databases, and the callback runs exactly when the step fires |
| SkillStore.SkillStore.NewHybrid | go-agent/skillstore/store.go:124-140 | the store opens on what Media.Open brings up, with the default parameters and zero counters |
| SkillStore.SkillStore.FlushToPersistent | go-agent/skillstore/store.go:531-560 | wherever the flush stops, flash is wholly the old database or, on success, wholly the RAM one |
| SkillStore.SkillStore.CheckAndSetMilestoneLatch | go-agent/skillstore/store.go:619-630 | true exactly when the store is open, the statement succeeds and the latch was not set; a closed store or a failing statement sets nothing |
| SkillStore.SkillStore.UpdateQValue | go-agent/skillstore/store.go:583-617 | one row moves a fifth of the way to the reward, or is created with it, at the given time; all others stay, the counters count; the callback fires exactly when this process's count reaches the threshold, the latch was not set and setting it succeeds; a closed store or a failing upsert changes nothing |
| SkillStore.SkillStore.Upsert | go-agent/skillstore/store.go:590-596 | exactly one row of the Q table changes |
| SkillStore.SkillStore.NotifyOnce | go-agent/skillstore/store.go:606-613 | the callback runs exactly when the latch row is new and its statement succeeds |
| SkillStore.SkillStore.SetMilestone | go-agent/skillstore/store.go:662-672 | sets callback and threshold |
| SkillStore.SkillStore.Close | go-agent/skillstore/store.go:1105-1116 | the store is closed, whatever it was |
| SkillStore.SkillStore.RecordStateSignature | go-agent/skillstore/store.go:814-850 | exactly the named row takes the sample: a new row is the sample with count 1, a row of n samples weighs at most 499 of them against it; a missing name, a closed store or a failing statement changes nothing |
| SkillStore.SkillStore.SetInterpolationParams | go-agent/skillstore/store.go:858-871 | a parameter out of range becomes its default, so both stay in range |
| SkillStore.SkillStore.RecommendBestAction | go-agent/skillstore/store.go:676-697 | a row of the state than which none is higher, of either sign, else the default at 0, and the counter that belongs to it |
| SkillStore.SkillStore.ExactMatch | go-agent/skillstore/store.go:908-925 | the state's own rows decide exactly when there are any: the default at 0 exactly when all are negative, else a highest row, each with its counter |
| SkillStore.SkillStore.RecommendWithInterpolation | go-agent/skillstore/store.go:891-959 | Q is never negative; the state's own rows take precedence, the highest unless all are negative; else a nearest state within the threshold lends its highest row if not negative; else the default; one of three counters goes up per call on an open store |
| SkillStore.Interpolate | go-agent/skillstore/store.go:927-958 | the lent value is the neighbour's, discounted by its distance, and is refused exactly when there is no lender |
| SkillStore.DecayBounds | go-agent/skillstore/store.go:945-946 | a discounted value lies between q exp(-decay * threshold) and q |
| SkillStore.ReopenAfterPowerLoss | go-agent/skillstore/store.go:124-140 | after a power loss the reopened tables are the last completed flush if the copy succeeds, else a new database |
| SkillStore.ReopenAfterRestart | go-agent/skillstore/store.go:124-140 | after a process restart they are the RAM state |
| WeightedHistory.WeightsAreShares | go-agent/telemetry/telemetry.go:676-705 | the weights that the update rule gives the samples are positive and sum to 1 |
| WeightedHistory.Append | go-agent/telemetry/telemetry.go:689-694 | the incremental rule yields exactly the weighted mean and variance of the longer history |
| WeightedHistory.MeanWithin | go-agent/telemetry/telemetry.go:689-694 | the mean stays within the bounds of the samples |
| Telemetry.TelemetryCollector.constructor | go-agent/telemetry/telemetry.go:77-87 | no samples, zero peaks and counters |
| Telemetry.TelemetryCollector.UpdateEWMALatency | go-agent/telemetry/telemetry.go:676-705 | (mean, variance) are those of the sample history since the filter last started, which it does only when its mean is 0; the mean moves by alpha, or 0.2 for one out of range; the score counts standard deviations from the mean and obeys z^2 <= (1 - alpha)/alpha |
| Telemetry.UpdateMeans | go-agent/telemetry/telemetry.go:690-702 | the same of one update, from any state |
| Telemetry.FilterRun | go-agent/telemetry/telemetry.go:676-705 | over any run of nonnegative samples at one alpha: the weighted mean and variance of the samples from the first positive one on, zero until then |
| Telemetry.ScoreBound | go-agent/telemetry/telemetry.go:676-705 | that bound, for any state of the filter and any sample |
| Telemetry.ScoreAtMostTwo | go-agent/cmd/main.go:888 | with the call sites' alpha the score lies in [-2, 2] |
| Telemetry.TriggerReachable | go-agent/cmd/main.go:927 | some history exceeds a trigger threshold if and only if it is below 2, which the default of 2.5 is not |
| Telemetry.TwoSamplesScoreTwo | go-agent/telemetry/telemetry.go:676-705 | two increasing samples score exactly 2 |
| Telemetry.RateFormula | go-agent/telemetry/telemetry.go:233-284 | for every peak the rate is min(900000, 800 max(200, peak)), times 0.85 in a spike before the cap; it lies in [136000, 900000], and the floor is below it |
| Telemetry.RecalibrationIsIdempotent | go-agent/telemetry/telemetry.go:225-234 | repeating a call with the same readings leaves the peaks, which never go below the last reading |
| Telemetry.TelemetryCollector.CalculateAdaptiveSQMRates | go-agent/telemetry/telemetry.go:219-284 | in a spike (score above 2 or latency above 80) a peak falls to a last reading above 50 and under 75% of it, and else stays; both rates by the formula from the peaks, 15% less in a spike; a peak stays the maximum of the readings since its last recalibration |
| Telemetry.DeltaIsTrueUnlessWrapped | go-agent/telemetry/telemetry.go:160-166 | the unsigned difference of two counters is the true one if and only if the counter did not go back |
| Telemetry.TelemetryCollector.CollectMetrics | go-agent/telemetry/telemetry.go:118-213 | a call within two seconds changes nothing and repeats the metric; any other measures the download rate on the bytes received and the upload rate on those sent since the last one, and takes them into peaks, history and flags |
| Telemetry.ThroughputMeans | go-agent/telemetry/telemetry.go:160-166 | rate times time is eight bits for each byte of its own counter, or zero where the receive counter cannot be compared |
| Telemetry.TelemetryCollector.Refresh | go-agent/telemetry/telemetry.go:128-213 | the part of it that runs when the metric is not fresh |
| Telemetry.TelemetryCollector.Process | go-agent/telemetry/telemetry.go:167-207 | the rates reach peaks, histories and flags together |
| Telemetry.TelemetryCollector.TrackPeaks | go-agent/telemetry/telemetry.go:169-176 | each peak is the maximum since its last recalibration, at least the newest reading |
| Telemetry.TelemetryCollector.Classify | go-agent/telemetry/telemetry.go:179-207 | bulk exactly when some suffix of the samples nets 2 or more; streaming exactly when bulk is not and some suffix nets 3 or more by its own steps |
| Telemetry.BandRun | go-agent/telemetry/telemetry.go:180-197 | how a run of rates in one band moves the two counts after any history |
| Telemetry.FlagsFollowCounts | go-agent/telemetry/telemetry.go:198-207 | the flags by the counts |
| Telemetry.FlagsOfARun | go-agent/telemetry/telemetry.go:179-207 | on a new collector two rates of 25 and more are bulk, three from 1.5 to 25 a stream, and no fewer |
| Telemetry.TelemetryCollector.StepCounters | go-agent/telemetry/telemetry.go:180-197 | both counters take the step their rate band asks for, clamped at zero |
| ReflectedWalk.ReflectKeepsBestSuffix | go-agent/telemetry/telemetry.go:180-197 | a counter clamped at zero is the best net over all suffixes of its history |
| ReflectedWalk.BestSuffixReaches | go-agent/telemetry/telemetry.go:198-207 | it reaches a level exactly when some suffix does |
| ReflectedWalk.WalkRun | go-agent/telemetry/telemetry.go:180-197 | a run of equal steps moves a clamped counter by its length, or down to zero |
| TaintWorklist.Inspect | tools/dev_scripts/ast_analyzer.go:136-164 | the pruning traversal finds a hit exactly when some node of the expression is one |
| TaintWorklist.InspectAll | tools/dev_scripts/ast_analyzer.go:136-164 | the same for a list of expressions |
| TaintWorklist.IsExprTainted | tools/dev_scripts/ast_analyzer.go:105-165 | with its early exits, true exactly when the expression is tainted |
| TaintWorklist.TaintedMonotone | tools/dev_scripts/ast_analyzer.go:94-165 | larger sets never untaint an expression |
| TaintWorklist.CollectStatements | tools/dev_scripts/ast_analyzer.go:250-278 | exactly the pairs of a name and the right-hand side at the same position |
| TaintWorklist.CollectOne | tools/dev_scripts/ast_analyzer.go:252-276 | the same for one statement |
| TaintWorklist.Visit | tools/dev_scripts/ast_analyzer.go:283-292 | one statement adds only facts that follow, reports a change exactly when a set grew, and otherwise the statement is closed |
| TaintWorklist.VisitTaint | tools/dev_scripts/ast_analyzer.go:289-292 | the tainted half of that step |
| TaintWorklist.Pass | tools/dev_scripts/ast_analyzer.go:282-293 | a pass without change leaves sets closed under every statement |
| TaintWorklist.Propagate | tools/dev_scripts/ast_analyzer.go:280-294 | ends with the first pass that changes nothing, within 2 * (distinct names) + 1 passes, with the least closed sets, which are exactly the derivable facts |
| TaintWorklist.DerivationStaysInside | tools/dev_scripts/ast_analyzer.go:280-294 | no derivation, of any length, leaves a pair of closed sets |
| TaintWorklist.ClosedDerivationIsLeast | tools/dev_scripts/ast_analyzer.go:280-294 | closed sets reached by a derivation are the least ones, and hold exactly what is derivable |
| TaintWorklist.OrderIndependent | tools/dev_scripts/ast_analyzer.go:280-294 | the result depends on which assignments occur, not on their order |
| TaintWorklist.MoreStatementsMoreTaint | tools/dev_scripts/ast_analyzer.go:280-294 | more assignments only grow both sets and the taint of every expression |
| TaintWorklist.FindUnsafe | tools/dev_scripts/ast_analyzer.go:296-340 | exactly the positions of the unsafe nodes are reported |
| TaintWorklist.IsUnsafe | tools/dev_scripts/ast_analyzer.go:302-336 | unsafe means: a strings prefix test of a tainted value, or a suffix test of one against a local domain |
| TaintWorklist.AnalyzeFunction | tools/dev_scripts/ast_analyzer.go:245-340 | from the body to the report: a node of the body is reported exactly when it is an unsafe call for the least sets closed under the body's assignments |
| TaintWorklist.ReportIgnoresOrder | tools/dev_scripts/ast_analyzer.go:245-340 | two bodies of the same statements in any order get the same calls reported |
| TaintWorklist.PairClosedIs | tools/dev_scripts/ast_analyzer.go:285-292 | a statement is closed exactly when neither of its two tests would add its name |
| TaintMeaning.ReportMeans | tools/dev_scripts/ast_analyzer.go:296-340 | exactly these nodes of a body are reported: strings.HasPrefix of a tainted value, whatever the prefix, and strings.HasSuffix of one whose suffix contains .local, .lan or .home |
| TaintMeaning.ReportOnTest | tools/dev_scripts/ast_analyzer.go:245-340 | o := r.Header.Get("Origin") and a test of o, from body to report: the prefix test is reported whatever the prefix, the suffix test exactly if its literal names a local domain, and nothing else |
| TaintMeaning.TaintedMeans | tools/dev_scripts/ast_analyzer.go:105-165 | an expression is tainted if and only if its text is origin, ends in .origin or contains header.get("origin"), or some part of it gives taint away |
| TaintMeaning.HitMeans | tools/dev_scripts/ast_analyzer.go:54-92 | a part gives taint away if and only if it is a tainted name or origin, or reads Origin from a header by Get or by index |
| TaintMeaning.HeaderReceiverMeans | tools/dev_scripts/ast_analyzer.go:63-66 | a receiver is a header if and only if its lower-cased name contains header, ends in .h, or is a known variable |
| TaintMeaning.HeaderContainerMeans | tools/dev_scripts/ast_analyzer.go:94-103 | a variable holds a header if it is known to, any other expression if its name contains header |
| TaintMeaning.RootReceiverNameMeans | tools/dev_scripts/ast_analyzer.go:28-37 | the receiver name is the dotted path from an identifier |
| TaintMeaning.ResolveConstMeans | tools/dev_scripts/ast_analyzer.go:39-52 | a literal or a constant stands for its text without quotation marks, lower-cased, anything else for nothing |
| TaintMeaning.TrimQuotesMeans | tools/dev_scripts/ast_analyzer.go:39-52 | quotation marks of three kinds are taken from both ends until neither end is one |
| TaintMeaning.SubNodesOccur | tools/dev_scripts/ast_analyzer.go:136-164 | the traversal visits exactly the parts of an expression |
| TaintMeaning.StmtNodesOccur | tools/dev_scripts/ast_analyzer.go:297-341 | and exactly those of the expressions of a statement |
| TaintMeaning.SuffixTextMeans | tools/dev_scripts/ast_analyzer.go:323-327 | a suffix is tested by its value, or by its text when it has none |
| TaintLimits.ReceiverRecognised | tools/dev_scripts/ast_analyzer.go:60-66 | a header variable is recognised as a receiver, in every set holding it, if and only if its name has no capitals, contains "header" or ends in ".h" |
| TaintLimits.ReadRule | tools/dev_scripts/ast_analyzer.go:105-165 | x.Get("Origin") and x["Origin"] are tainted if and only if their text says so, x is a header receiver, or x is tainted |
| TaintLimits.ReadThroughVariable | tools/dev_scripts/ast_analyzer.go:54-92 | after x := r.Header and o := a read of either kind from x, o is tainted if and only if x is such a name |
| TaintLimits.FoundExactly | tools/dev_scripts/ast_analyzer.go:280-294 | a name is found if and only if some statement pairs it with a right-hand side that the result makes tainted, or a header |
| TaintLimits.SecondResultIsLost | tools/dev_scripts/ast_analyzer.go:255-263 | in any body, a, b := f with one right-hand side gives the same result as a := f |
| TaintLimits.SlowPass | tools/dev_scripts/ast_analyzer.go:282-293 | on the slow program each pass finds exactly one fact |
| TaintLimits.BoundIsAttained | tools/dev_scripts/ast_analyzer.go:280-294 | for every n there are assignments to n names for which the loop makes exactly 2n + 1 passes |
| LogRotation.Logger.constructor | go-agent/logger/logger.go:42-72 | whatever files and log earlier runs left, the defaults of 2 MiB and 5 backups, and no line gained or lost in any backup |
| LogRotation.StartUp | go-agent/cmd/main.go:322-330 | after Init and the configured settings the files are a suffix of the log of all runs if and only if they were for the configured count, and what the last run guaranteed with those settings holds on |
| LogRotation.Logger.Rename | go-agent/logger/logger.go:104-110 | a rename replaces its target, and does nothing when its source is missing |
| LogRotation.Logger.ShiftFiles | go-agent/logger/logger.go:102-116 | the descending loop moves every file up one place, drops the last, and no rename meets a live file |
| LogRotation.Logger.Rotate | go-agent/logger/logger.go:86-117 | one rotation exactly when the text of the current file is at least maxBytes long; files that were a suffix of the log stay one |
| LogRotation.Logger.Log | go-agent/logger/logger.go:150-172 | one rotation exactly when the text of the current file is at least maxBytes long, then the line last in the current file; files that were a suffix of everything logged still are, with exactly the rotated-out lines dropped, and fixed settings keep their sizes |
| LogRotation.Logger.Append | go-agent/logger/logger.go:169-171 | the line is last in the current file and last in the log |
| LogRotation.Logger.SetMaxBytes | go-agent/logger/logger.go:127-133 | only a positive limit is taken |
| LogRotation.Logger.SetBackupCount | go-agent/logger/logger.go:119-125 | lowering the count keeps the files a suffix; raising it does if and only if the lines that count again are a suffix of the dropped ones |
| LogRotation.RaisingKeepsSuffix | go-agent/logger/logger.go:119-125 | that condition, for any files, counts and log |
| LogRotation.LoweringKeepsSuffix | go-agent/logger/logger.go:119-125 | lowering is always safe |
| LogRotation.Retention | go-agent/logger/logger.go:86-117 | with fixed settings the text kept is all of the log or at least k * maxBytes long, and each file is shorter than maxBytes plus its last line |
| LogRotation.BytesAreText | go-agent/logger/logger.go:91-94 | the size that rotation goes by is the length of the concatenated lines |
| LogRotation.TextMeans | go-agent/logger/logger.go:169-171 | the text of lines one after the other is their texts one after the other |
| LogRotation.RotatedShiftsKept | go-agent/logger/logger.go:102-116 | after a rotation backups j..1 hold what files j-1..0 held |
| LogRotation.TurnedKeepsSuffix | go-agent/logger/logger.go:86-117 | dropped lines followed by kept ones remain the whole log |
| LogRotation.RotatedSized | go-agent/logger/logger.go:86-117 | a rotation keeps full backups without gaps |
| LogRotation.WriteKeeps | go-agent/logger/logger.go:150-172 | rotate-then-write keeps them too |
| LogRotation.TurnedWritten | go-agent/logger/logger.go:150-172 | rotate-then-write is one rotation or none, followed by the line |
| LogRotation.ThreeLinesReached | go-agent/logger/logger.go:150-172 | the run that sets up the next row |
| LogRotation.RaisingBackupCountRevivesStaleLines | go-agent/logger/logger.go:119-125 | a case that fails the condition: lowering the count, logging and raising it again leaves files that are no suffix of the log |
| Watchdog.Device.constructor | go-agent/watchdog/watchdog.go:36-49 | a device with the given checkpoint file and configuration |
| Watchdog.Device.ExportUci | go-agent/cmd/main.go:1219-1240 | the checkpoint path holds the raw export, nothing readable, or what it held |
| Watchdog.Device.WriteCheckpoint | go-agent/watchdog/watchdog.go:117-139 | wherever the save stops, the file is the old one or wholly the new checkpoint |
| Watchdog.Device.Restore | go-agent/watchdog/watchdog.go:188-222 | which of snapshot, import and defaults decides, and the exact configuration after it |
| Watchdog.Watchdog.constructor | go-agent/watchdog/watchdog.go:36-49 | state of a complete, sealed checkpoint, else safe mode with a zero count |
| Watchdog.Watchdog.LoadAndVerifyCheckpoint | go-agent/watchdog/watchdog.go:141-164 | loads exactly a sealed checkpoint, else changes nothing |
| Watchdog.Watchdog.Suspend | go-agent/watchdog/watchdog.go:51-56 | suspended, safe mode and count untouched |
| Watchdog.Watchdog.Resume | go-agent/watchdog/watchdog.go:58-63 | no longer suspended, safe mode and count untouched |
| Watchdog.Watchdog.IsSafeMode | go-agent/watchdog/watchdog.go:65-72 | safe mode is reported exactly when active and not suspended |
| Watchdog.Watchdog.RecordHealthCheckSuccess | go-agent/watchdog/watchdog.go:75-95 | one step of the mode; the count stays in 0..4, and is 0 outside safe mode; leaving it is saved |
| Watchdog.Watchdog.SaveCheckpoint | go-agent/watchdog/watchdog.go:103-107 | the file holds mode, count and the given configuration, or what it held |
| Watchdog.Watchdog.ExecuteRollback | go-agent/watchdog/watchdog.go:177-244 | restored configuration as by Restore, safe mode with a zero count, saved or not |
| Watchdog.Perform | go-agent/watchdog/watchdog.go:36-244 | success, rollback, restart, save and raw export on the objects are steps of one state machine over mode and file |
| Watchdog.SafeUntilFiveInARow | go-agent/watchdog/watchdog.go:75-95 | after a saved rollback, in every run of successes, rollbacks, restarts and raw exports with crashes in the writes, safe mode lasts until five successes come with no restart or rollback among them |
| Watchdog.FifthSuccessEndsSafeMode | go-agent/watchdog/watchdog.go:83-92 | the fifth ends it, and a restart brings it back only if that save was lost |
| Watchdog.FiveSuccessesEndSafeMode | go-agent/watchdog/watchdog.go:75-95 | without restarts: safe mode if and only if fewer than five successes since the latest rollback, which the count is |
| Watchdog.RebootAfterRollback | go-agent/watchdog/watchdog.go:177-244 | a restart after a rollback is in safe mode unless its save was lost over a sealed checkpoint that says otherwise |
| Watchdog.RebootAfterExport | go-agent/cmd/main.go:1219-1240 | a restart after an export is in safe mode if and only if the export opened the file or the file would have said so |
| Watchdog.RollbackRestoresLastExport | go-agent/watchdog/watchdog.go:188-222 | in every run from any mode and file, a rollback whose import succeeds restores c whatever came after, if and only if c was exported completely, in the run or before it, and since then nothing was saved and no export opened the file |
| Watchdog.FileIsLastExport | go-agent/cmd/main.go:1219-1240 | in every run from any mode and file, the file is the export of c if and only if nothing touched it since that export completed, in the run or before it |
| Watchdog.OnlyExportsDetermine | go-agent/watchdog/watchdog.go:188-222 | the file alone determines the restored configuration if and only if it is a complete export |
| Watchdog.ExportThenRollback | go-agent/watchdog/watchdog.go:177-244 | a rollback right after a complete export restores it exactly, or sets the defaults when the import fails; the next one only sets the defaults, provided the first was saved |
| WifiBoost.BoostLoop.constructor | go-agent/cmd/main.go:465 | eco mode, no ticks |
| WifiBoost.BoostLoop.TelegramBoost | go-agent/cmd/main.go:497-507 | /boost sets the flag when its action succeeds, at any moment, also within a tick |
| WifiBoost.BoostLoop.BeginTick | go-agent/cmd/main.go:828 | the tick reads the flag once |
| WifiBoost.BoostLoop.ProcessTick | go-agent/cmd/main.go:860-886 | reverts exactly on the sixtieth or a later consecutive low-traffic tick, boosts exactly on high traffic in eco mode, each only if its action succeeds; the counter equals the low-traffic run of the history, hence 0 in eco mode |
| WifiBoost.BoostLoop.ModeChangesBounded | go-agent/cmd/main.go:860-886 | in N ticks, with any /boost commands, at most 2 (N / 60) + 1 mode changes |
| WifiBoost.RevertNeedsSixtyIdleTicks | go-agent/cmd/main.go:868-876 | a revert ends at least 60 processed ticks in a row with low traffic while boosted |
| WifiBoost.RevertsApart | go-agent/cmd/main.go:868-876 | two reverts are at least 60 processed ticks apart |
| WifiBoost.RevertsBounded | go-agent/cmd/main.go:868-876 | sixty times the reverts is at most the number of ticks |

## Left out

- AiClient.AIClient.CallThroughBreaker: calls of other goroutines that come between its steps are left to Begin, Ask and End; the same holds for Execute and Analyze.
- EventBus.EventBus.Publish: calls that come between its steps are left to BusProtocol; the published event is taken not to be one of the bus's own stored clones, which no method hands out; handlers are recorded as scheduled, not run.
- LogRotation.Logger.ShiftFiles: renames of files that exist, and opening the new current file, are taken to succeed; lines are ASCII, so that characters are bytes.
- LogRotation.Logger.Log: the level filter, the redaction and the formatting come before it; the finished line is its input.
- Telemetry.TelemetryCollector.CollectMetrics: the byte counters are inputs; the other readings of a metric are not kept.
- SkillStore.Media.Open: a copy from flash either completes or leaves no database; a file torn by a crash during the copy, corruption salvage and fsync are not modelled.
- SkillStore.QueryBest: SQL's choice among rows equal in value and time is left open.
- Watchdog.Device.Restore: the effect of an import that succeeds on a torn or foreign file is a parameter; commit and service reloads are foreign effects.
- Watchdog.Watchdog.LoadAndVerifyCheckpoint: SHA-256 and JSON are one predicate, `sealed`: corruption is detected and a sealed file decodes to what was saved.
- TaintWorklist.AnalyzeFunction: a body is the list of its statements in the order of the traversal, nested ones in their place.
- TaintWorklist.IsExprTainted: the parsed tree and the rendered text of an expression are inputs; collecting the file's constants, and lower-casing beyond ASCII, are not modelled.
- Telemetry.RateFormula: rounding to whole Kbps by `%.0f` is not modelled.
- IEEE rounding, NaN and infinities: all arithmetic is over the reals.
- Writer preference of Go's read-write mutex: the protocol admits every interleaving the lock admits, and more.
- A waiting Stop called from inside a task would wait for itself: tasks are taken not to call Stop.
- `Orchestrator.TransitionTo`, intents, fan curve, risk thresholds, role checks, skill upsert and pruning: short case splits that depend on their callers.
- `SetMilestoneLatch` and `IsMilestoneLatchSet`: a plain insert and a plain lookup of a latch row.
- HTTP handlers, Telegram and Gemini transport, ubus, uci and sysctl commands: an action is only its success or failure.
