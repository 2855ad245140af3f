# Verification of the webhook bot's request path

This project models the parts of the bot that hold state between requests, and proves what they promise
over whole runs:

- **Job queue and worker pool** (`Deduplicator`, `StatsCollector`, `JobQueue`, `WorkerPool`,
  `QueueInvariants`, `QueueTheorems`, `QueueBounds`, `QueueHistory`, `QueueStatistics`, `Shutdown`). The
  classes perform the operations in place. Their meaning is a step machine (`WorkerPools.Next`) whose steps
  are what runs between two suspension points: `enqueue`, `drain`, `stop` and the non-waiting `get` are one
  step each; a waiting `get` is split into starting its two getter tasks, a getter taking an item, and the
  worker resuming with a winner. Each underlying queue carries a ghost ledger of everything put into it and
  of everything that left it, by class: finished, evicted, drained, abandoned. A run is any interleaving of
  steps of any number of workers.
- **Time windows** (`SlidingWindow`, `RateLimiter`, `ApiRateLimiter`, `RubikaClient`, `AntiFlood`): the
  sliding-window log, the token bucket with the retry loop that uses it, and the flood plugin's window per
  sender. Clocks are inputs that do not go back; time is a real number.
- **Group settings behind the cache** (`LruTtlCache`, `LruHistory`, `Repository`, `CacheRecency`).
- **Messages** (`Messages`, `DeleteHandler`): retention against queries for recent messages.
- **The .env file** (`EnvFile`): the installer's printer against the command line tool's parser.

Every method is proved equal to a function of its inputs and the old state; the theorems are lemmas about
those functions over all histories.

## What the proofs found

The model keeps the code as it is; these behaviours are stated as theorems.

- A worker that resumes from a waiting `get` after both of its getters have completed returns one item and
  loses the other (app/core/queue.py:131-146). `QueueTheorems.NothingLostIff` says that items are lost
  exactly so; `QueueTheorems.AcceptedJobCanBeLost` is a run in which an accepted job is lost.
- When the lost item is a sentinel, `stop` waits forever. `Shutdown.StopCompletesIff` says that `stop` returns
  if and only if after it no worker resumed with a normal item although its other getter had taken a
  sentinel; `Shutdown.StopCanHang` is a run with such a step.
- A grant of `ApiRateLimiter` that had to wait costs two tokens, because the balance is set to 0 after the
  sleep and then lowered by one (app/core/rubika_client.py:32-34). Under saturation only half of the
  configured rate is granted (`ApiRateLimiters.WaitedGrantsCountTwice`).
- A job turned away as "dropped" has already marked its key. An offer is a duplicate exactly when its key was
  found new by an offer at most `ttl_seconds` earlier, accepted or not (`QueueHistory.DuplicateIff`), so such
  a job can be retried only after the time-to-live (`QueueHistory.RetryIsDuplicate`).
- `_size` can exceed `max_size` under "drop_oldest": `QueueBounds.SizeStaysWithinIff` gives the enqueues that
  do it, and that there is none under "reject"; `QueueBounds.SizeCanExceedMax` is a run with one.
- The queues can hold more than `max_size` items, because `drain` sets `_size` to zero even while getters
  hold items, and because sentinels are not counted. `QueueBounds.BacklogIsBounded` says by how much at most,
  in every run: by the sentinels put and by what getters held at the worst drain. So the limit holds in runs
  without `stop` in which no getter holds an item at any drain. `QueueBounds.BacklogStaysWithinIff` gives the
  steps that break it, and `QueueBounds.BacklogCanExceedMax` is a run with one. With `max_size` below one,
  "drop_oldest" still admits one job, so the limit is `Max(1, maxSize)`.
- The flood plugin's key joins chat and sender with a colon. A sender can be punished for another's messages
  in another chat if and only if one of the two chat ids is the other followed by a colon and more
  (`AntiFlood.SendersAreMixedIff`; `AntiFlood.PunishedForAnother` gives the histories).
- `RateLimiter` admits as many requests as any schedule under its window bound if and only if the window is
  not negative or the allowance is positive (`RateLimiters.GreedyIsOptimalIff`).

## Model

| member | source | states |
|---|---|---|
| QueueTheorems.EveryItemIsInOnePlace | app/core/queue.py:90-191 | In every interleaving, every item ever put into a queue is in exactly one of: queued, taken by a getter, held by a worker, finished, evicted, drained, abandoned; and items leave in the order in which they were put |
| QueueTheorems.UnfinishedIsExact | app/core/queue.py:109-191 | The unfinished-task counter of a queue always equals queued + taken + held + abandoned items |
| QueueTheorems.TaskDoneNeverRaises | app/core/queue.py:109-191 | `task_done` is never called once too often: no worker of any run dies of the ValueError, and the counter of each queue is never below its length, so neither an eviction nor a drain raises it; a worker is reported alive exactly until it has exited |
| QueueTheorems.JoinMeansAllDone | app/core/queue.py:164-165 | What `join` waits for: the counter of a queue is zero if and only if everything put there was finished, evicted or drained |
| QueueTheorems.NothingLostIff | app/core/queue.py:131-146 | The number of abandoned items is the number of resumptions with both getters completed, so nothing is lost if and only if there was none |
| QueueTheorems.AcceptedJobCanBeLost | app/core/queue.py:131-146 | A concrete run that loses an accepted job: it is neither queued nor handled any more |
| QueueTheorems.SizeCountsUndelivered | app/core/queue.py:95-146 | Without drains and sentinels `_size` is exactly queued + taken + abandoned items; with them it never exceeds that and is never negative |
| QueueTheorems.ClampNeverBites | app/core/queue.py:109-146 | Without drains and sentinels `_size` is at least one whenever `get` decrements it, and whenever an eviction that finds an item does |
| QueueTheorems.DeliveryStep | app/core/queue.py:123-146 | A worker step lowers the number of undelivered items by one exactly when `get` returns, and `_size` with it |
| QueueBounds.BacklogIsBounded | app/core/queue.py:95-191 | In every run, under either full policy, the two queues together hold at most `max_size` items (one, if `max_size` is below one), plus the sentinels put, plus the most that getters held at any drain |
| QueueBounds.BacklogStaysWithinIff | app/core/queue.py:95-121 | The queues stay within `max_size` throughout a run if and only if no step of it overfills them: a new job accepted with the queues full and `_size` below `max_size`, or sentinels that do not fit |
| QueueBounds.BacklogCanExceedMax | app/core/queue.py:173-191 | A concrete run with a drain during a wait in which the queues hold two items at `max_size` 1, under either policy |
| QueueBounds.FirstOverflow | app/core/queue.py:96-104 | At any point of a run at which `_size` is within `max_size`, the next step takes it past if and only if it is an accepted job under "drop_oldest" at the limit with both queues empty (or `_size` zero) |
| QueueBounds.SizeStaysWithinIff | app/core/queue.py:95-121 | `_size` stays within `max_size` throughout a run, drains and `stop` included, if and only if the run has no such enqueue; under "reject" it always does (a negative `max_size` counts as zero) |
| QueueBounds.SizeCanExceedMax | app/core/queue.py:96-104 | A concrete run under "drop_oldest" in which `_size` is two at `max_size` 1 |
| QueueHistory.JobsLeaveInOrder | app/core/queue.py:167-171 | Per priority, the accepted jobs are always the jobs that have left that queue, in order, followed by the jobs still in it: FIFO, each job at most once |
| QueueHistory.NoJobIsOvertaken | app/core/queue.py:109-129 | In every run, when a `get` that does not wait hands out a normal item, every high job ever accepted has left its queue; when an `enqueue` evicts a high job, every normal job ever accepted has left its queue |
| QueueHistory.AcceptedKeysAreSpaced | app/core/queue.py:90-107 | In every run, two accepted jobs with the same key are more than `ttl_seconds` apart |
| QueueHistory.MarksAreThoseOfTheOffers | app/core/queue.py:90-94 | At every point of every run the marks are those of a filter asked exactly the offers made so far, in order of time |
| QueueHistory.DuplicateIff | app/core/queue.py:90-94 | At every point of every run an offer is a duplicate if and only if an earlier offer of its key was not one and was made at most `ttl_seconds` before |
| QueueHistory.DuplicateIffTwin | app/core/queue.py:90-94 | The same in terms of the jobs: an offer is a duplicate if and only if an earlier offer, not itself a duplicate and at most `ttl_seconds` before, was of a job with an equal deduplication key, a missing or empty key being replaced by the job id |
| QueueHistory.DedupKeysDecide | app/core/queue.py:91-94 | When one offer was found new within `ttl_seconds`, a job with a key is a duplicate of that job with a key if and only if the two keys are equal, whatever the job ids |
| QueueHistory.JobIdsDecide | app/core/queue.py:91-94 | When both keys are missing or empty, the job ids decide in the same way |
| QueueHistory.RetryIsDuplicate | app/core/queue.py:90-102 | After an offer found new, accepted or turned away, a retry within `ttl_seconds` is a duplicate; if no offer of the key was found new since, a retry is a duplicate if and only if it comes within `ttl_seconds` |
| QueueStatistics.StatisticsAddUp | app/utils/stats.py:23-41 | `total_enqueued` is the sum of all the classes of jobs, `total_updates` the finished jobs, `total_dropped` rejections plus evicted jobs, `total_deduped` the duplicates |
| QueueStatistics.StatisticsOfTheRun | app/utils/stats.py:23-41 | At every point of every run each counter is a count of its steps: `total_enqueued` and `total_deduped` the offers decided so, `total_dropped` those turned away and those accepted with an eviction, `total_updates` and `total_errors` the handlers that ended and those that raised, the dispatch times summed and the last one, and `last_queue_size` the size after the last accepted job |
| QueueInvariants.InitialInv | app/core/worker.py:43-47 | The invariant holds when the pool has just been started over an untouched queue |
| QueueInvariants.WorkerEffect | app/core/worker.py:59-81 | Every worker step, of whatever kind, moves at most one item of each queue from one class to another as listed in `Effect`, and touches nothing else |
| QueueInvariants.StepBalances | app/core/worker.py:59-81 | What a step takes out of a worker's hands is what it records in the ledger, on both queues |
| QueueInvariants.WorkerMoveKeeps | app/core/queue.py:123-162 | A balanced move of one item keeps the ledger, order, counter and routing invariant of a queue |
| QueueInvariants.EffectKeepsInv | app/core/worker.py:59-81 | Whatever has such an effect keeps the whole invariant |
| QueueInvariants.EnqueueKeeps | app/core/queue.py:90-121 | `enqueue`, with or without eviction, keeps the invariant |
| QueueInvariants.DrainAllKeeps | app/core/queue.py:173-191 | `drain` keeps the invariant at any moment, with getters in flight or not |
| QueueInvariants.StopKeeps | app/core/worker.py:49-54 | Putting the sentinels keeps the invariant |
| QueueInvariants.StepKeepsInv | app/core/worker.py:49-81 | Every enabled step of the machine keeps the invariant |
| QueueInvariants.RunKeepsInv | app/core/worker.py:43-81 | Every run keeps the invariant |
| Shutdown.WorkerStepsRunOut | app/core/worker.py:59-81 | With handlers that return, a run of worker steps alone is no longer than a bound computed from its first state |
| Shutdown.RestIsReached | app/core/worker.py:59-81 | From every reachable state the workers, left alone, come to rest |
| Shutdown.SentinelsMatchLiveWorkers | app/core/worker.py:49-66 | At every moment after `stop`, the sentinels queued, taken or abandoned are exactly as many as the live workers |
| Shutdown.NoLiveWorkerBlocks | app/core/worker.py:59-66 | After `stop`, while no sentinel has been abandoned, every live worker has a step of its own that it can take, so none is stuck behind empty queues |
| Shutdown.RunningPoolGetsDone | app/core/worker.py:59-81 | When the workers of a running pool are at rest, both queues are empty, everything ever put was finished, evicted, drained or abandoned, and the unfinished counter of each queue (what `join` waits for) is what was abandoned |
| Shutdown.ShutdownOutcome | app/core/worker.py:49-66 | When a stopped pool is at rest, the high queue is empty and the workers left waiting are as many as the abandoned sentinels; all workers have exited if and only if no sentinel was abandoned |
| Shutdown.StopCompletesIff | app/core/worker.py:49-66 | All workers exit, so that `stop` returns, if and only if in no step after `stop` a worker resumed with a normal item although its other getter had taken a sentinel; the workers left waiting are as many as such steps |
| Shutdown.HighJobsAreHandled | app/core/worker.py:49-81 | Everything high that was queued, taken or being handled at `stop`, and every sentinel, is finished when the pool is at rest, except for what was abandoned |
| Shutdown.CleanShutdown | app/core/worker.py:49-66 | When in no step after `stop` a worker resumed with a normal item although its other getter had taken a high one, whatever happened before, every worker exits, each on its own sentinel, and every high job pending at `stop` has been handled |
| Shutdown.StopCanHang | app/core/queue.py:131-149 | A concrete run after `stop` in which the only worker loses its sentinel and waits forever |
| JobQueues.JobQueue.constructor | app/core/queue.py:58-74 | A new queue is empty, with nothing counted |
| JobQueues.JobQueue.Enqueue | app/core/queue.py:90-107 | The decision and the whole new state of the queue, its deduplicator and the statistics |
| JobQueues.JobQueue.DropOldestJob | app/core/queue.py:109-121 | The new state after an eviction, or the old one when both queues are empty |
| JobQueues.JobQueue.GetNow | app/core/queue.py:124-146 | The non-waiting `get`: which item, from which queue, and the new state |
| JobQueues.JobQueue.TakeFrom | app/core/queue.py:131-132 | One completed getter takes the oldest item of its queue and changes nothing else |
| JobQueues.JobQueue.ResumeGet | app/core/queue.py:137-146 | The end of a waiting `get`: `_size` falls and the loser's item, if any, is abandoned |
| JobQueues.JobQueue.Append | app/core/queue.py:103-106 | The tail of `enqueue`: the job goes to the end of its own queue and is counted |
| JobQueues.JobQueue.PutRaw | app/core/queue.py:148-149 | The item goes to the end of the high queue; `_size` does not count it |
| JobQueues.JobQueue.TaskDone | app/core/queue.py:151-162 | Which queue's counter falls, when nothing happens, and exactly when asyncio would raise |
| JobQueues.JobQueue.Drain | app/core/queue.py:173-191 | Both queues are emptied, their items recorded as drained in order, `_size` becomes zero, and the reported numbers are the old lengths |
| JobQueues.JobQueue.DrainOne | app/core/queue.py:176-182 | The loop over one queue empties it, with one `task_done` an item |
| WorkerPools.WorkerPool.constructor | app/core/worker.py:27-41 | At least one worker is configured and none is running |
| WorkerPools.WorkerPool.Start | app/core/worker.py:43-47 | The configured number of fresh workers is added; over an untouched queue this is an initial state of the machine |
| WorkerPools.WorkerPool.StopWorkers | app/core/worker.py:49-52 | One sentinel is put per task: on a running pool the step `Stop` of the machine, after the tasks were cleared no change |
| WorkerPools.WorkerPool.ClearTasks | app/core/worker.py:53-54 | Once all workers are done the list of tasks is empty and nothing else changes |
| WorkerPools.WorkerPool.StepGetNow | app/core/worker.py:61-66 | A worker whose `get` need not wait takes the step `GetNow` |
| WorkerPools.WorkerPool.StepStartWait | app/core/queue.py:130-136 | A worker that finds both queues empty takes the step `StartWait` |
| WorkerPools.WorkerPool.StepTake | app/core/queue.py:131-136 | A getter of a waiting worker takes the step `Take` |
| WorkerPools.WorkerPool.StepResume | app/core/queue.py:137-146 | A waiting worker resumes with either completed getter: the step `Resume` |
| WorkerPools.WorkerPool.Receive | app/core/worker.py:61-69 | A job goes to the handler; a sentinel is marked done on the queue last read, and ends the worker |
| WorkerPools.WorkerPool.StepFinish | app/core/worker.py:68-81 | The handler returns or raises: the step `Finish`, with its statistics and its `task_done` |
| StatsCollectors.StatsCollector.RecordEnqueue | app/utils/stats.py:23-26 | One more job enqueued, and the queue size noted |
| StatsCollectors.StatsCollector.RecordDrop | app/utils/stats.py:28-29 | One more drop |
| StatsCollectors.StatsCollector.RecordDedup | app/utils/stats.py:31-32 | One more duplicate |
| StatsCollectors.StatsCollector.RecordDispatch | app/utils/stats.py:34-41 | One more update with its time, and one more error when it failed |
| Deduplicators.Deduplicator.Seen | app/utils/dedup.py:11-21 | The answer and the new marks; a missing key is never a duplicate and leaves no mark |
| Deduplicators.SeenMatchesHistory | app/utils/dedup.py:11-21 | A key is answered "seen" if and only if it was answered "new" at most `ttl_seconds` ago, so duplicates never extend the window |
| Deduplicators.FreshAnswersAreSpaced | app/utils/dedup.py:11-21 | Two "new" answers for one key are more than `ttl_seconds` apart |
| Deduplicators.MarksAreFreshQueries | app/utils/dedup.py:14-21 | Every surviving mark was left by a query answered "new", at the recorded time |
| Deduplicators.FreshQueriesStayMarked | app/utils/dedup.py:14-21 | A query answered "new" stays marked until it has expired |
| Deduplicators.MarksAreTheUnexpired | app/utils/dedup.py:14-21 | The surviving keys are exactly the unexpired "new" ones and the one just added |
| SlidingWindow.PruneLoop | app/utils/rate_limiter.py:16-17 | The loop drops from the front exactly what `Prune` drops |
| SlidingWindow.PruneIsWindow | app/services/plugins/anti_flood.py:36-37 | On an ordered log the kept part is exactly the events inside the window that ends now |
| SlidingWindow.PruneTwice | app/utils/rate_limiter.py:16-20 | Forgetting expired events early makes no difference to what is kept later |
| SlidingWindow.BoundIsSpacing | app/utils/rate_limiter.py:18-19 | No closed window holds more than n events if and only if any n+1 consecutive ones span more than the window |
| RateLimiters.RateLimiter.Allow | app/utils/rate_limiter.py:14-21 | The answer and the new log |
| RateLimiters.LogIsPrunedHistory | app/utils/rate_limiter.py:14-21 | The log agrees with the full admission history as far as any later request can tell |
| RateLimiters.AdmitsIffRoom | app/utils/rate_limiter.py:14-21 | A request is admitted if and only if the window ending now holds fewer than `max_requests` admitted ones |
| RateLimiters.NeverTooMany | app/utils/rate_limiter.py:14-21 | No closed window of `window_seconds` ever holds more than `max_requests` admitted requests |
| RateLimiters.GreedyIsOptimal | app/utils/rate_limiter.py:14-21 | After every prefix of every arrival sequence, at least as many requests are admitted as by any choice that respects the same window bound |
| RateLimiters.NegativeWindowIsNotOptimal | app/utils/rate_limiter.py:14-21 | For every allowance not above zero and every negative window, one request is refused that the window bound would admit |
| RateLimiters.GreedyIsOptimalIff | app/utils/rate_limiter.py:14-21 | The greedy rule is optimal for all arrivals if and only if the window is not negative or the allowance is positive |
| ApiRateLimiters.ApiRateLimiter.constructor | app/core/rubika_client.py:16-20 | Rate at least 0.1, capacity at least one, a full bucket |
| ApiRateLimiters.ApiRateLimiter.Acquire | app/core/rubika_client.py:23-34 | The time of the grant and the new balance, with or without a sleep that may last longer than asked |
| ApiRateLimiters.GrantCosts | app/core/rubika_client.py:25-34 | A grant lowers the balance, net of what the time brought in, by at least one, and by at least two when it had to wait |
| ApiRateLimiters.BalanceBounds | app/core/rubika_client.py:23-34 | After any requests the balance is between -1 and the capacity; it is -1 right after a waited grant and not negative after any other |
| ApiRateLimiters.GrantsAreBounded | app/core/rubika_client.py:23-34 | Grants i to j, with one more for every waited one in between, number at most capacity + rate * (time between them) |
| ApiRateLimiters.WaitedGrantsCountTwice | app/core/rubika_client.py:29-34 | From a waited grant on there is no burst left and each waited grant counts twice against the rate |
| ApiRateLimiters.NextAfterWait | app/core/rubika_client.py:29-34 | The grant after a waited one comes at least 2/rate later |
| ApiRateLimiters.NewLimiterIsBounded | app/core/rubika_client.py:16-34 | From a new limiter on, for all its settings, grants i to j number at most burst (at least one) + rate (at least 0.1) * (time between them) |
| ApiRateLimiters.WaitsIff | app/core/rubika_client.py:25-34 | A request waits if and only if the balance plus what the elapsed time brought in is less than one token; how long it waits, and what it leaves when it does not |
| ApiRateLimiters.SleepIsShort | app/core/rubika_client.py:29-31 | No request of any history is granted later than 2/rate after it was made, apart from the overshoot of its sleep, and one that does not wait is granted at once |
| ApiRateLimiters.NewLimiterGrantsBurst | app/core/rubika_client.py:16-34 | The first max(burst, 1) requests of a new limiter do not wait, whenever they come |
| ApiRateLimiters.IdleTimeRefills | app/core/rubika_client.py:25-34 | After (m + 1)/rate without a grant the next m requests do not wait, for every m up to the capacity |
| ApiRateLimiters.IdleRequestIsGranted | app/core/rubika_client.py:25-34 | A request made at least 2/rate after the previous grant is granted at once |
| RubikaClients.RubikaClient.LimiterOf | app/core/rubika_client.py:54-56 | One limiter an API method, created on first use with a burst of five |
| RubikaClients.RubikaClient.ApiCall | app/core/rubika_client.py:58-89 | The call terminates on every sequence of outcomes, posts up to the first one not worth retrying or max(retry_attempts, 0) + 1 times, and answers from the last; the method's limiter, new or old, is charged once a post and once for every request other calls get in, and the limiters of all other methods stay as they were |
| RubikaClients.RubikaClient.CallWith | app/core/rubika_client.py:60-96 | The retry loop, with other calls using the limiter between the posts: one grant a post, and the total backoff sleep in closed form |
| RubikaClients.SleepGrows | app/core/rubika_client.py:91-96 | One more retry adds the doubled backoff and one jitter to the closed form |
| RubikaClients.ResultInWords | app/core/rubika_client.py:67-89 | A transport failure and the statuses 408, 429 and from 500 on are retried while attempts are left and nothing else is; what each last outcome returns |
| RubikaClients.SleepBounds | app/core/rubika_client.py:91-96 | After k retries the requested sleep is between b(2^k - 1) and b(2^k - 1 + k) |
| RubikaClients.TakeTurn | app/core/rubika_client.py:63-63 | The limiter serves the calls that come before and then this one, each charged in turn |
| RubikaClients.PostsAreRateLimited | app/core/rubika_client.py:60-66 | In any interleaving with other calls of the same method, posts i to j of a call, retries included, together with what the others were granted in between, number at most capacity + rate * (time between them) |
| AntiFlood.AntiFloodPlugin.Handle | app/services/plugins/anti_flood.py:18-45 | Whether the plugin fires, what it deletes and bans, in order, and the new windows |
| AntiFlood.DequeIsPrunedHistory | app/services/plugins/anti_flood.py:33-38 | Each deque agrees with the full history of its key as far as any later message can tell |
| AntiFlood.FiresOnKeyCount | app/services/plugins/anti_flood.py:33-45 | It fires if and only if the key's counted messages within the window, this one included, exceed `flood_limit` |
| AntiFlood.KeysAreIndependent | app/services/plugins/anti_flood.py:34-34 | Two senders share a key only if they are the same one, or one chat id is the other followed by a colon and more |
| AntiFlood.KeysCollideIff | app/services/plugins/anti_flood.py:34-34 | Two different chats have senders with one key if and only if one chat id is the other followed by a colon and more |
| AntiFlood.FiresOnSenderCount | app/services/plugins/anti_flood.py:18-45 | When no chat of the history collides with this one, it fires if and only if that sender's counted messages in that chat within the window, this one included, exceed `flood_limit` |
| AntiFlood.PunishedForAnother | app/services/plugins/anti_flood.py:33-45 | With a shared key, a sender's first message is punished after as many messages of the other sender as the limit allows, for every limit and window |
| AntiFlood.SendersAreMixedIff | app/services/plugins/anti_flood.py:18-45 | Some history of two chats gets a message judged otherwise than by its sender's own messages if and only if the two ids collide and the window is not negative |
| AntiFlood.UncountedChangesNothing | app/services/plugins/anti_flood.py:21-32 | An update with a missing id, with the plugin off or from an admin can be struck from any history without changing any window |
| AntiFlood.LeftOutUpdates | app/services/plugins/anti_flood.py:26-32 | An update from an admin, of a group with the plugin off, or whose chat or sender id is missing or empty never fires and can be struck from any history |
| AntiFlood.OtherUpdatesCount | app/services/plugins/anti_flood.py:33-38 | Every other update adds exactly its time to its sender's history, and to no other |
| LruTtlCaches.LruTtlCache.constructor | app/utils/cache.py:12-15 | Size and time-to-live are at least one; the cache is empty |
| LruTtlCaches.LruTtlCache.Get | app/utils/cache.py:17-27 | A hit returns the value, moves the entry to the newest end and keeps its time; an expired entry is removed |
| LruTtlCaches.LruTtlCache.Set | app/utils/cache.py:29-33 | The entry goes to the newest end with the time of the call; the oldest entries are evicted down to `max_size` |
| LruTtlCaches.LruTtlCache.Invalidate | app/utils/cache.py:35-36 | Exactly the key's entry is removed |
| LruTtlCaches.LruTtlCache.Clear | app/utils/cache.py:38-39 | Nothing is left |
| LruTtlCaches.WithoutKeeps | app/utils/cache.py:35-36 | Removing a key leaves distinct keys without it, and one entry fewer if it was there |
| LruHistory.CacheIsLruOrdered | app/utils/cache.py:17-36 | After any operations the keys are distinct, at most `max_size`, and ordered by their last touch (a set or a successful get) |
| LruHistory.EntriesCarrySetTime | app/utils/cache.py:22-31 | An entry carries the time and the value of the last set of its key: hits do not renew it |
| LruHistory.NotCrowdedOut | app/utils/cache.py:29-33 | With fewer than `max_size` other keys touched since, a set evicts others but not this key |
| LruHistory.FreshKeyIsHit | app/utils/cache.py:17-36 | A key set within the time-to-live, not invalidated since its last touch, with fewer than `max_size` other keys touched since then, is a hit, with the value last set |
| Repositories.Repository.constructor | app/db/repository.py:24-26 | A repository over given rows starts with an empty cache |
| Repositories.Repository.GetGroup | app/db/repository.py:58-88 | The cached settings on a hit, else those of the table or the defaults of the code, which are then cached |
| Repositories.Repository.UpsertGroup | app/db/repository.py:42-56 | The new table, the invalidated entry, and the settings read back |
| Repositories.Repository.SetGroupFlag | app/db/repository.py:90-97 | The flag of an existing row is set, a missing row is left missing, and the entry is invalidated |
| Repositories.CacheIsTransparent | app/db/repository.py:42-97 | When all writes go through the repository, every reply of any history is that of a repository without a cache |
| Repositories.InsertChangesOnlyTitle | app/db/migrations.py:19-30 | Inserting a missing group changes only its title, as the schema's defaults are those of the code |
| Repositories.SettingsAreColumns | app/db/repository.py:63-86 | The settings of a group with a row are its columns one by one; of a group without one, the listed defaults |
| Repositories.FlagChangesItsSetting | app/db/repository.py:90-97 | Setting each of the five flags changes exactly the setting of that name of a group with a row; a missing row and every other group answer as before |
| Repositories.FlagIsAnswered | app/db/repository.py:58-97 | A flag that was set is what every later `get_group` of that group answers until it is set again, whatever else happens and whatever the cache holds |
| Repositories.EntriesWereRead | app/db/repository.py:58-88 | Every cached entry is what the table said at the time in its stamp |
| Repositories.StalenessIsBounded | app/db/repository.py:58-88 | With arbitrary outside writes, a reply at time t is what the table said at some event no earlier than t - ttl |
| CacheRecency.CacheHoldsCachedKeys | app/db/repository.py:58-88 | Which groups are cached depends on the traffic alone, not on times, values or the time-to-live |
| CacheRecency.CacheHoldsTheMostRecent | app/db/repository.py:58-88 | Under any traffic the cached groups are a suffix of the full recency order |
| CacheRecency.LookupsKeepTheNewest | app/utils/cache.py:29-33 | Without flag changes they are exactly the newest `max_size` of it |
| CacheRecency.LargerCacheHoldsMore | app/db/repository.py:58-88 | A larger cache holds every group that a smaller one holds |
| Messages.MessageStore.SaveMessage | app/db/repository.py:154-171 | A row with a new largest id is added; from then on the queries of that chat begin with the new message id, followed by what they listed before, and those of all other chats are unchanged |
| Messages.MessageStore.FetchRecentMessageIds | app/db/repository.py:165-171 | min(count, limit) ids, or all for a negative limit; the k-th belongs to the row of the chat that exactly k of its rows are newer than by id |
| Messages.RecentIdsAreNewest | app/db/repository.py:167-171 | The positions of the listing are the ranks by row id, on every table sorted by id |
| Messages.MessageStore.TrimMessagesPerChat | app/db/repository.py:211-229 | Every chat keeps exactly its newest rows, and the result is the number of rows deleted |
| Messages.TrimKeepsNewest | app/cli/rubikactl.py:742-756 | The loop over the chats keeps exactly the newest min(count, limit) rows of every chat, in order |
| Messages.TrimIsIdempotent | app/db/repository.py:211-229 | A second trim deletes nothing |
| Messages.TrimmingIsInvisible | app/db/repository.py:154-229 | Any interleaving of saves and trims answers a query for l messages as if nothing had been trimmed, when every trim keeps at least l or all |
| Messages.QueryListsSaves | app/db/repository.py:154-229 | After any history whose trims all keep at least l messages, a query for l messages lists the message ids that were saved for the chat, newest first, cut to l |
| Messages.TrimmingIsVisibleOtherwise | app/db/repository.py:165-229 | For every other pair of limits there is a history that answers differently |
| DeleteHandlers.DeleteRecent | app/services/handlers.py:222-257 | On every argument and every outcome of the calls: 100, or the number given, between 0 and 10000, or as many as there are, of the newest messages are deleted, newest first; how many calls worked is reported; and the loop pauses after every 25th |
| DeleteHandlers.DelSeesUntrimmedHistory | app/services/handlers.py:228-239 | As long as every trim keeps at least 10000 messages, /del sees the ids it would see without trimming |
| EnvFile.ReadEnv | app/cli/rubikactl.py:38-47 | The map read from a file: later lines win, comments and lines without '=' are skipped, a missing file gives nothing |
| EnvFile.ParsedIff | app/cli/rubikactl.py:42-46 | A key has a value if and only if the last line that is no comment and has that key, stripped, before its first '=' has that value, stripped, after it |
| EnvFile.LinesAreSplit | app/cli/rubikactl.py:42-42 | A text splits at each line break, a carriage return and a line feed being one, and a last line without a break is a line too |
| EnvFile.StripIs | app/cli/rubikactl.py:46-46 | Stripping takes away all white space around a text and nothing else |
| EnvFile.RenderEnv | install.py:85-102 | The text is one line per setting that is written, each ended by a line feed |
| EnvFile.PrintedText | install.py:92-102 | The printed text in full, key by key, for all answers |
| EnvFile.RoundTripIffClean | install.py:85-102 | Parsing what was printed gives exactly the written settings if and only if no value has a line break inside or white space around it; '=' and '#' do no harm |
| EnvFile.ParsedIsClean | app/cli/rubikactl.py:42-46 | Whatever the file, every value read has no line break inside and no white space around it |
| EnvFile.PrintedAgain | install.py:92-102 | Printing the parsed result gives the same text again |

## Left out

- HTTP, JSON decoding (the body of a reply is taken to be an object), FastAPI routing, webhook registration, signatures and logging. An API call is an
  arbitrary sequence of outcomes.
- asyncio itself. What is relied on: a queue is unbounded and FIFO; `put` and a non-empty `get` do not
  suspend; a pending getter may take an item at any time its queue is not empty; a cancelled getter loses
  nothing; a completed getter holds its item; the locks serialise their holders. Cancelled workers and
  cancelled callers of `get` are not modelled.
- `_worker_loop` is modelled by the steps it is made of, because it runs forever; `_last_queue` is a field
  of the worker instead of a context variable.
- `put_raw` occurs in runs only through `stop`, and `max_size` is constant. Runs stop the pool once: a second
  `stop` while the first still waits for its workers is not a step of the machine.
- The queue and the pool share one statistics object, as app/main.py:131-141 wires them; a pool without one
  over a queue with one is not modelled. Averages, uptime and the time stamps of the statistics are left out.
- StatsCollectors.StatsCollector.RecordEnqueue: does not model `last_enqueue_at`, a wall-clock time that
  nothing else in the model reads.
- StatsCollectors.StatsCollector.RecordDispatch: does not model `last_update_at` and `last_error_at`, for the
  same reason.
- RubikaClients.RubikaClient.ApiCall: other calls of the same API method run in between; calls of other
  methods, which have limiters of their own, do not.
- Repositories.Repository.SetGroupFlag: the column is one of the five flags, where the source takes any text
  and a wrong one fails in SQLite.
- Job fields other than the id, the key and the priority, and the error fields and times of a worker's status.
- Floating point: times, tokens and sleeps are real numbers, without rounding.
- Aliasing of cached settings: a `GroupSettings` object handed out by the cache is a value here, so a caller
  that changed it in place is outside the model.
- SQLite: tables are maps and sequences, ids are strictly increasing, and a row holds the modelled columns
  only. NULL flags, time stamp columns, other writes than those named, and failing statements are left out.
- Repositories.StalenessIsBounded: the moment it names is that of an event of the history; the table
  changes only at events, so no other moment matters.
- Text files: a file is its decoded text, and the line breaks and white space are those of Python's
  `splitlines` and `strip`.
- The other handlers, the panel, the command registry, the filter list, the plugin chain, permissions,
  `safe_eval` and the link patterns; the rest of the installer and of the command line tools; migrations
  beyond the column defaults; the old dispatcher.
