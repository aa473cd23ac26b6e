# Disco-C: proofs about its stateful and algorithmic cores

Disco-C is a C library for Discord bots. This project models the parts of it whose correctness is
hardest to see from any one function, and proves what they do over whole runs:

- **The timed thread pool** (`Time`, `PrioQueue`, `Pool`, `ThreadPool`). The deadline queue is a
  linked list of heap nodes, the pool an object with the fields of `struct t_pool`. Each lock-held
  region is a method, proved equal to a function on the shared fields; `Pool` runs those functions
  as a protocol of workers, adders, a clock and the destroying thread, under every interleaving.
- **The HTTP retry machine** (`Request`). A request's work function is a method on its work node.
  All requests of a bot run on the pool of `Pool`, in steps as fine as the pool's own: a worker
  answers a request, puts it back under the lock, and returns, with other threads in between.
- **The object cache** (`Cache`, `CacheStore`, `Lru`). The recency queue is a doubly linked tail
  queue with an id map beside it, proved equal to a queue of cells; `Lru` relates it to a plain
  bounded recency list.
- **The gateway session and its websocket** (`Gateway`). The client object, driven by arbitrary
  sequences of library callbacks: fragment reassembly, identify or resume, the heartbeat thread,
  reconnecting and exiting.
- **Components** (`Component`, `ComponentParser`, `ComponentContents`): component trees on the heap, built
  from JSON, copied in depth and destroyed.
- **Commands** (`Command`): the JSON of commands, with the required options of every level first.
- **Message references** (`Reference`): ids printed as decimal strings and read back.
- **Environment files** (`EnvParse`): the scanning pass and the copying pass of `d_getenv`.

## How the model is built

Code that changes state is a class or a method with a loop, as in the source. Its contract ties the
new state to a function of the old one (`Core`, `Contents`, `State`, `Entries`), and the lemmas are
about that function and about runs of it. A run is a list of operations, actions or events; one
that is not possible leaves the state alone, so a lemma about every list is about every run.

Freed memory is not modelled as such: a method that frees returns, in order, what it hands to `free`
or to the destroy callback. Clocks, status codes, server answers, fragments and signals are inputs.

Two definitions come in two forms, one for the code as it is and one for what its documentation or
comments intend: `PrioQueue.Variant` (`AsWritten`, or `Repaired` with a walk that may pass the last
node) and `Cache.Mode` (`AsWritten`, or `Documented`, where a set of a cached id frees the old
entry). Everything stated without naming a form is about the code as it is.

## Where the code departs from its comments

- **The deadline queue is not sorted.** `prio_push` (`src/utils/prio_queue.c:22-32`) never inserts
  behind the last node. So the first task pushed into an empty queue stays at the end, whatever its
  deadline, until all others are gone; all the others are in order. `PrioQueue.QueueShape` and
  `PrioQueue.LastIsFirstSinceEmpty` give the exact shape. The queue is sorted all through a run
  exactly if no push was of a task due later than the one at the end
  (`PrioQueue.PushKeepsSortedIff`, `PrioQueue.SortedThroughoutIff`).
- **Tasks can start early.** The pool sleeps until a cached deadline that may be that of the last
  task, and then pops the head. This comes from one kind of call only: adding a task while exactly
  one is queued, when the deadline of that one passes while the new one is still early. Early can
  mean before its deadline or, as the pool itself compares, not after it; for either meaning, runs
  without such an add start nothing early, and after any such add the task can be started at every
  moment in between (`Pool.NeverEarlyIff`, `Pool.AddBehindOneEarlierStartsEarly`).
  `Pool.WrittenPoolStartsEarly` is a run in which a task is. With the repaired insertion no run
  starts a task early (`Pool.RepairedPoolIsPunctual`).
- **Backoff can be cut short** for that reason: a failed request put back while one other task is
  queued, due earlier, can be taken up at once (`Request.PutBackBehindOneStartsEarly`,
  `Request.BackoffIsCancelled`). In all other runs it is waited out (`Request.BackoffIsHonoured`);
  `Request.NeverCutShortIff` is the exact condition over whole runs.
- **A request is read after it may have been freed.** The worker that has put a request back reads
  it again before it returns (`src/web/request.c:184`); another worker may have completed and freed
  it by then. `Request.ReadersStaySafeIff`, `Request.NothingFreedIsRead` and
  `Request.TakenWhileReadCanBeFreed` say exactly when; `Request.FreedRequestIsRead` is a run. It can
  happen exactly if the pool has two threads or more (`Request.FreedIsReadIffTwoWorkers`).
- **A wakeup can be lost.** A worker reads the clock twice in one check (`src/utils/t_pool.c:26-27`).
  If the cached deadline passes in between, it sleeps without a timeout while a task is due.
  `Pool.LostWakeupIff` shows that this is the only step that leaves a queue unattended,
  `Pool.WakeupLostOnStraddle` is a run that does, and `Pool.OneReadingLosesNoWakeup` shows that
  one reading per check would be enough.
- **The carry of a deadline is tested with `>`** (`src/web/request.c:149`, `src/utils/t_pool.c:32`),
  so one million microseconds are possible, and a timed wait rejects exactly those
  (`Time.CarryIsMissed` is an input).
- **A set of a cached id does not free the old structure.** The header promises that it does
  (`include/utils/cache.h:56-57`), and the comment at `src/utils/cache.c:4-7` that it is cleaned up
  once it is at the front. In fact it stays in the queue, unmapped, until the cache is destroyed
  (`Cache.SupersededStayForEver`); the eviction loop, which looks ids up, gets stuck on it, so the
  limit is not respected (`Cache.SetRespectsLimitIff`, `Cache.LimitIsNotRespected`), and the
  structure just stored may be the one destroyed (`Cache.SetThenGetIff`,
  `Cache.NewestMayBeDestroyed`).
- **`prio_destroy_queue` leaves the last of two or more nodes unfreed** (`src/utils/prio_queue.c:58-63`).
- **INVALID_SESSION resets the sequence number and keeps the session id** (`src/web/gateway.c:87-90`),
  so the next HELLO is still answered with RESUME.
- **`websocket_destroy_client` cannot join the heartbeat thread**: it clears the flag before it
  tests it (`src/web/websocket.c:150-156`). It does no harm where the bot calls it, as no thread is
  left once the event loop has ended (`Gateway.DestroyAfterLoopLeavesNoThread`).
- **A request that is given up on has no response** (`src/web/request.c:105-113`); the source reads
  an unassigned pointer there.
- **A copied select menu shares its option array** with the source if it counts no options but has
  an array (`src/discord/component.c:90-97`). `Component.CopyIsDisjointIff` and
  `Component.BothCanBeDestroyedIff` give the exact condition, `Component.SharedArrayIsFreedTwice`
  an input. A tree built from JSON never has such a menu (`ComponentParser.Parse`), so it and its
  copy can both be destroyed (`ComponentParser.ParseCopyAndDestroy`). The structure inside a
  component is never freed, and neither are emojis, whose destroy is empty.
- **`d_getenv` carries its progress in the name from line to line** and takes any line whose key is
  a prefix of what is left of the name (`src/utils/env_parse.c:33-41`); a value at the end of the
  file without a newline loses its last byte. `EnvParse.LineIsTakenIff` says exactly which lines
  are taken, and `EnvParse.VariableIsFoundIff` behind which lines a variable is found.

## Model

| member | source | states |
|---|---|---|
| Time.ComparisonsAreOneOrder | src/utils/t_pool.c:15-19 | the field-by-field comparisons of the pool and of the queue are the two sides of one total order |
| Time.FieldOrderIsInstantOrder | src/utils/prio_queue.c:22 | that order is the order of instants in microseconds, except for two equal instants one of which missed its carry; on normalised times it is exactly that order |
| Time.TimeSpecKeepsInstant | src/utils/t_pool.c:28-35 | the conversion before a timed wait keeps the instant to the nanosecond, and its result is one a timed wait accepts exactly if the microseconds are not one million |
| Time.RateLimitDeadlineIsExact | src/web/request.c:144-152 | for every delay the rate-limit deadline is the present instant plus the delay cut to whole microseconds; for delays that are not negative it is not in the past and has at most one million microseconds |
| Time.RateLimitDeadlineInMicros | src/web/request.c:144-152 | in microseconds the deadline is the clock plus the delay, less than one microsecond off, and never later than asked for a delay that is not negative |
| Time.CarryIsMissedExactlyAtTheBoundary | src/web/request.c:149-152 | the deadline is left unnormalised exactly if the microseconds add up to one million |
| Time.CarryIsMissed | src/web/request.c:149-152 | an answer and a clock for which they do, with a deadline that a timed wait rejects |
| PrioQueue.Queue.constructor | src/utils/prio_queue.c:4-7 | a new queue is a valid list without nodes |
| PrioQueue.Queue.Walk | src/utils/prio_queue.c:20-25 | the walk over the nodes stops at the insertion slot, at the last node at the latest, with `prev` one node behind |
| PrioQueue.Queue.LinkIn | src/utils/prio_queue.c:28-32 | relinking puts the node before position `i` and leaves all others, and their order, alone |
| PrioQueue.Queue.Push | src/utils/prio_queue.c:9-34 | a push keeps the list valid, with its size, and inserts the entry at its slot |
| PrioQueue.Queue.Pop | src/utils/prio_queue.c:36-45 | a pop takes the first node off and leaves the rest as it was; on an empty queue it yields nothing |
| PrioQueue.Queue.DestroyNodes | src/utils/prio_queue.c:53-64 | of n nodes the first max(1, n - 1) are freed, each once, and with two or more the last is not |
| PrioQueue.SlotMeaning | src/utils/prio_queue.c:22-25 | everything before the slot is not later than the new deadline; the entry at the slot is later, unless it is the last one |
| PrioQueue.PushedKeepsEntries | src/utils/prio_queue.c:9-34 | a push adds its entry and loses or duplicates no other |
| PrioQueue.QueueShape | src/utils/prio_queue.c:9-45 | after every run of pushes and pops all entries but the last are in deadline order with ties in push order, and the last is the oldest task queued; with the repaired walk the whole queue is in that order |
| PrioQueue.LastIsFirstSinceEmpty | src/utils/prio_queue.c:14-32 | in every run the last entry is the one pushed when the queue was last empty |
| PrioQueue.QueueConserves | src/utils/prio_queue.c:9-45 | over every run the tasks pushed are those queued and those popped, as multisets |
| PrioQueue.PopTakesFront | src/utils/prio_queue.c:36-45 | in every run a pop takes the entry at the front and leaves the others in order |
| PrioQueue.PushKeepsSortedIff | src/utils/prio_queue.c:22-32 | a push keeps a sorted queue sorted exactly if the task is not due later than the last one queued, or none is |
| PrioQueue.SortedThroughoutIff | src/utils/prio_queue.c:9-45 | the queue is sorted all through a run exactly if every push of the run met that condition |
| PrioQueue.EarlyTaskBehindLaterOnes | src/utils/prio_queue.c:22-32 | three pushes that leave the earliest task at the end |
| PrioQueue.Queue.Insert | src/utils/prio_queue.c:20-33 | an insertion into a queue that is not empty puts the node at its slot |
| ThreadPool.ThreadPool.constructor | src/utils/t_pool.c:60-79 | a new pool has an empty queue, no cached deadline and all its threads counted |
| ThreadPool.ThreadPool.AddWork | src/utils/t_pool.c:81-104 | the shared fields after adding: the task is pushed, and its deadline cached if none was or it is earlier |
| ThreadPool.ThreadPool.PopWork | src/utils/t_pool.c:106-119 | the shared fields after a pop: the head is gone and the cached deadline is that of the new head, or unset |
| ThreadPool.ThreadPool.WorkerCheck | src/utils/t_pool.c:26-48 | for any two clock readings, one pass through the locked check has the effect and the outcome of the protocol's check, whose meaning is stated by Pool.CheckPutsToSleep and Pool.PopMeansSomethingIsDue |
| ThreadPool.ThreadPool.Stop | src/utils/t_pool.c:128-139 | destroying sets `stop` and frees the work of every queued task, in order, and the nodes, each once but the last of several never |
| Pool.AddKeepsSleepAgreement | src/utils/t_pool.c:93-99 | adding a task keeps the cached deadline in agreement with the queue |
| Pool.PopKeepsSleepAgreement | src/utils/t_pool.c:112-117 | so does popping one |
| Pool.StepKeepsShutdownAgreement | src/utils/t_pool.c:41-46 | every step of any thread keeps `thread_count` equal to the number of workers that have not exited |
| Pool.ReachableInv | src/utils/t_pool.c:21-152 | in every reachable state the cached deadline is unset exactly on an empty queue, is otherwise the deadline of the head or of the last task and not later than the head's, and the thread count is right |
| Pool.PopMeansSomethingIsDue | src/utils/t_pool.c:26 | a worker pops only if some queued task is due, and always if the head is |
| Pool.ClockIsLastReading | src/utils/t_pool.c:15-19 | the clock is that of the last reading and never goes back |
| Pool.CheckPutsToSleep | src/utils/t_pool.c:26-39 | after a check of a running pool the worker sleeps without a timeout if the queue is empty; works on the head if the cached deadline is past in the first reading; and if it is past in neither, sleeps until exactly that deadline, or stays awake if its microseconds are a full million |
| Pool.SleeperMakesNoCheck | src/utils/t_pool.c:36-38 | over any run a sleeping worker stays as it is and makes no check until it is woken, signalled or the pool destroyed |
| Pool.AddKeepsInStepIff | src/utils/t_pool.c:93-99 | an add takes the cached deadline away from the head's exactly if one task is queued and the new one is due later |
| Pool.PopRestoresStep | src/utils/t_pool.c:112-117 | every pop makes the cached deadline the head's again |
| Pool.OpeningIsFirst | src/utils/t_pool.c:15-27 | the moments from now on at which the guard of the check lets a pop through are those from one first moment on |
| Pool.BehindOneEarlierMeans | src/utils/t_pool.c:93-99 | the adds meant below, told by the two deadlines and the clock: one task is queued, and the new one is due later and not in the past, or, for a strictly early start, more than a microsecond later and in the future |
| Pool.StepStaysPunctualIff | src/utils/t_pool.c:21-119 | of all steps of all threads only such an add makes it possible that a task starts early, in either sense of early |
| Pool.PunctualRunsStartNothingEarly | src/utils/t_pool.c:26-48 | no run without such an add starts a task at or before its deadline, or before it, respectively |
| Pool.AddBehindOneEarlierStartsEarly | src/utils/t_pool.c:93-99 | after any such add some worker can start the task, within two steps of its own, at every moment from the passing of the queued deadline up to its own |
| Pool.NeverEarlyIff | src/utils/t_pool.c:21-119 | wherever a run is stopped and its workers left to themselves nothing starts early, in either sense, if and only if the run has no such add |
| Pool.RepairedPoolIsPunctual | src/utils/t_pool.c:26-48 | with the repaired insertion no run starts a task before its deadline has passed, and the task started is one due earliest |
| Pool.WrittenPoolStartsEarly | src/utils/t_pool.c:26-48 | a run of the code as written that starts a task due at 7 s at 6 s |
| Pool.SignalAttends | src/utils/t_pool.c:100 | the signal of an adder leaves some worker attending to the queue |
| Pool.LostWakeupIff | src/utils/t_pool.c:26-39 | a step takes an attended queue to an unattended one exactly if it is a check whose two clock readings lie on either side of the cached deadline, made by the only worker attending |
| Pool.NoLostWakeup | src/utils/t_pool.c:24-54 | in every run with at least one worker and without such a check, a nonempty queue always has a worker that is running, checking, woken, or asleep with a timeout not later than the cached deadline |
| Pool.OneReadingLosesNoWakeup | src/utils/t_pool.c:26-27 | so it is in every run in which both conditions of a check use one clock reading |
| Pool.WakeupLostOnStraddle | src/utils/t_pool.c:26-39 | a run that leaves the only worker asleep without a timeout while a task is due |
| Pool.AttendedQueueProgresses | src/utils/t_pool.c:24-54 | once the cached deadline of an attended queue has passed, some worker can start the head within two steps of its own |
| Pool.AttendingWorkerGetsThere | src/utils/t_pool.c:24-54 | and in every run from there, under any schedule, in which a worker that attended takes two steps of its own, some task is popped |
| Pool.NothingStartsAfterStop | src/utils/t_pool.c:41-46 | after `stop` no step pops a task, starts one or puts a worker to sleep |
| Pool.ShutdownTerminates | src/utils/t_pool.c:41-46 | every worker step of a stopping pool brings it one step closer to the end, and no other step brings it further away |
| Pool.OwnerWaitsForAll | src/utils/t_pool.c:121-144 | the wait returns only if every worker has exited, is not blocked once all have, and while one has not some worker can step |
| Request.WorkNode.constructor | src/web/request.c:241-257 | a request starts without transient failures |
| Request.WorkNode.Perform | src/web/request.c:107-169 | for every status code and answer the retry counter and the verdict are those of the machine, whose meaning is stated by Request.AnswerOutcome; a transfer is made exactly below five transient failures, and only then is there a response |
| Request.SubmissionStarts | src/web/request.c:241-257 | a submission queues a new live request without delay, with nothing on its books, and touches no other |
| Request.AnswerOutcome | src/web/request.c:107-169 | what becomes of a request, by its failures so far and the status alone: a 429 asking for w seconds leaves it live and due w seconds after the answer, to the microsecond; a 429 without a number loses it; 0, 409 and 500 to 599 put it off by 1, 2, 4, 8 and 16 seconds in turn; anything else completes it, and after five failures it completes unsent |
| Request.BookedStaysBalanced | src/web/request.c:107-169 | one attempt keeps the retry counter, the number of sends, the backoff and the callbacks of a request consistent |
| Request.PlacesAfterStep | src/web/request.c:153-164 | a request is added once by its submission and is gone exactly when an attempt completes or drops it; putting it back moves it, and no other step of any thread changes how often it is somewhere |
| Request.ReachableAlive | src/web/request.c:53-257 | in every run, with the put-back and the return of the work function as steps of their own, every live request is queued or in the hands of one worker, never both and never twice, and its books balance |
| Request.LifeCycle | src/web/request.c:107-257 | in every run each request is exactly one of queued, in flight, completed or dropped; its callback has run once if it has completed and else not; at most five sends end transiently, for 2^k - 1 seconds of backoff after k, at most 31; and it is attempted at most six times plus once per rate limiting |
| Request.RunIsPoolRun | src/web/request.c:153-164 | every run of requests is a run of the pool, step for step, and keeps the pool's invariant |
| Request.OnlyPutBacksQueueBehind | src/web/request.c:255-256 | after the epoch no submission can be queued behind one earlier task with a deadline to come, only a put-back |
| Request.StepKeepsOnTime | src/web/request.c:107-164 | while the pool is punctual every step keeps queued and running requests to their deadlines and to the backoff they were given |
| Request.BackoffIsHonoured | src/web/request.c:159-164 | in every run as written in which nothing is queued behind one earlier task, and in every run with the repaired insertion, no attempt is made before the deadline its request was given has passed, which after the k-th transient failure is 2^(k-1) s after the answer, and all backoff seconds have gone by since the submission |
| Request.RateLimitIsHonoured | src/web/request.c:139-156 | in the same runs, after a 429 that asks for w seconds, answered at t, no attempt on that request is made before w seconds after t have gone by, to the microsecond |
| Request.PutBackBehindOneStartsEarly | src/web/request.c:159-164 | as written, after any put-back behind one earlier task the request can be taken up again at every moment from the passing of the queued deadline up to the one it is to wait out |
| Request.NeverCutShortIff | src/web/request.c:159-164 | as written, wherever a run is stopped and nothing more is queued no request is started before its deadline has passed, if and only if no put-back of the run was behind one earlier task |
| Request.BackoffIsCancelled | src/web/request.c:159-164 | a run of two requests and one worker in which a failed request is taken up again at once |
| Request.ReadersStaySafeIff | src/web/request.c:153-188 | what a worker still reads after putting it back stays queued until, and only until, another worker takes it up |
| Request.NothingFreedIsRead | src/web/request.c:184 | in every run in which no worker takes up a request before the one that put it back has returned, none reads a freed request |
| Request.TakenWhileReadCanBeFreed | src/web/request.c:184-238 | after any other take-up, one successful answer frees the request while it is still read |
| Request.FreedRequestIsRead | src/web/request.c:184-238 | a run, for any pool of two workers or more, in which that happens |
| Request.FreedIsReadIffTwoWorkers | src/utils/t_pool.c:74-77 | some run reads a freed request if and only if the pool was given two threads or more |
| CacheStore.Buffer.Remove | src/utils/cache.c:180 | unlinking a node keeps the doubly linked queue valid and the other nodes in order |
| CacheStore.Buffer.InsertTail | src/utils/cache.c:194 | inserting at the tail keeps it valid and puts the node behind all others |
| CacheStore.Buffer.MoveToBack | src/utils/cache.c:180-181 | both together move a node to the back |
| CacheStore.Cache.constructor | src/utils/cache.c:68-110 | a new cache is empty and its limit that configured, or two if that is less |
| Cache.SetOnHit | src/utils/cache.c:176-194 | setting a cached id puts the old structure at the back, unmapped, and the new one behind it, and keeps all others in order |
| CacheStore.Cache.Get | src/utils/cache.c:222-249 | nodes and map after a get are the cells the specification gives, and it returns the structure of the mapped node or nothing |
| CacheStore.Cache.Delete | src/utils/cache.c:251-291 | a delete unlinks and unmaps the mapped node of the id and hands its structure to the callback, or does nothing |
| CacheStore.Cache.Insert | src/utils/cache.c:176-194 | the first half of a set: the old node goes to the back, unmapped, and the new one behind it |
| CacheStore.Cache.Trim | src/utils/cache.c:197-216 | the eviction loop never meets an empty queue and does what the specification's rounds do |
| CacheStore.Cache.Set | src/utils/cache.c:142-220 | a set keeps `size` equal to the queue length and every mapped node a queued node of the mapped id, and changes the cells as specified |
| CacheStore.Cache.SetOverwriting | include/utils/cache.h:55-61 | a set as the header documents it, with the previous entry freed |
| CacheStore.Cache.Destroy | src/utils/cache.c:112-140 | destroying empties queue and map and hands over every queued structure, front first |
| Cache.EvictInClosedForm | src/utils/cache.c:197-216 | for every queue and number of rounds the loop pops mapped nodes off the front up to the first unmapped one, and there deletes once the mapped node of its id, wherever it is |
| Cache.SetRespectsLimitIff | src/utils/cache.c:197-216 | after a set the queue is within its limit exactly if the loop has no more to remove than the mapped nodes in front of the first unmapped one, plus one if that one's id is mapped |
| Cache.SetThenGetIff | src/utils/cache.c:142-249 | a structure just set is returned by a get exactly if the loop does not get stuck at an unmapped node of the same id; otherwise the get finds nothing |
| Cache.ReachableOneMapped | src/utils/cache.c:142-291 | in every trace no two mapped nodes have the same id |
| Cache.SupersededStayForEver | src/utils/cache.c:176-204 | over every trace the unmapped nodes hold exactly the structures whose id was set again while cached, in that order, so none of them leaves and the queue has no bound |
| Cache.LimitIsNotRespected | src/utils/cache.c:197-204 | four sets that leave three structures in a cache of limit two |
| Cache.NewestMayBeDestroyed | src/utils/cache.c:197-204 | three sets of one id, the last of which destroys the structure it stores |
| Cache.EditKeepsOldStructure | src/discord/event.c:172-186 | an update of a cached message finds the old structure, and the set that follows does not destroy it |
| Cache.EveryStructureOnce | src/utils/cache.c:112-291 | in every trace each structure stored is queued or has been given to the callback, as often as it was stored; after the destroy all have been |
| Lru.ListIsByLastUse | src/utils/cache.c:222-249 | the recency list is always in order of last use, has one structure per id and respects the limit, so what is pushed out was used least recently |
| Lru.CacheRefinesLru | src/utils/cache.c:142-291 | queue and map are that list with every node mapped, and gets agree: as documented over every trace, as written over every trace that sets no cached id |
| Lru.RefinementNeedsFreshSets | src/utils/cache.c:176-194 | as written, the cache is a recency list after a trace exactly if no set of the trace met a cached id |
| Lru.ListInclusion | src/utils/cache.c:142-291 | over one trace the list for a smaller limit is a subsequence of that for a larger and has no more free room |
| Lru.CacheInclusion | src/utils/cache.c:142-291 | the same of the caches, so a larger limit never turns a hit into a miss |
| Gateway.MemoryChunk.Append | src/web/request.c:24-36 | growing the buffer keeps what it holds, adds the data behind it and terminates it |
| Gateway.WebsocketClient.constructor | src/web/websocket.c:109-116 | a new client is active, not logged in, without session and heartbeat thread |
| Gateway.WebsocketClient.Connect | src/web/websocket.c:136-139 | connecting discards a partial message and makes the client active |
| Gateway.WebsocketClient.Close | src/web/websocket.c:179-187 | closing joins the heartbeat thread exactly if one is active |
| Gateway.WebsocketClient.Exit | src/web/websocket.c:174-177 | exiting sets the flag and closes |
| Gateway.WebsocketClient.SendHeartbeat | src/web/gateway.c:18-27 | a heartbeat carries the sequence number, or null for -1 |
| Gateway.WebsocketClient.HandleIdentify | src/web/gateway.c:29-44 | a heartbeat and RESUME or IDENTIFY are sent, and a heartbeat thread is created if none is active |
| Gateway.WebsocketClient.HandleDispatch | src/web/gateway.c:46-59 | the effect of a DISPATCH on the client, whose meaning is stated by Gateway.MessageEffects and Gateway.SessionIsStored |
| Gateway.WebsocketClient.HandlePacket | src/web/gateway.c:61-127 | the effect of every opcode on the client |
| Gateway.WebsocketClient.Receive | src/web/websocket.c:54-74 | a fragment is appended; a final one delivers the whole message and empties the buffer |
| Gateway.WebsocketClient.Deliver | src/web/websocket.c:66-72 | the whole message is handed over and the buffer emptied |
| Gateway.WebsocketClient.Closed | src/web/websocket.c:35-52 | a closed connection is opened again, or the client becomes inactive for good |
| Gateway.WebsocketClient.Destroy | src/web/websocket.c:144-157 | the client is cleared, and no thread is joined |
| Gateway.OpenRunIsMaximal | src/web/websocket.c:60-72 | what counts as the open run of fragments cannot be extended, the meaning of the reassembly specification |
| Gateway.ReassemblyIsExact | src/web/websocket.c:54-74 | over every event sequence the messages delivered are exactly the joined fragment runs ending in a final fragment, in order, with a partial message discarded on reconnect, and the buffer holds the open run (section 5.4 of RFC 6455) |
| Gateway.SessionAgreesInRuns | src/web/gateway.c:46-59 | over every event sequence the sequence number is what the last message to touch it set, the session id that of the last READY with one, and a login implies a DISPATCH |
| Gateway.HelloResumesIff | src/web/gateway.c:29-44 | a HELLO is answered by a heartbeat and by RESUME exactly if a READY with a session id was handled before, else IDENTIFY, with the sequence number of the last numeric `s` since the last null `s` or INVALID_SESSION, or -1 |
| Gateway.EventEffects | src/web/websocket.c:29-33 | what an established connection, a beat of the heartbeat thread, a close and an exit do to the client |
| Gateway.MessageEffects | src/web/gateway.c:61-127 | what a message does, by the number of its opcode: 0 marks the login and follows `s`; 1 is answered by a heartbeat at once; 9 forgets the sequence number and joins the thread; 10 is answered, creates a thread and sets the interval modulo 2^32; anything else changes nothing |
| Gateway.SessionIsStored | src/discord/event.c:29-33 | only a READY with a session id to a bot with callbacks changes the stored one, to its first hundred bytes, or all of it |
| Gateway.SessionIsOfLastReady | src/discord/event.c:29-33 | in every run of a bot with callbacks the session id stored, and sent in a RESUME, is a prefix of the one the last READY gave, of length at most one hundred, and that id itself if it is no longer |
| Gateway.IntervalIsOfLastHello | src/web/gateway.c:97-105 | in every run the interval is that of the last HELLO with one, modulo 2^32, or ten seconds |
| Gateway.HeartbeatIsAnswered | src/web/gateway.c:108-110 | in every run a heartbeat asked for is sent at once, with the last sequence number |
| Gateway.AtMostOneThread | src/web/gateway.c:39-43 | over every event sequence the heartbeat threads created and not joined are one or none, as the flag says |
| Gateway.RunsStayQuiet | src/web/gateway.c:146-154 | over every event sequence no heartbeat thread is active once the event loop has ended or the connection is down for good |
| Gateway.DestroyAfterLoopLeavesNoThread | src/discord/disco.c:51-59 | so destroying the client after the event loop, as the bot does, leaves no thread unjoined |
| Gateway.DestroyLeavesThreadIff | src/web/websocket.c:144-157 | destroying it at any other time leaves a thread unjoined exactly if one is active |
| Gateway.DestroyAfterHelloLeavesThread | src/web/websocket.c:144-157 | destroying it after the first HELLO leaves one |
| Gateway.StepOnFlags | src/web/websocket.c:35-52 | what any event can do to the flags for exit, activity and looping, and to the number of connections |
| Gateway.ExitWhenAsked | src/web/websocket.c:174-177 | in every run an inactive client, an ended loop or an earlier request to exit means that the exit flag is set |
| Gateway.ReconnectsOnlyIf | src/web/websocket.c:40-45 | a connection is opened again only on a close, after a DISPATCH has been received, and never once an exit was asked for |
| Gateway.ExitIsFinal | src/web/websocket.c:174-177 | the exit flag is never taken back, and no connection is opened after it is set |
| Gateway.FinalCloseIsFinal | src/web/websocket.c:46-52 | after the final close no heartbeat thread is left, the client is never active again and never connects, and the event loop ends when it next comes round |
| Gateway.BeatsAreEven | src/web/gateway.c:129-144 | with a fixed interval I of at least 1, n rounds of the loop send exactly floor(n / ceil(I / 10)) heartbeats |
| Gateway.HeartbeatLoop | src/web/gateway.c:129-144 | for any flags and intervals that its rounds find, the loop serves the rounds up to the first with a flag cleared and sends a heartbeat exactly when the rounds since the last make up the interval |
| Gateway.FixedIntervalBeatsEvenly | src/web/gateway.c:129-144 | so with a fixed interval it sends one for every ceil(I / 10) rounds served |
| Component.CopyOption | src/discord/component.c:175-188 | the copy of an option is new throughout; each of its strings is there exactly if that of the same field is, and is its first 101 bytes or all of it; it has no emoji and the same preset |
| Component.CopyOptions | src/discord/component.c:93-97 | so is that of an option array, option by option in order |
| Component.CopyButton | src/discord/component.c:76-87 | so is the copy of a button, with 2050 bytes of its URL |
| Component.NewMenu | src/discord/component.c:88-100 | the strings and the plain fields of a copied menu are those of the source, with 101 bytes of its id and 151 of its placeholder |
| Component.CopyMenu | src/discord/component.c:88-100 | the copy of a menu is new but for an option array of which no option is counted |
| Component.CopyInput | src/discord/component.c:101-112 | so is the copy of a text input, with 101, 50, 4001 and 101 bytes of its strings |
| Component.CopyRow | src/discord/component.c:67-75 | the children of a row are copied in order |
| Component.Copy | src/discord/component.c:61-117 | for every finite tree the copy agrees with a shape whose content is that of the source, trimmed, and all of whose objects but shared option arrays are new; the source is unchanged |
| Component.TrimmingTwice | src/discord/component.c:61-117 | copying a copy changes no content, for every tree |
| ComponentContents.TrimmedIsKept | src/discord/component.c:61-117 | for every tree the contents of a copy have everything in its place: each string that of the same field up to the limit of the field, no emoji, and all else unchanged |
| ComponentContents.CopyIsKept | src/discord/component.c:61-117 | so it is of every copy on the heap |
| ComponentContents.CopyIsExactIff | src/discord/component.c:61-117 | a copy has the very contents of its source exactly if no string is longer than the limit of its field and there is no emoji |
| Component.CopyIsDisjointIff | src/discord/component.c:88-97 | source and copy have no object in common exactly if no menu that counts no options has an option array |
| Component.DestroyOption | src/discord/component.c:190-198 | what destroying an option hands to `free`, in order |
| Component.DestroyMenu | src/discord/component.c:137-146 | what destroying a menu frees, in order |
| Component.Destroy | src/discord/component.c:119-161 | what destroying a component and everything below it frees, in order |
| Component.DestroyFreesOnce | src/discord/component.c:119-161 | destroying any tree frees only its own objects, each once, and all of them but the structure inside each component and the emojis |
| Component.BothCanBeDestroyedIff | src/discord/component.c:61-161 | source and copy can both be destroyed without a double free exactly if they share no option array |
| Component.SharedArrayIsFreedTwice | src/discord/component.c:90-143 | a menu with an array and no option counted: destroying it and its copy frees the array twice |
| Component.CopyOfCountedIsSafe | src/discord/component.c:61-161 | for every tree whose arrays all count something the copy is disjoint from the source and both can be destroyed |
| ComponentParser.ParseOption | src/discord/component.c:163-173 | an option is built anew from JSON; each string is that of the same field up to 4097 bytes, and the preset is set exactly if the JSON says true |
| ComponentParser.ParseOptions | src/discord/disco.c:90-102 | reading a JSON list leaves a new array of its elements in order, or none if there are none |
| ComponentParser.ParseButton | src/discord/component.c:19-29 | so is a button, with its defaults |
| ComponentParser.ParseMenu | src/discord/component.c:30-43 | so is a menu with its options |
| ComponentParser.ParseInput | src/discord/component.c:44-54 | so is a text input |
| ComponentParser.ParseChildren | src/discord/disco.c:90-102 | the components of a row are read in order, recursively |
| ComponentParser.Parse | src/discord/component.c:5-59 | for any JSON the tree built has the contents read; all its objects are new, none is used twice, nothing is missing, and arrays are there only if they count something |
| ComponentContents.TreeIsRead | src/discord/component.c:5-59 | for every JSON each field read is that of the JSON, up to 4097 bytes of a string, or the default of the field, for the kinds 1 to 4 at every level |
| ComponentContents.ParseIsRead | src/discord/component.c:5-59 | so it is of every parsed tree on the heap |
| ComponentParser.CopyIsComplete | src/discord/component.c:61-117 | a copy misses a component or an option exactly if its source does, so what can be destroyed stays so |
| ComponentParser.ParseCopyAndDestroy | src/discord/component.c:5-198 | for any JSON, building the tree, copying it and destroying both frees no object twice |
| Command.RequiredFirstIsStable | src/discord/command.c:106-115 | the order of one level is a permutation with all required options first and the given order within each group |
| Command.OnlyStableArrangement | src/discord/command.c:106-115 | it is the only sequence with these properties |
| Command.EmittedTreeIsOrdered | src/discord/command.c:102-120 | every level of the emitted tree has its required options first |
| Command.ReorderingTwice | src/discord/command.c:102-120 | reordering a reordered tree changes nothing, and it changes nothing exactly in trees that are in order |
| Command.ArrangingCommutes | src/discord/command.c:102-120 | it does not matter whether a level is arranged before or after the levels below it |
| Command.Pass | src/discord/command.c:109-111 | one pass writes the options with its flag, in order, to slots that are all still unwritten |
| Command.Arrange | src/discord/command.c:104-115 | the two passes write every slot exactly once, and give the required-first order |
| Command.GetOfEmitted | src/discord/command.c:81-137 | each field of an emitted object is found under its name, and missing if it had no value |
| Command.OptionFields | src/discord/command.c:81-120 | name, description, localisations, required, options and autocomplete of an emitted option, by field name |
| Command.OptionLimits | src/discord/command.c:93-135 | its range, lengths, channel types and choices, by field name and only for the kinds that have them |
| Command.ChoiceFields | src/discord/command.c:71-79 | a choice has its name, and its value for integers and numbers only |
| Command.CommandFields | src/discord/command.c:146-176 | name, type, description and options of an emitted command, by field name |
| Command.CommandSettings | src/discord/command.c:150-184 | its localisations, permissions and version |
| Command.ReadBack | src/discord/command.c:81-137 | for every tree, reading the emitted JSON by field name gives the tree |
| Command.EmittedOptionIsOrdered | src/discord/command.c:102-120 | for every option, in every list of options of the emitted JSON no item with `required` true follows one without, and the JSON reads as the reordered tree |
| Command.EmittedCommandIsOrdered | src/discord/command.c:158-176 | so it is of every command |
| Command.AddChoice | src/discord/command.c:71-79 | the JSON of a choice |
| Command.AddOption | src/discord/command.c:81-137 | the JSON of an option reads, field by field, as its reordered tree, and every list of options in it has the required ones first |
| Command.FormatJson | src/discord/command.c:139-187 | so it is of a command, whose options read as the reordered ones; one without a name is refused and nothing is written |
| Reference.DecimalRoundTrip | src/discord/disco.c:104-111 | parsing a printed id gives it back, for every 64-bit id |
| Reference.DecimalIsWritten | src/discord/message.c:390 | a printed number has its decimal digits, most significant first and without leading zeros |
| Reference.PrintedIsRead | src/discord/disco.c:110 | reading stops at the first character that is not a digit, and reads a number of more than 64 bits as the largest of 64 |
| Reference.SignedIsRead | src/discord/disco.c:110 | a plus sign makes no difference, and a minus sign negates modulo 2^64 |
| Reference.LongIsRead | src/discord/disco.c:104-111 | an id given as a number loses its fraction, and one that is missing or of another type is the default |
| Reference.WrittenHolds | src/discord/message.c:386-406 | a written reference holds each id that is not zero under its name, and the flag, and nothing else |
| Reference.FitsBufferIff | src/discord/message.c:388-390 | an id and its terminator fit the 20 bytes exactly if it is below 10^19 |
| Reference.Print | src/discord/message.c:390 | printing a number writes its decimal digits and a terminator, within the buffer |
| Reference.CreateReference | src/discord/message.c:386-406 | a reference whose ids fit is written with its nonzero ids as decimal strings, all through one buffer |
| Reference.ReferenceRoundTrip | src/discord/message.c:247-253 | reading a written reference gives the same three ids, zeros included |
| EnvParse.LookupByOne | src/utils/env_parse.c:27-41 | the meaning of a file, defined line by line, seen from one byte to the next |
| EnvParse.NextKeepsMeaning | src/utils/env_parse.c:24-41 | one byte of the first pass keeps what its variables mean for the result |
| EnvParse.Consume | src/utils/env_parse.c:23-42 | the body of the scan loop keeps that meaning |
| EnvParse.Measure | src/utils/env_parse.c:13-42 | for every file and name the first pass finds where the value is and how long, or that there is none |
| EnvParse.CopyValue | src/utils/env_parse.c:46-54 | the second pass copies the value and terminates it |
| EnvParse.GetEnv | src/utils/env_parse.c:5-55 | the result is the value that the lines of the file yield for the name, terminated, or nothing |
| EnvParse.LineIsTakenIff | src/utils/env_parse.c:33-41 | a line is taken exactly if its key is a prefix of what is left of the name, and yields its value; otherwise the search goes on behind it with as much of the name gone as agreed |
| EnvParse.LinesByThemselves | src/utils/env_parse.c:23-42 | lines of a file do to the search what they do by themselves, whatever follows: they yield a value, or leave so much of the name matched |
| EnvParse.VariableIsFound | src/utils/env_parse.c:13-54 | a file with a line for the name, behind lines that are empty or start otherwise, yields exactly its value, whatever follows |
| EnvParse.VariableIsFoundIff | src/utils/env_parse.c:13-54 | behind given lines a variable is found with its value, for every value, if and only if each of them is empty or starts with another byte than the name and `=` |
| EnvParse.UnterminatedValueIsCut | src/utils/env_parse.c:43-53 | behind such lines, without a newline at the end of the file the value is one byte short, and an empty one missing |
| EnvParse.OnlyThisMuchCounts | src/utils/env_parse.c:14-23 | of a name only the first thousand bytes count, and of a file only what is before the first byte 255 |
| EnvParse.ProgressIsCarriedOver | src/utils/env_parse.c:36-38 | a file without the variable in which two lines together yield a value for it |

## Left out

- Pool.AttendedQueueProgresses: says that progress is possible; Pool.AttendingWorkerGetsThere says that it is made, given that a worker takes its steps. That the scheduler lets it is not modelled.
- Pool.ShutdownTerminates: counts worker steps; that the function of a running worker returns is not modelled.
- Time.RateLimitDeadlineIsExact: computes with exact reals, while the source rounds the product of the delay and one million to a double, which can move the deadline by a microsecond.
- Request.NeverCutShortIff: takes a clock that has left the epoch, as before it a submission without delay could count as still to come.
- Gateway.HeartbeatLoop: takes what its rounds find as input, since other threads set the flags and the interval; the ten milliseconds of sleep in a round are not modelled.
- Component.Destroy: requires that no component and no option is missing, as the source does not test for it.
- Reference.CreateReference: requires ids below 10^19; a longer one does not fit the buffer (Reference.FitsBufferIff).
- Threads, locks and condition variables of the operating system: each lock-held region is one step, a signal wakes exactly one sleeper if there is one, and more wakeups are the spurious ones that any sleeper may have.
- Adding work after `stop`, and retries that fall into a shutdown: the pool and its nodes are being freed then.
- Task deadlines before the epoch (`tv_sec` below zero), which only a negative `retry_after` could give and which the pool would take for no deadline.
- The transfer itself, URLs, headers, bodies and attachments; on a retry the list of attachments has been freed already, so the life cycle is that of requests without them. The request's own fields are read again after a put-back (Request.ReadersStaySafeIff), but what is then done with freed memory is not modelled.
- The one-second pause before a transient retry is taken up: it is part of the clock input.
- What callbacks do with an answer, and the conversion of answers to messages.
- The internals of hash map, JSON parser and `sys/queue.h`: a mathematical map, given parse results or JSON values, and the standard tail queue. Inserting into the map succeeds (the failure branch at `src/utils/cache.c:190-193` leaves `size` one too high).
- The callback of the cache adding structures again while it runs, and structures whose id changes while they are cached.
- The three caches are instances of one object, as their code differs only in the structures' types.
- The library reports connections and fragments only while the event loop serves it, and fragments only on an open connection; a close may be reported at any time.
- The connection error callback, which ends the process, and a DISPATCH without a string `t` or with a `session_id` that is not a string, which the source does not survive.
- Receipt of messages by anything but the gateway, heartbeat latency, and the writing of frames as JSON text.
- The heartbeat thread's own beats interleave with callbacks as whole steps.
- Component structures do not change once they are filled, as nothing in `src/discord/component.c` changes one. Emojis have no content in the source, are read as missing and not copied; printing components as JSON is not implemented there.
- Localisations of commands are given as JSON, and JSON is built as a value rather than by adding to an object in place; names and descriptions of options are not missing. The version of a command is printed into a buffer of twenty bytes like an id (Reference.FitsBufferIff).
- A reference field that is a number that is negative or has more than 64 bits, whose conversion C leaves undefined, and the case-insensitive comparison of keys when reading.
- Opening and reading an environment file, and ending the process if that fails; the contents are given as bytes.
- Copies of channels, embeds, interactions and messages, the embed JSON, the event name table, locales, logging, and the models without content: flat copying and tables.
