# Verified model of the platform's protocols

ChipAtelier runs students' chip-design jobs, streams their logs, answers their
questions through a language model, and grades and ranks their submissions.
Inside that web platform are a dozen small protocols and text transformations
with real state. This project models them in Dafny and proves what they promise
over every input, every run and every interleaving.

`dafny verify dfyconfig.toml` checks the whole project.

| file | models |
|---|---|
| `SortedSet.dfy`, `FairQueue.dfy` | the Redis fair queue and its drain |
| `Fairness.dfy`, `OvertakingBound.dfy` | whole runs of it: the bound on overtaking, and that it is attained |
| `DepthAccounting.dfy`, `Starvation.dfy` | the protocol of one release per finished run: exact counters, and when a run can be passed for ever |
| `Text.dfy`, `ThinkFilter.dfy`, `ChatStream.dfy`, `ChatTokens.dfy` | the streaming `<think>` filter against its batch form, the messages of one chat answer, and what they are for each token sequence |
| `JsText.dfy`, `Ndjson.dfy`, `ChatHistory.dfy` | the client's incremental line decoder, and the history an answer is folded into |
| `LogReplay.dfy` | the bounded log buffer and the client that replays and then subscribes |
| `RateLimiter.dfy` | the fixed-window rate limiter over time |
| `WarmPool.dfy` | the pool of pre-started containers, under concurrent replenishers |
| `TokenRefresh.dfy` | the single-flight token refresh |
| `VncPorts.dfy` | viewer sessions and their ports |
| `Permutations.dfy`, `Grading.dfy`, `Leaderboard.dfy` | both checkpoint evaluators, and the leaderboard's content and order |
| `MultiLine.dfy`, `ConfigPattern.dfy`, `Replacement.dfy` | the editor's regular expression, its search and its replacement text |
| `ConfigMk.dfy`, `ConfigRead.dfy`, `ConfigLaws.dfy`, `ConfigBlank.dfy` | the config.mk parser and in-place editor, what the parser reads, the lens laws, and cleared fields |
| `Wrappers.dfy` | an option type, minimum and maximum |

An object or closure whose handlers change state is a class, and a loop is a
method with a loop; each is proved against a function of the old state, and the
laws are lemmas about those functions and about sequences of their steps. The
other parts are pure functions. Where several processes interleave, the steps
are an `Event` type with an `Enabled` guard, and a run is any sequence of enabled
events.

## What the proofs found

Where the code and its documentation disagree, the model follows the code.

* **Fair queue.** With no call of `release_student_slot`, which is how the code
  stands, a run of score s is overtaken by at most (s+1)·N − 1 runs, and some
  history attains that. The counter is then every run the student ever
  submitted, not the runs "currently in the fair queue"
  (`worker/tasks/fair_queue.py:23`). If each finished run is released as
  `worker/tasks/fair_queue.py:54-57` asks, the counters become exact, and the
  bound grows by the releases between the run's submission and its dispatch.
  Then a run of score s can be kept waiting for ever exactly when some student
  has fewer than s runs waiting at or behind it, or just s and an id before it
  can be had, as with random ids it can (`StarvesIff`). A student with more than
  s runs there, such as the one with many queued runs of line 11, passes it only
  with what already waited ahead (`LoadedStudent`).
* **Job submission.** If Redis fails between ZADD and INCR, the run is sent
  straight to Celery and also stays in the fair queue (`SubmitJob`).
* **Think filter.** Up to white space the stream is the batch text exactly when no
  boundary between emitted pieces cuts through a block, and to the character
  exactly when moreover no flushed buffer strips to white space. On the tokens: no tag over
  a boundary outside a block, and none left open by a token that closes one, is
  enough (`WholeTokensRefineBatch`). An opening tag split over two tokens lets the
  whole block through (`SplitTagGetsThrough`).
* **Log replay.** The client replays before it subscribes, so it can miss lines
  published in between although "late joiners get full history"
  (`backend/app/api/websocket.py:42`). `FullLogIff` says for which schedules it
  has them all. Nothing is repeated or reordered.
* **Viewer sessions.** Stopping a session before its start task ran lets two
  active sessions share a port. A start task keeps ports distinct exactly when
  it fails, its row is still active, or its port is free and there is room.
* **Warm pool.** Overlapping replenishers overshoot the target, by up to their
  number less one and no more; for every number some interleaving does. An EXPIRE
  that fails makes `replenish` answer false with the container on the list.
* **Evaluators.** Server and client differ exactly on an `eq` between a boolean
  and the number Python holds equal to it. A better metric can lower the award of
  one rule with a known operator exactly when its points are negative, or partial credit that can be
  reached is negative or (except under `eq`) above the points. When no two rules,
  hard or scored, share a metric, the grade is monotone exactly when no scored
  rule is like that or a hard rule has an operator the code does not know; rules
  that share a metric can make up for each other (`SharedMetricCompensates`).
* **Token refresh.** An empty token in a successful answer leaves every queued
  request pending for ever.
* **config.mk.** With two definitions of a key, the editor changes the first and
  the parser reads the last. A `$` reference in a value (`$$`, `$&`, `$1`, …) is
  expanded when a definition is edited and not when one is appended, so a value
  read back as `a$$b` is written as `a$b`. Clearing a field of the form leaves
  the definition blank; the next character typed overwrites the first visible
  text after it (`ClearThenType`). A key named `__proto__` is never
  stored.

## Model

| member | source | states |
|---|---|---|
| SortedSet.First | worker/tasks/fair_queue.py:46 | ZPOPMIN's choice: the member with the least (score, id), which exists and is unique |
| SortedSet.OrderIsSorted | worker/tasks/fair_queue.py:46-50 | popping to the end lists members strictly by score and then id |
| SortedSet.OrderListsMembers | worker/tasks/fair_queue.py:46-50 | that listing holds exactly the waiting runs |
| SortedSet.MemberLessMeans | worker/tasks/fair_queue.py:46 | ids with equal scores are ordered lexicographically: equal up to some place, and there the first ends or has the lesser character |
| FairQueue.RedisFairQueue.constructor | worker/tasks/fair_queue.py:19 | no waiting runs and no counters |
| FairQueue.RedisFairQueue.GetStudentQueueDepth | worker/tasks/fair_queue.py:22-25 | the counter, 0 when the key is missing; nothing changes |
| FairQueue.RedisFairQueue.EnqueueStudentJob | worker/tasks/fair_queue.py:28-38 | the score is the counter before; the run gets it, only that counter grows, by one |
| FairQueue.RedisFairQueue.ClaimNextJob | worker/tasks/fair_queue.py:41-50 | removes and returns the first run of the order, or nothing from an empty set |
| FairQueue.RedisFairQueue.ReleaseStudentSlot | worker/tasks/fair_queue.py:53-61 | one less, never below zero, other counters untouched |
| FairQueue.RedisFairQueue.DrainQueue | worker/tasks/fair_queue.py:72-101 | dispatched runs followed by the order of what is left are the old order; exactly min(max(0, MAX − running), waiting) go; the rest keep their scores |
| FairQueue.RedisFairQueue.SubmitJob | backend/app/api/routes/jobs.py:117-153 | route of a new run; the student path enqueues as the worker's function does; which faults leave the run both queued and dispatched |
| FairQueue.DrainPartition | worker/tasks/fair_queue.py:95-101 | each waiting run is dispatched or kept, never both and never neither |
| FairQueue.DispatchedFirst | worker/tasks/fair_queue.py:95-101 | every dispatched run stands before every kept run |
| Fairness.StepKeepsGood | worker/tasks/fair_queue.py:34-61 | each step keeps, for every student: low runs waiting, or dispatched since a mark, are at most the counter, at most s+1, plus the student's releases since the mark |
| Fairness.RunKeepsGood | worker/tasks/fair_queue.py:34-61 | so does every run of steps |
| Fairness.LowOverAll | worker/tasks/fair_queue.py:34-36 | for N students together, N·(s+1) plus the releases since the mark |
| Fairness.WaitingBoundsDispatches | worker/tasks/fair_queue.py:34-50 | while a run of score s waits, fewer than that many low runs were dispatched since the mark |
| Fairness.WindowBound | worker/tasks/fair_queue.py:34-50 | from any good state on, a waiting run still waits with every claim counted, or some claim dispatched it within the limit of that moment |
| Fairness.DispatchedIsGone | worker/tasks/fair_queue.py:46-50 | the claim that dispatches a run logs it after all earlier ones and ends its waiting for good |
| Fairness.BoundedOvertaking | worker/tasks/fair_queue.py:34-61 | every interleaving of submissions, claims and releases of any kind: at most (s+1)·N − 1 go first, plus the releases up to the run's dispatch, and more claims than that dispatch it |
| Fairness.OvertakingWithoutReleases | worker/tasks/fair_queue.py:34-50 | with no release: at most (s+1)·N − 1 others go first, and (s+1)·N claims always suffice |
| OvertakingBound.BoundIsMet | worker/tasks/fair_queue.py:34-50 | for every set of students, one of them and every score some history without releases attains (s+1)·N − 1 |
| Fairness.ScoresCountUp | backend/app/api/routes/jobs.py:135-139 | from any state whose scores count up, every run without releases goes on counting |
| Fairness.ScoresFromTheStart | backend/app/api/routes/jobs.py:135-139 | with no release each student's scores are exactly 0, 1, 2, … and the counter is their number |
| DepthAccounting.StepKeepsAccounted | worker/tasks/fair_queue.py:53-61 | one release per finished run: the counter stays exact and the zero guard never fires |
| DepthAccounting.DepthIsExact | worker/tasks/fair_queue.py:53-61 | over every such run each counter is that student's waiting plus unfinished runs |
| DepthAccounting.ExactFromTheStart | worker/tasks/fair_queue.py:53-61 | the same for every such run from empty keys |
| DepthAccounting.OvertakingUnderTheProtocol | worker/tasks/fair_queue.py:34-61 | one release per finished run: after any past, however long, at most (s+1)·N − 1 go first, plus the releases between submission and dispatch |
| Starvation.LightPasses | worker/tasks/fair_queue.py:34-61 | within the release protocol one student with fewer than s runs at or behind a run of score s, or just s and room for ids before it, has any number of runs dispatched while it waits |
| Starvation.StepKeepsLoaded | worker/tasks/fair_queue.py:34-61 | a student with more there keeps them while the run waits |
| Starvation.BudgetHolds | worker/tasks/fair_queue.py:34-61 | over every continuation loaded students have no more runs dispatched before it than waited ahead of it, plus unused ids before it where those are finite |
| Starvation.LoadedStudent | worker/tasks/fair_queue.py:7-11 | in particular each loaded student, whoever else submits |
| Starvation.AllLoaded | worker/tasks/fair_queue.py:34-61 | with no light student nothing passes but what already waits ahead |
| Starvation.StarvesIff | worker/tasks/fair_queue.py:34-61 | after every past within the protocol: students of a set can keep a run waiting for ever if and only if one of them is light |
| Starvation.StarvableIsReachable | worker/tasks/fair_queue.py:34-61 | three ordinary steps lead to a run that a second student can keep waiting |
| ThinkFilter.Find | backend/app/api/routes/ai.py:289-292 | the first occurrence of a tag at or after an index |
| ThinkFilter.ContainsIff | backend/app/api/routes/ai.py:289-292 | a text holds a tag iff it is some text, the tag and some text |
| ThinkFilter.StripDeletes | backend/app/ai/llm_client.py:67 | the first opening tag goes, with everything up to and including the first closing tag after it, and the rest is treated alike |
| ThinkFilter.StripKeeps | backend/app/ai/llm_client.py:67 | a text in which no closing tag follows an opening one stays as it is |
| ThinkFilter.StripAcrossCut | backend/app/ai/llm_client.py:67 | deleting blocks distributes over a cut that severs none |
| ThinkFilter.SeveredKeepsMore | backend/app/ai/llm_client.py:67 | a severing cut always leaves more visible text than the whole has |
| ThinkFilter.CutIsHarmless | backend/app/ai/llm_client.py:67 | the halves stripped apart give the stripped whole if and only if the cut severs no block, exactly and up to white space |
| ThinkFilter.PiecesCoverTokens | backend/app/api/routes/ai.py:281-305 | passed tokens and flushed buffers are the stream's text, nothing lost or repeated |
| ThinkFilter.PassedTokensArePlain | backend/app/api/routes/ai.py:289-300 | a token passes unfiltered only if it holds no opening tag |
| ThinkFilter.PiecesAgainstBatch | backend/app/api/routes/ai.py:281-305 | the stream never shows less than the batch form, and the same amount only if no boundary severs a block |
| ThinkFilter.FilterRefinesBatch | backend/app/api/routes/ai.py:281-305 | for every token sequence: streamed text equals `generate`'s, up to white space, if and only if no piece boundary severs a block |
| ThinkFilter.CleanPiecesAreExact | backend/app/api/routes/ai.py:295-305 | then the stripped pieces are the stripped whole to the character |
| ThinkFilter.EmittedIsShown | backend/app/api/routes/ai.py:293-305 | what is sent is the stripped pieces, to the character, without the flushes that strip to white space |
| ThinkFilter.FilterIsExact | backend/app/api/routes/ai.py:281-305 | for every token sequence: the streamed text is the batch text before its outer strip, to the character, if and only if no boundary severs a block and no flush strips to white space |
| ThinkFilter.WholeTagsRefineBatch | backend/app/api/routes/ai.py:281-305 | no tag straddles a boundary outside a block and no flush leaves one open: the stream is the batch text, an unterminated last block kept verbatim; to the character iff no flush strips to white space |
| ThinkFilter.SplitTagGetsThrough | backend/app/api/routes/ai.py:289-300 | any split of an opening tag over two tokens sends the whole block, which the batch form deletes |
| ThinkFilter.TrimKeepsInk | backend/app/ai/llm_client.py:67 | the batch form's outer strip removes white space only |
| ThinkFilter.TrimSpans | backend/app/ai/llm_client.py:67 | the outer strip takes white space from the two ends only, and all of it |
| ChatStream.Reach | backend/app/api/routes/ai.py:250-278 | the model is reached iff some attempt connects after only connection and Ollama errors, within three |
| ChatStream.FlushLine | backend/app/api/routes/ai.py:293-297 | a flushed buffer sends its stripped text, or nothing when that is blank |
| ChatStream.GenerateStream | backend/app/api/routes/ai.py:250-308 | the loop with its flag and buffer sends the messages that the `ChatTokens` rows determine for every token sequence, with `done`, or `error` when the source breaks or is not reached |
| ChatStream.AnswerShape | backend/app/api/routes/ai.py:250-308 | always non-empty tokens and then exactly one `done` or `error`; `done` iff the model was reached and did not break |
| ChatTokens.PlainIsSent | backend/app/api/routes/ai.py:281-300 | outside a block a token without an opening tag is sent as it is, at once; an empty one never |
| ChatTokens.BlockIsHeldBack | backend/app/api/routes/ai.py:289-299 | tokens from one with an opening tag to the one that completes a closing tag send one message, their text without its blocks, or none if that is blank; what follows is treated as if it came first |
| ChatTokens.OpenComesLast | backend/app/api/routes/ai.py:301-306 | a block never closed is sent at the end, unless the source breaks |
| ChatTokens.StreamOfParts | backend/app/api/routes/ai.py:281-308 | the messages for any sequence of such parts: part by part, then the terminator |
| ChatTokens.EveryStreamHasParts | backend/app/api/routes/ai.py:281-308 | every token sequence is made of such parts |
| ChatTokens.BlockAmongPlainTokens | backend/app/api/routes/ai.py:281-308 | plain tokens, a block over one or more tokens, plain tokens: the tokens one by one, and between them what is visible around the block |
| ChatTokens.WholeTokensRefineBatch | backend/app/api/routes/ai.py:281-308 | if no opening tag runs over a token boundary outside a block and no token that closes a block leaves one open, what is said is the batch text: up to white space, and to the character if no buffered stretch strips to white space |
| JsText.LinesAppend | frontend/src/api/ai.ts:127-129 | splitting more text changes only the last line of the split so far |
| JsText.LinesOfUnlines | frontend/src/components/ConfigEditor/ConfigEditor.tsx:18 | splitting joined lines gives the lines back |
| JsText.UnlinesOfLines | frontend/src/components/ConfigEditor/ConfigEditor.tsx:18 | joining split lines gives the text back |
| JsText.JsTrimSpans | frontend/src/components/ConfigEditor/ConfigEditor.tsx:20 | trimming takes white space from the two ends only, and all of it |
| Ndjson.YieldLines | frontend/src/api/ai.ts:130-133 | parses the lines that are not blank, up to the first that throws |
| Ndjson.StreamChat | frontend/src/api/ai.ts:112-139 | whatever the chunks, yields what parsing the lines of the whole text yields, and throws where that throws; 503 gives the one message, other failures throw, and a connection that breaks throws after the whole lines that came |
| Ndjson.RoundTrip | frontend/src/api/ai.ts:120-139 | decoding newline-terminated encodings gives back the messages |
| Ndjson.BadLineEnds | frontend/src/api/ai.ts:127-139 | for every chunking: a visible line that does not parse ends the stream, with the messages before it yielded and none after it |
| Ndjson.BlankLineIsSkipped | frontend/src/api/ai.ts:131 | a blank line changes nothing |
| Ndjson.LastLineIsRead | frontend/src/api/ai.ts:136-139 | a last line without a newline is read too |
| Ndjson.BrokenOff | frontend/src/api/ai.ts:124-134 | a connection that breaks anywhere yields exactly the messages whose lines arrived whole, and throws |
| ChatHistory.AiSlice.constructor | frontend/src/store/aiSlice.ts:46-47 | an empty history, nothing streaming |
| ChatHistory.AiSlice.SetChatHistory | frontend/src/store/aiSlice.ts:64 | replaces the history and nothing else |
| ChatHistory.AiSlice.AppendChatToken | frontend/src/store/aiSlice.ts:66-76 | extends a last assistant message, or adds one |
| ChatHistory.AiSlice.HandleSend | frontend/src/components/AiChatTab/AiChatTab.tsx:73-110 | a blank, busy or signed-out send changes nothing; otherwise the user message and the fold of what is yielded, and streaming ends |
| ChatHistory.ReadingExtends | frontend/src/store/aiSlice.ts:66-76 | tokens, and empty errors between them, make one message with the tokens' concatenation, whatever follows |
| ChatHistory.ReadingEnds | frontend/src/components/AiChatTab/AiChatTab.tsx:91-109 | reading ends at the first `done` or visible error, whatever follows it, or when the stream ends, or as interrupted when it throws |
| ChatHistory.AnswerFolds | frontend/src/components/AiChatTab/AiChatTab.tsx:78-107 | a whole answer adds one assistant message with its text, or none when no token came, and ends as the answer ended |
| ChatHistory.EndToEnd | frontend/src/api/ai.ts:120-139 | from model tokens through any chunking to the history, whatever fails: one message with the answer's text; of a complete answer, the batch text up to white space iff no boundary severs a block, and to the character iff moreover no flush strips to white space |
| ChatHistory.BrokenConnection | frontend/src/components/AiChatTab/AiChatTab.tsx:91-109 | wherever the connection breaks, the history gains the tokens whose lines arrived whole and the user is told the answer was interrupted, unless its last line had arrived |
| LogReplay.LogBuffer.constructor | worker/tasks/orfs_job.py:145-148 | nothing published, an empty buffer |
| LogReplay.LogBuffer.PublishLine | worker/tasks/orfs_job.py:145-153 | the line is published, pushed, and the list cut to its last 5000 |
| LogReplay.BufferIsTheTail | worker/tasks/orfs_job.py:145-153 | after n calls the buffer is the last min(n, 5000) published lines in order |
| LogReplay.WholePublish | worker/tasks/orfs_job.py:150-152 | the three micro-steps of an uninterrupted call together do what the call does |
| LogReplay.LogStream | backend/app/api/websocket.py:63-80 | sends the replayed lines and then the payload of each message, in order, confirmations skipped |
| LogReplay.MessageIsForwarded | backend/app/api/websocket.py:72-80 | each message's line is sent where it comes, an empty one too, and nothing else is |
| LogReplay.StepKeepsBuffer | worker/tasks/orfs_job.py:150-152 | at every micro-step the buffer is the tail of what was pushed, over its bound by at most one and only before the trim |
| LogReplay.StepKeepsClient | backend/app/api/websocket.py:63-80 | every micro-step of either side keeps the client's lines a contiguous slice and then a live tail |
| LogReplay.RunKeepsGood | backend/app/api/websocket.py:63-80 | every interleaving: lines lo..n1 and then from n2 on, n1 ≤ n2, in order and without repeats |
| LogReplay.JoinedClient | backend/app/api/websocket.py:63-80 | the slice and the gap of a joined client, read off the schedule |
| LogReplay.FullLogIff | backend/app/api/websocket.py:42-80 | over every schedule: the client has the full log if and only if no more lines were pushed than the buffer holds and none is unpushed when it replays, and none is published before it subscribes |
| LogReplay.GapSize | backend/app/api/websocket.py:63-70 | the gap is the lines published between replay and subscription, plus one if a publish was not yet pushed |
| LogReplay.LogStreamSendsReceived | backend/app/api/websocket.py:62-80 | after every schedule in which the client joins, it has received exactly what the method sends for the buffer read and the messages since |
| LogReplay.LateJoinerCanMissALine | backend/app/api/websocket.py:62-70 | a run in which the only line is lost |
| RateLimiter.Limiter.constructor | backend/app/api/deps.py:66 | no counter yet |
| RateLimiter.Limiter.Check | backend/app/api/deps.py:77-88 | the counter is created with a window's life or counts one more; refused iff it exceeds the limit |
| RateLimiter.AtMostTwiceTheLimit | backend/app/api/deps.py:81-88 | over every timed request sequence an interval one window long admits at most 2·limit |
| RateLimiter.BoundIsMet | backend/app/api/deps.py:81-88 | a request sequence that reaches 2·limit, for every positive limit and every window of at least two seconds |
| RateLimiter.CurrentWindow | backend/app/api/deps.py:81-88 | since the window began exactly min(count, limit) requests were admitted |
| RateLimiter.RefusedIffWindowIsFull | backend/app/api/deps.py:84-88 | a request is refused if and only if `limit` were already admitted in its window |
| WarmPool.Pool.constructor | worker/container/warm_pool.py:30-35 | the target is half the configured size, at least one |
| WarmPool.Pool.Claim | worker/container/warm_pool.py:37-55 | pops the oldest container and hands it out iff it is running; a stale one is lost from the list, any other Docker error raises |
| WarmPool.Pool.Replenish | worker/container/warm_pool.py:57-89 | true iff below target and start, push and expire all succeed; the list grows by the new container iff start and push do, so a failed expire answers false with the list longer |
| WarmPool.Pool.Drain | worker/container/warm_pool.py:91-107 | terminates; what is left, the count and whether it raised, as the list order decides |
| WarmPool.DrainEmptiesThePool | worker/container/warm_pool.py:96-107 | empties the pool and counts the containers Docker still knew, unless Docker fails: then it raises at the first failure and leaves what follows |
| WarmPool.KnownAre | worker/container/warm_pool.py:98-107 | the containers counted are those Docker still knows, each as often as it is listed |
| WarmPoolRuns.StepKeepsSize | worker/container/warm_pool.py:64-87 | pool plus replenishers past their check stay within target + W − 1 |
| WarmPoolRuns.StepKeepsPlaced | worker/container/warm_pool.py:43-87 | each started container is in exactly one place, and no list holds one twice |
| WarmPoolRuns.RunKeepsPool | worker/container/warm_pool.py:43-87 | both, over every interleaving of replenishers and claims |
| WarmPoolRuns.PoolSizeBound | worker/container/warm_pool.py:64-87 | from an empty pool W replenishers never exceed target + W − 1 |
| WarmPoolRuns.NoFaultsNoOrphans | worker/container/warm_pool.py:48-55 | unless a push or Docker fails, no container ends outside pool, hand-outs and removals |
| WarmPoolRuns.AnswerPlaces | worker/container/warm_pool.py:48-55 | a popped container is handed out if it runs, gone if it does not, lost when Docker fails |
| WarmPoolRuns.WholeReplenish | worker/container/warm_pool.py:64-89 | uninterrupted, the separate steps do to the pool what one call does, for every outcome |
| WarmPoolRuns.BoundIsMet | worker/container/warm_pool.py:64-85 | for every W and target some interleaving from an empty pool reaches target + W − 1 |
| TokenRefresh.Interceptor.constructor | frontend/src/hooks/useTokenRefresh.ts:22-23 | not refreshing, nothing queued |
| TokenRefresh.Interceptor.ProcessQueue | frontend/src/hooks/useTokenRefresh.ts:25-34 | each queued promise is rejected, resolved, or left alone on an empty token; the queue is emptied |
| TokenRefresh.Interceptor.OnResponseError | frontend/src/hooks/useTokenRefresh.ts:51-76 | an error that is no 401, comes from the refresh URL or belongs to a retried request changes nothing; any other queues exactly one promise if a refresh is in flight, and starts one otherwise; the whole new state |
| TokenRefresh.Interceptor.OnRefreshDone | frontend/src/hooks/useTokenRefresh.ts:76-90 | the queue settles with the outcome and the flag falls |
| TokenRefresh.StepKeepsSingleFlight | frontend/src/hooks/useTokenRefresh.ts:22-90 | at most one refresh in flight and the flag says so, no queue without one, each promise queued or settled once in order, no request starts two |
| TokenRefresh.RunKeepsSingleFlight | frontend/src/hooks/useTokenRefresh.ts:22-90 | over every interleaving, and what is settled never changes |
| TokenRefresh.RefreshSettlesTheQueue | frontend/src/hooks/useTokenRefresh.ts:25-34 | a finished refresh rejects every queued promise with its error or resolves it with its token; none hangs if and only if the queue was empty or the token is not |
| TokenRefresh.NothingHangs | frontend/src/hooks/useTokenRefresh.ts:75-90 | with non-empty tokens no promise is ever left hanging |
| TokenRefresh.QuietMeansSettled | frontend/src/hooks/useTokenRefresh.ts:59-90 | once no refresh is in flight every promise created is settled |
| TokenRefresh.StartedIff | frontend/src/hooks/useTokenRefresh.ts:54-73 | over every run a request has started a refresh if and only if some 401 of its, outside the refresh URL, came while none was in flight |
| TokenRefresh.InFlightCounts | frontend/src/hooks/useTokenRefresh.ts:71-90 | refreshes started are those answered and those in flight |
| VncPorts.LowestFree | backend/app/api/routes/vnc.py:40-42 | the least free port of the range, or the range is used up |
| VncPorts.VncSessions.constructor | backend/app/api/routes/vnc.py:29-30 | no sessions |
| VncPorts.VncSessions.FindAvailablePort | backend/app/api/routes/vnc.py:33-47 | the loop finds the least port no active session holds |
| VncPorts.VncSessions.StartVncSession | backend/app/api/routes/vnc.py:100-161 | which of the five answers is given, and the whole new state |
| VncPorts.VncSessions.StartVnc | worker/tasks/vnc_session.py:119-140 | the row becomes running or stopped, whatever it was before |
| VncPorts.VncSessions.StopVncSession | backend/app/api/routes/vnc.py:230-250 | the owner's session becomes stopped; anyone else changes nothing |
| VncPorts.AnswersMean | backend/app/api/routes/vnc.py:100-129 | limit first, then the caller's own running session with a token, then the least free port |
| VncPorts.RunningSessionIsReturned | backend/app/api/routes/vnc.py:110-126 | below the limit a caller with one running session for the run, and a token for it, gets that session |
| VncPorts.NewSessionIsCreated | backend/app/api/routes/vnc.py:128-141 | without a running session, below the limit, a session with the least free port is created |
| VncPorts.StartedIsFound | backend/app/api/routes/vnc.py:100-161 | once its start task ran, a new session is what the next request of its owner for the run gets, on the same port |
| VncPorts.StepKeepsGood | backend/app/api/routes/vnc.py:100-141 | each step keeps active ports distinct, in 6080..6099, and active sessions within the limit, provided no owner stops a session before its start task finishes |
| VncPorts.RunKeepsGood | backend/app/api/routes/vnc.py:100-141 | so does every such run |
| VncPorts.GoodFromTheStart | backend/app/api/routes/vnc.py:100-141 | in particular every such run from no sessions |
| VncPorts.TaskKeepsAllocatedIff | worker/tasks/vnc_session.py:127-140 | a start task keeps the allocation if and only if it ends stopped, its row was active, or its port is free and there is room |
| VncPorts.SearchNeverFails | backend/app/api/routes/vnc.py:33-47 | with a limit of at most 20 a request that passes the limit check finds a port, by counting |
| VncPorts.StopBeforeTaskSharesAPort | worker/tasks/vnc_session.py:127-135 | start, stop, another start and the late task: two active sessions on one port |
| Permutations.SortedUnique | backend/app/api/routes/submissions.py:317-325 | under an antisymmetric order a multiset has one sorted listing |
| Grading.ServerCompareMeans | worker/tasks/checkpoint_eval.py:23-38 | what each operator passes, as a difference of numbers; a missing metric or another operator never passes |
| Grading.ClientCompareMeans | frontend/src/components/CheckpointCards/CheckpointCards.tsx:62-70 | in JavaScript the same, but that an `eq` holds only within numbers or within booleans |
| Grading.GradeIsJustified | worker/tasks/checkpoint_eval.py:72-136 | the grade both loops compute is justified entry by entry, whatever the comparison |
| Grading.EvaluateCheckpointRules | worker/tasks/checkpoint_eval.py:41-138 | each scored entry has the rule's points if its value is met, exactly the partial points and the flag if only the partial threshold is, and 0 otherwise; blocked iff a hard entry failed; the total is the sum of the awards, 0 when blocked |
| Grading.ComputePreview | frontend/src/components/CheckpointCards/CheckpointCards.tsx:72-125 | the same of the client's loops under JavaScript's comparison |
| Grading.EvaluatorsAgreeIff | worker/tasks/checkpoint_eval.py:72-136 | preview and grade agree in every field if and only if no rule meets such an `eq` |
| Grading.NumericEvaluatorsAgree | frontend/src/components/CheckpointCards/CheckpointCards.tsx:72-125 | so they agree for all numeric metrics and thresholds |
| Grading.GradeMonotone | worker/tasks/checkpoint_eval.py:72-136 | with ordered rules better metrics never lower the total and never block an open gate |
| Grading.SaneGrade | worker/tasks/checkpoint_eval.py:72-136 | with 0 ≤ partial ≤ points the total moreover stays in 0..Σ points |
| Grading.MonotoneIff | worker/tasks/checkpoint_eval.py:99-113 | one rule's award is monotone if and only if it is ordered: points not negative, and partial credit that can be reached not negative nor, except under `eq`, above the points |
| Grading.DistinctTotalsIff | worker/tasks/checkpoint_eval.py:72-136 | when no two rules, hard or scored, share a metric, the total is monotone if and only if every scored rule is ordered or some hard rule has an unknown operator |
| Grading.PassingMetricsPass | worker/tasks/checkpoint_eval.py:72-86 | hard rules on different metrics with known operators can all pass at once |
| Grading.SafeIff | worker/tasks/checkpoint_eval.py:72-136 | a rule keeps the total monotone among all ordered rules, behind every gate, if and only if it is ordered |
| Grading.SharedMetricCompensates | worker/tasks/checkpoint_eval.py:91-127 | two rules on one metric, one of them not ordered, with a monotone total |
| Grading.SumPermutes | worker/tasks/checkpoint_eval.py:91-127 | the sum of awards does not depend on the order of the scored rules |
| Grading.GradePermutes | worker/tasks/checkpoint_eval.py:72-136 | nor do total and gate depend on the order of any rules |
| Leaderboard.BestIsMaximum | backend/app/api/routes/submissions.py:268-276 | the best score is the maximum over the user's graded submissions, and absent iff there is none |
| Leaderboard.ChosenAre | backend/app/api/routes/submissions.py:287-300 | the join keeps each attaining submission exactly as often as it occurs, and no other |
| Leaderboard.Content | backend/app/api/routes/submissions.py:268-301 | a user has a row iff one of their submissions is graded; rows carry the maximum and match one-to-one the submissions attaining it |
| Leaderboard.StableSortSorts | backend/app/api/routes/submissions.py:323 | the reverse stable sort of a group is a permutation, by WNS descending, missing last, ties in fetched order |
| Leaderboard.GroupEnd | backend/app/api/routes/submissions.py:322 | a group is the maximal run of equal scores |
| Leaderboard.SortFallback | backend/app/api/routes/submissions.py:317-325 | group-then-sort gives a permutation in lexicographic order (score, WNS, fetched position) |
| Leaderboard.SortedIsUnique | backend/app/api/routes/submissions.py:317-325 | there is only one such permutation: the stable lexicographic sort |
| Leaderboard.PathsAgree | backend/app/api/routes/submissions.py:281-285 | both database paths show the same scores and slacks rank by rank |
| Leaderboard.GetLeaderboard | backend/app/api/routes/submissions.py:268-339 | from the submissions to the entries: user, score and slack of the entries are exactly the submissions that attain their user's maximum; every graded user ranked and nobody else; ranks exactly 1..n by score and then slack, higher first and missing last; the caller's and only those marked |
| Leaderboard.FirstRankIsTopScore | backend/app/api/routes/submissions.py:268-339 | rank 1 exists once anyone is graded, with the highest score given |
| ConfigPattern.MatchIsGreedy | frontend/src/components/ConfigEditor/ConfigEditor.tsx:19 | the matcher matches iff the pattern can be read at all, and picks the greedy reading |
| ConfigPattern.SpelledOutKey | frontend/src/components/ConfigEditor/ConfigEditor.tsx:30 | the editor's pattern with the key spelled out matches exactly where the parser's does with that key |
| ConfigMk.ParseParamValues | frontend/src/components/ConfigEditor/ConfigEditor.tsx:15-23 | the loop's dictionary: later lines override earlier ones, and `__proto__` is not stored |
| ConfigRead.DefinitionIsRead | frontend/src/components/ConfigEditor/ConfigEditor.tsx:15-23 | the parser reads `v` from every definition on one line that no later line defines again, whatever white space surrounds `v` and whatever the other lines are |
| ConfigRead.OnlyDefinitionsAreRead | frontend/src/components/ConfigEditor/ConfigEditor.tsx:15-23 | a key has a value if and only if some line defines it and it is not `__proto__` |
| MultiLine.LocateHolds | frontend/src/components/ConfigEditor/ConfigEditor.tsx:30-31 | the search stops only where the pattern matches |
| MultiLine.SkipQuiet | frontend/src/components/ConfigEditor/ConfigEditor.tsx:30-31 | and passes over any text in which it does not |
| Replacement.ReferenceExpands | frontend/src/components/ConfigEditor/ConfigEditor.tsx:32 | what each of the eight references inserts, whatever follows |
| Replacement.OthersStay | frontend/src/components/ConfigEditor/ConfigEditor.tsx:32 | every other character stays, a `$` that begins no reference too |
| Replacement.PlainIsLiteral | frontend/src/components/ConfigEditor/ConfigEditor.tsx:32 | a replacement without references is inserted as it is |
| Replacement.ExpandLosesDollars | frontend/src/components/ConfigEditor/ConfigEditor.tsx:32 | into text without `$`, every reference loses a `$` |
| Replacement.DoublesCollapse | frontend/src/components/ConfigEditor/ConfigEditor.tsx:32 | `$$` alone collapses whatever the text |
| Replacement.SecondMatters | frontend/src/components/ConfigEditor/ConfigEditor.tsx:32 | two old values give the same replacement iff they are equal or none is referred to |
| ConfigMk.GroupsCover | frontend/src/components/ConfigEditor/ConfigEditor.tsx:30-32 | what the references insert are the text before the match, its two groups and the text after it, which make up the content |
| ConfigMk.ApplyIsPut | frontend/src/components/ConfigEditor/ConfigEditor.tsx:25-35 | for every content, key and value, a change puts what the template `$1` and the value expand to where the pattern matched, or appends the value as it is |
| ConfigMk.SearchEditsLines | frontend/src/components/ConfigEditor/ConfigEditor.tsx:30-33 | on well-formed lines putting a text edits the first defining line and no other |
| ConfigMk.PutEditsLines | frontend/src/components/ConfigEditor/ConfigEditor.tsx:25-35 | replace or append, line by line, and the content stays well-formed |
| ConfigMk.ParseOfPut | frontend/src/components/ConfigEditor/ConfigEditor.tsx:15-35 | what is read after a text is put, for any number of definitions |
| ConfigLaws.PutGet | frontend/src/components/ConfigEditor/ConfigEditor.tsx:15-35 | reading after writing gives the old values with the new one set, with three exact conditions: for values written as one line of text, for trimmed values whose only references are `$$`, and for all trimmed values in content without `$` |
| ConfigLaws.PutPut | frontend/src/components/ConfigEditor/ConfigEditor.tsx:25-35 | writing twice is writing the second value: exactly when it does not refer to the value it replaces or finds it unchanged, or, for a new key, when it expands to itself (in content without `$`: holds no reference) |
| ConfigLaws.GetPut | frontend/src/components/ConfigEditor/ConfigEditor.tsx:15-35 | writing back the value read changes no value, exactly when what is written trims to it or the definition edited is not the one read |
| ConfigLaws.DoubleDollarIsHalved | frontend/src/components/ConfigEditor/ConfigEditor.tsx:32 | a value `a$$b` written back to where it was read becomes `a$b` |
| ConfigBlank.ChangeBlank | frontend/src/components/ConfigEditor/ConfigEditor.tsx:30-34 | the text after a change at a blank definition, in all three cases: later text overwritten, value put in the gap, or a line appended |
| ConfigBlank.BlankKeepsLaterIff | frontend/src/components/ConfigEditor/ConfigEditor.tsx:30-32 | the later lines are kept if and only if nothing that `.` matches is on them, or the value is what is overwritten there |
| ConfigBlank.ClearThenType | frontend/src/components/ConfigEditor/ParamForm.tsx:123-125 | clearing the field of a complete definition and typing a value: the later lines are kept under the same exact condition |
| ConfigBlank.ClearThenTypeOverwrites | frontend/src/components/ConfigEditor/ParamForm.tsx:123-125 | then a visible next line is replaced by the value and the definition stays blank |

## Left out

- Redis keys do not expire, except the rate limiter's: the depth counters, the log buffer and the pool list have lifetimes the model does not follow.
- Each enqueue, release, rate-limit check, VNC request and start task is one step. Two enqueues that both read a counter before either writes it, and a crash between INCR and EXPIRE, are not modelled.
- FairQueue.RedisFairQueue.SubmitJob: the run row, its checks and its Celery id are not modelled, and a Redis call that fails after taking effect is not either.
- FairQueue.RedisFairQueue.DrainQueue: the number of running runs is an input, so nothing is said about several drains together; run status and retries are left out.
- DepthAccounting and Starvation: a release names the finished run, which the original call does not; the name only says which runs are finished.
- ThinkFilter: text is characters, and `re.sub` is its meaning, not its engine.
- ChatStream.GenerateStream: prompts, back-off delays and the model client are left out; a break of the token source is an input.
- Ndjson.StreamChat: UTF-8 and JSON are an abstract pair of functions; response headers are left out.
- ChatHistory.AiSlice.HandleSend: the request sent, the input box and the other store fields are left out; history entries are messages only.
- LogReplay: authentication, disconnection, several publishers and the grade stream are left out.
- RateLimiter.AtMostTwiceTheLimit: the window is positive; with a window of 0 every request starts anew. How the client address is found is left out.
- WarmPool.Pool.Replenish: container names and resource limits are left out; starting is an input.
- TokenRefresh: a thrown refresh error counts as true in `processQueue`, as every error object does; redirects and re-sent requests are left out, except that a re-sent request can fail again as a new event.
- VncPorts: eligibility checks (404, 403, 400), expiry times, containers and a failing task dispatch are left out.
- Grading: numbers are reals, and only numbers and booleans are compared; a null metric counts as missing. Rules have their points, and partial credit is absent or complete. Operators and thresholds copied into the results are left out.
- Leaderboard: slacks are reals or missing; texts that parse as numbers, and NaN, are left out. The SQL engine is its query's meaning.
- ConfigLaws.PutGet: keys are word characters. A value whose references insert line breaks or white space at its start, in content that holds `$` itself, has no exact condition: an inserted line can define the key again. The form's fields are numbers, which the browser hands over trimmed or empty, and the empty value is the subject of `ConfigBlank`.
- ConfigLaws.PutPut: when the key is defined, the first value must be written as one line of text.
- Accounts, passwords, uploads, projects, tiles, hints and all pages are left out: plumbing without shared state.
