# Norish: delivery, replay and scheduling, in Dafny

This project models the parts of Norish whose correctness rests on an order of events
rather than on any one function, and proves what they promise over every run. A second
group of modules takes four algorithms and proves each against a plain specification.
`dafny verify dfyconfig.toml` checks all of it.

**Realtime resume.** A subscription merges several channels. Each channel has a log
(its Redis stream) of which a prefix may have been trimmed away. A session registers its
live listeners, opens or mints a cursor with one stream id per channel, replays what the
log holds after it, then goes on live and skips what the cursor has already passed. The
client may be cut off after any item and come back with the last cursor it received.

- `StreamIds`, `ResumeLog`: ids and their order, what a log holds, the two range reads.
- `ResumeDelivery`: the delivery rule, and what it yields for any events in any order.
- `ResumeSeam`: one channel of one session, and exactly which entries the seam loses.
- `ResumeSessions`: the merged replay, whole sessions, and chains of cut sessions.
- `ResumeRuntime`: the loops as they run, with the race of the live sources left open.
- `ResumeRefinement`, `ResumeSubscription`: every run of those loops is a session of the
  model; and a whole subscription, with what a client cut off anywhere has of it.

**Protocols and small schedulers**, each a state machine over the steps between awaits,
with a class whose methods are those steps:

- `Idempotency`: requests racing on one Redis key.
- `ProbeLoop`: the connectivity probe loop and its backoff.
- `LazyWorker`: the promise-chain lock around the creation of a queue's worker.
- `QueueRegistry`: single-flight initialisation of the queue set, and closing it.
- `Timers`: the cooking timer store, whose transitions are the same on the web and on mobile.
- `RateLimit`: the proxy's fixed window.
- `JobSteps`: the step history of a job, per attempt.

**Algorithms against a specification:**

- `IconShares`: level-by-level decisions on a food tree against the recursive definition.
- `NameIndex`: lookup through two maps against a straight scan.
- `SourceTable`: building the nutrition table.
- `SequenceWalk`: the eased scroll walk, over the reals.

`Basics` holds the small datatypes and sequence lemmas they share.

## What turned out not to hold

Where the code does not meet what its documentation says, the code is modelled as it is. A
lemma gives an input at which it fails, and another the exact condition.

- Listeners are added before the buffer is read so that nothing is missed
  (`realtime-resume.ts:38-42`, `hub.ts:62-66`). But a listener hears nothing before the
  SUBSCRIBE queued for it has taken effect (`hub.ts:380-395`), and neither the mint nor the
  replay waits for that. What is published after the last read and before then is in
  neither. Inputs: `ResumeSeam.LateSubscribeLosesAnEntry` on a resume,
  `ResumeSeam.LateSubscribeAfterMintLosesAnEntry` on a first subscription.
- A replay reads at most 1000 entries (`realtime-resume.ts:123`), while the stream is only
  trimmed approximately to that length (`publish.lua:13`): with more after the cursor the
  rest is skipped, and the cursor then passes over it. Input:
  `ResumeSeam.FullReadLosesAnEntry`.
- A publish after the check for that and before the read may trim the stream past the
  cursor (`realtime-resume.ts:111-123`, `publish.lua:13`). Input: `ResumeSeam.TrimBetweenReadsLosesAnEntry`.
- A channel whose cursor is still the zero id replays nothing (`realtime-resume.ts:108`),
  though its first entries may have come since. Input: `ResumeSeam.ZeroCursorLosesAnEntry`.
- A cursor's age is checked when it is opened and the stream is read later
  (`realtime-resume.ts:72-116`); one that expires in between is taken to have missed
  nothing. Input: `ResumeSeam.ExpiryRaceLosesAnEntry`.
- Exactly when a seam loses nothing, for all of these: `ResumeSeam.LosslessExactly` on any
  log, and by positions alone, where every entry parses, `ResumeSeam.CleanExactly`.
- `X-Retry-After` (`proxy.ts:25`) lets the client in after the time it names unless the
  window ends on a whole second from then; in that case it is refused once more. Input:
  `RateLimit.RefusedOnceMore`; exactly when: `RateLimit.RetryHintExactly`.
- Closing the queues twice at once can leave a set open that nobody holds
  (`registry.ts:246`). Input: `QueueRegistry.OverlappingClosesLeaveASet`; exactly when:
  `QueueRegistry.LeftBehindExactly`.
- `ensureWorkerRunning` does not always get its worker running. One whose start failed is
  neither running nor paused, and later calls leave it so
  (`lazy-worker-manager.ts:214-238`); input: `LazyWorker.FailedStartIsNotMended`, exactly
  what ends it: `LazyWorker.MendedExactly`. And a cold shutdown beside a call may take the
  worker, or be closing it, while the call sets the flag that says it runs
  (`lazy-worker-manager.ts:225,280,442`); input: `LazyWorker.ShutdownTakesTheResumedWorker`.
  Exactly when a call returns without a worker running, for all of these:
  `LazyWorker.ReturnsRunningExactly`.
- A cold shutdown takes no lock and can leave a second worker behind. Input:
  `LazyWorker.ShutdownCanLeaveAStray`; exactly when: `LazyWorker.StrayAfterShutdownExactly`.
- Only one request runs a handler at a time as long as none outlives its claim. Input:
  `Idempotency.OverrunLetsTwoIn`; exactly when, over runs of any timing:
  `Idempotency.OneInsideExactly`.

A rest is said to be longer than a move (`sequence.ts:70`). It is exactly when
`(2 * count - 1) * glide < 1` (`SequenceWalk.MiddleOutOfReachExactly`), which both sequences
of the page meet (`SequenceWalk.PageRestsLonger`).

## Assumptions

- Stream ids of one channel climb strictly and are above the zero id; trimming removes a
  prefix of a log; the two reads of a replay see the log at two moments, the first not
  after the second.
- A live source hands over, in order, the readable entries published since the last
  SUBSCRIBE of its channel took effect, up to any point, or ends as lagged
  (`hub.ts:72-132`, `publish.lua:9-11`). When that was, before, between or after the reads,
  is left open. It hands over nothing from before: a listener added while an UNSUBSCRIBE is
  in flight could hear an entry, miss the next and then hear again (`hub.ts:397-399`), and
  such a session is not covered.
- The results on idempotent execution that ask for a timely run assume each handler run,
  with its store or release, ends inside the TTL of its claim.
- Probes never reject and listeners do not call back into the loop.
- Report calls of one job do not overlap. Whether a progress update that fails leaves the
  job's own progress as it was is up to the queue library; either is covered, since
  `written` says whether that progress changed, but not a progress that changes in part.

## Model

| member | source | states |
|---|---|---|
| StreamIds.CompareOrders | packages/shared-server/src/realtime/resume.ts:57-69 | The order of stream ids is total and strict, by time first and by ordinal within it; only an id itself compares equal. |
| StreamIds.ExpiresExactly | packages/shared-server/src/realtime/resume.ts:117-124 | A cursor id is too old exactly when it names an entry of more than a day ago; the zero id never is. |
| ResumeLog.ParsedExactly | packages/trpc/src/realtime-resume.ts:83-99 | What parses is exactly what the envelopes among the entries carry: each with the payload and the schema verdict stored, under the index of its channel and the id of its stream entry, whatever id its payload carried. |
| ResumeLog.AfterSplits | packages/trpc/src/realtime-resume.ts:123 | The entries of a log at or before an id are exactly those before the position its cursor stands at. |
| ResumeLog.RangeIsSlice | packages/trpc/src/realtime-resume.ts:123 | A range read of what a trimmed stream still holds is the stretch of the log from the cursor or the trim point, whichever is later, cut at the count. |
| ResumeLog.ReplayIsReadable | packages/trpc/src/realtime-resume.ts:102-129 | A channel's part of the replay, when it does not raise, is exactly what parses between two positions of the log. |
| ResumeDelivery.DeliverProjects | packages/trpc/src/realtime-resume.ts:196-218 | With one cursor per channel, each channel is yielded exactly what it would be with its own cursor alone, however the channels are mixed. |
| ResumeDelivery.DeliveredIdsClimb | packages/trpc/src/realtime-resume.ts:196-218 | For any arrival order and any duplicates, the stream ids yielded on a channel climb strictly above the opening cursor, and the cursor attached to a yield is the greatest of them so far, or the opening id. |
| ResumeDelivery.CursorAtYield | packages/trpc/src/realtime-resume.ts:183-218 | The cursor attached to the n-th item is, per channel, the last id among the items so far: it is advanced before each yield. |
| ResumeDelivery.YieldedExactly | packages/trpc/src/realtime-resume.ts:196-218 | The next event of a channel is yielded, as it is, exactly when it has no stream id or one above the opening cursor and above all its channel has had; otherwise it is skipped. |
| ResumeSeam.ShownIs | packages/trpc/src/realtime-resume.ts:188-219 | A channel of a session yields its replay, then the readable entries from the seam or from its listener's registration, whichever is later. |
| ResumeSeam.SeamConserves | packages/trpc/src/realtime-resume.ts:102-219 | Of the readable entries published after the cursor each is yielded or counted as lost, and the session yields exactly all of them if and only if none is lost. |
| ResumeSeam.CleanSeamLosesNothing | packages/trpc/src/realtime-resume.ts:102-134 | Conditions on positions that can be checked of a seam under which nothing is lost, whenever it was published and whenever the listener began to hear. |
| ResumeSeam.LosslessExactly | packages/trpc/src/realtime-resume.ts:102-219 | On any log, a replay that did not raise loses nothing if and only if nothing that parses was skipped before the stretch it replayed, or between that stretch and what the listener heard. |
| ResumeSeam.CleanExactly | packages/trpc/src/realtime-resume.ts:108-123 | Where every entry parses, exactly when nothing is lost, by positions alone: at most 1000 entries and no later than the second read before the listener heard, no trimming past the cursor between the reads, and nothing new on a channel without a cursor or found empty. |
| ResumeSeam.LateSubscribeLosesAnEntry | packages/shared-server/src/realtime/hub.ts:375-395 | A session whose SUBSCRIBE takes effect after its reads loses the entry published in between, and nothing raises. |
| ResumeSeam.FullReadLosesAnEntry | packages/trpc/src/realtime-resume.ts:123 | With 1001 entries after the cursor a replay loses one. |
| ResumeSeam.TrimBetweenReadsLosesAnEntry | packages/trpc/src/realtime-resume.ts:111-123 | A stream of 1099 entries to which one is published between the check and the read, trimming the oldest 100, loses an entry after the cursor. |
| ResumeSeam.ZeroCursorLosesAnEntry | packages/trpc/src/realtime-resume.ts:108 | A cursor still at the zero id loses the channel's first entry on a resume. |
| ResumeSeam.TrimmedCursorRaises | packages/trpc/src/realtime-resume.ts:108-121 | The replay raises cursor-trimmed exactly when the stream holds something and all of it is after the cursor; when it does not raise, no entry trimmed by then was after the cursor. |
| ResumeSeam.ExpiresWithItsStream | packages/shared-server/src/realtime/resume.ts:117-124 | A cursor that has seen all of a stream is refused for its age exactly when the stream has expired, more than a day after its last write. |
| ResumeSeam.FreshCursorMissesNothing | packages/trpc/src/realtime-resume.ts:113-116 | When the stream is found gone and the cursor is still younger than the TTL, nothing published by that read is after the cursor. |
| ResumeSeam.ExpiryRaceLosesAnEntry | packages/trpc/src/realtime-resume.ts:72-116 | A concrete session whose cursor passes the age check, expires before the read, and skips an entry without a word. |
| ResumeSeam.MintedExactly | packages/trpc/src/realtime-resume.ts:38-61 | A minted cursor, from a stream that held something or from one empty or expired, loses nothing if and only if nothing that parses was published between the read it was minted from and the moment the listener began to hear. Minted from nothing, it is about the log from there on. |
| ResumeSeam.LateSubscribeAfterMintLosesAnEntry | packages/trpc/src/realtime-resume.ts:38-61 | A first subscription that loses an entry published in between. |
| ResumeSessions.SortProjects | packages/trpc/src/realtime-resume.ts:131-133 | Sorting the merged entries by id leaves each channel's own entries in stream order, none added and none dropped. |
| ResumeSessions.SortSorts | packages/trpc/src/realtime-resume.ts:131-133 | The merged replay is in id order across channels. |
| ResumeSessions.SortPermutes | packages/trpc/src/realtime-resume.ts:133 | The merged replay has the same entries as often as the channels' parts. |
| ResumeSessions.ReplayBufferMerges | packages/trpc/src/realtime-resume.ts:101-134 | The replay is sorted by id and, per channel, exactly the readable entries between the two positions of that channel's log. |
| ResumeSessions.ReplayRaisesExactly | packages/trpc/src/realtime-resume.ts:101-134 | A replay raises exactly when some channel's stream holds something and all of it is after that channel's cursor, and the error names such a channel as trimmed. |
| ResumeSessions.FirstExpired | packages/trpc/src/realtime-resume.ts:72-76 | The first channel whose id is expired, and none exactly when no id is. |
| ResumeSessions.YieldsProject | packages/trpc/src/realtime-resume.ts:188-219 | On each channel a whole session yields what that channel alone would, for any interleaving of the live events. |
| ResumeSessions.YieldsAreOfLogs | packages/trpc/src/realtime-resume.ts:83-219 | Whatever a session yields is an entry of the log of its channel, with the payload and the id stored there. |
| ResumeSessions.CutSession | packages/trpc/src/realtime-subscription.ts:71-95 | A session cut after any yield, payloads that fail their schema dropped: the client got what is visible from the opening cursor to the cursor it is left with. |
| ResumeSessions.NoGapNoRepeat | packages/trpc/src/realtime-resume.ts:183-219 | Over any number of sessions, each cut anywhere and resumed from the last cursor received, a channel's deliveries are exactly the well-formed entries from the first cursor to the last, in order, no gap and no repeat. |
| ResumeSessions.CleanSessionsMissNothing | packages/trpc/src/realtime-subscription.ts:41-96 | The same from what can be checked of each session, or the session ends as lagged. |
| ResumeRuntime.OpenCursor | packages/trpc/src/realtime-resume.ts:43-79 | A cursor is minted from the channels' last ids, or accepted exactly when it parses, is of this identity and channel count, and has no expired id; each refusal has its own reason. |
| ResumeRuntime.MergeLive | packages/trpc/src/realtime-resume.ts:147-181 | Whichever settled promise the race picks, the output interleaves prefixes of the sources, each value as it was handed over, with at most one further value asked of each, and holds every source whole when it ends without error or abort. |
| ResumeRuntime.RealtimeCursor.constructor | packages/trpc/src/realtime-resume.ts:32-36 | A cursor object holds the ids it was opened with. |
| ResumeRuntime.ResumeThenLive | packages/trpc/src/realtime-resume.ts:188-219 | The loops, the cursor updated in place: what is yielded is the delivery of the replay followed by the live merge, or of the part of the replay before an abort; the cursor ends as that delivery leaves it; and it fails only with the replay's error or one a source raised after handing over all it had. |
| ResumeRuntime.SendItems | packages/trpc/src/realtime-subscription.ts:74-95 | The mark first, then every item whose payload conforms, each with its cursor; the last cursor sent is the one the client resumes from. |
| ResumeRefinement.RunIsSession | packages/trpc/src/realtime-resume.ts:188-219 | Every run of the loops over live sources fed by the logs is a session of the model, its yields the beginning of that session's, and all of it when the loops took everything. |
| ResumeSubscription.Subscribe | packages/trpc/src/realtime-subscription.ts:55-96 | A whole subscription: every event sent is an entry of its channel's log with the payload and the id stored there, and passes its schema; refused exactly as its cursor is, ended as lagged when its replay raises or a live source does, by nothing else but the signal or the end of all sources; on every channel whose seam loses nothing, a client cut off after any item holds exactly the visible entries up to the cursor it would resume from, and one that stays until the sources are done or quiet all that was visible by then. |
| ResumeSubscription.MintedChannel | packages/trpc/src/realtime-resume.ts:50-60 | A first subscription's channel, whatever its stream held at the mint, is one of those exactly when nothing that parses came between the mint and the moment its listener began to hear. |
| ResumeSubscription.ComesBackToEverything | packages/trpc/src/realtime-subscription.ts:55-96 | Over any number of such subscriptions, each cut off after any item and followed by one with the last cursor got, the client has got on a channel exactly the visible entries from the first cursor to the last, in order, no gap and no repeat. |
| Idempotency.StepKeeps | packages/trpc/src/idempotency-middleware.ts:126-170 | Every step of a timely race keeps the invariant: one owner whose placeholder holds the key, wins a TTL apart, stored responses genuine, answers consistent. |
| Idempotency.AtMostOneInside | packages/trpc/src/idempotency-middleware.ts:126-150 | Over all interleavings and crashes at most one request is inside the handler or its store or release. |
| Idempotency.WinsApart | packages/trpc/src/idempotency-middleware.ts:126-150 | Two successful handler runs were claimed at least a TTL apart, even if one crashed before it stored. |
| Idempotency.OnlySuccessStored | packages/trpc/src/idempotency-middleware.ts:133-147 | A completed record always holds the data of the latest successful run; no failure is ever stored. |
| Idempotency.SameWindowSameAnswer | packages/trpc/src/idempotency-middleware.ts:130-162 | Every ok answer given within a TTL of a successful run's claim carries that run's data. |
| Idempotency.AnsweredOnce | packages/trpc/src/idempotency-middleware.ts:141-161 | Over every run each request that returned ok was given exactly one answer, carrying what it returns, and no other was given any. |
| Idempotency.AnsweredAt | packages/trpc/src/idempotency-middleware.ts:141-161 | The time of an answer is that of the step in which its request returned. |
| Idempotency.OkReturnsTheRunsData | packages/trpc/src/idempotency-middleware.ts:126-162 | Every request that returns ok returns the data of a successful run claimed by then, and, where it returned within a TTL of a run's claim, of that run. |
| Idempotency.OverrunLetsTwoIn | packages/trpc/src/idempotency-middleware.ts:33-38 | Without the TTL assumption two requests can be in the handler at once: a run of three steps. |
| Idempotency.ClaimOverlapsExactly | packages/trpc/src/idempotency-middleware.ts:127-130 | A claim lets a second request in exactly when an owner has outlived its own claim. |
| Idempotency.OnlyClaimsLetIn | packages/trpc/src/idempotency-middleware.ts:126-170 | Whatever the timing, no step but a claim lets a second request in. |
| Idempotency.OneInsideExactly | packages/trpc/src/idempotency-middleware.ts:126-170 | A run of any timing has at most one request inside at every moment if and only if none of its claims meets an owner that has outlived its own. |
| Idempotency.BoundedClaims | packages/trpc/src/idempotency-middleware.ts:126-170 | Over any run a request makes at most pollMaxAttempts + 1 claims. |
| Idempotency.RunWithIdempotency | packages/trpc/src/idempotency-middleware.ts:104-178 | The attempt loop sends the commands of the race's own transitions, whatever Redis replies; a query, or a mutation without an id, runs its handler and nothing else. |
| Idempotency.RequestShape | packages/trpc/src/idempotency-middleware.ts:126-178 | A request polls at most pollMaxAttempts times, exactly so often when it gives up, runs its handler at most once, stores only an ok result and releases its claim otherwise. |
| Idempotency.FoundIsReturned | packages/trpc/src/idempotency-middleware.ts:152-162 | The first completed response a request reads, all its claims until then refused, is its answer; its handler never runs. |
| Idempotency.GrantedRuns | packages/trpc/src/idempotency-middleware.ts:126-150 | The first claim a request is granted runs its handler once, and its result is stored and returned, or its claim released. |
| Idempotency.GivesUpExactly | packages/trpc/src/idempotency-middleware.ts:126-178 | A request ends with the retryable error if and only if no claim of its budget is granted and no read of it finds a response. |
| Idempotency.ReadMeans | packages/trpc/src/idempotency-middleware.ts:152-170 | In the race, a request that reads a live response has it for its answer; after any other read it waits for the next attempt, or gives up after the last. |
| Idempotency.ClaimMeans | packages/trpc/src/idempotency-middleware.ts:127-130 | A claim is granted, for a TTL, exactly when the key is empty or expired. |
| Idempotency.HandlerMeans | packages/trpc/src/idempotency-middleware.ts:130-148 | An ok handler has its result to store, any other end the claim to release; the key is untouched until then. |
| Idempotency.WaiterTakesOver | packages/trpc/src/idempotency-middleware.ts:126-170 | A request that has waited claims again, and runs its handler if the key is free by then. |
| Idempotency.CrashKeepsTheClaim | packages/trpc/src/idempotency-middleware.ts:126-150 | A crashed request leaves its claim, and while that lives every other claim is refused. |
| Idempotency.ReleasedIsFree | packages/trpc/src/idempotency-middleware.ts:135-148 | A release that reached Redis leaves the key free: whoever claims it next runs its handler. |
| Idempotency.StoreMeans | packages/trpc/src/idempotency-middleware.ts:141-150 | A result is stored for a TTL and returned to the request that has it stored. |
| Idempotency.StoredStays | packages/trpc/src/idempotency-middleware.ts:126-170 | Over any timely run a stored response stays as it is until it expires, whatever the other requests do. |
| Idempotency.DuplicatesGetTheResponse | packages/trpc/src/idempotency-middleware.ts:126-162 | While it does, every duplicate is refused its claim and answers with it at its read. |
| ProbeLoop.ProbeEffect.constructor | apps/web/app/providers/connectivity-provider.tsx:109-169 | The effect starts with its first probe under way. |
| ProbeLoop.ProbeEffect.RunProbe | apps/web/app/providers/connectivity-provider.tsx:114-126 | A probe begins unless one is in flight, which is asked to be followed by another. |
| ProbeLoop.ProbeEffect.ProbeSettled | apps/web/app/providers/connectivity-provider.tsx:126-151 | The whole new state after a verdict, and that it is announced exactly when reachable and not cancelled. |
| ProbeLoop.ProbeEffect.TimerFired | apps/web/app/providers/connectivity-provider.tsx:150 | The armed timeout begins the next probe. |
| ProbeLoop.ProbeEffect.ProbeNow | apps/web/app/providers/connectivity-provider.tsx:153-164 | A request clears the timeout and probes, or is coalesced. |
| ProbeLoop.ProbeEffect.Cleanup | apps/web/app/providers/connectivity-provider.tsx:176-186 | Cancelling clears the timeout. |
| ProbeLoop.NeitherDiesNorDoubles | apps/web/app/providers/connectivity-provider.tsx:109-187 | After every run of events, until cancelled exactly one of a probe in flight and an armed timeout; afterwards no timeout. |
| ProbeLoop.LoopStartsAlive | apps/web/app/providers/connectivity-provider.tsx:109-187 | The same from the start of the effect. |
| ProbeLoop.ProbesConserved | apps/web/app/providers/connectivity-provider.tsx:114-151 | Every probe begun has settled but for the one in flight. |
| ProbeLoop.RequestsCoalesce | apps/web/app/providers/connectivity-provider.tsx:115-148 | All the requests made during one flight cost one more probe together. |
| ProbeLoop.RequestIsAnswered | apps/web/app/providers/connectivity-provider.tsx:153-164 | Every request is followed by a probe begun no earlier than it, unless cancelled first. |
| ProbeLoop.CancelledIsQuiet | apps/web/app/providers/connectivity-provider.tsx:176-186 | Once cancelled no probe ever begins. |
| ProbeLoop.BackoffIsExponential | apps/web/lib/connectivity/connectivity-machine.ts:24-71 | After any number of failures in a row the delay is the uncapped exponential backoff held at its ceiling: capping the streak loses nothing; any success returns to the heartbeat. |
| ProbeLoop.LearnsItsVerdicts | apps/web/app/providers/connectivity-provider.tsx:126-151 | The state of the loop is what the verdicts of its probes, in their order and up to a cancel, make of the one it began with. |
| ProbeLoop.FollowsItsVerdicts | apps/web/app/providers/connectivity-provider.tsx:109-187 | Over any run the loop is live when the last verdict was a success and offline when it was a failure; and while no probe is in flight the timeout armed is the heartbeat, or after n failures in a row the exponential backoff up to its ceiling. |
| LazyWorker.LazyWorkerState.constructor | packages/queue/src/lazy-worker-manager.ts:118-128 | A registered worker has no instance and an open lock. |
| LazyWorker.LazyWorkerState.EnsureWorkerRunning | packages/queue/src/lazy-worker-manager.ts:200-212 | A call takes the lock it finds and leaves its own in its place, before its first await. |
| LazyWorker.LazyWorkerState.AfterLock | packages/queue/src/lazy-worker-manager.ts:212-241 | What the call does once it has the lock, in every state of the worker. |
| LazyWorker.LazyWorkerState.AfterResume | packages/queue/src/lazy-worker-manager.ts:223-232 | A resume that fails goes on to destroy the worker and create another. |
| LazyWorker.LazyWorkerState.AfterClose | packages/queue/src/lazy-worker-manager.ts:300-308 | The call's own destroyWorker ends: the closed worker is forgotten. |
| LazyWorker.LazyWorkerState.AfterDestroy | packages/queue/src/lazy-worker-manager.ts:228-229 | The call goes on in a turn of its own and creates another worker. |
| LazyWorker.LazyWorkerState.CreateWorkerInstance | packages/queue/src/lazy-worker-manager.ts:247-257 | A worker that is constructed becomes the manager's own; a constructor that throws ends the call. |
| LazyWorker.LazyWorkerState.AfterRun | packages/queue/src/lazy-worker-manager.ts:277-285 | Whether the start went well is whether the worker counts as running. |
| LazyWorker.LazyWorkerState.PauseWarm | packages/queue/src/lazy-worker-manager.ts:399-404 | A warm pause clears the running flag outside the lock. |
| LazyWorker.LazyWorkerState.AfterShutdown | packages/queue/src/lazy-worker-manager.ts:300-308 | A cold shutdown that ends forgets whichever worker is then the current one. |
| LazyWorker.OneAtATimeInCallOrder | packages/queue/src/lazy-worker-manager.ts:203-241 | Over every run the calls hold their section one at a time and in call order. |
| LazyWorker.LockedExactly | packages/queue/src/lazy-worker-manager.ts:204-212 | A call goes past the lock exactly when every call before it is over, by a return or by a throw. |
| LazyWorker.FirstWaiterCanGoOn | packages/queue/src/lazy-worker-manager.ts:211-241 | The lock is never lost: the first call not over always has a step it can take once what it awaits settles. |
| LazyWorker.CallsDrain | packages/queue/src/lazy-worker-manager.ts:211-241 | Every step of a call brings the whole queue of calls closer to its end. |
| LazyWorker.NeverTwoWorkers | packages/queue/src/lazy-worker-manager.ts:200-309 | In runs of calls and warm pauses there is never more than one worker the manager has not closed, and it is the manager's own. |
| LazyWorker.StrayAfterShutdownExactly | packages/queue/src/lazy-worker-manager.ts:419-447 | A cold shutdown leaves an open worker unmanaged exactly when a call has meanwhile replaced the one it closed. |
| LazyWorker.ShutdownCanLeaveAStray | packages/queue/src/lazy-worker-manager.ts:419-447 | A run from the start that ends with two workers open. |
| LazyWorker.ShutdownFreesTheWorker | packages/queue/src/lazy-worker-manager.ts:419-447 | A cold shutdown with nothing beside it closes the worker there is and leaves none. |
| LazyWorker.FailedStartIsIdle | packages/queue/src/lazy-worker-manager.ts:277-285 | A failed start leaves the worker there, neither running nor paused. |
| LazyWorker.IdleStaysIdle | packages/queue/src/lazy-worker-manager.ts:214-238 | While the library reports no pause, however many calls are made, such a worker is never resumed, started or replaced. |
| LazyWorker.DoesNothingExactly | packages/queue/src/lazy-worker-manager.ts:212-241 | A call past its lock returns at once with the worker not counted as running exactly when it finds it neither running nor paused, and then changes nothing. |
| LazyWorker.ReturnsRunningExactly | packages/queue/src/lazy-worker-manager.ts:196-309 | A call that returns has a worker running, which nothing is closing, but for exactly these cases: it found one neither running nor paused, the start it made failed, or a cold shutdown beside it has taken the worker or is closing it. |
| LazyWorker.ReturnsRunningInCalls | packages/queue/src/lazy-worker-manager.ts:196-285 | In runs of calls and warm pauses from the start, only the first two cases are left. |
| LazyWorker.ShutdownTakesTheResumedWorker | packages/queue/src/lazy-worker-manager.ts:220-232 | A run from the start in which a call returns after its resume, the worker counted as running, and a shutdown has closed it: there is none. |
| LazyWorker.MendedExactly | packages/queue/src/lazy-worker-manager.ts:214-238 | With no call under way such a worker stays as it is at every step but the library reporting it paused and the end of a shutdown. |
| LazyWorker.FailedStartIsNotMended | packages/queue/src/lazy-worker-manager.ts:214-285 | A run from the start in which a worker's start fails and a later call returns without one running. |
| LazyWorker.ThrowsExactly | packages/queue/src/lazy-worker-manager.ts:200-257 | A call throws exactly when the worker it makes, having found none or closed the one it had, cannot be constructed. |
| LazyWorker.FailedResumeReplaces | packages/queue/src/lazy-worker-manager.ts:220-232 | A worker that fails to resume is closed and another made and started in its place by the same call; without a shutdown that is the one the manager ends with. |
| LazyWorker.PausedWorkerComesBack | packages/queue/src/lazy-worker-manager.ts:214-227 | A worker paused while idle counts as not running, and the next call resumes that same worker and makes no other. |
| QueueRegistry.RegistryGlobals.constructor | packages/queue/src/registry.ts:62-65 | Neither a set nor a promise to begin with. |
| QueueRegistry.RegistryGlobals.InitializeQueues | packages/queue/src/registry.ts:105-154 | A call returns the set there is, joins the attempt in flight, or begins one. |
| QueueRegistry.RegistryGlobals.BuildQueues | packages/queue/src/registry.ts:125-152 | A successful attempt registers its set; a failed one registers nothing. |
| QueueRegistry.RegistryGlobals.Awaited | packages/queue/src/registry.ts:156-160 | A caller gets the attempt's set or its error, and the owner clears the promise either way. |
| QueueRegistry.RegistryGlobals.CloseAllQueues | packages/queue/src/registry.ts:216-227 | A close takes the set registered when it begins, and does nothing without one. |
| QueueRegistry.RegistryGlobals.QueuesClosed | packages/queue/src/registry.ts:227-248 | The close that ends clears the registry; one that throws does not. |
| QueueRegistry.StepKeeps | packages/queue/src/registry.ts:105-249 | Every step keeps the promise there exactly while its one owner awaits it, and only its attempt building. |
| QueueRegistry.OneBuilderAtATime | packages/queue/src/registry.ts:114-154 | Over every run, from any number of callers and module instances, at most one attempt is building. |
| QueueRegistry.SetsConserved | packages/queue/src/registry.ts:147-246 | Sets are built and cleared in turn: the set there at first and those built since are, in order, those that closes cleared and the one there now. |
| QueueRegistry.AtMostOneSetBetweenCloses | packages/queue/src/registry.ts:98-161 | Between two closes at most one set is built, none where one was there, and it stays registered. |
| QueueRegistry.StaysUpToDate | packages/queue/src/registry.ts:105-249 | Only a close that ends before everyone is answered can leave a caller with a past set. |
| QueueRegistry.EveryCallerGetsTheSameSet | packages/queue/src/registry.ts:98-161 | Between two closes every caller that is given a set is given the one registered at the end. |
| QueueRegistry.AttemptBegunExactly | packages/queue/src/registry.ts:105-154 | A call begins an attempt exactly when there is no set and no owner still awaiting its own. |
| QueueRegistry.CallJoins | packages/queue/src/registry.ts:114-120 | A call while an attempt is in flight awaits that attempt and begins none. |
| QueueRegistry.FailureChangesNothing | packages/queue/src/registry.ts:125-160 | An attempt that fails is over, and nothing else has changed. |
| QueueRegistry.FailureLeavesRetryFree | packages/queue/src/registry.ts:156-160 | All who await a failed attempt throw, and once its owner has, the next call begins another. |
| QueueRegistry.SuccessIsShared | packages/queue/src/registry.ts:105-161 | Everyone who awaits an attempt that succeeded is given its set; with a set registered a call has it at once. |
| QueueRegistry.WaitersGetTheirSet | packages/queue/src/registry.ts:105-161 | Over any run, closes or not, nobody who awaits an attempt that succeeded is told anything but its set. |
| QueueRegistry.LateCallersGetIt | packages/queue/src/registry.ts:105-161 | While no close clears the set registered, every later call has it at once. |
| QueueRegistry.LeftBehindExactly | packages/queue/src/registry.ts:216-249 | A close leaves a set open and unregistered exactly when the registry by then holds another set than it closed. |
| QueueRegistry.FailedCloseCanBeRepeated | packages/queue/src/registry.ts:216-249 | A close that fails changes nothing but that it is over; the next takes the same set again. |
| QueueRegistry.NeverTwoSetsOpen | packages/queue/src/registry.ts:216-249 | Where closes come one at a time there is never more than one set open. |
| QueueRegistry.OverlappingClosesLeaveASet | packages/queue/src/registry.ts:216-249 | A run with two closes under way together that ends with two sets open. |
| Timers.TimerStore.constructor | apps/web/stores/timers.ts:83 | The store starts empty. |
| Timers.TimerStore.AddTimer | apps/web/stores/timers.ts:85-105 | Unless its id is there, a timer comes last, paused and with all its time left, the others as they were; otherwise nothing changes. |
| Timers.TimerStore.RemoveTimer | apps/web/stores/timers.ts:107-111 | The loop keeps exactly the timers of other ids, in order. |
| Timers.TimerStore.ClearAll | apps/web/stores/timers.ts:113-115 | Nothing is left. |
| Timers.TimerStore.StartTimer | apps/web/stores/timers.ts:117-123 | A timer of the id runs from now with the time and the plan it had; every other is as it was, in its place. |
| Timers.TimerStore.PauseTimer | apps/web/stores/timers.ts:125-131 | A timer of the id is paused with the time its last tick left it; every other is as it was. |
| Timers.TimerStore.ResetById | apps/web/stores/timers.ts:133-146 | A timer of the id is paused with all of its original time; every other is as it was. |
| Timers.TimerStore.AdjustTimer | apps/web/stores/timers.ts:148-174 | A timer of the id changes by the time given but never below nothing; it completes at nothing, runs again when it was completed and has some, and otherwise keeps status and last tick; every other is as it was. |
| Timers.TimerStore.Tick | apps/mobile/src/stores/timers.ts:139-187 | Each running timer loses what has gone by since it was last looked at, down to nothing, and completes exactly when it had time left and as much has gone by; a change is reported exactly when one ran, and exactly those that completed are announced. |
| Timers.RunKeepsSane | apps/web/stores/timers.ts:80-211 | Over any actions at any clock readings ids stay unique, a completed timer has nothing left, and a timer is paused exactly when it has no last tick. |
| Timers.TicksFuse | apps/web/stores/timers.ts:176-210 | With a clock that never goes back, ticks at any times leave a running timer as one tick at the last would. |
| Timers.CompletesOnTime | apps/web/stores/timers.ts:176-210 | Ticked at any times, a timer completes exactly when its time has gone by since it was last looked at, and otherwise has left what has not. |
| Timers.ChargedForItsTime | apps/web/stores/timers.ts:117-210 | Over any starts, pauses and ticks at most a gap apart, a timer is never charged for more than it ran, and for at most the gap less per pause or restart. |
| Timers.ChargedByNow | apps/web/stores/timers.ts:117-210 | The same at any moment, with one current tail. |
| Timers.StoreProjects | apps/web/stores/timers.ts:80-211 | In every run of a store the timer of an id goes its own way, whatever is done to the others. |
| Timers.StoreTicksFuse | apps/web/stores/timers.ts:176-210 | In a store ticks at any times leave a running timer as one tick at the last of them. |
| Timers.StoreCharges | apps/web/stores/timers.ts:80-211 | In a store, over any run that only starts, pauses and ticks a timer until it completes, the same bound on what it has not been charged. |
| Timers.OthersUntouched | apps/web/stores/timers.ts:85-174 | An action about one timer leaves every other as it was and in its place. |
| Timers.AdjustUndoneExactly | apps/web/stores/timers.ts:148-174 | An adjustment and its opposite leave a timer as it was exactly when the first left something, or took all of a timer running from that very moment. |
| RateLimit.RateLimiter.constructor | apps/web/proxy.ts:10 | No address has a record. |
| RateLimit.RateLimiter.Check | apps/web/proxy.ts:14-40 | The verdict and the new record of the address, and no other address's record changed. |
| RateLimit.RecordIsLastWindow | apps/web/proxy.ts:20-39 | The record is that of the latest window, and windows lie more than their length apart. |
| RateLimit.CountIsExact | apps/web/proxy.ts:20-39 | A record's count is exactly the number of requests admitted in its window and never over the limit. |
| RateLimit.LimitedExactly | apps/web/proxy.ts:22-37 | A request is refused exactly when its window has had its limit. |
| RateLimit.SpanBounded | apps/web/proxy.ts:17-39 | In any span of a window's length at most twice the limit is admitted. |
| RateLimit.RetryHintExactly | apps/web/proxy.ts:24-36 | A client that waits as long as it is told is let in if and only if the window did not end on a whole second from then. |
| RateLimit.RefusedOnceMore | apps/web/proxy.ts:24-36 | A client five seconds from the end of its window waits the five seconds it is told and is refused again. |
| RateLimit.AddressesApart | apps/web/proxy.ts:14-40 | In a run of any addresses an address's record, and how many of its requests are admitted, depend on its own requests alone. |
| RateLimit.EveryAddressIsLimited | apps/web/proxy.ts:14-40 | Over any requests of any addresses a record counts exactly its address's admitted requests of its window, and of no address more than twice the limit is admitted in any span of a window's length. |
| JobSteps.WorkerJob.constructor | packages/queue/src/job-steps.ts:87-95 | A job starts without step progress. |
| JobSteps.WorkerJob.CloneAttempts | packages/queue/src/job-steps.ts:127-138 | A fresh copy of the recorded attempts, so that editing it leaves the job as it is. |
| JobSteps.WorkerJob.CurrentAttemptEntry | packages/queue/src/job-steps.ts:140-151 | The current attempt's entry, appended where there is none. |
| JobSteps.WorkerJob.UpdateProgress | packages/queue/src/job-steps.ts:181-194 | The whole progress is replaced or nothing is. |
| JobSteps.WorkerJob.ReportStep | packages/queue/src/job-steps.ts:168-197 | An open last step of the attempt is ended and another begun, in one write that lands or does not. |
| JobSteps.WorkerJob.CompleteStep | packages/queue/src/job-steps.ts:205-233 | The attempt's last step is ended, its detail merged or replaced; nothing is written without one. |
| JobSteps.WorkerJob.RecordModelUses | packages/queue/src/job-steps.ts:285-302 | The attempt's models are recorded and nothing else of its entry changes. |
| JobSteps.Merged | packages/queue/src/job-steps.ts:220-223 | Details that are objects merge field by field, the later one first; any other detail replaces. |
| JobSteps.LastReportIsShown | packages/queue/src/job-steps.ts:181-229 | The step shown is that of the last report written, whatever was completed or recorded since. |
| JobSteps.HistoryStaysTidy | packages/queue/src/job-steps.ts:127-233 | Over any reports, completions, model records and retries, written or lost: one timeline per attempt in ascending order, its steps one after another in time, at most the last one open. |
| JobSteps.HistoryIsKept | packages/queue/src/job-steps.ts:1-10 | Earlier attempts are never changed, timelines only grow, an ended step stays ended, and only a timeline's last step may still change. |
| JobSteps.ReportsConserved | packages/queue/src/job-steps.ts:168-197 | The steps of each attempt are, in order and with their times, exactly the reports written while it was the current one, after whatever it had before. |
| JobSteps.ReportWrites | packages/queue/src/job-steps.ts:168-197 | A report begins its step now, with its detail and open; the last step before it is ended now if it was open; nothing else of the history changes. |
| JobSteps.CompletionWrites | packages/queue/src/job-steps.ts:205-233 | A completion ends the last step now with its detail merged in, and changes nothing else; without progress or a step it writes nothing. |
| JobSteps.RecordWrites | packages/queue/src/job-steps.ts:285-302 | A model record leaves every step and the step shown as they were. |
| JobSteps.LostChangesNothing | packages/queue/src/job-steps.ts:181-302 | A write that is lost changes nothing, and a retry leaves the recorded history. |
| IconShares.ShareBook.constructor | tooling/ingredient-icons/src/draw-icons.ts:98 | The book starts from the decisions read. |
| IconShares.ShareBook.FindLender | tooling/ingredient-icons/src/draw-icons.ts:102-106 | The walk up finds the nearest ancestor drawn under the shares so far. |
| IconShares.ShareBook.CountDepth | tooling/ingredient-icons/src/draw-icons.ts:107-113 | The levels above a food, counted up to 64. |
| IconShares.ShareBook.ListUndecided | tooling/ingredient-icons/src/draw-icons.ts:114-116 | Exactly the foods to decide, each once. |
| IconShares.ShareBook.CountLevels | tooling/ingredient-icons/src/draw-icons.ts:122-125 | Each food's level, and every level there is. |
| IconShares.ShareBook.FindLoans | tooling/ingredient-icons/src/draw-icons.ts:126-134 | Of a level, the foods without a true lender are drawn and each of the others becomes one question against its true lender. |
| IconShares.ShareBook.WriteAnswers | tooling/ingredient-icons/src/draw-icons.ts:135-137 | Each answer becomes the specified share of the food it was asked about. |
| IconShares.ShareBook.DecideLevel | tooling/ingredient-icons/src/draw-icons.ts:125-139 | One level is settled as specified, all levels above it having been. |
| IconShares.ShareBook.DecideShares | tooling/ingredient-icons/src/draw-icons.ts:86-142 | Every undecided food gets the decision of the recursive top-down specification, earlier decisions stay, and the model is asked exactly once about each food with a lender, against its nearest ancestor drawn in the end. |
| IconShares.LenderSettled | tooling/ingredient-icons/src/draw-icons.ts:86-91 | With the levels above settled, the lender found is the nearest ancestor drawn under the final shares. |
| IconShares.FinalSharesAgree | tooling/ingredient-icons/src/draw-icons.ts:86-91 | After the run, being drawn and having a lender mean under the final shares what the specification says. |
| IconShares.LenderIs | tooling/ingredient-icons/src/draw-icons.ts:101-106 | The lender is the parent if its id has an icon or is decided to be drawn, and otherwise the parent's own lender. |
| IconShares.DecisionIs | tooling/ingredient-icons/src/draw-icons.ts:125-139 | An undecided food is drawn exactly when it has no lender or its question was answered that it needs its own, and borrows otherwise. |
| IconShares.DrawnInTheEndIs | tooling/ingredient-icons/src/draw-icons.ts:86-142 | A food is drawn in the end exactly when it has an icon, was decided to be drawn, or is undecided and needs drawing. |
| IconShares.TrueLenderIs | tooling/ingredient-icons/src/draw-icons.ts:86-142 | The true lender is the parent if that holds of it, and otherwise the parent's own. |
| IconShares.SharesAre | tooling/ingredient-icons/src/draw-icons.ts:86-142 | The final shares: the earlier ones unchanged, and one for exactly each listed food that is not vague, has no icon and had none, which says whether it needs drawing. |
| SequenceWalk.EaseSlope | apps/landing/components/sequence.ts:5-8 | The eased curve climbs on the unit interval, by at most one and a half times the step. |
| SequenceWalk.EaseMirrors | apps/landing/components/sequence.ts:5-8 | It starts as it stops. |
| SequenceWalk.MovesAreSoft | apps/landing/components/sequence.ts:82-102 | A move starts and ends softly: where a share x of it has gone by, the walk is at most 3x² past the step it leaves and at most 3(1-x)² short of the next. |
| SequenceWalk.RestsAndMovesFillTheScreen | apps/landing/components/sequence.ts:32-35 | The rests and the moves fill the held screen exactly. |
| SequenceWalk.StopsOf | apps/landing/components/sequence.ts:47-61 | The loop lists every arrival, and every departure but that of the last step. |
| SequenceWalk.WalkAt | apps/landing/components/sequence.ts:88-102 | The loop computes the walk defined step by step. |
| SequenceWalk.WalkClimbs | apps/landing/components/sequence.ts:82-102 | The walk is monotone and stays between the first step and the last. |
| SequenceWalk.WalkRate | apps/landing/components/sequence.ts:82-102 | It changes by at most 1.5 / glide per unit of progress, so there are no cuts. |
| SequenceWalk.WholeExactlyAtRest | apps/landing/components/sequence.ts:82-102 | It is whole exactly on the closed rests, and there it is the step at rest. |
| SequenceWalk.MidMoveIsWithinReach | apps/landing/components/sequence.ts:63-80 | Every point inside a move is within half a move, which is the reach, of a listed stop. |
| SequenceWalk.MiddleOutOfReachExactly | apps/landing/components/sequence.ts:63-80 | The middle of a rest is out of reach of every stop if and only if (2 * count - 1) * glide < 1. |
| SequenceWalk.PageRestsLonger | apps/landing/components/sections/tour.tsx:92-96 | It is for both sequences of the page, six screens with moves of 0.08 and three moments with moves of 0.18. |
| NameIndex.Add | tooling/nutrition/src/names.ts:116-123 | A food is put last under its key, once, and never under the empty key. |
| NameIndex.IndexByName | tooling/nutrition/src/names.ts:113-131 | Under every key both maps hold exactly what a scan of the foods finds, in order. |
| NameIndex.Candidates | tooling/nutrition/src/names.ts:149 | What the keys give, each candidate once, in order of first occurrence. |
| NameIndex.MatchByName | tooling/nutrition/src/names.ts:140-158 | Looking up through the maps gives what a straight scan of the sources gives, in order of rung and source. |
| NameIndex.AgreeExactlyInPairs | tooling/nutrition/src/names.ts:98-105 | The test on the highest and lowest calories holds exactly when every pair of candidates agrees. |
| NameIndex.AnswerOfDistinct | tooling/nutrition/src/names.ts:149-153 | Repeats among the candidates change no answer. |
| NameIndex.FirstPlaceDecides | tooling/nutrition/src/names.ts:133-154 | The first place with a candidate is the one that answers, and its answer may be none. |
| NameIndex.MatchIsFromFirstPlace | tooling/nutrition/src/names.ts:133-158 | Every match is a food of the first place's source under a key of the entry, the candidates there agreeing. |
| NameIndex.MatchExactly | tooling/nutrition/src/names.ts:133-158 | An entry matches a food if and only if the first place with a candidate gives it. |
| NameIndex.KeysHave | tooling/nutrition/src/names.ts:146 | The keys looked up are exactly the non-empty keys the names have on the rung. |
| NameIndex.KeysInOrder | tooling/nutrition/src/names.ts:146 | They come in the order in which they first occur among the names, each once. |
| NameIndex.CandidateExactly | tooling/nutrition/src/names.ts:146-151 | A source has a candidate exactly when a food of it shares a non-empty key of the rung with a name. |
| NameIndex.FirstCandidate | tooling/nutrition/src/names.ts:146-153 | The food put forward is the first, in the source's order, that shares a key with the first name that any food there shares one with. |
| NameIndex.MatchMeans | tooling/nutrition/src/names.ts:98-158 | At the first rung and source where a food shares a key with a name, that food is the match if every two foods there that share keys lie within 15 or a tenth of the higher of each other, and there is none otherwise. |
| NameIndex.NoMatch | tooling/nutrition/src/names.ts:133-158 | Where no food shares a key with a name there is no match. |
| NameIndex.DecidedOrUnknown | tooling/nutrition/src/names.ts:133-158 | One of the two cases always holds. |
| SourceTable.WithoutAmbiguousCodes | tooling/nutrition/src/build.ts:64-79 | Counting in a map keeps exactly the foods whose key is given once, in order. |
| SourceTable.KeptExactly | tooling/nutrition/src/build.ts:40-79 | A gathered food is kept if and only if no other has its key, and every key of the table names one food. |
| SourceTable.GatheredExactly | tooling/nutrition/src/build.ts:36-61 | Exactly these foods are gathered: those of CIQUAL 2025, those of 2020 whose code 2025 does not have, those of CALNUT whose code neither has, under CIQUAL's name, 2025's first, and all of USDA and CoFID; each with the code and calories it was given. |
| SourceTable.GatheredByDataset | tooling/nutrition/src/build.ts:54-61 | Of each dataset, its foods in the order it gives them. |
| SourceTable.TableInOrder | tooling/nutrition/src/build.ts:54-79 | The datasets come in turn, and the foods kept stay in the order they were gathered. |
| SourceTable.English | tooling/nutrition/src/build.ts:162-164 | An entry is matched by exactly its names in English and in every language. |
| SourceTable.EnglishInOrder | tooling/nutrition/src/build.ts:162-164 | They stay in the taxonomy's order. |
| SourceTable.NameSourcesAre | tooling/nutrition/src/build.ts:150-156 | CIQUAL's two editions, USDA and CoFID are the three sources of names, each with exactly its foods in order. |
| SourceTable.NumbersExactly | tooling/nutrition/src/build.ts:82-98 | An entry has its numbers from its codes if and only if a food of the table has one of them, under its dataset or as its NDB number. |
| SourceTable.MatchOfExactly | tooling/nutrition/src/build.ts:157-167 | An entry is matched to a food if and only if it has no fix, no food has one of its codes, and the first source and rung with a candidate give that food. |
| SourceTable.CiqualCodeKeptOnce | tooling/nutrition/src/build.ts:40-61 | Each CIQUAL code is kept under at most one of the three. |
| SourceTable.BuildSourceTable | tooling/nutrition/src/build.ts:108-182 | The build, with its index and its loop, gives the specified table, or throws with exactly the specified problems. |
| SourceTable.ProblemsExactly | tooling/nutrition/src/build.ts:118-145 | There is no problem if and only if every list holds. |
| SourceTable.BuildsExactly | tooling/nutrition/src/build.ts:100-148 | A table is returned if and only if every fix, density fix and piece fix names exactly one kept food with what it needs, and every list names entries the taxonomy has. |
| SourceTable.ErrorNamesExactly | tooling/nutrition/src/build.ts:118-148 | A build that throws names exactly what is wrong with the lists, each problem as itself. |
| SourceTable.NamesExactly | tooling/nutrition/src/build.ts:157-168 | An id is matched exactly when an entry of it has a match, with that of the last such entry. |
| SourceTable.TableHolds | tooling/nutrition/src/build.ts:100-182 | A table that is built holds the lists as given; every key in any list or name match names exactly one kept food, no id is both fixed and matched, and the ids matched are exactly those of an entry that has a match, which no code gives numbers. |

## Left out

- ResumeThenLive: the live merge is taken whole before its events are delivered, where the source delivers each as it comes; the yields, their cursors and their order are the same.
- NoGapNoRepeat: speaks of channels whose sessions lose nothing at the seam; when that is, is stated exactly by LosslessExactly.
- CurrentAttemptEntry: the recorded timelines are values inside an array, so the copy is deep by construction; sharing between a timeline and its copy is not modelled.
- IndexByName: foods are compared by value, where the source compares objects; in a table no two foods are equal, and elsewhere repeats change no answer.
- MatchMeans: speaks of sources whose calories are not negative, as those of the datasets are.
- DecideShares: assumes an acyclic catalogue at most 64 deep whose foods have distinct Open Food Facts ids; the source checks neither.
- ChargedForItsTime: runs until completion, of timers started with something left; a timer started at nothing left stays running at 0 in the source and is not spoken of.
- HistoryStaysTidy: appending through recordCompletedSteps is left out, since it does not close an open last step; so are the models a single step may carry, which only it records.
- TableHolds: the numbers other than calories, piece weight and density are carried through unread and are not part of the food; the version hash and the editions are left out.
- OpenCursor: the text of a cursor, its version and its hash are taken as already decoded, or malformed.
- Subscribe: the replay's reads are made of one log per channel handed in; the abort of a live source is an end of it, and returning the iterators is left out.
- Redis itself: expiry of the stream key, approximate trimming and the atomic append and publish are the assumptions above; network failures of a read end a session and are not modelled.
- Two clocks: stream ids carry the clock of Redis and expiry is checked with that of the server; FreshCursorMissesNothing takes them as one.
- superjson, schemas, JWT, logging, notifications, the mobile live activity and its top timer, job logs: input and output around the modelled steps.
- The hub's inside: its queue bound, reconnects and subscriptions appear only as a source that ends with an error.
- The lazy worker's stopLazyWorker, its polling and the return of its idle timers: liveness there depends on the library.
- Folding, normalising and singular forms of food names: keys are given with the name, as the index property needs nothing of them.
- parseTaxonomy and the dataset readers: their results are inputs; that USDA's reader gives only USDA foods is a condition of what is said of the foods gathered.
- readStepProgress: a job's progress is taken as already read, the legacy flat shape as the single attempt it is read as.
- React, image drawing, icon files, the rest of the proxy, and the landing page's DOM.
