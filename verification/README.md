# Asynchronous counters, caches and cursors of the cooking platform

A Dafny model of the parts of the backend where state moves in several steps: Redis sets and
counters, MySQL tables, an in-process event bus, consumers that batch events into redundant
counters, a version-keyed feed cache, master/replica routing, two check-then-record limits,
keyset pagination and a resumable data migration.

`dafny verify dfyconfig.toml` checks the whole project.

## How it is modelled

* Objects that the program updates in place are classes (`Consumer`, `LikeRepository`,
  `LikeCache`, `Bus`, `Cache`, `PostService`, `Service`, `WriteMarker`, `SlidingWindow`,
  `EventDedupCache`, `ConsumerManager`, `Migration`). Each method is proved against a
  specification function of the old state; the lemmas are about those functions.
* Concurrency is a state machine: a `Step` datatype, `Enabled`, `Do`, and runs as sequences of
  steps (`ValidSteps`, `Exec`). Every Redis command or script, every SQL statement and every
  channel operation is one step, so a run is an arbitrary interleaving of requests, handlers,
  flush loops, expiries and replication. The functions that `Do` is made of are the ones the
  methods are proved against, where both exist.
* Ghost history (what was allowed, lost, accepted, returned) is a field of the state that no
  `Enabled` condition of the program reads.
* Nondeterminism of the program stays nondeterminism: `Pick` is one step of a Go map iteration,
  a list query answers with any order among equal timestamps, a select takes any ready case.

| module | part of the system |
|---|---|
| `Scaling` | integer proportional redistribution of row counts |
| `LikeConsumer` | like flushes, `likes` rows and `like_count` |
| `LikeService` | like set and counter in Redis, published like events |
| `LikeRaces` | overlapping service calls and surplus events |
| `LikeDrift` | for which batches attribution to posts cannot go wrong |
| `LikePipeline` | published events, two topics, flushes and tables together |
| `FlushInputs` | what a flush loop receives, and when a batch ends |
| `CountConsumer` | delta maps and clamped updates of the `users` counters |
| `ChannelBus` | the bounded, dropping in-process bus |
| `UserCounters` | posts, likes and follows, bus, channel, maps and all four counters together |
| `HealthyCounters` | when that pipeline loses nothing, and what its counters then are |
| `FollowService` | follow cap and event ledger under concurrency |
| `EventDedup`, `PVConsumer` | at-least-once delivery made once; page views |
| `Shutdown` | draining on shutdown, the consumer manager |
| `FeedCache` | feed cache against the uncached query |
| `FeedPaging`, `FollowPaging`, `Cursors`, `OrderedIds` | cursor traversals |
| `ReadYourWrites` | write markers and forced master reads |
| `RateLimit` | sliding-window limiter |
| `PhoneMigration` | the phone-encryption migration |
| `Prelude` | options, clamping, sums over maps |

## Where code and comments disagree

The model follows the code.

* `internal/consumer/like_consumer.go:347-348` says the remainder goes to the largest bucket; the
  code (`:365-366`) gives it to the last one, which after the descending sort is a smallest one
  (`Scaling.ScalingError`). The error named at `:333-334` is against the proportional share; it
  says nothing about the rows a post really gained; `LikeDrift.AlwaysExactIff` says for which
  batches the two can never differ.
* `internal/consumer/like_consumer.go:255-261` says the last event of a pair wins within a batch. It
  does exactly when no pair is liked after its last unlike (`LikeConsumer.FlushMatchesReplay`,
  `LikeConsumer.RelikeIsLost`).
* `internal/cache/like_cache.go:220` speaks of an over-count of `AddLike`; the script at `:174-185`
  cannot over-count. What can go wrong is an under-count, exactly when a remove that took
  nothing decrements a positive counter (`LikeService.CounterExact`, `LikeService.CounterCanLag`).
* `internal/repository/post_repository.go:238-239` says a tie in `created_at` may skip one row; it
  skips every post of the page's last timestamp that the page does not contain
  (`FeedPaging.CompleteIffNoSplitTie`, `FeedPaging.TieSkipsTwo`).
* `internal/event/channel.go:123` says that queued messages are not lost at shutdown. One that is
  published between the empty poll that ends a drain and the removal of the channel is
  (`Shutdown.AllHandledIff`); none is when publishing stops before the cancellation, as
  `cmd/server/main.go:303-323` arranges (`Shutdown.QuietMeansNoneLate`).
* `internal/cache/feed_cache.go:126-133` builds keys without the page size, so a page cached for one
  size is served for another (`FeedCache.PageSizeConfusion` says when that matters,
  `FeedCache.WrongSizeServed` that it happens).

## Model

| member | source | states |
|---|---|---|
| Scaling.SortBuckets | internal/consumer/like_consumer.go:358-362 | the in-place neighbour-swapping sort leaves the insertion-sorted list |
| Scaling.SinkBucket | internal/consumer/like_consumer.go:359-361 | one round of the inner loop inserts bucket i into the sorted prefix and leaves the rest alone |
| Scaling.SortDescProperties | internal/consumer/like_consumer.go:357-362 | that list is descending by count and a permutation of the input |
| Scaling.CollectBuckets | internal/consumer/like_consumer.go:353-356 | for any map iteration order, the buckets list the map's entries exactly once each |
| Scaling.Distribute | internal/consumer/like_consumer.go:363-381 | the loop with its clamp and early break computes the allotment that has neither: the clamp never fires and the break skips nothing |
| Scaling.ScaleDeltas | internal/consumer/like_consumer.go:336-382 | the result is one of the possible scalings, for every map, every landed count and every iteration order |
| Scaling.PrefixFits | internal/consumer/like_consumer.go:368-371 | no prefix of rounded-down shares exceeds what landed, which is why the clamp never fires |
| Scaling.NothingLeft | internal/consumer/like_consumer.go:376-379 | once everything is handed out the remaining buckets would get nothing, which is why the break is harmless |
| Scaling.ScalingConservesMass | internal/consumer/like_consumer.go:330-332 | outputs sum to the landed count, are positive, and only posts of the batch receive any |
| Scaling.ScalingError | internal/consumer/like_consumer.go:332-382 | against the exact share count·landed/raw every bucket but the last is short by less than 1, and the last, a smallest one, is over by less than k−1 |
| Scaling.SinglePost | internal/consumer/like_consumer.go:336-382 | a batch about one post gives it exactly the landed count |
| LikeConsumer.LikeRepository.BatchInsert | internal/repository/like_repository.go:123-154 | INSERT IGNORE: the rows become members, RowsAffected is the growth of the table |
| LikeConsumer.LikeRepository.BatchDelete | internal/repository/like_repository.go:161-182 | the pairs are gone, RowsAffected is the shrinkage of the table |
| LikeConsumer.LikeRepository.IncrPostLikeCount | internal/repository/like_repository.go:195-213 | in any map order every listed existing post is incremented by its delta, others keep their count |
| LikeConsumer.LikeRepository.DecrPostLikeCount | internal/repository/like_repository.go:216-232 | the same with subtraction clamped at zero |
| LikeConsumer.Consumer.Tally | internal/consumer/like_consumer.go:268-276 | the number of places of each post in the buffer |
| LikeConsumer.Consumer.FlushLikes | internal/consumer/like_consumer.go:266-293 | the like half: rows inserted, counters raised by a scaling of the batch to the rows that landed, buffer empty |
| LikeConsumer.Consumer.FlushUnlikes | internal/consumer/like_consumer.go:296-321 | the unlike half, with clamped decrements |
| LikeConsumer.Consumer.FlushWithCtx | internal/consumer/like_consumer.go:262-324 | all likes, then all unlikes: the tables become AfterFlush of the old ones, the result is the number of rows changed |
| LikeConsumer.Consumer.OnEvent | internal/consumer/like_consumer.go:200-211 | an event is buffered; a flush of the whole batch happens exactly when a buffer reaches the cap |
| LikeConsumer.HalvesNext | internal/consumer/like_consumer.go:201-206 | a like joins the likes of a batch and an unlike its unlikes, each behind the earlier ones |
| LikeConsumer.ReplayByLast | internal/consumer/like_consumer.go:255-261 | replaying a batch in arrival order leaves a pair present exactly as its last event says |
| LikeConsumer.FlushMatchesReplay | internal/consumer/like_consumer.go:255-324 | for every table, the flush leaves the rows of the in-order replay if and only if no pair is liked after its last unlike in the batch |
| LikeConsumer.RelikeIsLost | internal/consumer/like_consumer.go:255-261 | for every user and post, unlike-then-like in one batch on an empty table loses the like |
| LikeConsumer.FlushScalings | internal/consumer/like_consumer.go:285-318 | both scaled maps are positive, touch known posts only, and sum to the rows their statement changed |
| LikeConsumer.FlushKeepsSum | internal/consumer/like_consumer.go:278-318 | one flush changes the sum of counters minus the number of rows by exactly what the decrements clamped |
| LikeConsumer.AggregateInvariant | internal/repository/like_repository.go:195-232 | over every run the sum of `like_count` stays at least the number of rows; equality lasts exactly as long as no decrement clamps |
| LikeConsumer.FlushKeepsExact | internal/consumer/like_consumer.go:262-344 | from exact counters, a flush whose halves are each free of ineffective events or about one post keeps every counter exact and clamps nothing |
| LikeConsumer.PerPostExactness | internal/consumer/like_consumer.go:262-344 | the same over every run of such flushes |
| LikeConsumer.FlushLandsIff | internal/repository/like_repository.go:123-182 | for any table and batch, all likes insert a row if and only if they are distinct and none has one; all unlikes delete one if and only if they are distinct and each has one by then |
| LikeDrift.AlwaysExactIff | internal/consumer/like_consumer.go:262-382 | the batches for which no exact table, landed count or bucket order makes any counter drift: if and only if the likes are about one post, and the unlikes are too or belong to one explicit family |
| LikeDrift.DisjointHalves | internal/consumer/like_consumer.go:262-382 | when no pair is in both halves: if and only if each half is about a single post |
| LikeDrift.TwoPostsWithoutDrift | internal/consumer/like_consumer.go:262-382 | the family is real: unlikes about two posts with which nothing can drift |
| LikeDrift.UncleanFlushDrifts | internal/consumer/like_consumer.go:326-335 | a batch that drifts under every outcome: a repeated like takes another post's likes |
| LikeConsumer.Consumer.OnTick | internal/consumer/like_consumer.go:213-216 | a tick flushes the whole batch exactly when there is one |
| FlushInputs.ArrivedNext | internal/consumer/like_consumer.go:200-216 | every received item is taken, behind the earlier ones; a tick takes nothing |
| FlushInputs.ArrivedCount | internal/consumer/count_consumer.go:324-337 | an item has been taken as often as it was received |
| FlushInputs.ReceivedNext | internal/consumer/count_consumer.go:326-330 | an item ends the batch it joins if and only if it fills it |
| FlushInputs.TickNext | internal/consumer/count_consumer.go:332-336 | after a tick everything taken is in a batch that has ended, and no batch is empty |
| FlushInputs.BatchesEndInTime | internal/consumer/like_consumer.go:207-211 | over every run no batch was full before its last item, and the open one is not |
| LikeConsumer.Consumer.FlushLoop | internal/consumer/like_consumer.go:190-245 | for every sequence of events and ticks and every rest of the channel: every event, like or unlike, is flushed as often as it was received or left over, in order, in exactly one batch; batches end at the cap, at a tick and at the end; the tables are those of that run of flushes |
| LikeConsumer.RunMatchesReplay | internal/consumer/like_consumer.go:190-324 | over every run of flushes the rows are the replay of the whole arrived stream if and only if no pair is liked after its last unlike in the last batch that mentions it |
| LikePipeline.AllLandIffNoComeback | internal/consumer/like_consumer.go:266-290 | for a batch in which each event changes the state it finds, all likes insert a row if and only if no pair is liked after being unliked in it |
| LikePipeline.LanesDeliver | internal/consumer/like_consumer.go:128-186 | likes and unlikes arrive by a goroutine each: once both are drained, each kind has arrived completely and in its own order |
| LikePipeline.EveryMergeArrives | internal/consumer/like_consumer.go:128-186 | and every such merge of the two is an arrival order of some run |
| LikePipeline.EffectiveIffPairOrder | internal/consumer/like_consumer.go:128-186 | what arrives changes the state it finds, as what was published did, if and only if each pair's events arrive in the order of their publication |
| LikePipeline.RowsFollowCacheIff | internal/consumer/like_consumer.go:128-324 | for every merge and every partition into flushes, the rows are the Redis sets if and only if for every pair the last flush about it contains an unlike of it exactly when the last event published about it is one |
| LikePipeline.OvertakenUnlike | internal/consumer/like_consumer.go:128-186 | for every pair, a like and its unlike that arrive the other way round in two flushes leave a row that Redis does not have |
| LikePipeline.PipelineExact | internal/consumer/like_consumer.go:190-344 | if each pair's events arrive in published order and no batch likes a pair it has unliked, then over every run rows are the replay of what was published, every counter is its number of rows, nothing clamps |
| LikePipeline.TablesFollowCache | internal/service/like_service.go:107-181 | against the Redis state, for every merge: the exact condition for the rows; and over clean flushes `like_count` of a post is its Redis counter if and only if as many of its pairs are left behind by their last flush as are missed by it |
| LikeService.LikeCache.GetLikeCount | internal/cache/like_cache.go:267-279 | the counter, zero when missing or negative |
| LikeService.LikeCache.AddLike | internal/cache/like_cache.go:174-209 | the atomic script: the pair is a member, its counter moves by one only when it was new, no other counter moves |
| LikeService.LikeCache.RemoveLike | internal/cache/like_cache.go:225-255 | the member goes, the counter is decremented with a clamp whether or not the member was there, no other counter moves |
| LikeService.Service.Like | internal/service/like_service.go:107-142 | answers with the number of likers, publishes exactly when the pair was absent, keeps counter = set and replay of published events = set |
| LikeService.Service.Unlike | internal/service/like_service.go:150-181 | the same for removal |
| LikeService.EventsAlternate | internal/service/like_service.go:100-181 | the published events of each pair alternate, beginning with a like |
| LikeService.CounterBounds | internal/cache/like_cache.go:174-254 | in every interleaving 0 <= counter <= set size + removes that took a member and have not decremented |
| LikeService.CounterLedger | internal/cache/like_cache.go:174-254 | over every run, members + owed decrements − counter changes by exactly the vain decrements minus the clamped ones |
| LikeService.CounterExact | internal/cache/like_cache.go:174-254 | the upper bound is met in every state of a run if and only if no remove that took nothing decrements a positive counter |
| LikeService.CounterCanLag | internal/cache/like_cache.go:225-254 | two overlapping removes of one like swallow another user's like |
| LikeRaces.EventLedger | internal/service/like_service.go:107-181 | in every interleaving of probe, flip and publish, likes minus unlikes issued for a pair are its change of membership plus the likes that missed minus the unlikes that missed |
| LikeRaces.SurplusBound | internal/service/like_service.go:107-181 | with at most k overlapping calls for one change, the events issued are at least the changes made and at most k times as many |
| LikeRaces.SurplusIsTight | internal/service/like_service.go:107-181 | for every k some run announces one change k times |
| LikeRaces.CallAlone | internal/service/like_service.go:107-181 | a call on its own makes its change once and announces it once |
| CountConsumer.Consumer.Apply | internal/consumer/count_consumer.go:308-322 | the four delta maps are those of the batch with the delta appended |
| CountConsumer.Consumer.UpdateUser | internal/consumer/count_consumer.go:392-439 | one statement sets every changed column of one row to max(0, value + delta) |
| CountConsumer.Consumer.FlushMaps | internal/consumer/count_consumer.go:374-442 | in any map order every touched column becomes max(0, v + delta), everything else stays; the result is the handled total |
| CountConsumer.Consumer.Flush | internal/consumer/count_consumer.go:296-306 | an empty buffer does nothing; otherwise the whole batch is flushed and the maps are fresh |
| CountConsumer.Consumer.OnDelta | internal/consumer/count_consumer.go:326-330 | a delta is buffered, and the batch flushed exactly when the cap is reached |
| CountConsumer.Consumer.FlushLoop | internal/consumer/count_consumer.go:282-348 | for every sequence of deltas and ticks and every rest of the channel: every delta is flushed as often as it was received or left over, in order, in exactly one batch; batches end at the cap, at a tick and at the end; the table is that of the run of flushes |
| CountConsumer.NetNext | internal/consumer/count_consumer.go:308-322 | a delta counts for its own user, in the columns it names |
| CountConsumer.FlushedRow | internal/consumer/count_consumer.go:386-439 | a flush takes every column of a row, by name, to max(0, value + net delta) |
| CountConsumer.FlushedValue | internal/consumer/count_consumer.go:402-417 | per row and column a flush is max(0, value + net delta of the batch) |
| CountConsumer.FoldIsReflectedSum | internal/consumer/count_consumer.go:366-417 | a clamped counter is start + sum + the deepest deficit reached at a flush boundary |
| CountConsumer.ExactWhenNeverNegative | internal/consumer/count_consumer.go:366-417 | it is at least max(0, start + sum), and equals start + sum if and only if no boundary is below zero |
| CountConsumer.CoarserIsLower | internal/consumer/count_consumer.go:326-345 | merging neighbouring flushes never raises the final counter |
| CountConsumer.RunIsFold | internal/consumer/count_consumer.go:374-442 | over every run of flushes each column of each row is folded on its own |
| CountConsumer.BatchingOnlyLowers | internal/consumer/count_consumer.go:326-442 | for one delta sequence under two partitions: max(0, start + sum) <= coarse <= fine, and fine = start + sum if and only if no fine boundary is negative |
| ChannelBus.RemoveFirst | internal/event/channel.go:90-96 | the search cuts out the first match |
| ChannelBus.Bus.Register | internal/event/channel.go:81-85 | a fresh empty channel joins the topic's list, last |
| ChannelBus.Bus.Unregister | internal/event/channel.go:88-98 | exactly that channel leaves the topic's list |
| ChannelBus.Bus.Send | internal/event/channel.go:54-64 | a full channel drops the message, otherwise it is queued last |
| ChannelBus.Bus.Publish | internal/event/channel.go:40-67 | fails exactly on a closed bus; otherwise each subscriber of the topic gains the message last if its channel has room, and no other channel changes |
| ChannelBus.Bus.Receive | internal/event/channel.go:99-111 | the oldest message is taken; accepted = received + queued for every channel |
| ChannelBus.Bus.Drain | internal/event/channel.go:124-142 | everything queued is handled in order, so received = accepted |
| UserCounters.ChangeCounts | internal/consumer/count_consumer.go:141-244 | a post created or deleted, a like set flipped, a follow row inserted or deleted moves each counted set by exactly what its event announces to each user |
| UserCounters.CounterConservation | internal/consumer/count_consumer.go:141-442 | in every reachable state, for each user and all four columns: counter + pending + lost = what the column counts + likes announced without a change + clamp loss; the clamp loss never decreases and only `total_likes` has such announcements |
| UserCounters.CountersAtRest | internal/service/follow_service.go:159-202 | at rest a counter is off by exactly what was lost, clamped and announced in vain; with none of them it is right |
| UserCounters.StepConserves | internal/event/channel.go:40-67 | every single step (commit, publish, drop, receive, send, discard, flush of one row, switch) keeps the balance |
| HealthyCounters.PublishDeliversIff | internal/event/channel.go:40-67 | a publish loses nothing if and only if the bus is open and the topic's channel is subscribed and has room; then exactly that channel gains the message, last |
| HealthyCounters.StepLosesIff | internal/consumer/count_consumer.go:266-279 | a step adds to what is lost if and only if it is such a publish, a delta given up (after a cancellation), or a failed update of a row that exists |
| HealthyCounters.RunLosesIff | internal/event/channel.go:40-67 | over every run: nothing is lost if and only if no step loses |
| HealthyCounters.ShutdownIsFinal | internal/event/channel.go:30-67 | in every run a closed bus and a cancellation stay so, and no channel exceeds its capacity |
| HealthyCounters.HealthyRunLosesNothing | internal/event/channel.go:40-67 | with bus and subscriptions up, room at every publish and no failed update, no run loses anything |
| HealthyCounters.UpdateIsClamped | internal/consumer/count_consumer.go:392-439 | an update takes each column of its own user to max(0, value + net delta of the flush), and the clamp loss grows by what the clamp added |
| HealthyCounters.HealthyAtRest | internal/consumer/count_consumer.go:141-442 | after a healthy run that has come to rest each of the four columns, by name, is the number of posts, likes, followers or followees plus its clamp loss, `total_likes` also plus the announcements made in vain; a column has a clamp loss if and only if some update would have gone below zero |
| HealthyCounters.CanComeToRest | internal/consumer/count_consumer.go:135-348 | from every state with everything up the pipeline can come to rest without a loss and without a further change |
| HealthyCounters.CountersCatchUp | internal/consumer/count_consumer.go:135-348 | so after every healthy run from agreement all counters can catch up with the tables as they are |
| FollowService.Service.Follow | internal/service/follow_service.go:125-176 | one condition for each of the four outcomes, both ways; row, markers and event exactly when a row was inserted; cap kept; rows lead to known users only |
| FollowService.Service.Unfollow | internal/service/follow_service.go:186-202 | outcome, removed row, markers and event exactly when a row was deleted |
| FollowService.FollowAnew | internal/service/follow_service.go:125-176 | in the machine a lone Follow below the cap inserts its row, publishes it and leaves nothing behind |
| FollowService.TargetsStayKnown | internal/service/follow_service.go:127-139 | in every interleaving no row leads to an unknown user or back to its owner |
| FollowService.CapUnderConcurrency | internal/service/follow_service.go:141-162 | with at most k Follow calls in flight no interleaving exceeds maxFollowing + k − 1 rows |
| FollowService.CapIsTight | internal/service/follow_service.go:141-162 | for every cap and every k a run with k overlapping calls reaches that number |
| FollowService.EventLedger | internal/service/follow_service.go:159-202 | per pair, follow events minus unfollow events, owed or published, always equal the change of the row |
| EventDedup.KeyInjective | internal/cache/event_dedup_cache.go:43-48 | ids of different topics never share a key, as no topic contains a colon |
| EventDedup.EventDedupCache.SeenOrMark | internal/cache/event_dedup_cache.go:65-77 | seen exactly when `dedup:topic:id` was there; marked afterwards; an empty id is neither |
| EventDedup.AtLeastOnceToOnce | internal/cache/event_dedup_cache.go:48-77 | however handlers and redeliveries interleave, once they have finished the deliveries let through are those of the trace with each id once; without an id every delivery passes |
| EventDedup.HandlersFinish | internal/consumer/pv_consumer.go:92-134 | from every state the handlers can finish |
| EventDedup.SentIsTheEventSet | internal/consumer/pv_consumer.go:107-130 | with ids present, what reaches the flush loop is the set of events delivered, without repeats |
| EventDedup.CountersSeeEachEventOnce | internal/consumer/count_consumer.go:145-264 | every column of every user receives the net delta of the deduplicated trace |
| PVConsumer.Consumer.FlushPost | internal/consumer/pv_consumer.go:192-208 | one statement adds the post's number of buffered views; an unknown post matches no row |
| PVConsumer.Consumer.Flush | internal/consumer/pv_consumer.go:187-210 | in any map order every post gains its buffered views; the total is the number of views |
| PVConsumer.Consumer.OnInput | internal/consumer/pv_consumer.go:149-168 | table and buffer together have counted the view; flushed exactly on the cap or a tick |
| PVConsumer.Consumer.Consume | internal/consumer/pv_consumer.go:149-168 | what the running loop has not yet written is exactly the batch that has not ended |
| PVConsumer.Consumer.FlushLoop | internal/consumer/pv_consumer.go:138-183 | for every sequence of views and ticks and every rest of the channel, each post gains as many views as were received or left over, wherever the flushes fall |
| PVConsumer.ViewedTwice | internal/consumer/pv_consumer.go:149-168 | where a batch ends makes no difference to the table |
| PVConsumer.ViewsCountedOnce | internal/consumer/pv_consumer.go:107-210 | end to end `view_count` grows by the number of distinct view events of the post |
| Shutdown.DrainChan | internal/consumer/helper.go:12-21 | everything buffered is handed over in order and the channel is empty |
| Shutdown.ConsumerManager.StartAll | internal/consumer/manager.go:43-64 | one running goroutine per registered consumer, counted by the wait group |
| Shutdown.ConsumerManager.Shutdown | internal/consumer/manager.go:77-101 | cancels; success means no started consumer is still running, and is certain when all have returned and the deadline was not taken |
| Shutdown.NothingLeftBehind | internal/event/channel.go:100-142 | when Start has returned, every message accepted before the drain ended has reached its handler, every delta that entered the channel is in exactly one flush in order, and the handlers' deltas are those flushed plus those given up |
| Shutdown.AllHandledIff | internal/event/channel.go:80-142 | a subscription has handled everything it accepted if and only if nothing is published to it between its last empty poll and its removal |
| Shutdown.QuietMeansNoneLate | cmd/server/main.go:303-323 | when publishing has stopped before the cancellation, no such publish occurs in any run |
| Shutdown.NothingGivenUp | internal/consumer/count_consumer.go:271-279 | no handler gives up a delta before the cancellation |
| Shutdown.LoopFlushesAtCap | internal/consumer/count_consumer.go:324-336 | in every run the looping consumer holds fewer deltas than the cap and never flushes an empty batch or one above it |
| Shutdown.LoopKeepsGoing | internal/consumer/count_consumer.go:324-337 | while the loop runs, whatever a live subscription or the channel holds can be moved on without giving it up, and a tick flushes what is buffered |
| Shutdown.NeverStuck | internal/consumer/count_consumer.go:338-345 | after cancellation and before Start returns some step of the consumer itself, other than a tick, is always possible |
| Shutdown.StepWorks | internal/consumer/like_consumer.go:221-242 | and each such step strictly reduces the remaining work, which a publish raises by its own message at most |
| Shutdown.ShutdownTerminates | internal/consumer/like_consumer.go:221-242 | so a run after cancellation makes at most as many such steps as there was work and came in, and has none left exactly when Start has returned |
| FeedCache.Cache.BumpFeedVersion | internal/cache/feed_cache.go:115-117 | the next version |
| FeedCache.PostService.ListFeed | internal/service/post_service.go:312-371 | run alone: an invalid cursor is refused; else a cached page of the version is served and a missing one is asked for and stored; either way the ids are the newest visible posts of the scene below the cursor, as many as fit, and has_more and next_cursor are given exactly when there are at least `size` of them |
| FeedCache.AnswersMean | internal/service/post_service.go:517-528 | a response answers the query if and only if it is that, in terms of the table alone |
| FeedCache.KeyInjective | internal/cache/feed_cache.go:126-133 | requests share a cached page exactly when scene, version and cursor agree |
| FeedCache.PostService.Create | internal/service/post_service.go:136-186 | the post starts invisible, the version moves on, cached pages of the current version stay right |
| FeedCache.PostService.Audit | internal/consumer/audit_consumer.go:126-209 | any verdict on any post: the version moves on exactly on a pass; all current pages stay right if and only if none lists a post the verdict has hidden |
| FeedCache.PostService.Delete | internal/service/post_service.go:228-256 | not found, forbidden or deleted in this order; the version moves on exactly on deletion |
| FeedCache.CacheRefinesQuery | internal/service/post_service.go:312-371 | in every interleaving of readers, writers, bumps and expiries a call returns the uncached answer at some table no older than the last bump completed before it began |
| FeedCache.ReturnedMeans | internal/service/post_service.go:517-584 | in every interleaving every returned response means that, at such a table, and has_more holds exactly when it hands on a cursor |
| FeedCache.DeletedNeverListed | internal/service/post_service.go:241-254 | over every run: a deletion is written, a bump follows, a call begins after it — its answer does not list the post, whatever else interleaves, deletions being final |
| FeedCache.PageSizeConfusion | internal/cache/feed_cache.go:126-133 | a response for size m is one for size n if and only if m = n or fewer eligible posts exist than either |
| FeedCache.WrongSizeServed | internal/service/post_service.go:312-371 | for any two sizes and any table with at least the smaller number of posts, a run serves the second caller a response that no table of the run answers at its size |
| Cursors.CursorRoundTrip | internal/service/follow_service.go:345-354 | every cursor the server issues is read back as the position it stands for |
| Cursors.ParseFormat | internal/service/post_service.go:564-584 | decimal formatting and parsing are inverse over all 64-bit integers |
| Cursors.CursorAcceptedIff | internal/service/post_service.go:564-576 | which cursors the two parsers accept and as what: empty, or a decimal number with at most a plus sign from 1 to the largest 64-bit integer |
| Cursors.ParseNatIff | internal/service/post_service.go:568-571 | a text is read as a number if and only if it is digits only, and then as its positional value |
| FollowPaging.BuildFollowListResp | internal/service/follow_service.go:382-407 | the over-fetch is trimmed, has_more and next_cursor say whether more follows |
| FollowPaging.PageFacts | internal/repository/follow_repository.go:247-274 | a page is the `size` largest eligible ids below the cursor, descending, and a cursor is issued exactly when more remain |
| FollowPaging.FollowerPage | internal/service/follow_service.go:211-231 | the follower page of u lists the follower of each of the latest rows that lead to u, in order, deleted users left out, with has_more and next_cursor right |
| FollowPaging.FollowingPage | internal/service/follow_service.go:235-251 | the following page of u lists those whom u follows in its latest rows |
| FollowPaging.WalkDescends | internal/service/follow_service.go:211-251 | across pages ids strictly descend while rows come and go: nothing twice |
| FollowPaging.WalkCovers | internal/service/follow_service.go:211-251 | a row eligible at every read is returned |
| FollowPaging.Traversal | internal/service/follow_service.go:345-407 | the whole walk: strictly descending, complete for rows present throughout, finished within ceil(n/size) pages and at least one |
| FeedPaging.WalkOrder | internal/repository/post_repository.go:227-254 | no post twice, newest first, only eligible posts |
| FeedPaging.ScenePage | internal/repository/post_repository.go:227-254 | a feed page lists only visible, undeleted posts of its scene below the cursor, and omits such a post only when full of posts at least as new |
| FeedPaging.AuthorPage | internal/repository/post_repository.go:309-330 | the same for the page of an author |
| FeedPaging.WalkOmits | internal/repository/post_repository.go:235-244 | which posts: a finished walk omits an eligible post if and only if some page ends on its timestamp without containing it |
| FeedPaging.WalkLength | internal/service/post_service.go:578-584 | every full page uses up `size` posts, so the walk ends |
| FeedPaging.CompleteIffNoSplitTie | internal/repository/post_repository.go:227-254 | for every table and size, a finished walk lists all eligible posts if and only if no multiple of the size falls strictly inside a group of equal timestamps; else every walk omits a post, whatever the tie order |
| FeedPaging.SameTimeSkips | internal/repository/post_repository.go:235-244 | when all posts share a timestamp every finished walk lists one page of them and skips all the rest |
| FeedPaging.TieSkipsTwo | internal/repository/post_repository.go:235-244 | three posts of one millisecond, one to a page: two are skipped |
| FeedPaging.Traversal | internal/service/post_service.go:564-584 | page bound, order, no repeats, and both conditions together, for the walk from the first page |
| FeedPaging.WalkExists | internal/service/post_service.go:564-584 | from every readable cursor a client that follows the cursors gets to the end |
| FeedPaging.DistinctTimesCoverAll | internal/repository/post_repository.go:227-254 | with distinct timestamps a finished walk is all visible posts in strict order |
| ReadYourWrites.UnmarkedMeansReplicated | internal/cache/write_marker.go:59-81 | without a marker every replica already holds each returned write to a row that the user's lists show |
| ReadYourWrites.CallsReturn | internal/service/follow_service.go:163-202 | every follow, unfollow and post deletion can be made and return, and then both ends of the edge, or the author, have a marker with its whole lifetime ahead |
| ReadYourWrites.ReadsSeeReturnedWrites | internal/repository/force_master.go:41-66 | in every interleaving a list request's answer includes every write to a row that the list shows whose call had returned before the request began |
| ReadYourWrites.AnswerReflectsWrite | internal/service/follow_service.go:166-226 | an included write shows in the answer unless a later one touched the row |
| ReadYourWrites.ListsReflectReturnedWrites | internal/service/post_service.go:252-392 | both together: a follow, unfollow or post deletion whose call had returned before the request is reflected in every list that shows its row: those of both ends of an edge, the author's page for a post |
| ReadYourWrites.StaleBeyondTheLifetime | internal/cache/write_marker.go:59-68 | for every lag above the marker's lifetime some run answers a follower list without a follow that had returned |
| ReadYourWrites.LagWithinLifetimeIsExact | internal/cache/write_marker.go:59-81 | for every user's lists in every run: what returned calls did is reflected, if and only if the lag is at most the lifetime |
| RateLimit.SlidingWindow.SlidingWindowAllow | internal/middleware/ratelimit.go:91-117 | both in sequence: refused requests are not recorded |
| RateLimit.WindowIsRemembered | internal/middleware/ratelimit.go:95-113 | every admitted stamp still in the window is live in the set or about to be recorded, key expiry included |
| RateLimit.WindowBound | internal/middleware/ratelimit.go:91-117 | with at most k requests between check and record no window holds more than limit + k − 1 distinct admitted stamps |
| RateLimit.SequentialExact | internal/middleware/ratelimit.go:91-117 | one at a time, a request is admitted if and only if fewer than `limit` distinct admitted stamps lie in the window, which never holds more |
| RateLimit.BoundIsTight | internal/middleware/ratelimit.go:91-117 | for every limit, k and long enough window some run reaches the bound |
| PhoneMigration.UpdateMigrates | cmd/migrate-phone/main.go:179-216 | the computed updates leave the row decrypting to its phone with the right hash |
| PhoneMigration.NoUpdatesIffMigrated | cmd/migrate-phone/main.go:168-216 | no updates are computed if and only if the row is already migrated |
| PhoneMigration.BatchIsSlice | cmd/migrate-phone/main.go:101-112 | a keyset batch behind the cursor is the next slice of the ascending live ids |
| PhoneMigration.Migration.FetchBatch | cmd/migrate-phone/main.go:101-105 | the n smallest live ids above the cursor |
| PhoneMigration.Migration.VisitRow | cmd/migrate-phone/main.go:114-155 | one row: counted, updated, skipped, dry-counted or an error, exactly as the branches say |
| PhoneMigration.Migration.VisitBatch | cmd/migrate-phone/main.go:114-156 | the batch's rows are visited in order, from the fetched copies, until a kill |
| PhoneMigration.Migration.NextBatch | cmd/migrate-phone/main.go:98-162 | one round of the outer loop carries the run from one cursor position to the next or to its end |
| PhoneMigration.Migration.Migrate | cmd/migrate-phone/main.go:94-165 | for every batch size the loop visits each live row once in ascending order, or the first `budget` of them when killed |
| PhoneMigration.PhonesSurvive | cmd/migrate-phone/main.go:94-216 | no history of killed, failing or dry runs loses a phone or touches a deleted row |
| PhoneMigration.Resumable | cmd/migrate-phone/main.go:94-216 | after any such history one complete run without errors migrates every live row |
| PhoneMigration.Idempotent | cmd/migrate-phone/main.go:113-126 | on a migrated table a run changes nothing and skips every row |
| PhoneMigration.NumbersMean | cmd/migrate-phone/main.go:113-156 | what a real run reports, by the tables before and after: rows visited, rows whose stored phone changed, rows whose hash changed, rows that were done before, rows not done after |
| PhoneMigration.KeylessRun | cmd/migrate-phone/main.go:185-213 | without a key a run leaves every stored phone alone and gives it the hash of what is stored |
| PhoneMigration.DryRunForecasts | cmd/migrate-phone/main.go:131-155 | a dry run writes nothing and reports what a real run without failed updates would |

## Left out

* Integer widths: counts, ids and deltas are unbounded; `int64`, `uint32` and `INT UNSIGNED` overflow is not modelled, except that `strconv.ParseInt` rejects what does not fit 64 bits.
* Failed SQL statements in the like, count (other than as a lost delta in `UserCounters`) and page-view flushes, and flushes under an already cancelled context: the consumers log and drop them; the exactness results assume that statements succeed.
* Redis failures: the limiter, dedup and marker fail open, the feed cache is bypassed (that one is a step of the machine), the like service fails closed. The guarantees are stated for calls that succeed.
* Key expiry of the like state and of dedup markers, and a Redis flush that resets `feed:ver`: the like and dedup results hold within the lifetime of the keys. The expiry of feed pages, write markers and the limiter's key is modelled.
* RabbitMQ: dialing, acknowledgement and dead letters are not modelled; a redelivery is a `Deliver` step of `EventDedup`. Its single queue per topic makes consumers of a topic compete, so the bus results are about `ChannelBus` only.
* The SQL engine: statements have their set or map meaning and are atomic; the order among equal `created_at` is whatever the database answers.
* Counters and author names on cached feed pages: they do not bump the version, so agreement covers ids and cursors.
* `ListFeed` always asks a database whose state is the latest write: it does not go through `Apply`, so with lagging replicas the feed cache result needs master reads.
* FollowService.CapUnderConcurrency: `Exists` and `CountFollowing` read the latest rows here. They go through `Apply`, so without a fresh marker a lagging replica may answer them, and the cap then holds only for reads on the master.
* ReadYourWrites.ListsReflectReturnedWrites: the rows are follow edges and visible posts; the marks of a new post and of a changed profile are steps, but what a profile read returns is not modelled.
* A concurrent `Delete` losing the race at `SoftDeleteByOwner`: `PostService` methods run alone; the interleavings are those of `FeedCache.CacheRefinesQuery`, whose writes are arbitrary tables.
* LikeService.Service.Like: calls are atomic here. Interleaved at the counter they are covered by `LikeService.CounterBounds`, at the set and the published events by `LikeRaces`.
* LikePipeline.TablesFollowCache: assumes that no like or unlike was dropped by a full channel or given up on shutdown, and that the service's calls on a pair did not overlap.
* FeedCache.CacheRefinesQuery: with several page sizes in use the page is that of some size in use, because the key has no size; with one size it is the caller's own.
* UserCounters.CounterConservation: how many likes are announced without a change is bounded by `LikeRaces.SurplusBound`, not here. A duplicate delivery is not a step, as the in-process bus never repeats one; `EventDedup` covers redelivery.
* ChannelBus.Bus.Publish: runs against the subscriber list it copied; a slice shared with a concurrent unsubscribe is not modelled.
* Shutdown.ConsumerManager.Shutdown: the consumers that return before the deadline are an input; a second `StartAll`, which replaces the cancel function, is counted by the wait group but its first context is not tracked.
* PhoneMigration.Migration.Migrate: a failing batch query ends a run like a kill; other writers do not touch `users` meanwhile. AES-GCM and SHA-256 are functions with one law, that opening gives back what was sealed; a nonce is a number used once.
* JSON, HTTP handlers, DTO binding, metrics, logging, configuration, uploads, search, SMS, content-safety calls and plain clamping of page sizes: plumbing or single-branch facts.
