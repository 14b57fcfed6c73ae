# HaoShortLink: a verified model

HaoShortLink is a short-link service: an HTTP server hands out codes and redirects visitors,
a Redis cache sits in front of the link store, and a separate consumer turns access events from
Kafka into MySQL statistics. This project models the parts of it where state, ordering or
arithmetic is hard, and proves what they promise. `dafny verify dfyconfig.toml` checks everything.

## What is modelled

**The access-event consumer** (`Protocol`, `Safety`, `Preservation`, `ConsumerTheorems`,
`Linearization`, `Progress`, `Faults`, `Transaction`, `Projection`, `AccessEvents`, `World`, `Consumer`,
`Metrics`). `Protocol` is a state machine over partition logs, committed offsets, committed tables,
the dead-letter topic and any number of consumer processes, each stepping through its handler one foreign call at a time with its own open
transaction and producer queue. Everything the environment decides is part of the action: which
process moves, whether a statement fails, whether the server drops the transaction, whether the
reply to COMMIT or to an offset commit is lost, crashes, rebalances, zombies, backward offset
resets. A run is any sequence of actions. `Consumer` holds the program itself as classes with
their retry loops; each method is proved to extend a run of that machine, so the theorems about
runs are theorems about the program. A process can only record the answers the environment gave
it, so what a method reports is tied to what really happened: a throw to a failed call, a retry to
a failed attempt, a counted result to a message handed out. `Transaction` refines the statements of one transaction to
the single step `ApplyEvent`, and `Projection` says what the tables mean.

**The statistics read side** (`Statistics`, `Trends`, `EndToEnd`, `SplitReads`). The two queries as
relations between tables and rows, the loops that assemble the snapshot, and the proof that a
snapshot is a direct count over raw events, from any reachable state of the consumer.

**The HTTP request parser** (`HttpParser`, `HttpContext`, `HttpRoundTrip`). One pass of the
parsing loop, the loop over a growing buffer, chunk independence, and the grammar of the accepted
requests: what the parser finds complete is exactly what can be written down in it.

**The cache** (`Links`, `CacheCodec`, `CachedRepository`, `Redirect`, `Staleness`). The stored
text of a record, the cache-aside repository one operation at a time, and a step machine of
readers, updates, erases and a clock for the interleaved case.

**Arithmetic and paging** (`Calendar`, `Base62`, `Repository`, `Pagination`, `PageWalk`,
`RateLimiter`, `Base64`, with `Text` and `Decimal` for byte order and decimal text).

## Assumptions

- A session whose ROLLBACK failed is dead and the server discards its transaction. The program
  swallows that failure, and `Transaction.SurvivingSessionIsSafeIffLeftoverIsWhole` says exactly
  when a surviving session would be harmless.
- The driver is allowed to reconnect (`OPT_RECONNECT`, `HttpServer/src/utils/db/DbConnection.cpp`,
  line 27). It never does so silently between START TRANSACTION and COMMIT: a lost session makes
  the next statement fail.
- A code's link id never changes once defined. For the in-memory repository this is proved
  (`Repository.LinksAreForever`); for MySQL it is assumed.
- A new consumer group starts at the earliest offset, and logs are not truncated by retention.
- Row locks make concurrent transactions on one event id take turns; waiting too long is a failed
  statement. Each write acts on the latest committed row.
- An acknowledged dead letter is in the topic; a failed or unacknowledged one may be.
- Decoding a payload is a function with a fixed result per message: a valid event or one of the
  four error classes.
- The parser is not called in state GotAll: its loop has no branch for it and would not end. A
  parse error, or an exception from the length conversion, ends the connection.
- Rate-limit keys are written by the script alone, so a key with an expiry has a count of at
  least one; checks of one key reach Redis in the order of its clock. Redis drops a key once its
  clock has passed the deadline and rounds TTL to the nearest second.
- Cache entries at the start of a run are absent or of the earlier plain-URL format; one clock
  serves the service and Redis, and reads times after 1970.
- Integer types: ids, owners and cursors are 64-bit unsigned with explicit wrap and overflow
  tests; seconds and milliseconds in records are 64-bit signed; `/` and `%` of the calendar are
  the truncating ones of C++. Shifts and bit masks of the Base64 loop are written as division and
  remainder.

## What turned out differently from what one might expect

- The fixed-window limiter allows `2 * requests - 1`, not `2 * requests`, calls in a stretch as
  long as a window: the call that opens a window is never inside a stretch that reaches into the
  next one. The bound is reached.
- A cache entry outlives its record's expiry by more than its writer's delay if and only if the
  clock stood between two seconds when the lifetime was decided and the whole seconds the record
  had left were no more than the TTL (`Staleness.OutlivesExpiryIff`); it is then the fraction of
  the second, at most 999 ms.
- A successful erase does not always prevent a stale hit. Until the next update it does if and
  only if, at that moment, no reader carries another record with a URL that it would keep for at
  least a second (`Staleness.EraseIsFinalIff`). Otherwise only the TTL bounds the staleness.
- A custom code can take the code of an id still to come; the create that reaches that id then
  fails and its id is lost. That is the only way a generated create conflicts
  (`Repository.GeneratedConflict`).
- A negative Content-Length is not rejected: the conversion makes it a length beyond any buffer.
  Where the length converts at all, the request waits for its body for ever, whatever arrives, if
  and only if the length is negative (`HttpParser.NeverCompletesIffNegative`).
- The advertised wait of a limited call is rounded to the nearest second. Coming back after exactly
  that wait is enough if and only if less than a second was left or the time left was rounded up
  (`RateLimiter.RetryAfterPassesIff`); half a second more always is.
- The summary and the trend of one snapshot are read by separate statements outside a transaction,
  so they can disagree (`SplitReads.ReadsCanDisagree`). Over a range that leaves out no event of a
  link and result, the summary never counts more than the trend, and they agree if and only if no
  event of that link and result got its receipt in between (`EndToEnd.SummaryAndTrendAgreeIff`).

## Model

| member | source | states |
|---|---|---|
| ConsumerTheorems.NoLoss | apps/shortlink_event_consumer/src/main.cpp:227-388 | In every reachable state of every run (crashes, retries, rebalances, zombies, backward resets), each offset below a committed offset names a message whose event holds a committed receipt or of which a copy, with its own position, key and payload, is in the dead-letter topic. |
| ConsumerTheorems.EffectivelyOnce | apps/shortlink_event_consumer/src/MySqlAccessStatisticsWriter.cpp:64-132 | In every reachable state each receipt points at the message it was written for, with its time and the disposition its result calls for, and every totals row holds count, minimum and maximum, and every hourly row the count, of exactly the distinct events behind the receipts; a row exists exactly if it counts something. |
| ConsumerTheorems.HourlyAgreesWithTotals | apps/shortlink_event_consumer/src/MySqlAccessStatisticsWriter.cpp:106-126 | In every reachable state the hourly counts of a link and result add up to its total, over any aligned range that covers its events. |
| ConsumerTheorems.EveryActionIsAtomic | apps/shortlink_event_consumer/src/MySqlAccessStatisticsWriter.cpp:61-151 | Refinement, step by step: any action leaves the committed tables alone or changes them by exactly one atomic application of one accepted message. |
| ConsumerTheorems.ZeroOrOneApplication | apps/shortlink_event_consumer/src/main.cpp:295-326 | The retry loop on its own, no other process moving: for every placement of failed statements, lost replies, crashes and retries, persisting one message leaves the tables unchanged or with exactly one application of its event, and past the transaction they hold it. `Linearization.AppliedOnceAmongOthers` is the statement with all processes moving. |
| Linearization.TablesAreAFold | apps/shortlink_event_consumer/src/MySqlAccessStatisticsWriter.cpp:61-151 | In every run, with all processes interleaving their statements, the tables are those that applying some messages of the logs one after the other leaves, with pairwise different event ids. |
| Linearization.AppliedOnceAmongOthers | apps/shortlink_event_consumer/src/main.cpp:295-326 | From any reachable state on, whatever all processes do, an event without a receipt is applied exactly once if it then has one, and not at all if it has none. |
| Linearization.WrittenWasApplied | apps/shortlink_event_consumer/src/main.cpp:262-283 | A process about to commit the offset of a written message is behind the one application of its event. |
| ConsumerTheorems.RebuildsAgree | apps/shortlink_event_consumer/src/MySqlAccessStatisticsWriter.cpp:64-132 | With links fixed and event ids determining events, any two caught-up runs over the same logs end with identical totals, hourly counts and receipt ids. |
| ConsumerTheorems.CaughtUpHistory | apps/shortlink_event_consumer/src/main.cpp:227-284 | Once every committed offset has reached the end of its log, the receipts are those of exactly the countable messages of the logs. |
| ConsumerTheorems.SharedIdIsOrderSensitive | apps/shortlink_event_consumer/src/MySqlAccessStatisticsWriter.cpp:64-77 | Why event ids have to determine events: from any tables without a receipt for it, two countable events sharing an id leave the same counts in either order if and only if both are ignored, or they have the same link, result and hour, and one time or times within those the row already spans. |
| ConsumerTheorems.DeadLetterDelivered | apps/shortlink_event_consumer/src/main.cpp:330-366 | Whenever a handler has left publishing, a copy of that very message is in the dead-letter topic. |
| ConsumerTheorems.QueueHoldsOneRecord | apps/shortlink_event_consumer/src/KafkaDeadLetterPublisher.cpp:154-201 | The producer queue is empty whenever no record is being published, and otherwise holds copies of that one record only, which is why late callbacks of earlier attempts cannot mislead. |
| Progress.MessageInHandCanFinish | apps/shortlink_event_consumer/src/main.cpp:227-388 | From every reachable state, whatever a process is doing with a message and whoever holds a lock it needs, the run can be continued so that the message is settled and its offset committed. |
| Faults.LostReplyIsDuplicate | apps/shortlink_event_consumer/src/MySqlAccessStatisticsWriter.cpp:64-78 | The faults are really in the model: a process that loses the reply to its COMMIT has applied the event, tries again, and finds its own receipt. |
| Faults.CrashRedelivers | apps/shortlink_event_consumer/src/main.cpp:368-388 | A process that dies before its offset commit takes effect is handed the same message again. |
| Faults.LostCommitReplyMovesOn | apps/shortlink_event_consumer/src/main.cpp:368-388 | If only the reply of the offset commit was lost, the offset has moved on and the message is not handed out again. |
| Preservation.ReachableInv | apps/shortlink_event_consumer/src/main.cpp:200-388 | The invariant of the whole system holds in every state reachable from a new consumer group. |
| Preservation.ExecKeeps | apps/shortlink_event_consumer/src/main.cpp:227-388 | Every single action, enabled or not, of every process and of the environment keeps the invariant. |
| Projection.ApplyKeepsProjection | apps/shortlink_event_consumer/src/MySqlAccessStatisticsWriter.cpp:64-132 | Applying an event keeps the tables the exact projection of the events that hold a receipt. |
| Projection.ApplyIsIdempotent | apps/shortlink_event_consumer/src/MySqlAccessStatisticsWriter.cpp:73-77 | Applying the same event again changes nothing and is reported as a duplicate. |
| Projection.NewLinkKeepsProjection | apps/shortlink_event_consumer/src/MySqlAccessStatisticsWriter.cpp:94-100 | Defining a code later does not touch what is already projected. |
| Projection.ProjectionIsUnique | apps/shortlink_event_consumer/src/MySqlAccessStatisticsWriter.cpp:106-126 | The events determine the counts: two projections of the same events have the same rows. |
| Projection.HourlySumCountsEvents | apps/shortlink_event_consumer/src/MySqlAccessStatisticsWriter.cpp:119-126 | Hourly rows of an aligned range add up to the number of events in it. |
| Projection.HourlyAddsUpToTotal | apps/shortlink_event_consumer/src/MySqlAccessStatisticsWriter.cpp:106-126 | Over a range that covers all its events, the hourly rows of a link and result add up to its total. |
| Transaction.CommitIsApply | apps/shortlink_event_consumer/src/MySqlAccessStatisticsWriter.cpp:61-132 | The statements of one transaction, committed, are the one atomic application of the event. |
| Transaction.SurvivingSessionIsSafeIffLeftoverIsWhole | apps/shortlink_event_consumer/src/MySqlAccessStatisticsWriter.cpp:134-151 | If a session survived a failed ROLLBACK, the next START TRANSACTION would commit its leftover; the tables stay a projection of some events if and only if that leftover is empty or complete. |
| World.ExecGrows | apps/shortlink_event_consumer/src/main.cpp:200-388 | Every action only ever adds to logs, links, receipts and dead letters. |
| World.Environment.Act | apps/shortlink_event_consumer/src/main.cpp:200-388 | A foreign call of a process appends one action to the recorded run and moves the system by exactly that action, which has to carry the answer the environment gave to this very call. |
| World.Environment.Await | apps/shortlink_event_consumer/src/main.cpp:200-388 | Before each call the rest of the system may do anything, but cannot move this process; the answer is the next one the environment has scheduled. |
| Consumer.DbConnection.StartTransaction | apps/shortlink_event_consumer/src/MySqlAccessStatisticsWriter.cpp:61 | The process issues START TRANSACTION once, with the scheduled answer; it executes exactly if that answer is good, and on a throw the attempt ends where it began. |
| Consumer.DbConnection.Execute | apps/shortlink_event_consumer/src/MySqlAccessStatisticsWriter.cpp:64-131 | The process issues one statement, with the parameters prescribed at that stage and the scheduled answer, a lock wait counting as refusal. If it executes, its effect on the state it met is exact: no table changes before COMMIT, and COMMIT is the one atomic application of the event. |
| Consumer.DbConnection.Rollback | apps/shortlink_event_consumer/src/MySqlAccessStatisticsWriter.cpp:134-151 | One rollback; after it nothing stays open, an orphan goes on to the dead-letter topic, anything else to the next attempt. |
| Consumer.AccessStatisticsWriter.TryStatements | apps/shortlink_event_consumer/src/MySqlAccessStatisticsWriter.cpp:62-133 | Which outcome is returned, an orphan throw or another throw, and where each leaves the session. A throw stands for exactly one failed statement. With good answers and nobody else moving, the result is exactly that of the atomic application, never a throw. |
| Consumer.AccessStatisticsWriter.Mark | apps/shortlink_event_consumer/src/MySqlAccessStatisticsWriter.cpp:80-102 | After a fresh receipt: a not-found event is ignored, a code that was ever defined is counted, and only an undefined code of another event is an orphan. |
| Consumer.AccessStatisticsWriter.Aggregate | apps/shortlink_event_consumer/src/MySqlAccessStatisticsWriter.cpp:102-132 | Totals, hour, disposition, COMMIT in that order; only the acknowledged COMMIT returns `aggregated`, a throw stands for one failed statement, and undisturbed it never throws. |
| Consumer.AccessStatisticsWriter.Process | apps/shortlink_event_consumer/src/MySqlAccessStatisticsWriter.cpp:51-152 | A returned result means a committed receipt and an outcome that fits the event, duplicate if there already was a receipt; an orphan throw means the code was undefined; any other throw stands for exactly one failed statement. Undisturbed, an attempt never throws and is exactly the atomic application of the event: its outcome and its tables. |
| Consumer.KafkaDeadLetterPublisher.Publish | apps/shortlink_event_consumer/src/KafkaDeadLetterPublisher.cpp:154-187 | What the process did is fixed by how its call of the producer ended: nothing but the failed serialisation, a refused copy, or a copy, the callbacks of the flush in order, and the conclusion. `true` if and only if the producer took the copy, the flush emptied the queue and the last callback brought no error; then a copy of this very record is in the topic, although flags are shared and callbacks of earlier attempts may fire. `false` keeps the record current. |
| Consumer.KafkaDeadLetterPublisher.Flush | apps/shortlink_event_consumer/src/KafkaDeadLetterPublisher.cpp:175-201 | The process does nothing but serve the given callbacks, in order, each taking its copy off the queue and leaving its verdict in the flags; the flush succeeds if and only if the queue is empty. |
| Consumer.KafkaDeadLetterPublisher.Conclude | apps/shortlink_event_consumer/src/KafkaDeadLetterPublisher.cpp:179-181 | On an empty queue, success if and only if a callback was observed and the last one brought no error; the record is then in the topic. |
| Consumer.NextDelayIsBackoff | apps/shortlink_event_consumer/src/main.cpp:102-105 | The retry delay after n failures is the initial delay doubled n times, capped at the maximum, and never exceeds it. |
| Consumer.KafkaAccessEventConsumer.PersistWithRetry | apps/shortlink_event_consumer/src/main.cpp:286-328 | Each retry and the final throw stand for exactly one failed statement each, so giving up means `processingMaxAttempts` real failures, and counts one error. A written result holds a receipt and is a duplicate if there was one before; an orphan's code was undefined. Undisturbed, the first attempt decides, exactly as the atomic application does. |
| Consumer.KafkaAccessEventConsumer.PublishToDeadLetter | apps/shortlink_event_consumer/src/main.cpp:330-366 | One publish call per counted success or failure. Returning normally means this record was acknowledged; throwing means `processingMaxAttempts` calls were made and all failed, and counts one error. |
| Consumer.KafkaAccessEventConsumer.CommitWithRetry | apps/shortlink_event_consumer/src/main.cpp:368-388 | It calls until the first good answer or `offsetCommitMaxAttempts` bad ones, and throws exactly in the latter case. The message is settled before; returning means one acknowledged commit and a lag gauge that is exactly what the watermark read next leaves. |
| Consumer.KafkaAccessEventConsumer.CommitOnce | apps/shortlink_event_consumer/src/main.cpp:368-376 | One offset commit with the scheduled answer: acknowledged, effective with its reply lost, or without effect. |
| Consumer.KafkaAccessEventConsumer.ObserveMessageLag | apps/shortlink_event_consumer/src/main.cpp:390-416 | The exact gauge afterwards: at least one before the commit, at least zero after it, and the known watermark minus the position otherwise. |
| Consumer.KafkaAccessEventConsumer.HandleMessage | apps/shortlink_event_consumer/src/main.cpp:227-284 | Exactly one result is counted; unless it is an error, the message is settled the way the result says and its offset commit was acknowledged. An error means that one kind of attempt was made as often as configured and always failed, and leaves the lag at least one. A message that does not decode or match its key ends as dead letter or error; an event with a receipt as duplicate or error; only an undefined code is dead-lettered. Undisturbed, an accepted message is counted by the outcome of its atomic application, and the tables are those of it. |
| Consumer.KafkaAccessEventConsumer.Persist | apps/shortlink_event_consumer/src/main.cpp:262-284 | The branch for accepted messages: receipt, then commit, then count, with an orphan dead-lettered instead, and the same exact result when undisturbed. |
| Consumer.KafkaAccessEventConsumer.DeadLetter | apps/shortlink_event_consumer/src/main.cpp:247-260 | Publish, then commit, then count, for every message that is dead-lettered; its record with the given reason is then in the topic. |
| Consumer.KafkaAccessEventConsumer.RefreshLag | apps/shortlink_event_consumer/src/main.cpp:418-477 | Exactly the assigned partitions whose watermarks are known get the distance from the committed offset, or from the low watermark where nothing is committed, to the high watermark, and zero where that is negative; an early call, a failed query or an empty assignment leaves the gauge alone. |
| Consumer.KafkaAccessEventConsumer.Run | apps/shortlink_event_consumer/src/main.cpp:200-224 | Over any sequence of polls: each poll served is recorded with its own action, in order, and all are served unless a message makes the loop throw. Every message handed out is handled: the messages handed out are aggregated + duplicate + ignored + dlq, plus the one given up on, and the former equal the acknowledged offset commits. The gauge changes from poll to poll as refreshes and messages say. |
| Consumer.KafkaAccessEventConsumer.TakeMessage | apps/shortlink_event_consumer/src/main.cpp:204-212 | A poll hands out exactly the message at the position of the partition, if the partition is assigned and there is one. |
| Consumer.KafkaAccessEventConsumer.Rebalanced | apps/shortlink_event_consumer/src/main.cpp:204-212 | A partition gained is read from its committed offset, one lost is not read any more. |
| AccessEvents.UtcHourBucketStart | apps/shortlink_server/src/AccessStatistics.cpp:35-45 | Rejects non-positive timestamps; otherwise the non-negative aligned hour that contains the timestamp. |
| AccessEvents.HourOfIsTheAlignedHour | apps/shortlink_server/src/AccessStatistics.cpp:42-44 | An aligned hour is the bucket of a timestamp if and only if it contains it. |
| Statistics.Get | apps/shortlink_server/src/MySqlAccessStatisticsRepository.cpp:36-118 | Hour queries are accepted exactly over aligned ranges of 1 to 744 hours, day queries over 1 to 366 days, both from 1970 on; the code is unknown or a result unexpected exactly when the tables say so; otherwise a snapshot whose summary is that of the totals and whose sorted trend is that of the hourly rows, each as its own statement found them, with no more points than the range has buckets. |
| Statistics.ValidLengths | apps/shortlink_server/src/AccessStatistics.cpp:75-95 | From an aligned start, a query over n buckets is valid if and only if n lies in 1..744 for hours and 1..366 for days. |
| Statistics.TrendFits | apps/shortlink_server/src/MySqlAccessStatisticsRepository.cpp:80-106 | The points of a trend lie on aligned buckets of the range, so there are no more of them than buckets. |
| Statistics.ReadSummary | apps/shortlink_server/src/MySqlAccessStatisticsRepository.cpp:63-78 | From totals rows in any order: the count per result, the last successful access, and the latest attempt of all results. |
| Statistics.GatherTrend | apps/shortlink_server/src/MySqlAccessStatisticsRepository.cpp:95-101 | Rows are gathered per bucket and result, with zero where there is no row; fails exactly on a not-found row. |
| Statistics.ListTrend | apps/shortlink_server/src/MySqlAccessStatisticsRepository.cpp:102-106 | The gathered buckets in strictly ascending order, each once. |
| Statistics.SlotsAreResults | apps/shortlink_server/src/AccessStatistics.cpp:9-33 | The four count slots are the four aggregated results, one each: success, disabled, expired, error, in that order. |
| Trends.TrendCountsEvents | apps/shortlink_server/src/MySqlAccessStatisticsRepository.cpp:80-106 | For every valid query the trend has one point for each UTC bucket of the range that holds an aggregated event, in order, and each point counts exactly those events per result. |
| Trends.SummaryCountsEvents | apps/shortlink_server/src/MySqlAccessStatisticsRepository.cpp:59-78 | The summary is the direct count per result, the latest success and the latest attempt over the raw events. |
| Trends.NoUnexpectedResult | apps/shortlink_server/src/MySqlAccessStatisticsRepository.cpp:19-32 | On tables that are a projection, no row carries a result the reader would throw on. |
| Trends.GroupIsBucket | apps/shortlink_server/src/MySqlAccessStatisticsRepository.cpp:80-93 | The rows grouped into a bucket sum to the number of events in that bucket; a group has rows exactly if the bucket is in range and holds an event. |
| Trends.PointsAddUp | apps/shortlink_server/src/MySqlAccessStatisticsRepository.cpp:84-106 | The points inside any aligned part of the range add up to the events inside it. |
| Trends.TrendCountsRange | apps/shortlink_server/src/MySqlAccessStatisticsRepository.cpp:84-106 | All points together count exactly the events in [from, to). |
| Trends.DaysRollUpHours | apps/shortlink_server/src/MySqlAccessStatisticsRepository.cpp:80-83 | Each day point is the sum of the hour points of that day. |
| Trends.AdjacentRangesJoin | apps/shortlink_server/src/MySqlAccessStatisticsRepository.cpp:88-93 | The trends of two adjacent ranges, one after the other, are the trend of the joined range. |
| Trends.TrendIsUnique | apps/shortlink_server/src/MySqlAccessStatisticsRepository.cpp:80-106 | Events and query determine the trend. |
| EndToEnd.SnapshotsCountEvents | apps/shortlink_server/src/MySqlAccessStatisticsRepository.cpp:36-118 | In every run of the consumer, with commits between the three statements of a snapshot: the summary is the direct count over the distinct events with a receipt when the totals were read, the trend the one when the hourly rows were read, and the events of the first are among those of the second. |
| EndToEnd.SummaryAndTrendAgreeIff | apps/shortlink_server/src/MySqlAccessStatisticsRepository.cpp:59-106 | Over a range that leaves out no event of a link and result, the summary never counts more than the points of the trend together, and the two are equal if and only if no event of that link and result got its receipt between the two reads. |
| SplitReads.ReadsCanDisagree | apps/shortlink_server/src/MySqlAccessStatisticsRepository.cpp:59-106 | For every aggregated event, a run in which the summary of a snapshot counts nothing and its trend counts one. |
| EndToEnd.CaughtUpSnapshotsCountLogs | apps/shortlink_server/src/MySqlAccessStatisticsRepository.cpp:36-118 | Once the consumer has caught up, a snapshot counts exactly the distinct countable events of the logs. |
| HttpParser.ChunkIndependence | HttpServer/src/http/HttpContext.cpp:10-116 | However a byte stream is cut into reads, the outcome, the parsed request and the unread rest are those of one call on the whole stream. |
| HttpParser.ParseExtends | HttpServer/src/http/HttpContext.cpp:10-116 | Data arriving later continues an unfinished call and simply follows a finished or failed one. |
| HttpParser.PassConsumes | HttpServer/src/http/HttpContext.cpp:14-114 | Every pass that goes on has consumed a line and not completed the request, so each call terminates. |
| HttpParser.StatusTellsState | HttpServer/src/http/HttpContext.cpp:56-82 | The state becomes GotAll exactly when the request is complete. |
| HttpParser.NegativeLengthWaits | HttpServer/src/http/HttpContext.cpp:56-62 | A negative length turns into one near 2^64, and the call waits for a body. |
| HttpParser.NeverCompletesIffNegative | HttpServer/src/http/HttpContext.cpp:56-102 | A request with a body stays incomplete whatever arrives, up to the largest buffer, if and only if its length is negative. |
| HttpRoundTrip.RenderedParses | HttpServer/src/http/HttpContext.cpp:10-161 | A well-formed request followed by anything parses to exactly its method, target, query, version, headers and body, and what follows stays unread. Methods are written through their own table of texts. |
| HttpRoundTrip.AcceptsExactly | HttpServer/src/http/HttpContext.cpp:10-161 | The parser finds a stream complete if and only if it begins with a well-formed request, and then reads it as what it means: methods, targets with pairs and pieces without `=`, both versions, headers with any space around their values, and a body of the length the header converts to. |
| HttpRoundTrip.RejectedForGood | HttpServer/src/http/HttpContext.cpp:10-116 | What is rejected, or makes the length conversion throw, is not the beginning of any well-formed request. |
| HttpRoundTrip.UnknownMethodIsBad | HttpServer/src/http/HttpRequest.cpp:14-47 | A request line with any other method is refused as soon as it is complete, and the method stays invalid. |
| HttpRoundTrip.RenderedParsesInChunks | HttpServer/src/http/HttpContext.cpp:10-161 | The same for any way of cutting the stream into reads. |
| HttpRoundTrip.QueryRead | HttpServer/src/http/HttpRequest.cpp:78-109 | The pieces between `&` are read in order, later keys winning; a piece without `=` means nothing. |
| HttpRoundTrip.HeadersRead | HttpServer/src/http/HttpContext.cpp:38-48 | Header lines are read in order, without the space around their values, and parsing goes on behind them. |
| HttpContext.HttpContext.ParseRequest | HttpServer/src/http/HttpContext.cpp:10-116 | The loop over the connection buffer leaves exactly the context, buffer and verdict of the functional parser, exceptions included. |
| HttpContext.HttpContext.ProcessRequestLine | HttpServer/src/http/HttpContext.cpp:119-161 | The verdict on a request line and everything recorded before a defect was found. |
| HttpContext.HttpContext.EndHeaders | HttpServer/src/http/HttpContext.cpp:48-88 | The empty line: body expected, complete, missing length, or an exception from the length conversion, and what is consumed in each case. |
| HttpContext.HttpRequest.SetQueryParameters | HttpServer/src/http/HttpRequest.cpp:78-109 | The splitting loop adds exactly the pairs of the query text to the map. |
| HttpContext.HttpRequest.AddHeader | HttpServer/src/http/HttpRequest.cpp:111-125 | The trimming loops store the value without leading and trailing white space. |
| HttpContext.HttpRequest.GetHeader | HttpServer/src/http/HttpRequest.cpp:127-151 | Exact name first, otherwise the least name in byte order that matches ignoring case, otherwise empty. |
| HttpParser.HeaderIgnoresCase | HttpServer/src/http/HttpRequest.cpp:127-151 | A header is found whatever the case of its name, if no two names differ in case only. |
| HttpContext.ReadRequest | HttpServer/src/http/HttpContext.cpp:10-116 | Reading chunk by chunk ends with the request, verdict and unread rest of the whole stream parsed at once. |
| Decimal.PrintThenRead | apps/shortlink_server/src/RedisShortLinkCache.cpp:72-75 | Printed integers read back through the signed and unsigned conversions over their whole ranges. |
| Decimal.ScanFindsNumerals | apps/shortlink_server/src/RedisShortLinkCache.cpp:113-123 | The conversions find a number exactly in space, at most one sign, digits and anything that does not go on with a digit, and it is the number those digits denote. |
| CacheCodec.SerializedReadsBack | apps/shortlink_server/src/RedisShortLinkCache.cpp:70-131 | A cached record reads back as itself under the code it is looked up by, with separators in its URL and any expiry, if and only if its URL is not empty. |
| CacheCodec.SerializedText | apps/shortlink_server/src/RedisShortLinkCache.cpp:70-77 | The text of a record: eight fields in order, separated by `|`, the URL last. |
| CacheCodec.DecodesIff | apps/shortlink_server/src/RedisShortLinkCache.cpp:79-131 | A value is read as a record if and only if it consists of seven fields without separators and a non-empty rest that say so. |
| CacheCodec.SerializeIsInjective | apps/shortlink_server/src/RedisShortLinkCache.cpp:70-77 | Records of one code with the same text are the same record. |
| CacheCodec.LegacyValueIsRejected | apps/shortlink_server/src/RedisShortLinkCache.cpp:83-86 | A bare URL of the earlier format is never taken for a record. |
| CacheCodec.Decode | apps/shortlink_server/src/RedisShortLinkCache.cpp:79-131 | The splitting loop and the conversions accept and return exactly what the functional decoder does. |
| CachedRepository.CacheIsTransparent | apps/shortlink_server/src/RedisCachedShortLinkRepository.cpp:18-66 | With erases that take effect, callers of the cached repository see for every sequence of operations exactly what callers of the bare source see, whichever gets and sets fail. |
| CachedRepository.FindKeepsCoherent | apps/shortlink_server/src/RedisCachedShortLinkRepository.cpp:26-41 | A lookup returns the source's record and leaves the cache coherent. |
| CachedRepository.ChangeKeepsCoherent | apps/shortlink_server/src/RedisCachedShortLinkRepository.cpp:56-66 | Creates, and updates whose erase takes effect, leave the cache coherent. |
| CachedRepository.LegacyCacheIsCoherent | apps/shortlink_server/src/RedisShortLinkCache.cpp:206-220 | A cache holding only values of the earlier format is coherent with any source. |
| CachedRepository.SecondLookupHits | apps/shortlink_server/src/RedisCachedShortLinkRepository.cpp:26-41 | Once a lookup has filled the cache, the next one within the lifetime is answered without the source. |
| CachedRepository.FilledIsFound | apps/shortlink_server/src/RedisShortLinkCache.cpp:230-298 | The cache does its work: an unexpired record that was filled is found exactly until its TTL or its own expiry ends. |
| CachedRepository.KeepSecondsIsLongest | apps/shortlink_server/src/RedisShortLinkCache.cpp:232-242 | The lifetime of an entry is the longest time within the TTL that does not reach beyond the second of expiry. |
| CachedRepository.FailedEraseIsSafeIff | apps/shortlink_server/src/RedisCachedShortLinkRepository.cpp:60-64 | After an update whose erase had no effect the cache is right if and only if the entry left behind does not decode or already holds the updated record. |
| CachedRepository.StaleAfterFailedErase | apps/shortlink_server/src/RedisCachedShortLinkRepository.cpp:60-64 | A concrete run in which a failed erase makes a later lookup return the old record. |
| CachedRepository.RedisShortLinkCache.constructor | apps/shortlink_server/src/RedisShortLinkCache.cpp:142-150 | The TTL is the configured one if that lies between 1 and 86400 seconds, and one hour otherwise. |
| CachedRepository.RedisShortLinkCache.Get | apps/shortlink_server/src/RedisShortLinkCache.cpp:152-228 | A hit is a live entry that decodes, and is what it decodes to; anything else is a miss, and only a value that does not decode is deleted, if that works. |
| CachedRepository.RedisShortLinkCache.Set | apps/shortlink_server/src/RedisShortLinkCache.cpp:230-298 | An expired record is erased; otherwise its text is kept for the smaller of TTL and remaining life; no other code is touched. |
| CachedRepository.RedisShortLinkCache.Erase | apps/shortlink_server/src/RedisShortLinkCache.cpp:300-336 | The entry goes exactly if the call took effect, acknowledged or not. |
| CachedRepository.RedisCachedShortLinkRepository.FindByCode | apps/shortlink_server/src/RedisCachedShortLinkRepository.cpp:26-41 | Cache first, then the source, then a fill that keeps the record for its lifetime; a source that throws is noticed if and only if the cache had no answer. |
| CachedRepository.RedisCachedShortLinkRepository.UpdateLifecycle | apps/shortlink_server/src/RedisCachedShortLinkRepository.cpp:56-66 | Source first; the entry is erased only if a record changed. |
| CachedRepository.RedisCachedShortLinkRepository.CreateLink | apps/shortlink_server/src/RedisCachedShortLinkRepository.cpp:18-24 | A create goes to the source alone. |
| Redirect.ShortLinkService.Resolve | apps/shortlink_server/src/ShortLinkService.cpp:109-155 | Through the cache a visitor gets the decision the source's own record demands: not found; disabled; expired if and only if `expiresAt * 1000 <= now`; its URL exactly if the record is active and the cache would keep it for some time, whatever the TTL. An error if and only if the source throws and the cache has no answer; counted once. |
| Redirect.ExpiryIs | apps/shortlink_server/src/ShortLinkService.cpp:213-217 | A record is expired from the millisecond on in which its second begins, and the cache keeps it exactly until then. |
| Redirect.ExpiredForGood | apps/shortlink_server/src/ShortLinkService.cpp:213-217 | An unchanged record that has expired stays expired as the clock advances. |
| Staleness.HitIsRecent | apps/shortlink_server/src/RedisCachedShortLinkRepository.cpp:26-66 | Under any interleaving and any Redis failures, a hit returns a record the source held no longer ago than the TTL (at most 86400 s) plus the time its reader took from reading the source to writing the cache. |
| Staleness.EntryEndsWithRecord | apps/shortlink_server/src/RedisShortLinkCache.cpp:230-279 | An entry outlives the expiry of its record by at most 999 ms plus the time from deciding its lifetime to writing it. |
| Staleness.OutlivesExpiryIff | apps/shortlink_server/src/RedisShortLinkCache.cpp:233-242 | An entry outlives its record's expiry by more than its writer's delay if and only if the clock stood between two seconds when the lifetime was decided and the whole seconds left were no more than the TTL; then by exactly the fraction. |
| Staleness.WholeSecondsOutliveExpiry | apps/shortlink_server/src/RedisShortLinkCache.cpp:235-242 | At every clock reading: with no delay at all the entry of a record that expires within the TTL outlives it by the fraction of the second. |
| Staleness.FillAfterEraseIsStale | apps/shortlink_server/src/RedisCachedShortLinkRepository.cpp:26-66 | The reader's delay cannot be dropped: a fill after an update's erase brings the old record back although every Redis call worked. |
| Staleness.EraseIsFinalIff | apps/shortlink_server/src/RedisCachedShortLinkRepository.cpp:56-66 | After an erase some continuation without a further update finds another record than the current one if and only if, at the erase, some reader carries another record with a URL that it would keep for at least a second. |
| Staleness.EraseInRunIsFinalIff | apps/shortlink_server/src/RedisCachedShortLinkRepository.cpp:56-66 | The same for every erase of every run: the readers of a run only carry records the source held. |
| Calendar.CountsDays | apps/shortlink_server/src/ShortLinkService.cpp:35-45 | The closed-form day number of the date n days after 1970-01-01, counted one by one, is n. |
| Calendar.NextDayIsOneMore | apps/shortlink_server/src/ShortLinkService.cpp:20-45 | For every date of every year, the next day has the next number. |
| Calendar.DaysReachDate | apps/shortlink_server/src/ShortLinkService.cpp:35-45 | Every valid date from the epoch on is reached by counting its own number of days. |
| Calendar.DaysAscend | apps/shortlink_server/src/ShortLinkService.cpp:35-45 | Later dates have larger day numbers. |
| Calendar.ParseDigits | apps/shortlink_server/src/ShortLinkService.cpp:47-60 | The digit loop returns the number a slice denotes, and fails exactly on a non-digit. |
| Calendar.ParseUtcTimestamp | apps/shortlink_server/src/ShortLinkService.cpp:219-244 | Which strings are accepted and the second each names. |
| Calendar.TimestampsKeepOrder | apps/shortlink_server/src/ShortLinkService.cpp:219-244 | On accepted strings, byte order is time order, and equal seconds mean equal strings. |
| Calendar.TimestampCountsDays | apps/shortlink_server/src/ShortLinkService.cpp:219-244 | The day part of an accepted timestamp is the naive count of days since the epoch, the rest its time of day. |
| Calendar.ParsesExactlyFormatted | apps/shortlink_server/src/ShortLinkService.cpp:219-258 | The parser inverts the formatter: a text is accepted with value n if and only if n lies from 1970-01-01T00:00:00Z to 9999-12-31T23:59:59Z and the text is that of second n, its day counted one by one from the epoch. |
| RateLimiter.RedisKeys.FixedWindow | apps/shortlink_server/src/RedisFixedWindowRateLimiter.cpp:15-22 | The script: one more on the live count, a deadline always set, and what it returns. |
| RateLimiter.RedisFixedWindowRateLimiter.Check | apps/shortlink_server/src/RedisFixedWindowRateLimiter.cpp:60-115 | Other keys untouched; a reached key has an expiry, a new one `windowSeconds * 1000` milliseconds ahead; allowed, limited and error answers and the advertised wait. |
| RateLimiter.WindowBound | apps/shortlink_server/src/RedisFixedWindowRateLimiter.cpp:15-22 | In every run at most `requests` calls are let through per window. |
| RateLimiter.IntervalBound | apps/shortlink_server/src/RedisFixedWindowRateLimiter.cpp:15-22 | In any stretch of time no longer than a window at most `2 * requests - 1` calls are let through. |
| RateLimiter.IntervalBoundIsReached | apps/shortlink_server/src/RedisFixedWindowRateLimiter.cpp:15-22 | That bound is reached for every configuration. |
| RateLimiter.AllowedIffRoom | apps/shortlink_server/src/RedisFixedWindowRateLimiter.cpp:15-22 | Starting without a key, a call is allowed if and only if fewer than `requests` earlier calls of its window reached the key. |
| RateLimiter.RetryAfterSuffices | apps/shortlink_server/src/RedisFixedWindowRateLimiter.cpp:112-114 | Waiting the advertised time plus half a second is enough for the next lone check. |
| RateLimiter.RetryAfterPassesIff | apps/shortlink_server/src/RedisFixedWindowRateLimiter.cpp:112-114 | A limited caller who comes back alone after exactly the advertised wait passes if and only if less than a second was left, or a fraction of at least half a second. |
| Base62.EncodeBase62 | apps/shortlink_server/src/MemoryShortLinkRepository.cpp:127-148 | The digit loop, padding and reversal produce the code of the id. |
| Base62.CodeDenotes | apps/shortlink_server/src/MemoryShortLinkRepository.cpp:127-148 | Left inverse: a code denotes the id it was made from. |
| Base62.CodeLength | apps/shortlink_server/src/MemoryShortLinkRepository.cpp:127-148 | Every 64-bit id has a code of six to eleven characters. |
| Base62.CodesAscend | apps/shortlink_server/src/MemoryShortLinkRepository.cpp:127-148 | Numeric order is shortlex order of the codes. |
| Repository.StepKeepsInv | apps/shortlink_server/src/MemoryShortLinkRepository.cpp:19-49 | Each record under its own code, ids positive, unique and below the counter: kept by every call if and only if the 64-bit counter does not wrap. |
| Repository.RunKeepsInv | apps/shortlink_server/src/MemoryShortLinkRepository.cpp:19-125 | The same in every run that does not exhaust the ids, with the counter equal to one plus the number of creates. |
| Repository.LinksAreForever | apps/shortlink_server/src/MemoryShortLinkRepository.cpp:19-125 | A defined code keeps its id, owner, target and creation time for ever, and codes defined later have larger ids. |
| Repository.GeneratedConflict | apps/shortlink_server/src/MemoryShortLinkRepository.cpp:27-32 | A create without a custom code conflicts if and only if an earlier call asked by name for the code the next id generates. |
| Repository.NoCustomCodesNoConflict | apps/shortlink_server/src/MemoryShortLinkRepository.cpp:27-32 | Without custom codes in play no create conflicts. |
| Repository.SquattedCode | apps/shortlink_server/src/MemoryShortLinkRepository.cpp:27-32 | A concrete run in which a custom code makes a later generated create conflict. |
| Repository.MemoryShortLinkRepository.CreateLink | apps/shortlink_server/src/MemoryShortLinkRepository.cpp:19-49 | The 64-bit id is consumed even when the code is taken; otherwise exactly the new active record is stored under its code. |
| Repository.MemoryShortLinkRepository.UpdateLifecycle | apps/shortlink_server/src/MemoryShortLinkRepository.cpp:103-125 | Changes a record exactly if it exists and belongs to the owner asked for; which fields change, and that nothing else does. |
| Repository.MemoryShortLinkRepository.List | apps/shortlink_server/src/MemoryShortLinkRepository.cpp:76-101 | Exactly the first `limit` records above the cursor that belong to the owner and have the status asked for, in ascending id order. |
| Pagination.ParseUnsigned | apps/shortlink_server/src/ShortLinkHttpApi.cpp:72-93 | Accepts exactly the non-empty digit strings that fit 64 bits, and returns their value. |
| Pagination.CursorReadsBack | apps/shortlink_server/src/ShortLinkHttpApi.cpp:362-365 | A printed cursor reads back as the same id. |
| Pagination.HandleList | apps/shortlink_server/src/ShortLinkHttpApi.cpp:302-367 | Each defect has its answer, limits being 1 to 100; otherwise the page, of at most 50 unless asked, of the owner's own records, with a cursor exactly if some matching record is not on it. |
| PageWalk.WalkListsEachOnce | apps/shortlink_server/src/ShortLinkHttpApi.cpp:302-367 | Following the cursor while others create and update: ids strictly ascend, every listed record matched when read, and a finished walk has listed every record that matched throughout, from the start or since its creation. |
| PageWalk.UndisturbedWalkIsExact | apps/shortlink_server/src/ShortLinkHttpApi.cpp:302-367 | On an unchanging store a finished walk lists exactly the matching records. |
| PageWalk.WalkIsBounded | apps/shortlink_server/src/ShortLinkHttpApi.cpp:302-367 | Walks end: the number of pages is bounded by the ids handed out. |
| Base64.EncodePrefix | apps/shortlink_event_consumer/src/KafkaDeadLetterPublisher.cpp:30-53 | The loop returns text that a strict RFC 4648 section 4 decoder turns into exactly the first min(size, maxBytes) bytes, of length (n + 2) / 3 * 4. |
| Base64.OneTextPerPayload | apps/shortlink_event_consumer/src/KafkaDeadLetterPublisher.cpp:30-53 | That decoder is injective, so the encoder's text is the only one. |
| Base64.AlphabetIsStandard | apps/shortlink_event_consumer/src/KafkaDeadLetterPublisher.cpp:32-33 | The alphabet is that of RFC 4648 table 1. |

## Left out

- JSON text of events, dead letters and HTTP bodies: the decoder is a given function; dead letters carry the whole key and payload, of which the program stores a Base64 prefix (`Base64.EncodePrefix`) and the sizes.
- librdkafka, hiredis, the MySQL connector, muduo, OpenSSL, sockets, signals, threads and logging: only their results appear, as choices of the environment.
- Sleeping between retries and `reconnect`: time does not pass in the consumer model; the delays are computed and bounded, and a new session is one whose transaction is gone.
- Consumer.KafkaAccessEventConsumer.Run: takes the polls as a finite sequence instead of running until a stop signal; the timestamp of the last success is not modelled.
- Consumer.KafkaAccessEventConsumer.RefreshLag: assignment, committed offsets and watermarks are Kafka's answers, not tied to the modelled offsets, and the refresh interval is a flag.
- Consumer.KafkaDeadLetterPublisher.Publish: the program's only failure before the flags are cleared is serialisation; it is a choice of the environment.
- Repository.RunKeepsInv: stops before the 64-bit id counter wraps; `Repository.StepKeepsInv` shows that the invariant ends exactly there.
- Repository.MemoryShortLinkRepository.List: `std::sort` is library code and stands as a function with a proved result.
- Statistics.Get: the rows of its two queries are inputs described by what the SQL says. Result strings other than the five of the program are not modelled: the schema admits only the four aggregated ones (`apps/shortlink_server/sql/004_create_access_statistics.sql`, lines 30 and 47). Connection failures, which also throw, are not modelled.
- PageWalk.WalkListsEachOnce: for the in-memory repository and its calls; the SQL of the MySQL repository is not modelled.
- Redirect.ShortLinkService.Resolve: counters do not record where the record came from.
- HttpContext.ReadRequest: the receive time is not part of a request.
- `findByCodeForOwner`, lookup sources, cache key prefixes and cache metrics: single-branch code that would only add easy members.
- `formatUtcTimestamp` relies on the C library's `gmtime_r` and `strftime`; the model writes the text they are documented to produce for the years 1970 to 9999.
- Regex routing, CORS, TLS, middleware, cookies, authentication, scrypt, tokens, configuration loading and Prometheus text: library behaviour or plumbing.
- `DbConnectionPool`: only an easy conservation invariant.
- Web pages, SQL schema, shell scripts and container files.
- Overflow of the statistics counters in the database.
