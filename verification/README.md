# Protoflow: verified models of its queues, its event lifecycle and its statistics

Protoflow is a Go library for event processing. Its SQL transports keep messages in a table, lock a
row while a handler works on it, retry failed messages after a backoff and move hopeless ones to a
dead letter table. Above the transports, an event service counts the attempts of CloudEvents,
republishes them with a delay and marks them as dead letters. Statistics windows watch the handlers.

These Dafny modules model that behaviour and prove what it promises. `dafny verify dfyconfig.toml`
checks all of them.

## The modules

**The SQL queues.** `Tables` has the two tables and the effect of single statements on them.
`QueueMachine` is the state machine: every SQL statement (or transaction) is one atomic step, any
number of workers take steps in any order, a nack is a `SELECT` and a later write, and a statement may
fail at any point (`Abandon`). The code reads the clock before it issues a statement, and may be held up
in between: every statement carries the reading that goes into it, which may be older than the time at
which the statement takes effect. A ghost history says which published message a row stands for.
`PostgresTransport` and `SqliteTransport` are the two transports as classes that update their tables;
every method is proved to take exactly the machine's steps, with arbitrary statements of other workers
in between (`others`, `during`, `NackWeather`). An object carries the run that took it where it is, so
that what is proved of all runs holds of every object (`Conserves`, `RetriesStayBounded`,
`DeadLettersHaveWaited` in both classes). The properties are proved over all runs of the machine:

- in every interleaving: `Conservation` (nothing is lost, duplicated or altered; a late worker meets
  only its own row), `Leases.RetriesBounded`, `BackoffBounds.NoDeliveryBeforeDelay`, `Replay`, and the
  total wait of dead letters (`LeaseTiming`);
- in every run that keeps the lease discipline, that is, resolves each delivery no later than its
  `locked_until` (`Run.KeepsLeases`): `Leases` (exclusion, exact retry counts), `BackoffBounds` (the
  total wait), `Losses` (when SQLite loses a message), `SqliteRefinement` (SQLite's two-statement move
  refines PostgreSQL's, state by state);
- for one consumer: `DeliveryOrder`, `Draining`;
- `Witnesses` builds runs that show why the conditions are needed.

**The event lifecycle.** `ErrorChains` classifies trees of wrapped errors, `Envelope` is the flat JSON
form of an event (section 3 of the CloudEvents JSON Event Format v1.0) with float64 rounding of
numbers, `EventMessages` carries events in messages, `Lifecycle` follows an event through its
deliveries, and `EventService` proves that the code, whose by-value events share a heap-allocated
extension map, does what `Lifecycle` says.

**The statistics.** `LatencyWindow` (ring buffer and percentiles), `ThroughputWindow` (time window),
`HandlerStats` (counters under interleaved starts and finishes) and `DlqMetrics` (dead letter counts
per topic). Each class keeps a ghost history and is proved to show a function of it.

## Where the code does not do what it looks like

Each of these is proved, with the exact condition where there is one.

- A PostgreSQL backoff of 2^34 seconds or more overflows the 64-bit nanosecond count, so `MaxRetries`
  above 34 makes messages available early (`BackoffBounds.PostgresBackoffExactIff`), dead before their
  time (`Witnesses.WaitedInFullIff`) and delivered out of order (`DeliveryOrder.DeliveredInOrderIff`).
- A worker that outlives its lease can make a message die before it has waited for all its backoffs,
  unless a lock outlasts all of them together: with the default lock timeout up to `MaxRetries` 4
  (PostgreSQL) or 7 (SQLite), the default 3 included, and for no more (`LeaseTiming.WaitedInFullAnywayIff`,
  `LeaseTiming.PostgresLocksAreLongIff`, `LeaseTiming.SqliteLocksAreLongIff`). The readings matter: a
  fetch that was held up puts on a lock that has already expired (transport/postgres/postgres.go:300-318,
  transport/sqlite/sqlite.go:279-301), and a nack writes a time from before its UPDATE
  (transport/postgres/postgres.go:412, transport/sqlite/sqlite.go:390).
- SQLite fills `available_at` of replayed rows with CURRENT_TIMESTAMP, in whole seconds
  (transport/sqlite/sqlite.go:134, 475-479, 506-510): a replayed message overtakes what was delivered in
  the same second (`DeliveryOrder.SqliteReplayOvertakes`, `DeliveryOrder.ReplayKeepsUpIff`).
- SQLite deletes the row even if copying it to the dead letter table failed
  (transport/sqlite/sqlite.go:375-387): the message is then lost, and only then
  (`Losses.NothingLostIff`, `Witnesses.FailedInsertLoses`).
- SQLite's bulk replay gives all rows the same suffix, so two dead letters with one uuid block it until
  one of them is replayed by itself or the topic is purged (`Replay.SqliteReplayAllIff`,
  `Replay.BlockedForAsLong`, `Witnesses.SqliteReplayBlocked`).
- Without leases, overlapping nacks push a retry count beyond `MaxRetries`, unless that is 0
  (`Witnesses.RetryBoundAttained`, `Leases.NoRetriesAtZero`).
- docs/protoflow-extensions.md:213 and internal/runtime/cloudevents/extensions.go:261-265 name a topic
  `<type>.dead`, but a dead letter is published to the event's own type
  (`Lifecycle.DeadLetterTopicIff`, `Lifecycle.NothingReachesDLQTopic`) and comes back to its consumer,
  which treats it like any other event: it is buried again by a dead-letter error, or once its attempts
  are used up (`Lifecycle.BuriedAgainIff`).
- A dead letter that cannot be published is acknowledged all the same (`Lifecycle.AckedWithoutTraceIff`).
- A retry-after error anywhere inside a dead-letter error wins (`ErrorChains.RetryAfterBeatsDeadLetter`).
- internal/runtime/cloudevents/errors.go:25-26 promises a flag on unprocessable events. Unprocessable
  errors are classified as dead letters (`ErrorChains.ClassificationMeans`), and a dead letter has the
  entries PrepareForDLQ writes and no others that the event did not have (`Lifecycle.DeadLetterTells`).
- Attempts are counted in float64 once they have travelled: at 2^53 the count stands still, and an event
  whose maximum is 2^53 + 2 or more is retried for ever (`Lifecycle.EndsIff`).
- internal/runtime/cloudevents/event.go:243 calls Clone a deep copy; it copies the extension map, not
  what its entries hold (`EventService.Clone`).
- An extension named like an attribute overwrites it in the encoded event (`Envelope.EnvelopeRoundTripIff`).
- Percentiles leave the range of the samples, or come out of order, if and only if two neighbouring
  samples are at least 2^63 but less than 2^64 - 1 apart (`LatencyWindow.PercentilesOrderedIff`);
  durations that are not negative never are.
- One finish without a start, or one success put into an error category, makes the handler's counters
  wrong for good (`HandlerStats.InFlightExactIff`, `HandlerStats.BucketsExactIff`).
- Replaying or purging more dead letters than are counted unbalances the metrics for good
  (`DlqMetrics.BalancedIff`).

## Model

| member | source | states |
|---|---|---|
| `Conservation.PostgresConserves` | transport/postgres/postgres.go:204-435 | In every run of any number of workers, failing statements and stale workers included, each published message is in exactly one of messages, dead letters, acknowledged and purged, with the topic, payload and metadata it was published with; the four add up to what was published |
| `Conservation.SqliteNeverLoses` | transport/sqlite/sqlite.go:357-402 | In every SQLite run in which no row is deleted whose copy failed, whatever else fails, a message that is neither acknowledged nor purged is in at least one table at every statement boundary |
| `Conservation.WorkerTouchesOnlyItsRow` | transport/postgres/postgres.go:374-435 | However late, a worker's ack, nack or unlock changes no other row, removes no dead letter, and adds at most the copy of its own row |
| `Conservation.SameRowForEver` | transport/postgres/postgres.go:383-435 | A row id stands for the same message, first available at the same time, in all later states: a late worker meets the row it fetched or none |
| `Conservation.RunAccounts` | transport/postgres/postgres.go:204-572 | In every run in which no row is deleted whose copy failed, every published message is accounted for in the ledger of the two tables, acknowledgements and purges |
| `Conservation.RunSinglePlace` | transport/postgres/postgres.go:395-409 | As long as no other worker is at a row that SQLite is moving, no message is in two places |
| `Conservation.LedgerBalances` | transport/postgres/postgres.go:468-489 | What was published is what is pending, dead, acknowledged or purged, counted |
| `Conservation.PostgresBalancesTopic` | transport/postgres/postgres.go:468-489 | In every PostgreSQL run the books of each topic balance: published = pending + dead + acknowledged + purged |
| `Conservation.NextKeeps` | transport/postgres/postgres.go:204-623 | Every step keeps the accounts, and keeps every message in a single place if no half-moved row is shared |
| `Leases.ExclusiveNext` | transport/postgres/postgres.go:299-372 | One step that starts with leases kept never lets two workers hold one row, lock expiry and cleanup included |
| `Leases.LeasesExclude` | transport/postgres/postgres.go:299-435 | In every run that keeps the lease discipline no row is ever held by two workers |
| `Leases.SqliteConserves` | transport/sqlite/sqlite.go:364-402 | With leases kept and moves that succeed, SQLite keeps every message in exactly one place, a half-moved row counting as dead, and the books of each topic balance |
| `Leases.RetriesBounded` | transport/postgres/postgres.go:383-426 | In every interleaving with at most W workers nacking one row at once, no retry count exceeds MaxRetries + W - 1, and a dead letter carries between MaxRetries and that |
| `Leases.LeasesBoundRetries` | transport/postgres/postgres.go:383-426 | With leases kept no retry count exceeds MaxRetries and every dead letter carries exactly MaxRetries |
| `Leases.NoRetriesAtZero` | transport/sqlite/sqlite.go:374-387 | With MaxRetries 0 no retry is ever counted, whatever the number of workers |
| `BackoffBounds.PostgresBackoffExactIff` | transport/postgres/postgres.go:411-412 | The wrapping computation of the backoff gives 2^n seconds if and only if n is at most 33 |
| `BackoffBounds.SqliteBackoffExactIff` | transport/sqlite/sqlite.go:389-390 | The SQLite backoff is n + 1 seconds if and only if that fits 64-bit nanoseconds |
| `BackoffBounds.BackoffFitsExactly` | transport/postgres/postgres.go:395-412 | All backoffs a configuration can ask for are exact if and only if MaxRetries is at most 34 (PostgreSQL) or 9223372036 (SQLite) |
| `BackoffBounds.NoDeliveryBeforeDelay` | transport/postgres/postgres.go:239-318 | In every interleaving and for every configuration, a message published with a delay is not fetched before the time read at its publication plus that delay, one without not before that time, be it under its own row or one that a replay made of its dead letter |
| `BackoffBounds.DeadLettersWaited` | transport/postgres/postgres.go:395-425 | With leases kept and backoffs that fit, a dead letter's failed_at is no earlier than its message's first available_at plus 2^MaxRetries - 1 seconds (PostgreSQL) or MaxRetries(MaxRetries + 1)/2 seconds, cut to whole ones (SQLite) |
| `BackoffBounds.AvailabilityNeverDecreases` | transport/postgres/postgres.go:411-425 | With leases kept and backoffs that fit, a row's available_at is never earlier in a later state |
| `BackoffBounds.TotalClosedForm` | transport/sqlite/sqlite.go:389-390 | The closed forms of all backoffs together, in both dialects |
| `Witnesses.WaitedInFullIff` | transport/postgres/postgres.go:411-412 | Dead letters of all leased runs have waited in full if and only if the backoffs fit: for every other configuration there is a run in which one has not |
| `Witnesses.AvailabilityNeverDecreasesIff` | transport/postgres/postgres.go:411-425 | In all leased runs no row is ever made available earlier, if and only if the backoffs fit: the first that does not is negative |
| `LeaseTiming.AllInTimeNext` | transport/postgres/postgres.go:299-435 | With backoffs that fit and long locks, every step of any worker, late or not and however old its clock readings, keeps each row that is younger than a lock on schedule and held by one worker at most, and lets no nack read the maximum too early |
| `LeaseTiming.CrowdGathers` | transport/sqlite/sqlite.go:279-301 | Once the first lock has expired, held-up fetches let any number of workers get the row at one moment |
| `LeaseTiming.EarlyDeath` | transport/postgres/postgres.go:299-426 | For every configuration whose locks are not long there is a run in which a message dies one lock timeout after it became available, before it has waited for all its backoffs |
| `LeaseTiming.WaitedInFullAnywayIff` | transport/postgres/postgres.go:299-426 | In all runs, leases kept or not, every dead letter has waited for all its backoffs, if and only if the backoffs fit and a lock outlasts all of them together |
| `LeaseTiming.SqliteLocksAreLongIff` | transport/sqlite/sqlite.go:280 | SQLite's thirty seconds are long enough exactly up to MaxRetries 7 |
| `LeaseTiming.PostgresLocksAreLongIff` | transport/postgres/postgres.go:301 | PostgreSQL's default thirty seconds are long enough exactly up to MaxRetries 4 |
| `Losses.DropsIff` | transport/sqlite/sqlite.go:375-387 | A DELETE drops a message exactly if the INSERT of the same delivery had failed |
| `Losses.NothingLostIff` | transport/sqlite/sqlite.go:375-387 | With leases kept and no DELETE of a copied row failing, every published message is in some place in all states if and only if no delivery deletes its row after failing to copy it |
| `Witnesses.FailedInsertLoses` | transport/sqlite/sqlite.go:375-387 | For every SQLite configuration there is a run, leases kept, after which a published, unresolved message is in neither table |
| `Witnesses.RetryBoundAttained` | transport/postgres/postgres.go:383-426 | The bound MaxRetries + W - 1 is reached, for every W and every MaxRetries but 0 |
| `Witnesses.ExclusionNeedsLeases` | transport/postgres/postgres.go:304-318 | Without the lease discipline any number of workers can be at one row |
| `Witnesses.SqliteReplayBlocked` | transport/sqlite/sqlite.go:506-510 | For every SQLite configuration and topic a state with two dead letters of one uuid, in which bulk replay fails, can be reached |
| `Replay.SplitAtLastDash` | transport/postgres/postgres.go:550 | A text ending in a dash and digits can be taken apart in one way only |
| `Replay.PostgresReplayDistinct` | transport/postgres/postgres.go:549-551 | The uuids PostgreSQL's bulk replay makes up are pairwise distinct even if dead letters share a uuid |
| `Replay.SqliteReplayDistinctIff` | transport/sqlite/sqlite.go:506-510 | SQLite's are distinct if and only if the dead letters' uuids are |
| `Replay.PostgresReplayAllIff` | transport/postgres/postgres.go:530-561 | PostgreSQL's bulk replay can run if and only if none of the new uuids is in use |
| `Replay.SqliteReplayAllIff` | transport/sqlite/sqlite.go:493-523 | SQLite's needs pairwise distinct uuids among the topic's dead letters as well |
| `Replay.BlockedForAsLong` | transport/sqlite/sqlite.go:493-523 | From any state with two dead letters of one topic and uuid, bulk replay fails in every later state, until one of them is replayed by itself or the topic is purged |
| `Replay.ReplayAllMoves` | transport/postgres/postgres.go:544-560 | Bulk replay empties the topic's dead letters, adds exactly as many rows as it reports, each with the content of one dead letter, due at the database's time, unlocked, retry count 0; nothing else changes and uuids stay unique |
| `Replay.ReplayAllMakes` | transport/postgres/postgres.go:544-560 | The row each dead letter becomes: its uuid with the stamp, in PostgreSQL also the row number, its topic, payload and metadata, due at the database's time, unlocked and untried |
| `Replay.ReplayOneMoves` | transport/sqlite/sqlite.go:473-490 | A single replay exchanges the dead letter for such a row and changes nothing else |
| `Replay.PurgeDiscards` | transport/postgres/postgres.go:564-572 | A purge discards exactly the topic's dead letters and leaves the messages alone |
| `DeliveryOrder.DeliveredInOrder` | transport/postgres/postgres.go:280-372 | On a topic with one poller that resolves every delivery by ack or nack, with nothing inserted behind the last delivery and backoffs that fit, the available_at of successive deliveries never decreases |
| `DeliveryOrder.DeliveredInOrderIff` | transport/postgres/postgres.go:280-425 | That order holds in all such runs of a configuration if and only if its backoffs fit |
| `DeliveryOrder.PublishKeepsUpIff` | transport/postgres/postgres.go:239-246 | A publication inserts nothing behind the last delivery if and only if for no message the time read for it, plus its delay if it has one, is before that delivery's available_at |
| `DeliveryOrder.ReplayKeepsUpIff` | transport/sqlite/sqlite.go:475-510 | A replay does so if and only if the database's time, in SQLite cut to whole seconds, is not before it |
| `DeliveryOrder.CurrentIsInOrder` | transport/postgres/postgres.go:239-372 | While all clock readings are current and delays not negative, a single poller gets its topic in order, retries and PostgreSQL's replays included |
| `DeliveryOrder.SqliteReplayOvertakes` | transport/sqlite/sqlite.go:475-479 | In SQLite, all readings current, a replayed dead letter is delivered after a message with a later available_at |
| `Draining.RoundRuns` | transport/postgres/postgres.go:358-426 | Waiting, fetching, with a clock reading of any age, and nacking can run as statements of the machine and have the effect of one round |
| `Draining.DrainIsExact` | transport/postgres/postgres.go:383-426 | Each delivery of a consumer that nacks everything uses up exactly one of the deliveries left, and the topic is empty if and only if none is left; messages only change tables |
| `Draining.DrainEnds` | transport/sqlite/sqlite.go:263-402 | From every state the machine can run statements of such a consumer that empty the topic in exactly the sum of MaxRetries + 1 - retry_count (at least one each) deliveries, and the dead letters grow by the number of messages |
| `SqliteRefinement.SqliteStepRefines` | transport/sqlite/sqlite.go:364-402 | With leases kept, a SQLite step whose statements succeed is, once half-moved rows are hidden, the one-statement step, or invisible (the DELETE after the copy) |
| `SqliteRefinement.SqliteRefinesOneStatement` | transport/sqlite/sqlite.go:364-402 | Every SQLite run with leases kept and moves that succeed is matched, state by state and in order, by one run with atomic moves |
| `QueueMachine.WellFormedNext` | transport/postgres/postgres.go:165-206 | Every step keeps uuids unique in the messages table, ids below their counters and the history complete |
| `QueueMachine.RowAfterOther` | transport/postgres/postgres.go:299-435 | Only a nack's UPDATE changes a row's retry count or availability: one retry more, unlocked, due after the backoff of the count that was read |
| `QueueMachine.DeadAfter` | transport/postgres/postgres.go:395-409 | A dead letter appears only from a nack whose read count reached MaxRetries, with uuid, topic, payload, metadata and retry count of the row at that time and the text "max retries exceeded", and never changes |
| `QueueMachine.JobAfter` | transport/postgres/postgres.go:299-372 | A worker keeps its row and lease until it leaves, and comes to a row only by fetching it |
| `QueueMachine.RowAfterInsertion` | transport/postgres/postgres.go:246-256 | Publishing and replaying leave existing rows alone and add rows under fresh ids, unlocked, retry count 0 |
| `Tables.NextExists` | transport/postgres/postgres.go:304-317 | The fetch query finds a row whenever an eligible one is not skipped |
| `Tables.CleanupUnlocksExpired` | transport/postgres/postgres.go:613-617 | Cleanup unlocks exactly the expired rows and changes nothing else |
| `Tables.CleanupReports` | transport/postgres/postgres.go:613-623 | The rows that are reported as unlocked are those that changed |
| `Basics.DecimalInjective` | transport/postgres/postgres.go:550 | Decimal texts of different numbers differ |
| `Statements.InsertBatch` | transport/postgres/postgres.go:233-256 | The transaction of a publication succeeds if and only if no statement fails and no uuid clashes, and then adds for each message, under consecutive ids, a row with its uuid, topic, payload and metadata, due at the time read plus its delay, unlocked and untried |
| `Statements.SelectNext` | transport/postgres/postgres.go:307-316 | The query returns an eligible, unskipped row with the least available_at, or none if there is none |
| `Statements.NackWriteDoes` | transport/postgres/postgres.go:395-425 | A nack whose row is still there makes it a dead letter if the count it read has reached MaxRetries, and otherwise retries it after the backoff of that count; nothing else changes |
| `Statements.OthersLeaveAlone` | transport/postgres/postgres.go:345-356 | Statements of other workers never change where a worker is |
| `PostgresTransport.Transport.constructor` | transport/postgres/postgres.go:79-152 | A new transport starts in the machine's initial state, with 3 retries and 30 seconds for values that are not positive |
| `PostgresTransport.Transport.Publish` | transport/postgres/postgres.go:204-257 | Publishes the whole batch or nothing; exactly when it succeeds, and the row each message gets, its available_at being the time read plus its delay |
| `PostgresTransport.Transport.FetchAndLockMessage` | transport/postgres/postgres.go:299-343 | Locks the next row of the topic that is due and not locked, until the time read plus the timeout, and returns its uuid and content; none only if there is none or the statement fails |
| `PostgresTransport.Transport.AckMessage` | transport/postgres/postgres.go:374-381 | Deletes the row and nothing else, or changes nothing if the statement fails |
| `PostgresTransport.Transport.UnlockMessage` | transport/postgres/postgres.go:428-435 | Clears the row's lock and changes nothing else; nothing if the statement fails, as it does on a cancelled context |
| `PostgresTransport.Transport.ReadRetryCount` | transport/postgres/postgres.go:383-393 | Reads the retry count; the worker leaves if the row is gone |
| `PostgresTransport.Transport.MoveToDLQ` | transport/postgres/postgres.go:395-409 | Moves the row to the dead letters, with its content and retry count, in one statement, or changes nothing if it fails |
| `PostgresTransport.Transport.ScheduleNextRetry` | transport/postgres/postgres.go:410-425 | One retry more, unlocked, due at the time read plus the backoff, which is 2^n seconds up to n = 33; or nothing if the statement fails |
| `PostgresTransport.Transport.WriteNack` | transport/postgres/postgres.go:395-425 | The retry or the atomic move to the dead letters, depending on the count read before |
| `PostgresTransport.Transport.NackMessage` | transport/postgres/postgres.go:383-426 | The read, any statements of other workers, then the write |
| `PostgresTransport.Transport.HandleMessageResult` | transport/postgres/postgres.go:345-356 | Ack, nack, cancellation or closing end a delivery by exactly their steps |
| `PostgresTransport.ResultDoes` | transport/postgres/postgres.go:345-435 | An ack removes the row, closing unlocks it, a cancelled context leaves it locked, and a nack without interference retries it or makes it a dead letter; nothing else in the tables changes |
| `PostgresTransport.Transport.ProcessAvailableMessages` | transport/postgres/postgres.go:358-372 | One turn of the polling loop is a fetch, any statements of other workers and any time while the handler works, then the delivery's result; or nothing |
| `PostgresTransport.Transport.ReplayDLQMessage` | transport/postgres/postgres.go:492-527 | Moves one dead letter back or changes nothing; not found exactly if it is not there |
| `PostgresTransport.Transport.ReplayAllDLQ` | transport/postgres/postgres.go:530-561 | Moves all of the topic's dead letters back and reports their number, or changes nothing; exactly when it succeeds |
| `PostgresTransport.Transport.PurgeDLQ` | transport/postgres/postgres.go:564-572 | Discards the topic's dead letters and reports how many |
| `PostgresTransport.Transport.CleanupExpiredLocks` | transport/postgres/postgres.go:611-623 | Clears expired locks and reports how many rows it changed |
| `PostgresTransport.Transport.GetPendingCount` | transport/postgres/postgres.go:468-477 | The topic's pending rows, or an error; with its dead letters, acknowledged and purged messages they are all that was published on it |
| `PostgresTransport.Transport.GetDLQCount` | transport/postgres/postgres.go:480-489 | The topic's dead letters, or an error; with its pending, acknowledged and purged messages they are all that was published on it |
| `PostgresTransport.Transport.Close` | transport/postgres/postgres.go:438-455 | Closing leaves the tables alone |
| `PostgresTransport.Transport.Conserves` | transport/postgres/postgres.go:204-435 | In every transport object, whatever it and other workers have done, each published message is in exactly one place, as it was published |
| `PostgresTransport.Transport.RetriesStayBounded` | transport/postgres/postgres.go:383-426 | Its retry counts stay below MaxRetries plus the workers nacking one row at once |
| `PostgresTransport.Transport.DeadLettersHaveWaited` | transport/postgres/postgres.go:299-426 | Its dead letters have waited for all backoffs, if these fit and a lock outlasts them |
| `SqliteTransport.Transport.constructor` | transport/sqlite/sqlite.go:69-123 | A new transport starts in the machine's initial state, with 3 retries for a negative MaxRetries, and locks of 30 seconds |
| `SqliteTransport.Transport.Publish` | transport/sqlite/sqlite.go:161-214 | Publishes the whole batch or nothing; exactly when it succeeds, and the row each message gets, its available_at being the time read plus its delay |
| `SqliteTransport.Transport.FetchAndLockMessage` | transport/sqlite/sqlite.go:263-316 | Select and update in one transaction: locks the next row of the topic that is due and not locked and returns its uuid and content; none only if there is none or a statement fails |
| `SqliteTransport.Transport.AckMessage` | transport/sqlite/sqlite.go:357-362 | Deletes the row and nothing else, or changes nothing if the statement fails |
| `SqliteTransport.Transport.UnlockMessage` | transport/sqlite/sqlite.go:404-409 | Clears the row's lock and changes nothing else; nothing if the statement fails |
| `SqliteTransport.Transport.ReadRetryCount` | transport/sqlite/sqlite.go:364-372 | Reads the retry count; the worker leaves if the row is gone |
| `SqliteTransport.Transport.ScheduleNextRetry` | transport/sqlite/sqlite.go:388-400 | One retry more, unlocked, due at the time read plus the backoff, which is n + 1 seconds while that fits; or nothing if the statement fails |
| `SqliteTransport.Transport.InsertCopy` | transport/sqlite/sqlite.go:374-382 | Adds the dead letter with the row's content and retry count and the time cut to whole seconds, leaving the row, or changes nothing if it fails |
| `SqliteTransport.Transport.DeleteAfterCopy` | transport/sqlite/sqlite.go:384-387 | Deletes the row, whatever became of the INSERT, or nothing if it fails |
| `SqliteTransport.Transport.NackMessage` | transport/sqlite/sqlite.go:364-402 | The read and up to two writes, with statements of other workers before each write |
| `SqliteTransport.Transport.FinishNack` | transport/sqlite/sqlite.go:374-401 | What follows the read, depending on the count read |
| `SqliteTransport.Transport.HandleMessageResult` | transport/sqlite/sqlite.go:318-329 | Ack, nack, cancellation or closing end a delivery by exactly their steps |
| `SqliteTransport.ResultDoes` | transport/sqlite/sqlite.go:318-409 | An ack removes the row, closing and a cancelled context unlock it, and a nack without failures and interference retries it or makes it a dead letter; nothing else in the tables changes |
| `SqliteTransport.Transport.ProcessAvailableMessages` | transport/sqlite/sqlite.go:331-355 | One turn of the polling loop is a fetch, any statements of other workers and any time while the handler works, then the delivery's result; or nothing |
| `SqliteTransport.Transport.ReplayDLQMessage` | transport/sqlite/sqlite.go:462-490 | Moves one dead letter back or changes nothing; a missing one is no error |
| `SqliteTransport.Transport.ReplayAllDLQ` | transport/sqlite/sqlite.go:493-523 | Moves all of the topic's dead letters back and reports their number, or changes nothing; exactly when it succeeds |
| `SqliteTransport.Transport.PurgeDLQ` | transport/sqlite/sqlite.go:526-532 | Discards the topic's dead letters and reports how many |
| `SqliteTransport.Transport.GetPendingCount` | transport/sqlite/sqlite.go:442-449 | The topic's rows, or an error; while leases are kept and moves succeed, with the dead, acknowledged and purged they are all that was published on it, half-moved rows counted twice |
| `SqliteTransport.Transport.GetDLQCount` | transport/sqlite/sqlite.go:452-459 | The topic's dead letters, or an error; they balance in the same way |
| `SqliteTransport.Transport.Close` | transport/sqlite/sqlite.go:412-429 | Closing leaves the tables alone |
| `SqliteTransport.Transport.NeverLoses` | transport/sqlite/sqlite.go:357-402 | In every transport object that has deleted no row it could not copy, each open message is in one of the tables |
| `SqliteTransport.Transport.Conserves` | transport/sqlite/sqlite.go:357-402 | While leases are kept and moves succeed, each message is in exactly one place, as it was published |
| `SqliteTransport.Transport.RetriesStayBounded` | transport/sqlite/sqlite.go:364-402 | Retry counts stay below MaxRetries plus the workers nacking one row at once |
| `SqliteTransport.Transport.DeadLettersHaveWaited` | transport/sqlite/sqlite.go:263-402 | Its dead letters have waited for all backoffs, if these fit and a lock outlasts them |
| `ErrorChains.IsFindsAnywhere` | internal/runtime/cloudevents/errors.go:57-68 | For error trees of any depth, errors.Is succeeds if and only if the sentinel itself is somewhere in the flattened tree, or a retry-after error for ErrRetry, or a dead-letter error for ErrDeadLetter |
| `ErrorChains.AsFindsOutermost` | internal/runtime/cloudevents/errors.go:135-139 | errors.As gives the first retry-after error of the flattened tree |
| `ErrorChains.ClassificationMeans` | internal/runtime/cloudevents/errors.go:130-159 | A retry-after error anywhere decides, and the first gives the delay; else a dead-letter error or ErrDeadLetter anywhere means dead letter, as does ErrUnprocessable where there is no ErrSkip; else ErrSkip means skip; anything else is retried |
| `ErrorChains.WrappingChangesNothing` | internal/runtime/cloudevents/errors.go:130-159 | Wrapping to any depth changes neither result nor delay |
| `ErrorChains.RetryAfterBeatsDeadLetter` | internal/runtime/cloudevents/errors.go:95-139 | A retry-after error inside a dead-letter error decides |
| `ErrorChains.ExactlyOneOutcome` | internal/runtime/cloudevents/errors.go:162-179 | Each error is exactly one of retryable, dead letter and skip, the first if and only if it holds a retry-after error or none of dead letter, skip and unprocessable; only nil is acknowledged as success |
| `Envelope.DoubleExactIff` | internal/runtime/cloudevents/event.go:448-450 | An integer survives as float64 if and only if the spacing of float64 around it divides it |
| `Envelope.DoubleExactUpTo53Bits` | internal/runtime/cloudevents/event.go:138-149 | All integers up to 2^53 in absolute value survive, so GetExtensionInt gives them back |
| `Envelope.DoubleStaysLarge` | internal/runtime/cloudevents/event.go:138-149 | Rounding to float64 takes no integer from 2^53 + 2 or more below that, nor one beyond 2^53 inside it, in either direction |
| `Envelope.JsonRoundTrip` | internal/runtime/cloudevents/event.go:300-312 | Decoding an encoded value of any nesting gives the value with its numbers made float64 |
| `Envelope.DecodedIsNormal` | internal/runtime/cloudevents/event.go:440-454 | A decoded value does not change any more |
| `Envelope.MarshalEvent` | internal/runtime/cloudevents/event.go:277-313 | The encoding loop writes the attributes that are set and then every extension, over attributes of the same name |
| `Envelope.RequiredWritten` | internal/runtime/cloudevents/event.go:281-286 | The four required attributes are the members specversion, type, source and id |
| `Envelope.OptionalWritten` | internal/runtime/cloudevents/event.go:288-305 | The optional attributes are the members time, datacontenttype, dataschema, subject, data and data_base64, and only those that are set |
| `Envelope.AttributesRead` | internal/runtime/cloudevents/event.go:336-403 | Each attribute is read from its member, null as the empty text; one that is missing stays as in a zero event |
| `Envelope.ExtensionsRead` | internal/runtime/cloudevents/event.go:440-454 | Exactly the members that are no attribute become extensions |
| `Envelope.DecodesIff` | internal/runtime/cloudevents/event.go:336-421 | An object is decoded if and only if every attribute but the data is a text or null, and a time that is there parses |
| `Envelope.EnvelopeRoundTripIff` | internal/runtime/cloudevents/event.go:277-454 | Decoding the encoded event gives the event back, up to normalization, if and only if no extension has the name of an attribute |
| `Envelope.DecodedIsStable` | internal/runtime/cloudevents/event.go:316-454 | Every decoded event meets that condition and is normal |
| `Envelope.SecondHopChangesNothing` | internal/runtime/cloudevents/event.go:277-454 | From the first hop on the round trip is the identity |
| `EventMessages.MessageRoundTrip` | internal/runtime/cloudevents_api.go:427-496 | A valid event whose extensions avoid attribute names arrives as it was sent, up to normalization |
| `EventMessages.ReceivedIsStable` | internal/runtime/cloudevents_api.go:427-542 | An event that was decoded arrives unchanged from then on |
| `EventMessages.DamagedPayloadRecovers` | internal/runtime/cloudevents_api.go:498-541 | If an event's payload is damaged, id, type, source and time are recovered from the message's metadata and the payload becomes the data |
| `EventMessages.CoreMetadataSurvives` | internal/runtime/cloudevents_api.go:439-480 | The message has the event's id, and metadata entries for exactly the core attributes the event has, unless an extension is named like one |
| `EventMessages.ExtensionsSurvive` | internal/runtime/cloudevents_api.go:455-478 | Every extension that is not nil becomes an entry: texts as they are, integers in decimals, flags as words; no other entries but the core ones |
| `EventMessages.MadeUp` | internal/runtime/cloudevents_api.go:488-531 | A message that is no valid event gets its uuid as id, its payload as data, type and source from the first of two entries that is set or "unknown", the time if ce_time parses, and no other attribute |
| `EventMessages.MadeUpExtensions` | internal/runtime/cloudevents_api.go:533-542 | Its extensions are exactly the metadata entries outside the eight ce_ names, as texts |
| `Lifecycle.AckedWithoutTraceIff` | internal/runtime/cloudevents_api.go:240-323 | Exactly when a delivery is acknowledged with nothing published in its place |
| `Lifecycle.UnacknowledgedIff` | internal/runtime/cloudevents_api.go:258-294 | Exactly when a delivery is left to the transport: the error is retryable, attempts are left, and it is not a retry-after that a transport with delays accepts; nothing is published then |
| `Lifecycle.AnswerPublishes` | internal/runtime/cloudevents_api.go:240-323 | Exactly when an answer publishes: one event, to the type of the event, with the delay in milliseconds added, or if buried with flag, original topic and error text |
| `Lifecycle.HandlerSees` | internal/runtime/cloudevents_api.go:218-232 | The handler sees the event with one attempt more and the registered maximum, and every other entry as it came |
| `Lifecycle.IntegersRead` | internal/runtime/cloudevents/event.go:138-157 | A counter is read from any kind of number, rounded toward zero, and is 0 if it is missing or no number |
| `Lifecycle.LimitRead` | internal/runtime/cloudevents/extensions.go:67-94 | The limit is 3 if there is none; attempts are used up when they reach it |
| `Lifecycle.DeliveryGoesBy` | internal/runtime/cloudevents_api.go:218-323 | One delivery of an event that is to be retried later: it counts one attempt, and republishes the event with only its counters changed or, at the maximum, buries it |
| `Lifecycle.ComesBack` | internal/runtime/cloudevents_api.go:264-282 | The republished event is decoded with one attempt more, the same maximum and everything else unchanged |
| `Lifecycle.LifeOfAnEvent` | internal/runtime/cloudevents_api.go:217-323 | In every life of an event that always fails with a retry-after error, delivery i counts attempt a + i and republishes the event with at most attempt, delay and registered maximum changed, except that of attempt m, which buries it; there is none after that |
| `Lifecycle.LifeIsLived` | internal/runtime/cloudevents_api.go:217-323 | Such a life exists and has exactly m - a deliveries, so m - a - 1 republications, before the event is buried |
| `Lifecycle.RegisteredLife` | internal/runtime/cloudevents_api.go:363-373 | A fresh event consumed by a registered handler that always asks for a retry is handled exactly MaxAttempts times, 3 if that is not positive, and then buried |
| `Lifecycle.EndlessGoesOn` | internal/runtime/cloudevents/extensions.go:84-94 | An event at an attempt up to 2^53 whose limit is 2^53 + 2 or more is not buried, and comes back as another such event |
| `Lifecycle.EndsIff` | internal/runtime/cloudevents/extensions.go:84-94 | An event that always asks for a retry has a life that ends in its burial if and only if its limit is at most 2^53 + 1 |
| `Lifecycle.DelayArrives` | internal/runtime/cloudevents/extensions.go:207-223 | The receiver of a republished event reads the delay in whole milliseconds, rounded down |
| `Lifecycle.DeadLetterTells` | internal/runtime/cloudevents/extensions.go:253-259 | The receiver of a dead letter reads the flag, the original topic and the error text, and every other entry and attribute as before |
| `Lifecycle.DeadLetterTopicIff` | internal/runtime/cloudevents_api.go:297-312 | A dead letter is published to the event's type; that is the topic's dead letter topic if and only if the event is of that very type |
| `Lifecycle.NothingReachesDLQTopic` | internal/runtime/cloudevents_api.go:218-323 | In no life of an event of the consumer's type, whatever its handler answers, is anything published to its dead letter topic |
| `Lifecycle.BuriedAgainIff` | internal/runtime/cloudevents_api.go:218-323 | A dead letter that comes back is buried once more exactly by a dead-letter error, or by a retryable one when the attempt it counts reaches the maximum, on any transport |
| `EventService.SetExtension` | internal/runtime/cloudevents/extensions.go:57-63 | Writes into the shared map in place, or makes a map if there is none |
| `EventService.CountAttempt` | internal/runtime/cloudevents/extensions.go:84-89 | Increments the attempt in the shared map |
| `EventService.PrepareForDLQ` | internal/runtime/cloudevents/extensions.go:253-259 | Writes flag, topic and error text into the shared map, made if there is none |
| `EventService.SetMaximum` | internal/runtime/cloudevents_api.go:369-372 | The registered maximum, set on the handler's copy, reaches the caller if and only if the map was not nil |
| `EventService.Clone` | internal/runtime/cloudevents/event.go:244-274 | The clone is equal and has an extension map of its own |
| `EventService.WriteToClone` | internal/runtime/cloudevents/event.go:262-271 | Writing an entry of a clone does not change the original |
| `EventService.Receive` | internal/runtime/cloudevents_api.go:488-542 | A received event has a fresh map, whatever the payload was; for a message that is no valid event, from which entries id, type, source, data and extensions are taken |
| `EventService.CopyTracingContext` | internal/runtime/cloudevents/extensions.go:268-278 | Copies the tracing entries the source has, as text whatever they are, and leaves a source with another map alone |
| `EventService.TracingCopied` | internal/runtime/cloudevents/extensions.go:268-278 | After the three steps the tracing entries are the source's, as texts, where it has any, and everything else is the destination's |
| `EventService.Service.PublishEvent` | internal/runtime/cloudevents_api.go:95-121 | Publishes an event with specversion 1.0, type, source and id to its type as one message, if the publisher works; refuses any other |
| `EventService.Service.HandleMessage` | internal/runtime/cloudevents_api.go:218-237 | What is acknowledged and published is the answer to the decoded event with its attempt counted and whatever the handler wrote into the shared map; Lifecycle.Deliver if it wrote nothing; nothing is sent for a delivery that is not acknowledged |
| `EventService.Service.HandleResult` | internal/runtime/cloudevents_api.go:240-294 | The classified result is answered as Lifecycle.Answer says, on the event as the handler left it; exactly when it is not acknowledged, and that nothing is sent then |
| `EventService.Service.Bury` | internal/runtime/cloudevents_api.go:297-323 | Publishes the buried event if the publisher works, and forgets it otherwise |
| `LatencyWindow.LatencyWindow.constructor` | internal/runtime/models.go:343-348 | An empty ring of the given size, or of 256 |
| `LatencyWindow.LatencyWindow.Add` | internal/runtime/models.go:350-360 | The ring holds the most recent durations, in order from its oldest entry; every index is in range |
| `LatencyWindow.LatencyWindow.Snapshot` | internal/runtime/models.go:362-391 | After any additions, sample size, last duration, percentiles and average are those of the last min(k, size) durations; P50, P95 and P99 lie 0.50, 0.95 and 0.99 of the way through them in order |
| `LatencyWindow.LatencyWindow.CopyRecent` | internal/runtime/models.go:371-378 | The wrapped indices read the last min(k, size) durations, oldest first |
| `LatencyWindow.AddUp` | internal/runtime/models.go:384-388 | The loop's 64-bit sum is the true sum, wrapped once |
| `LatencyWindow.SortSamplesSorts` | internal/runtime/models.go:379 | Sorting orders the samples and keeps them all |
| `LatencyWindow.SnapshotsAreOrdered` | internal/runtime/models.go:379-391 | P50, P95 and P99 are ordered and lie in every range that holds the samples; the average is exact if the sum fits |
| `LatencyWindow.PercentilesOrderedIff` | internal/runtime/models.go:393-411 | The percentile grows with the quantile and stays within the samples, for all quantiles, if and only if no two neighbouring samples are too far apart for int64 |
| `LatencyWindow.PercentileIsMonotone` | internal/runtime/models.go:393-411 | Across and within cells, truncation included, the percentile is monotone and bounded |
| `LatencyWindow.PercentileInterpolates` | internal/runtime/models.go:393-411 | For a quantile q strictly between 0 and 1 of n samples in order, the percentile is the sample at q(n - 1) if that is integral, and else lies on the line between its two neighbours, rounded down, if their difference fits int64 |
| `LatencyWindow.MetricsTellQuantiles` | internal/runtime/models.go:379-391 | P50, P95 and P99 of the metrics are those values for 0.50, 0.95 and 0.99 |
| `LatencyWindow.NonNegativeNearEnough` | internal/runtime/models.go:350-360 | Durations that are not negative are never too far apart |
| `ThroughputWindow.SamplesAreWindow` | internal/runtime/models.go:431-453 | For non-decreasing call times the compacted samples are exactly the recorded times not before now - horizon, in order |
| `ThroughputWindow.SamplesNonEmptyIff` | internal/runtime/models.go:431-453 | For any call times the window is non-empty after a call if and only if the horizon is not negative, and holds no more than was recorded |
| `ThroughputWindow.ThroughputWindow.AddAndSnapshot` | internal/runtime/models.go:431-438 | The window follows its history, and the snapshot describes it |
| `ThroughputWindow.ThroughputWindow.Cleanup` | internal/runtime/models.go:440-453 | Drops exactly the leading times before the cutoff |
| `ThroughputWindow.ThroughputWindow.Snapshot` | internal/runtime/models.go:455-469 | Rate times window is the count; the window lasts at least a nanosecond |
| `HandlerStats.InFlightExactIff` | internal/runtime/registration.go:117-128 | InFlight is starts minus finishes if and only if at no time more had finished than started |
| `HandlerStats.MaxIsLargest` | internal/runtime/models.go:175-178 | MaxInFlight is reached by some prefix of the run and exceeded by none |
| `HandlerStats.BucketsExactIff` | internal/runtime/models.go:315-334 | The four error buckets sum up to the failures if and only if the classifier put every success into category none |
| `HandlerStats.BucketsAre` | internal/runtime/models.go:315-330 | Each bucket counts the finishes of its category, and the last one all others but successes of category none |
| `HandlerStats.LastErrorIs` | internal/runtime/models.go:331-333 | LastError is the text of the last failure |
| `HandlerStats.TotalsCount` | internal/runtime/models.go:200-203 | Processed and failed count the finishes and the failed ones |
| `HandlerStats.TimeIsSum` | internal/runtime/models.go:204 | The total time is the sum of all durations, as int64 has it, one for each message processed |
| `HandlerStats.AverageIsMean` | internal/runtime/models.go:209-214 | Unless the total time overflows, AverageNs is the mean of all durations rounded toward zero, and LastNs the last duration |
| `HandlerStats.LatencyTells` | internal/runtime/models.go:205-214 | The percentiles shown are those of the last 256 durations |
| `HandlerStats.CountFinish` | internal/runtime/models.go:190-229 | The counters' updates one after the other make one step |
| `HandlerStats.HandlerStats.constructor` | internal/runtime/models.go:128-151 | Empty statistics, backlog hints of -1, windows of 256 durations and of a minute, and the dependencies that have a queue |
| `HandlerStats.HandlerStats.OnMessageStart` | internal/runtime/models.go:169-184 | A start is one more event of the run the counters stand for; the hints are the depth and the lag in whole milliseconds, never negative, or -1 where the metadata has none |
| `HandlerStats.HandlerStats.OnMessageFinish` | internal/runtime/models.go:186-245 | A finish updates counters, windows, latency (percentiles of recent durations, average of all), backlog hints and the dependencies' status |
| `HandlerStats.HandlerStats.SetDependencyStatus` | internal/runtime/models.go:247-262 | Changes the entry of that name only, adding it if it is missing, and nothing for an empty name; the index keeps pointing at the only entry of each name |
| `HandlerStats.HandlerStats.AddDependency` | internal/runtime/models.go:153-162 | Appends an entry of unknown status and indexes it; the index then still finds every entry if and only if the name is new |
| `HandlerStats.HandlerStats.UpdateDependencies` | internal/runtime/models.go:235-244 | The subscriber is healthy; the publisher is degraded, with the error's text, after an error and healthy otherwise |
| `DlqMetrics.AverageIsMean` | internal/runtime/dlq_metrics.go:154-156 | The rolling average is the exact mean of all retry counts recorded for the topic |
| `DlqMetrics.TimesTold` | internal/runtime/dlq_metrics.go:147-209 | Oldest and newest time are those of the first and the last message received, the update time that of the last operation |
| `DlqMetrics.CorrectedTo` | internal/runtime/dlq_metrics.go:200-209 | SetCurrentCount overwrites the current count, whatever it was, and nothing else but the update time |
| `DlqMetrics.BalancedIff` | internal/runtime/dlq_metrics.go:140-197 | Without SetCurrentCount, received = current + replayed + all that was purged if and only if never more than the current count was replayed or purged; the purge counter is that number modulo 2^64 |
| `DlqMetrics.SumsWithout` | internal/runtime/dlq_metrics.go:221-237 | The totals add up what is current, replayed and purged, in whatever order topics are visited, starting from nothing |
| `DlqMetrics.AddUp` | internal/runtime/dlq_metrics.go:221-237 | The loop computes the sums over all topics |
| `DlqMetrics.Metrics.RecordMessageToDLQ` | internal/runtime/dlq_metrics.go:140-163 | Records one message for that topic and nothing for any other |
| `DlqMetrics.Metrics.RecordMessageReplayed` | internal/runtime/dlq_metrics.go:166-179 | Records one replay for that topic and nothing for any other |
| `DlqMetrics.Metrics.RecordMessagesPurged` | internal/runtime/dlq_metrics.go:182-197 | Records a purge of the count, plus 2^64 if it is negative |
| `DlqMetrics.Metrics.SetCurrentCount` | internal/runtime/dlq_metrics.go:200-209 | Sets the topic's current count and nothing else |
| `DlqMetrics.Metrics.GetOrCreate` | internal/runtime/dlq_metrics.go:263-270 | The topic's own object, new if there was none; no two topics share one |
| `DlqMetrics.Metrics.GetSnapshot` | internal/runtime/dlq_metrics.go:212-240 | Copies of every topic's counts as recorded so far, and their sums |
| `DlqMetrics.Metrics.GetTopicMetrics` | internal/runtime/dlq_metrics.go:243-261 | The topic's counts as recorded so far, or none |
| `DlqMetrics.Metrics.Reset` | internal/runtime/dlq_metrics.go:273-284 | Every topic starts again from nothing |

## Left out

- SQL text, drivers, schema, pools, VACUUM and JSON columns: tables are abstract, statements atomic, and any statement may fail. The `status` column is always `pending` in the code and is not modelled.
- Clocks: one integer clock serves both the program and the database and never goes back. A reading may be of any age, but a nack's is no older than its SELECT. That SQLite compares times as texts, which are ordered like the times, is not modelled.
- The order in which a statement visits rows and the rows SKIP LOCKED passes over are parameters (`order`, `skipped`), as are failures (`works`, `fault`) and other workers' statements (`others`).
- Subscribe, the ticker loop and the subscriptions map.
- PostgresTransport.Transport.Close: does not model stopping the pollers and waiting for them.
- SqliteTransport.Transport.Close: neither does this one.
- ListDLQMessages: ties in `failed_at` leave its order open.
- PostgresTransport.Transport.ReplayAllDLQ: the count returned together with an error, when the commit fails, is not specified.
- SqliteTransport.Transport.ReplayAllDLQ: nor is it here.
- DeliveryOrder.DeliveredInOrder: no delivery may be abandoned, whose row comes back out of order when its lock expires.
- The CloudEvents lifecycle on top of the SQL queues: a republished event reuses its id as the row's uuid while the old row still has it, so the two models stay apart.
- Lifecycle.LifeOfAnEvent: up to the first burial, for publications that succeed, on a transport that supports delays, and for limits that float64 can carry; Lifecycle.EndsIff is about all others. A plain retry keeps the attempt on the decoded copy only, and the retry middleware that then acts is not part of this model.
- Lifecycle.EndsIff: leaves out an unregistered limit so large that its float64 is no int; Go leaves to the implementation what it is read as.
- Lifecycle.Deliver: a handler that leaves the extension map alone; EventService.Service.HandleMessage has one that rewrites it. Contexts and logging are left out.
- EventService.Clone: entries are immutable values here, so the model cannot show that nested maps and slices, and the event's data, stay shared.
- EventService.WriteToClone: only the entries themselves are independent, for the same reason.
- Envelope.Decode: the JSON printer and parser work on values, not bytes; a time's text is an injective token instead of RFC 3339; `json.Number` never occurs in what the library decodes itself. Converting a float64 beyond int64 back to int is left as the truncated value.
- EventMessages.ToMessage: how fmt prints floats and nested values in metadata is a parameter (`show`), and the payload's text one (`text`).
- Percentiles and rates are over reals, without float64 rounding. Sorting is a function that stands for the library's.
- HandlerStats.HandlerStats.OnMessageStart: parsing the metadata is left out; what it yields is an input.
- DlqMetrics.Metrics.RecordMessageToDLQ: the three clock readings of one call (internal/runtime/dlq_metrics.go:148-152) are one.
- HandlerStats counters and all DlqMetrics counters but `purged` do not wrap at 2^64. The default error classifier, the resource sampler, panicking handlers and nil receivers are left out.
- Prometheus collectors, the registry, configuration validation, hooks, the web UI and the other transports (io, channel, Kafka, RabbitMQ, NATS, JetStream, AWS, HTTP).
