# hwhkit verification

A Dafny 4.11 project that models eight parts of hwhkit in which state, interleaving or
arithmetic is hard, and proves what each part promises. Check it with `dafny verify dfyconfig.toml`.

| files | part |
|---|---|
| `Jwks`, `JwksProtocol`, `JwksAnswers` | the JWKS cache with single-flight refresh, and what a call answers |
| `Lease`, `InMemoryStore` | the job lease protocol and the in-memory store that refines it |
| `Scheduler`, `SchedulerProtocol` | the scheduler loop, its parse cache, and whole runs over the lease protocol |
| `Calendar`, `Cron`, `CronHorizon`, `CronReading`, `CronTruncation` | cron parsing, matching, search, what the 1464-day horizon covers, and two documented readings of a field |
| `Breaker`, `BreakerProtocol`, `BreakerOutcomes` | the circuit breaker: the object, its sliding window, racing calls, and what a closure's result does |
| `TokenBucket`, `RateLimit` | the rate limiter's script, and what it guarantees over runs, key expiry included |
| `Json`, `ConfigMerge`, `ConfigFilter` | layered configuration and the remote allow-list |
| `SseReader`, `SseBytes` | the incremental server-sent-events reader of both LLM backends, and the chunk-by-chunk decoding below it |
| `Idempotency`, `IdempotencyProtocol`, `IdempotencyRetry` | the idempotency cache: fingerprints, racing requests, and from a response to its replay |
| `Prelude`, `Text` | option and result types, counting, and the string operations of the Rust standard library |

Code that updates state in place is a class or a method with loops, proved against a function of the
old state; the theorems are about those functions. Concurrent code is a state machine: a list of
actions chosen by an arbitrary scheduler, in which every await point, lock operation and clock
reading is its own action, and the theorems hold for every list. Inductions are written out.

## Assumptions

- JWKS: the clock reads later at each install than at any reading before it, so stamps are distinct.
- Leases: job ids are never reused. `InTime` and `AlwaysInTime` state the timing assumption, job by job: each
  claimant finishes or dies before its claim is older than the lease. Only the theorems that name it use it.
- Breaker: closures run to completion. `OrderedStep` states that clock readings come in lock order and
  that the clock has run for at least one window; only the window theorems use it. Ratios are exact.
- Rate limiter: the window is a whole number of milliseconds, the server clock does not go back,
  and arithmetic is exact.
- Idempotency: the digest tells apart the requests of the run (`CollisionFree`); only this layer writes
  parsable entries under its keys, while unparsable text may appear at any time.

## Where code and documentation differ

The model follows the code.

- `cron.rs` lines 77-81 call `*/1` unrestricted; line 83 accepts only `*`. `CronReading.ReadingsDiffer` says on
  which fields that matters, `CronReading.FiresAsDocumentedIff` for which expressions.
- The scheduler's `lib.rs` lines 69-72 say out-of-range numbers are truncated to the nearest value; they are
  dropped. `CronTruncation.FieldTruncatesIff` says for which fields that makes no difference.
- `cron.rs` lines 166-170 say the search skips ahead by hour or day; it walks every minute. The "4 years"
  cap makes 29 February unreachable around a non-leap century (`CronHorizon.LeapDayOnlyFailure`).
- `circuit_breaker.rs` lines 5-8 and 32 say the ratio must exceed the threshold; line 212 trips at equality, the
  only case in which the two differ (`Breaker.TripsAsDocumentedIff`). Lines 12-13 describe the probe as deciding the
  half-open state; it does exactly when every call admitted earlier is over (`BreakerProtocol.ProbeDecidesIff`).
  Lines 74-77 promise one caller per half-open state; `BreakerProtocol.SecondStartIff` says when a second one starts.
- `circuit_breaker.rs` line 203 falls back to the reading itself while the clock is younger than a window, so
  recordings then forget earlier outcomes (`Breaker.EarlyRecordForgets`).
- The in-memory store returns claimed jobs as they were before the claim and defers them by 365 days; the SQL
  returns them after it and defers by one day. The protocol takes the deferral as a parameter.
- The idempotency documentation puts the fingerprint into the cache key; the code keys by client id
  alone and compares fingerprints.

## Model

| member | source | states |
|---|---|---|
| `Jwks.Usable` | crates/hwhkit-core/src/jwt.rs:449-468 | The stored keys are exactly the document's entries whose decoding key could be built, with their `kid` and `alg` |
| `Jwks.Lookup` | crates/hwhkit-core/src/jwt.rs:405-416 | Answers nothing exactly when no stored key answers the request, and otherwise the key of one that does; a requested `kid` must match, a missing one falls back to the algorithm |
| `Jwks.FirstAnswer` | crates/hwhkit-core/src/jwt.rs:405-416 | The first key in document order that answers the request: no earlier key does |
| `Jwks.JwksCache.IsStale` | crates/hwhkit-core/src/jwt.rs:397-403 | Stale when nothing was fetched yet or when more than the lifetime has passed, an elapsed time never being negative |
| `Jwks.JwksCache.LookupKey` | crates/hwhkit-core/src/jwt.rs:405-416 | The scan returns the first answering key, that is, `Lookup` of the stored keys |
| `Jwks.JwksCache.Refresh` | crates/hwhkit-core/src/jwt.rs:449-474 | A failed fetch leaves keys and stamp untouched; a good one replaces both together by the usable entries and the current time |
| `Jwks.LookupServes` | crates/hwhkit-core/src/jwt.rs:405-468 | Looking up what a document leaves in the cache gives the key of the document's first buildable entry that has the requested id, or without one fits the algorithm, and nothing exactly when no entry does |
| `JwksProtocol.NegativeAnswerIsCurrent` | crates/hwhkit-core/src/jwt.rs:361-391 | In every interleaving, a call that answers "no such key" was answered from a document installed after that call began |
| `JwksProtocol.PositiveAnswerIsFresh` | crates/hwhkit-core/src/jwt.rs:361-416 | In every interleaving a returned key was selected, for this request, from a document installed since the call began, or from the one current when it began, which was then within its lifetime |
| `JwksProtocol.SingleFlight` | crates/hwhkit-core/src/jwt.rs:423-447 | At most one call is fetching in any reachable state |
| `JwksProtocol.FetchesAreJustified` | crates/hwhkit-core/src/jwt.rs:369-388 | No call starts two fetches, and an expiry fetch starts only with nothing installed yet or an install older than the lifetime |
| `JwksProtocol.ForcedRefreshesAreDeduplicated` | crates/hwhkit-core/src/jwt.rs:437-447 | Of the forced refreshes sharing a baseline at most one installs, and it directly follows the install it was forced against |
| `JwksProtocol.ExpiryInstallsAreSpaced` | crates/hwhkit-core/src/jwt.rs:423-430 | An expiry-driven install comes more than the lifetime after the install before it |
| `JwksProtocol.RunKeepsInv` | crates/hwhkit-core/src/jwt.rs:361-474 | In every run the lock is held by exactly the call in its critical section, every install follows the last for its reason, and every call that answered did so from a document as fresh as `PositiveAnswerIsFresh` and `NegativeAnswerIsCurrent` say |
| `JwksAnswers.FailsIff` | crates/hwhkit-core/src/jwt.rs:361-474 | In every interleaving a call that is over has failed exactly when its own fetch failed, or it held the lock, needed a fetch and no URL is configured |
| `JwksAnswers.FetchedDocumentAnswers` | crates/hwhkit-core/src/jwt.rs:374-473 | When a call's own fetch returns a document and no other is installed before its next two steps, it answers with the key of the document's first entry that serves it, or "no such key" when none does, whatever others do meanwhile |
| `JwksAnswers.FreshKeyNeedsNoFetch` | crates/hwhkit-core/src/jwt.rs:369-376 | A call whose key is in a cached document that stays within its lifetime and unreplaced is answered with that key in two steps and never fetches |
| `JwksProtocol.RunExtends` | crates/hwhkit-core/src/jwt.rs:361-391 | Over any run the install history only grows and a call keeps its request and starting point |
| `JwksProtocol.StepsOnlyAdvance` | crates/hwhkit-core/src/jwt.rs:361-391 | Every step leaves a call where it is or moves it strictly forwards through at most eight stages, including the dropping of its future |
| `JwksProtocol.NoDeadlock` | crates/hwhkit-core/src/jwt.rs:423-447 | While some call is unfinished, some call can make progress, so the refresh lock never deadlocks |
| `JwksProtocol.AnsweredFromOlderFetchIff` | crates/hwhkit-core/src/jwt.rs:361-447 | From any reached state, a new call can be answered "no such key" with no fetch begun since it began if and only if some call is fetching when it begins, so "installed since" cannot be sharpened to "fetched since" |
| `JwksProtocol.OlderFetchAnswersIff` | crates/hwhkit-core/src/jwt.rs:423-455 | Some run holds such an answer if and only if a JWKS URL is configured |
| `Lease.LeaseExclusion` | crates/hwhkit-scheduler/src/storage.rs:254-361 | If the claimants of a job finish or die within the lease, then in every interleaving of claims, completions, sweeps and inserts that job has at most one claimant and its row names it, whatever happens to other jobs |
| `Lease.SharedIffOverrun` | crates/hwhkit-scheduler/src/storage.rs:254-361 | A sweep followed by a claim can give a held job a second claimant if and only if its claim has outlived the lease |
| `Lease.FirstOverrunShares` | crates/hwhkit-scheduler/src/storage.rs:254-361 | The same in every run whose claimants of the job were in time so far |
| `Lease.OverrunSharesJob` | crates/hwhkit-scheduler/src/storage.rs:254-361 | For every lease and deferral there is a run in which a job has two claimants, so the timing assumption is needed |
| `Lease.CompletionIsWorkerBlind` | crates/hwhkit-scheduler/src/storage.rs:117-138 | `complete` addresses its row by job id alone: it leaves the rows of all remaining claimants naming them if and only if nobody else holds the completed job, and otherwise frees or removes the other claimant's row |
| `Lease.ClaimsAreSeparated` | crates/hwhkit-scheduler/src/storage.rs:254-361 | With no timing assumption, two claims of one job always have a completion or requeue of it between them |
| `Lease.StoredUntilFinalCompletion` | crates/hwhkit-scheduler/src/storage.rs:305-332 | A job is in the table exactly while it has been inserted and no later completion of it had no next time |
| `Lease.RunLog` | crates/hwhkit-scheduler/src/storage.rs:254-361 | In every run the table and its claim columns agree with the event log |
| `Lease.RowsFollowLog` | crates/hwhkit-scheduler/src/storage.rs:254-361 | In every run a row's attempts are the claims of its job since it was inserted, it names a worker exactly while claimed, and unless claimed it keeps the time last set by an insertion, completion or sweep |
| `Lease.ClaimableExactlyWhen` | crates/hwhkit-scheduler/src/storage.rs:254-361 | In every run a job can be claimed at an instant exactly when it is stored, not leased, and the time last set for it has come |
| `InMemoryStore.InMemoryJobStore.Insert` | crates/hwhkit-scheduler/src/storage.rs:79-87 | Appends an unclaimed row with no attempts |
| `InMemoryStore.InMemoryJobStore.ClaimDue` | crates/hwhkit-scheduler/src/storage.rs:89-115 | The in-place loop claims exactly the first `max` due rows: each gets the claim time, the worker, one more attempt and a time a year away, the others stay, and their jobs are returned in order as they were; it is the store's claim step |
| `InMemoryStore.InMemoryJobStore.Complete` | crates/hwhkit-scheduler/src/storage.rs:117-138 | The first matching row, and no other, is freed with the finishing time and the next run, or every matching row is removed; it is the store's completion step |
| `InMemoryStore.InMemoryJobStore.CompleteMatching` | crates/hwhkit-scheduler/src/storage.rs:124-133 | The loop updates the first match in place and nothing else |
| `InMemoryStore.InMemoryJobStore.RetainOthers` | crates/hwhkit-scheduler/src/storage.rs:134-136 | The retain drops every match and keeps the order of the rest |
| `InMemoryStore.InMemoryJobStore.RequeueStale` | crates/hwhkit-scheduler/src/storage.rs:140-158 | For every representable lease exactly the rows claimed before now minus the lease are released, due at once, and counted, all others stay; for a longer one the same with one minute; and it is the protocol's sweep at that lease |
| `InMemoryStore.ClaimedJobsAreDue` | crates/hwhkit-scheduler/src/storage.rs:100-111 | The claimed jobs are distinct, stored, due and unclaimed |
| `InMemoryStore.ClaimIsGreedy` | crates/hwhkit-scheduler/src/storage.rs:100-111 | If the limit was not reached, no claimable row is left |
| `InMemoryStore.SweepIsComplete` | crates/hwhkit-scheduler/src/storage.rs:145-156 | No claim older than the lease survives a sweep |
| `InMemoryStore.ClaimRefines` | crates/hwhkit-scheduler/src/storage.rs:89-115 | A claim of the vector is the protocol's claim of exactly the returned ids and nothing else |
| `InMemoryStore.CompleteRefines` | crates/hwhkit-scheduler/src/storage.rs:117-138 | A completion of the vector is the protocol's completion of that id |
| `InMemoryStore.OverAgeIdsAreOverAge` | crates/hwhkit-scheduler/src/storage.rs:145-147 | The ids a sweep releases are stored and over-age |
| `InMemoryStore.RequeueRefines` | crates/hwhkit-scheduler/src/storage.rs:140-158 | A sweep of the vector is the protocol's release of exactly the over-age rows |
| `InMemoryStore.StoreRefinesProtocol` | crates/hwhkit-scheduler/src/storage.rs:77-159 | Every run of the in-memory store is, step for step, a run of the protocol that may claim any due rows up to its limit |
| `InMemoryStore.StoreExclusion` | crates/hwhkit-scheduler/src/storage.rs:77-159 | So the in-memory store has exclusive claims, job by job, under the same timing assumption |
| `InMemoryStore.VectorExclusion` | crates/hwhkit-scheduler/src/storage.rs:77-159 | The same for the vectors that the methods themselves leave behind, one method call per step |
| `Scheduler.CronCache.NextCronCached` | crates/hwhkit-scheduler/src/lib.rs:369-380 | Answers what a fresh `next_after` answers, and every cache entry stays equal to a fresh parse of its expression |
| `Scheduler.Scheduler.Schedule` | crates/hwhkit-scheduler/src/lib.rs:244-262 | A bad expression stores nothing and is reported; otherwise one row is appended, first due at the one-shot's own time or at the expression's next match |
| `Scheduler.Scheduler.Poll` | crates/hwhkit-scheduler/src/lib.rs:271-303 | One turn of the loop sweeps with the configured lease if half of it, or a second, has passed since the last sweep, then claims the first 16 due rows |
| `Scheduler.Scheduler.FinishJob` | crates/hwhkit-scheduler/src/lib.rs:319-354 | The job goes on, at its expression's next match after the reading, exactly when its kind decodes, it recurs and there is such a match; otherwise it is removed |
| `SchedulerProtocol.RunIsLeaseRun` | crates/hwhkit-scheduler/src/lib.rs:271-360 | Every run of several schedulers is a run of the lease protocol, so its theorems carry over |
| `SchedulerProtocol.SchedulerExclusion` | crates/hwhkit-scheduler/src/lib.rs:298-357 | Under the lease assumption for a job no two workers run it at once |
| `SchedulerProtocol.JobLeavesOnlyAtItsEnd` | crates/hwhkit-scheduler/src/lib.rs:319-354 | A job leaves the store only after a completion that read a time at which its kind did not decode, it was a one-shot, or its expression had no next match |
| `SchedulerProtocol.CompletionKeepsJobIff` | crates/hwhkit-scheduler/src/lib.rs:319-354 | In every run a completion keeps the job if and only if its kind decodes, it recurs and it has a next match after the reading, and then it is free, with that match as its time and the completion as its last run |
| `SchedulerProtocol.OneShotIsNeverEarly` | crates/hwhkit-scheduler/src/lib.rs:244-303 | In every run a one-shot job is stored with its own time and no worker ever claims it before that time |
| `SchedulerProtocol.FirstTimes` | crates/hwhkit-scheduler/src/lib.rs:244-262 | In every run a stored job's first time is the one-shot's own time, or the expression's next match after its creation |
| `SchedulerProtocol.YearlyJobIsStoredForever` | crates/hwhkit-scheduler/src/lib.rs:319-335 | A recurring job whose kind decodes and whose expression selects a date every year has is stored in every reachable state |
| `SchedulerProtocol.StoredTimesMatch` | crates/hwhkit-scheduler/src/lib.rs:319-335 | Every stored recurring time is the first minute matching the job's expression after the reading it was computed from |
| `SchedulerProtocol.StoredTimesIncrease` | crates/hwhkit-scheduler/src/lib.rs:298-357 | Under the lease assumption for a job the times stored for it strictly increase, whatever sweeps, other workers and other jobs do |
| `Cron.ClassifyReadsWritten` | crates/hwhkit-scheduler/src/cron.rs:88-129 | Every chunk written as `*`, `*/N`, `A-B` or `N` is read back as meant, or rejected with the error of the number that is zero or does not fit |
| `Cron.ClassifyExactly` | crates/hwhkit-scheduler/src/cron.rs:88-129 | A text is read as a chunk exactly when it is `*`, `*/` and a positive number, two numbers around its first dash, or a number, where a number is an optional plus sign, zeros and a numeral that fits 32 bits |
| `Cron.ClassifyError` | crates/hwhkit-scheduler/src/cron.rs:88-129 | Which error any other text gets |
| `Text.ParsesExactly` | crates/hwhkit-scheduler/src/cron.rs:96-125 | `parse::<u32>` accepts a text as a number exactly when it is an optional plus sign, zeros and that number's numeral, and it fits |
| `Cron.FieldSpec` | crates/hwhkit-scheduler/src/cron.rs:86-136 | A field parses exactly when every chunk does and one value is selected, and then denotes the ascending list of exactly the selected values |
| `Cron.SortUnstable` | crates/hwhkit-scheduler/src/cron.rs:130 | Sorted and a permutation |
| `Cron.Dedup` | crates/hwhkit-scheduler/src/cron.rs:131 | Strictly ascending with the same values |
| `Cron.PushChunk` | crates/hwhkit-scheduler/src/cron.rs:88-129 | The loop for one chunk pushes exactly the values the chunk denotes, or reports the chunk's error |
| `Cron.ParseField` | crates/hwhkit-scheduler/src/cron.rs:86-136 | Push, sort and dedup compute the denoted list of the field |
| `CronTruncation.TruncationChangesNothingIff` | crates/hwhkit-scheduler/src/cron.rs:88-129 | A list of chunks selects the same values with and without the documented truncation to the nearest value exactly when every value that truncation would add, the least or the greatest, is selected anyway |
| `CronTruncation.FieldTruncatesIff` | crates/hwhkit-scheduler/src/cron.rs:86-136 | A field comes out as that documentation says, values and errors alike, if and only if a chunk does not parse or truncation would add nothing |
| `CronTruncation.LoneNumber` | crates/hwhkit-scheduler/src/cron.rs:123-135 | One lone number is dropped when out of range, so such a field is as documented exactly when the number is in range |
| `Cron.ParseExpression` | crates/hwhkit-scheduler/src/cron.rs:56-75 | For any words with any blanks around them: five are read as minute, hour, day of month, month and day of week in that order, failing with the error of the first field that fails; any other number of words is reported |
| `Cron.ParseReadsWords` | crates/hwhkit-scheduler/src/cron.rs:56-75 | The same as a law of `Parse` |
| `Text.SplitOfSpaced` | crates/hwhkit-scheduler/src/cron.rs:57 | Splitting at whitespace gives back any blank-free words, in order, however they are spaced |
| `Text.CrontabSpacing` | crates/hwhkit-scheduler/src/cron.rs:57 | Blanks and tabs separate fields, and no character of a field does |
| `Text.SpacingOf` | crates/hwhkit-scheduler/src/cron.rs:57 | And every text is the words it splits into, spaced in some way |
| `CronReading.LineFires` | crates/hwhkit-scheduler/src/cron.rs:56-163 | A parsed line of five fields fires at a date, hour and minute exactly when its fields pick the minute, hour and month, and either day field when neither is `*`, both otherwise |
| `CronReading.NextIsSoonAfter` | crates/hwhkit-scheduler/src/cron.rs:178-203 | The next time is a whole minute after the start and less than 1464 days later, in nanoseconds |
| `Cron.ParsedIsWellFormed` | crates/hwhkit-scheduler/src/cron.rs:56-75 | Whatever the text, a parsed spec has five non-empty ascending fields within their ranges, and an unrestricted field selects every value |
| `CronReading.ReadingsDiffer` | crates/hwhkit-scheduler/src/cron.rs:77-84 | On a raw field the documented reading and the code differ exactly when every chunk is `*` or a step of one and at least one is a step |
| `CronReading.StepOneIsRestricted` | crates/hwhkit-scheduler/src/cron.rs:77-84 | Such fields exist: `*/1` is unrestricted as documented and restricted in the code |
| `CronReading.MisreadDayOfMonth` | crates/hwhkit-scheduler/src/cron.rs:139-163 | A full day-of-month field that the code counts as restricted changes no day, against the documented reading, exactly when every weekday is selected |
| `CronReading.MisreadDayOfWeek` | crates/hwhkit-scheduler/src/cron.rs:139-163 | A full day-of-week field that the code counts as restricted changes no day exactly when every day of the selected months is selected |
| `CronReading.FiresAsDocumentedIff` | crates/hwhkit-scheduler/src/cron.rs:77-163 | A parsed expression fires at exactly the documented minutes if and only if no misread day field hides a restriction of the other |
| `Cron.MatchesIsVixieRule` | crates/hwhkit-scheduler/src/cron.rs:139-163 | For every parsed expression `matches` is the documented rule: both day fields when one is `*`, either when both are restricted |
| `Cron.NextAfterSpec` | crates/hwhkit-scheduler/src/cron.rs:178-203 | The least matching minute strictly after the start and before start plus 1464 days, and an error exactly when there is none |
| `Cron.ComputeNextAfterSpec` | crates/hwhkit-scheduler/src/cron.rs:178-203 | The minute-by-minute loop finds it |
| `Cron.NextAfter` | crates/hwhkit-scheduler/src/cron.rs:171-174 | The same for an expression: an error exactly when it does not parse or no such minute exists |
| `Calendar.DateOf` | crates/hwhkit-scheduler/src/cron.rs:139-163 | The calendar date of a day number, and that it numbers back to the same day |
| `Calendar.DateRoundTrip` | crates/hwhkit-scheduler/src/cron.rs:139-163 | Numbering a date and reading it back is the identity |
| `Calendar.DayNumberOrder` | crates/hwhkit-scheduler/src/cron.rs:139-163 | Day numbers order dates as year, month, day do |
| `Calendar.ConsecutiveDays` | crates/hwhkit-scheduler/src/cron.rs:195-199 | Consecutive day numbers are exactly consecutive calendar dates |
| `Calendar.ConsecutiveWeekdays` | crates/hwhkit-scheduler/src/cron.rs:205-216 | Weekdays follow each other in a cycle of seven |
| `Calendar.CalendarAnchors` | crates/hwhkit-scheduler/src/cron.rs:205-216 | The epoch day and other known dates fall on their known weekdays |
| `CronHorizon.FiresInEveryWindow` | crates/hwhkit-scheduler/src/cron.rs:178-203 | A spec that selects a date every year has finds a minute from every start |
| `CronHorizon.LeapDayOnlyFailure` | crates/hwhkit-scheduler/src/cron.rs:178-203 | A spec that selects only 29 February fails exactly when the whole window lies between the leap days around a non-leap century |
| `CronHorizon.NoDateFails` | crates/hwhkit-scheduler/src/cron.rs:178-203 | A spec that selects no date fails from every start |
| `CronHorizon.MarchFirst2096Fails` | crates/hwhkit-scheduler/src/cron.rs:190-202 | From 1 March 2096 even a leap-day spec finds nothing within the horizon |
| `CronHorizon.HorizonIsComplete` | crates/hwhkit-scheduler/src/cron.rs:178-203 | The search succeeds from every start if and only if the expression parses and selects a date that every year has |
| `Breaker.CircuitBreaker.TryAdmit` | crates/hwhkit/src/production/circuit_breaker.rs:123-161 | The admission block: admitted, probe owner or rejected, with the transition to half-open and the claimed slot |
| `Breaker.CircuitBreaker.ReleaseProbe` | crates/hwhkit/src/production/circuit_breaker.rs:169-174 | Frees the slot and changes nothing else |
| `Breaker.CircuitBreaker.RecordOutcome` | crates/hwhkit/src/production/circuit_breaker.rs:179-218 | Push, eviction loop, failure count and trip compute `Record` on the whole breaker |
| `Breaker.NewestSurvives` | crates/hwhkit/src/production/circuit_breaker.rs:202-211 | The outcome just recorded is never evicted, so the ratio never divides by zero |
| `Breaker.FrontEvictionIsExact` | crates/hwhkit/src/production/circuit_breaker.rs:203-206 | Evicting from the front keeps exactly the entries of the window if and only if no stale entry sits behind a fresh one |
| `Breaker.RecordKeepsWindow` | crates/hwhkit/src/production/circuit_breaker.rs:202-206 | With readings in lock order the deque stays exactly the window of the current Closed period's outcomes |
| `Breaker.TripIsExact` | crates/hwhkit/src/production/circuit_breaker.rs:208-217 | A recording while Closed trips exactly when that window reaches the volume and the failure share |
| `Breaker.FailuresAreCounted` | crates/hwhkit/src/production/circuit_breaker.rs:209-210 | The counted failures are the positions that hold a failure |
| `Breaker.EarlyRecordForgets` | crates/hwhkit/src/production/circuit_breaker.rs:202-206 | Before the clock has run for a whole window a recording keeps the earlier outcomes, all of them within the window, exactly when they carry the same reading |
| `Breaker.TripsAsDocumentedIff` | crates/hwhkit/src/production/circuit_breaker.rs:208-217 | The documented rule, that the failure share exceeds the threshold, is what opens the breaker if and only if the share over a sufficient volume does not equal the threshold |
| `Breaker.EqualShareTrips` | crates/hwhkit/src/production/circuit_breaker.rs:208-217 | At volume one and threshold one a single failure opens it although its share does not exceed the threshold |
| `Breaker.OutOfOrderKeepsStale` | crates/hwhkit/src/production/circuit_breaker.rs:179-206 | The clock is read before the lock: for any three readings of which the second came late, the late outcome outlives its window behind the fresher one |
| `BreakerProtocol.ProbeSlotCountsOwners` | crates/hwhkit/src/production/circuit_breaker.rs:115-174 | In every interleaving the counter is the number of probe owners that have not released, and at most one |
| `BreakerProtocol.NoStartDuringCoolDown` | crates/hwhkit/src/production/circuit_breaker.rs:128-146 | After the breaker opens with stamp t no closure starts before t plus the open duration |
| `BreakerProtocol.StartsExactlyWhenAllowed` | crates/hwhkit/src/production/circuit_breaker.rs:124-165 | In every reachable state a new call's closure starts if and only if the breaker is closed, or is half-open or past its cool-down with no unreleased probe owner |
| `BreakerProtocol.DequeRefinesHistory` | crates/hwhkit/src/production/circuit_breaker.rs:179-206 | In every ordered interleaving the deque equals the window of the plain history |
| `BreakerProtocol.OpensExactlyOnWindow` | crates/hwhkit/src/production/circuit_breaker.rs:208-217 | And the breaker opens exactly when that window says so |
| `BreakerProtocol.OpensAsDocumentedIff` | crates/hwhkit/src/production/circuit_breaker.rs:208-217 | In every ordered interleaving it opens as documented if and only if the share does not equal the threshold |
| `BreakerProtocol.OpensAtThreshold` | crates/hwhkit/src/production/circuit_breaker.rs:208-217 | With the threshold at one some run opens the breaker although no window can ever exceed it |
| `BreakerProtocol.ProbeDecidesIff` | crates/hwhkit/src/production/circuit_breaker.rs:163-194 | No run moves a half-open breaker before the probe's own next step if and only if every call admitted earlier is over; otherwise such a call decides it |
| `BreakerOutcomes.OutcomeIsReturned` | crates/hwhkit/src/production/circuit_breaker.rs:166-176 | In every interleaving the outcome a call carries through release, clock reading and record is the one its closure returned |
| `BreakerOutcomes.ClosureDecides` | crates/hwhkit/src/production/circuit_breaker.rs:166-195 | In every run, whichever call records in a half-open breaker closes it exactly when its own closure returned a success, and otherwise opens it with its clock reading |
| `BreakerOutcomes.LoneProbeDecides` | crates/hwhkit/src/production/circuit_breaker.rs:166-195 | From a half-open breaker whose probe is the only call under way, with no new call, the probe's success closes it and empties the window, and its failure opens it with the time of its clock reading |
| `BreakerProtocol.LateCallClosesUnderProbe` | crates/hwhkit/src/production/circuit_breaker.rs:163-217 | For every volume, window and cool-down: a run in which a call started before the breaker ever opened is the one that closes it, while a probe started later still runs, exists if and only if the failure threshold is at most one |
| `BreakerProtocol.SecondStartIff` | crates/hwhkit/src/production/circuit_breaker.rs:74-79 | In every interleaving, two closures start in one half-open period exactly when one starts after another of that period released the slot; nobody who started in the period has recorded |
| `TokenBucket.BucketStore.Evaluate` | crates/hwhkit/src/production/rate_limit.rs:46-91 | The script as written: new hash, new expiry and reply for one key, all other keys untouched |
| `TokenBucket.ScriptIsScaledTake` | crates/hwhkit/src/production/rate_limit.rs:61-90 | The script over fractions of a token computes the whole-unit decision: same reply, scaled bucket |
| `TokenBucket.RunScriptIsScaled` | crates/hwhkit/src/production/rate_limit.rs:61-90 | So over whole runs |
| `RateLimit.TokensBounded` | crates/hwhkit/src/production/rate_limit.rs:70-87 | Tokens stay between zero and the capacity after every request |
| `RateLimit.ExpiryIsInvisible` | crates/hwhkit/src/production/rate_limit.rs:87-88 | Dropping an idle key after its lifetime changes no reply and no later bucket |
| `RateLimit.RateBound` | crates/hwhkit/src/production/rate_limit.rs:46-91 | Requests within [t1, t2] are admitted at most capacity + capacity * (t2 - t1) / window times, expiry included |
| `RateLimit.AdmitsExactlyWithinBound` | crates/hwhkit/src/production/rate_limit.rs:75-85 | A request is admitted if and only if every interval ending with it stays within that bound |
| `RateLimit.HintIsTight` | crates/hwhkit/src/production/rate_limit.rs:78-85 | After a denial with hint r the next request is admitted exactly when it comes r ms later or more and the capacity is positive; without capacity the hint is the lifetime, the window or a second |
| `RateLimit.RemainderIsExact` | crates/hwhkit/src/production/rate_limit.rs:75-90 | Of the requests that follow at the same instant exactly as many are admitted as the reply said remained |
| `ConfigMerge.SameShape` | crates/hwhkit-config/src/lib.rs:1304-1315 | Two trees with the same shape at every path are equal |
| `ConfigMerge.DeepMerge` | crates/hwhkit-config/src/lib.rs:1304-1315 | The loop, in any order of keys, computes `Merge` |
| `ConfigMerge.DecidesMeaning` | crates/hwhkit-config/src/lib.rs:1304-1315 | A patch decides a path exactly when it has something there or a leaf above it |
| `ConfigMerge.MergeShape` | crates/hwhkit-config/src/lib.rs:1304-1315 | At every path the merged tree shows the patch where it decides and the base elsewhere |
| `ConfigMerge.MergeIsIdempotent` | crates/hwhkit-config/src/lib.rs:1304-1315 | Merging a patch twice is merging it once |
| `ConfigMerge.PatchesCommute` | crates/hwhkit-config/src/lib.rs:1304-1315 | Two patches commute exactly when they agree wherever both decide |
| `ConfigMerge.MergeIsAssociative` | crates/hwhkit-config/src/lib.rs:1304-1315 | Grouping does not matter, for every base, exactly when the third layer never puts an object over a non-object of the second |
| `ConfigMerge.LoadLayers` | crates/hwhkit-config/src/lib.rs:1195-1208 | The loader's loop, skipping empty patches, computes `Load` |
| `ConfigMerge.LeafFromLastLayer` | crates/hwhkit-config/src/lib.rs:1195-1208 | A leaf is in the loaded tree exactly when the last layer that is an object with a key and decides its path has it there, or the defaults when no layer does |
| `ConfigMerge.SetPathShape` | crates/hwhkit-config/src/lib.rs:959-990 | The empty path writes nothing; otherwise the value sits at its path, objects lead to it, and every path that branches off is as before |
| `ConfigFilter.CollectAllowed` | crates/hwhkit-config/src/lib.rs:1323-1347 | The recursive walk, in any order of keys, keeps allow-list coverage, and with clean keys adds exactly the allowed leaves |
| `ConfigFilter.FilterPatch` | crates/hwhkit-config/src/lib.rs:1317-1321 | Every leaf of the filtered patch sits at an allowed path and every object leads to one; with non-empty dot-free keys it holds exactly the patch's allowed leaves, with no assumption on the policy |
| `ConfigFilter.PathOfDotted` | crates/hwhkit-config/src/lib.rs:1331-1338 | Joining a key to a dotted prefix and splitting again extends the path by that key |
| `ConfigFilter.FilteredMergeFrame` | crates/hwhkit-config/src/lib.rs:1304-1347 | Merging a filtered patch leaves every path unchanged unless it is a prefix or extension of an allowed path |
| `ConfigFilter.RemoteOverlay` | crates/hwhkit-config/src/lib.rs:1304-1347 | With clean keys every allowed leaf of the patch wins, and a path changes only at, above or below such a leaf |
| `ConfigFilter.LeavesDetermine` | crates/hwhkit-config/src/lib.rs:1323-1347 | The leaves determine the filtered patch, so the visiting order of keys cannot show |
| `SseReader.PumpSse` | crates/hwhkit-integration-llm/src/backend/openai_compat.rs:283-335 | The buffering loops emit what reading the concatenated text in one piece emits, for every cut into chunks, and fail exactly when the stream breaks before the reader stopped |
| `SseReader.PumpEvent` | crates/hwhkit-integration-llm/src/backend/openai_compat.rs:296-331 | The line loop computes the fold over the event's lines, stopping at the marker or a lost consumer |
| `SseReader.Dispatch` | crates/hwhkit-integration-llm/src/backend/openai_compat.rs:308-329 | Text before finish; a failed text send stops the reader, a failed finish send does not |
| `SseReader.ChunkingIsInvisible` | crates/hwhkit-integration-llm/src/backend/openai_compat.rs:291-333 | However the text is cut, the final state, output, stop and left-over buffer equal those of one piece |
| `SseReader.OutputIsStable` | crates/hwhkit-integration-llm/src/backend/openai_compat.rs:291-333 | More text only extends the output, and nothing after a stop matters |
| `SseReader.ReaderIsLineFold` | crates/hwhkit-integration-llm/src/backend/openai_compat.rs:283-335 | The event loop equals one pass over the lines of the text up to its last blank line |
| `SseReader.UnreadIff` | crates/hwhkit-integration-llm/src/backend/openai_compat.rs:293-295 | Nothing of a text is consumed exactly when it has no two newlines in a row, so text with carriage-return newlines only emits nothing |
| `SseBytes.LossyOfText` | crates/hwhkit-integration-llm/src/backend/openai_compat.rs:293 | Lossy decoding of encoded text gives the text back and goes on with what follows |
| `SseBytes.DecodesIff` | crates/hwhkit-integration-llm/src/backend/openai_compat.rs:293 | Chunks of encoded text, each decoded on its own, give the text back if and only if no chunk starts inside a character |
| `SseBytes.AlignedBytesRead` | crates/hwhkit-integration-llm/src/backend/openai_compat.rs:291-333 | With such cuts the reader ends as if it had read the whole text in one piece |
| `SseReader.DisconnectTruncates` | crates/hwhkit-integration-llm/src/backend/openai_compat.rs:309-329 | A consumer that leaves after k chunks has seen exactly the first k chunks of the full output |
| `SseReader.EncodedStreamReads` | crates/hwhkit-integration-llm/src/backend/openai_compat.rs:283-335 | Round trip: a stream written as `data: `, payload and a blank line per event yields what the payloads say, however it is cut, and ends at `data: [DONE]` whatever follows |
| `SseReader.LinesOfEnded` | crates/hwhkit-integration-llm/src/backend/openai_compat.rs:296 | Lines are read back whether each ends in a newline or in a carriage return and a newline; a last piece without an end is read as it is |
| `SseReader.OpenAiEvent` | crates/hwhkit-integration-llm/src/backend/openai_compat.rs:308-329 | For every event: the text at `choices[0].delta.content`, then the finish reason at `choices[0].finish_reason` without usage, each only if it is a string |
| `SseReader.AnthropicEvent` | crates/hwhkit-integration-llm/src/backend/anthropic.rs:250-292 | For every event: a content delta's `delta.text`, a message delta's `delta.stop_reason` with the decoded usage, and nothing for any other type |
| `Idempotency.TenantsAreSeparated` | crates/hwhkit/src/production/idempotency.rs:158-171 | Two tenants reusing one client key share a Redis key exactly when they are the same tenant |
| `Idempotency.TenantsMeetIff` | crates/hwhkit/src/production/idempotency.rs:158-171 | Two tenants, or a tenant and no tenant, have client keys with one Redis key exactly when one key prefix begins with the other |
| `Idempotency.ColonFreeKeysAreInjective` | crates/hwhkit/src/production/idempotency.rs:158-171 | With colon-free tenant ids the Redis key of a tenanted request determines tenant and client key |
| `Idempotency.FingerprintRequest` | crates/hwhkit/src/production/idempotency.rs:309-323 | The loop computes the hexadecimal digest of the joined method, path and body |
| `Idempotency.HexInjective` | crates/hwhkit/src/production/idempotency.rs:317-322 | The hexadecimal form determines the digest |
| `Idempotency.HexReads` | crates/hwhkit/src/production/idempotency.rs:317-322 | Each byte is written as two lower-case hexadecimal digits, the high one first |
| `Idempotency.EncodingIsInjective` | crates/hwhkit/src/production/idempotency.rs:309-315 | For newline-free methods and paths the joined text is equal exactly when method, path and body are |
| `Idempotency.CollectHeaders` | crates/hwhkit/src/production/idempotency.rs:228-234 | The loop keeps the text headers in order |
| `Idempotency.VisibleHeadersKeep` | crates/hwhkit/src/production/idempotency.rs:228-234 | Every text header is kept with its multiplicity and no other header is |
| `Idempotency.ReplayOfStored` | crates/hwhkit/src/production/idempotency.rs:251-265 | A replay has the original status and body, its text headers and the marker header |
| `IdempotencyProtocol.HandlerRunsForItsOwnAnswer` | crates/hwhkit/src/production/idempotency.rs:179-247 | In every interleaving the handler runs at most once per request, and exactly once when the request is served its own response; an unreadable body is refused without running it |
| `IdempotencyProtocol.RunHasOrigins` | crates/hwhkit/src/production/idempotency.rs:194-247 | Every stored entry and every replay stems from a handler call that returned, for the same key and fingerprint |
| `IdempotencyRetry.ArrivalIs` | crates/hwhkit/src/production/idempotency.rs:136-189 | On arrival exactly the POST, PUT, PATCH and DELETE requests with a key are intercepted, and refused when their body cannot be read |
| `IdempotencyRetry.LookupIs` | crates/hwhkit/src/production/idempotency.rs:194-209 | A request passes its lookup towards the handler exactly when the lookup fails or finds nothing that parses |
| `IdempotencyRetry.ServedIsGiven` | crates/hwhkit/src/production/idempotency.rs:208-247 | In every interleaving a client is served exactly what its own handler gave, with an empty body only when the request is intercepted and the body was unreadable |
| `IdempotencyRetry.SaveStores` | crates/hwhkit/src/production/idempotency.rs:228-247 | In every run a successful save puts status, text headers and body of what the handler gave under the request's key with its fingerprint and touches no other key, a failed one writes nothing, and the client is served either way |
| `IdempotencyRetry.SavedResponseIsReplayed` | crates/hwhkit/src/production/idempotency.rs:179-265 | A keyed request whose readable response was saved is served it, and from then on, while nobody else writes its key, every new request for the operation is answered with its replay and never runs the handler |
| `IdempotencyProtocol.ReplaySafety` | crates/hwhkit/src/production/idempotency.rs:179-265 | In every interleaving a replayed response was built from an earlier handler call with the same Redis key, method, path and body |
| `IdempotencyProtocol.MismatchIsRefused` | crates/hwhkit/src/production/idempotency.rs:198-206 | A request that reads an entry with another fingerprint gets 409 for good and never reaches the handler |
| `IdempotencyProtocol.StoredEntryShieldsHandler` | crates/hwhkit/src/production/idempotency.rs:194-206 | While an entry stays stored, requests with its key that look it up never reach the handler |
| `IdempotencyProtocol.ReachesHandlerIff` | crates/hwhkit/src/production/idempotency.rs:194-209 | A request about to look up its key can reach the handler, with no failed lookup and no dropped entry, if and only if no parsable entry is stored under the key |
| `IdempotencyProtocol.RetryIsReplayed` | crates/hwhkit/src/production/idempotency.rs:194-206 | As long as nothing overwrites the entry, every later request for the same operation gets that very replay |
| `IdempotencyProtocol.HandlerCanRunTwice` | crates/hwhkit/src/production/idempotency.rs:194-247 | Look-up and save are not atomic: for every intercepted request there is a run in which two copies of it both run the handler |

## Left out

- PostgreSQL, Redis and HTTP themselves: each SQL statement and script is one atomic step, `SKIP LOCKED` is the freedom to claim any due rows, and connection errors appear only where the code branches on them.
- Signature checking, key construction, SHA-256, base64, JSON text and typed decoding: parameters or foreign values; a body decoded from base64 is taken to be the body encoded.
- The `u32` overflow of `v += step` for the step 4294967295 on a field that starts at one; steps are unbounded naturals.
- The range limits of `DateTime` and `Instant`, leap seconds, and windows below a millisecond.
- Lua number formatting and floating-point rounding, the `Retry-After` header in seconds, the fail-open branch when Redis errors, and choosing the bucket key.
- Cancellation or panics inside breaker closures; a dropped probe never frees its slot.
- Updating JSON trees in place: `deep_merge`, `set_path` and the filter are modelled on values, so aliasing is not captured. `ConfigPatch::default()`, which holds null rather than an object, is not modelled.
- Reading files and environment variables, errors of configuration sources, the names of applied sources, and validation of the loaded configuration.
- The requests that open an SSE stream. What the reader emits when a cut splits a character is only known to differ in the decoded text.
- The shutdown of the scheduler loop, store errors, and the text of log messages.
- The parse cache under concurrent calls: reading and writing the map are one step; both writers of a race store the same parse.
- Expiry times of idempotency entries: an entry may vanish at any moment, which covers every lifetime.
- The CLI, build information, observability, server plumbing, integrations and templates: they would add only easy members.
