# Verification of the attendance server

The server takes attendance punches from ZKTeco devices over the ADMS push protocol, stores them
once, and delivers each of them to a webhook with retries.  This project models that logic in Dafny
and proves what the code is meant to guarantee, for every input, every run and every interleaving
the model admits.

| file | what it models |
|---|---|
| `DeliveryQueue.dfy`, `DeliverySteps.dfy` | the webhook delivery queue: one database state, its atomic steps, N workers; what each step writes, in plain words |
| `DeliverySafety.dfy`, `DeliveryLogs.dfy`, `DeliveryLeases.dfy` | what runs of the queue keep: with no hypothesis; exactly when a delivery log is exact; leases or one worker as ways to get there |
| `DeliveryBounds.dfy`, `DeliveryRetries.dfy`, `DeliveryFleet.dfy` | how often a row is attempted, where it is parked, what its badge says, what a retry buys; with one worker, and with many that keep to their leases |
| `DeliveryWorker.dfy` | the worker process as a class, each tick with the rest of the system at work between its statements shown to be a run of the queue |
| `PunchStatus.dfy`, `Retrying.dfy` | the status badge against the list filter; manual retries |
| `Ingestion.dfy` | storing ATTLOG batches under adversarial database failures and the deletion of the device |
| `Registration.dfy` | pending devices, concurrent pings, the claim and the trust check |
| `Calendar.dfy`, `Timezone.dfy`, `Datetime.dfy`, `Readings.dfy` | ECMA-262 dates (sections 21.4.1 and 21.4.3.4), wall clock to UTC, device timestamps, and from the one to the other |
| `Attlog.dfy`, `Template.dfy`, `Rendering.dfy`, `Dispatch.dfy`, `Slug.dfy` | the text cores |
| `RateLimit.dfy`, `LoginLimit.dfy` | the rate limiter, as middleware and as the login route uses it |
| `Commands.dfy`, `CommandRaces.dfy`, `DataTable.dfy` | the device command queue, with requests in order and overlapping; sorted and paged lists |
| `Selection.dfy`, `JsText.dfy`, `Options.dfy` | shared pieces: `ORDER BY ... LIMIT`, JavaScript text primitives, optional values |

State machines are values: `Enabled` says when a step may happen, `Next` what it does, `Valid` and
`Run` extend both to sequences.  Where the source updates state in place there is a class beside
them whose methods are proved against the same functions.  All times are milliseconds since the
epoch and integers are unbounded.

## Where the code and its promises part

Each of these has its exact condition in the table below, and where it is about runs, a run from a
fresh state.

- The lease is described as what stops a second worker from sending a punch that is still in
  flight (`src/worker.ts:17-20`).  A webhook timeout may be set to twice the lease
  (`src/admin/settings.ts:32`), and then two workers write the same attempt number:
  `LateCommitRepeatsANumber`.  A row's log is exact if and only if every commit on it finds the row
  undelivered and with the count its worker had read, which the update does not ask for:
  `LogIsExactIffCommitsFindTheRowAsRead`.  Commits that keep to their leases do, and so does a
  single worker.
- A manual retry of an exhausted row is described as exactly one more attempt
  (`src/worker.ts:25-32`).  Once the maximum has been raised past the row's attempts by two or more
  it leads to several: `RaisingTheMaximumReopensARetriedRow`.  The next attempt closes the row if
  and only if it succeeds or reaches the maximum its tick had read (`NextAttemptClosesExactly`), and
  retries buy one attempt each, in every run, if and only if the maximum never exceeds the row's
  attempts plus one (`OneAttemptPerRetryExactly`).
- A row badged failed under a live webhook need not be parked once the maximum has been lowered
  (`LoweringTheMaximumBreaksTheBadge`), and a row badged pending may be parked for good once it has
  been raised (`RaisingTheMaximumStrandsAPendingRow`).  The maximum that counts is the one the last
  committed attempt had read (`ParkedExactlyWhenExhausted`), and the badge tells the truth if and only
  if the maximum of now judges the row's attempts the same way (`BadgeTellsParkingExactly`).
- A poll marks commands sent without looking at their status, so a report between its two
  statements is undone (`LateMarkUndoesAReport`), and overlapping polls print a command twice
  (`OverlappingPollsRepeat`).  `LoweredIffReportedMidPoll` and `PrintedTwiceIffPollsOverlap` say
  exactly which runs do either.
- A command's text is stored and printed verbatim (`src/admin/devices.ts:558-562`), so one with a
  newline is printed as two lines (`NewlineSplitsALine`).  The body reads back if and only if no
  text holds one: `PrintedBodyReadsBackExactly`.
- A batch is acknowledged only if it has been stored or can never be (`src/adms/dbErrors.ts:3-16`).  A
  failed foreign key counts as an error of the data, so a push whose device is deleted between the
  lookup and the insert is answered OK with nothing stored (`DeletionUnderAPushIsAcknowledged`).  An
  acknowledged batch is in the table exactly once if and only if the device has not been deleted:
  `StoredExactlyOnce`.
- `Date.UTC` takes the years 0 to 99 for 1900 to 1999, and the zone conversion formats and rebuilds
  local times twice.  Its result shows the reading if and only if some instant does and the digits and
  both local times are of the year 100 or later (`ToUtcShowsTheReading`).  A device can send the
  first of January of the year 100, which every zone behind UTC loses, and a January 0, which every
  zone loses (`JanuaryOf100Parses`, `EarlyReadingsAreLost`); only a month or a day of zero in that
  year goes back past its beginning (`OnlyAZeroGoesBack`), and two-digit years are read as 1900 to
  1999 by the parser already.
- The login route counts a failure only after the password has been compared, so logins in flight
  together can pass a check none of them would pass alone: one limiter counts at most its maximum
  less one plus the number in flight (`FailuresAreBounded`), and can reach it
  (`FailuresReachTheBound`); a limiter no success resets keeps a sliding bound as well
  (`FailuresInAnyWindow`).

## Corners no write path reaches

The functions are proved on all their inputs, and three results describe inputs the routes keep
out.  A webhook url is stored only if it parses as a url (`src/admin/devices.ts:383`,
`src/admin/devices.ts:448`), so it is never the empty string; the maximum number of attempts is at
least 1 (`src/admin/settings.ts:28`); the limits of the rate limiters are constants of the program.
About the code as it runs the results are `FilterAgreesWithSettings` (filter and badge agree) and
`SlidingBound`.  Beyond that, `FilterAgreesExactly` and `BulkRetryGoesExactly` say what an empty
url would do, and `ZeroMaxStillAdmits` what a maximum of zero would.

## Model

| member | source | states |
|---|---|---|
| DeliveryQueue.ComputeBackoffMs | src/worker.ts:13-18 | waits run from 30 s, after the first attempt only, to 6 h, from the fifth on |
| DeliveryQueue.BackoffGrows | src/worker.ts:13-18 | every wait is at least the one before, and longer until the last of the schedule |
| DeliverySteps.IngestWrites | src/adms/cdata.ts:115-119 | a new row is undelivered, untried, due at once, and held unless its webhook is enabled and has a url that is not empty |
| DeliverySteps.ClaimWrites | src/worker.ts:52-56 | a claim leases its rows for 60 seconds from now and changes nothing else |
| DeliverySteps.CommitWrites | src/worker.ts:76-110 | an attempt is numbered one past the count read; a success stamps the row, a failure makes it due 30 seconds, 2 minutes, 10 minutes, 1 hour or 6 hours later by its number, or parks it once the number reaches the maximum |
| DeliverySteps.CommitOfAGoneRow | src/worker.ts:78-110 | if the record has gone neither log nor row is written |
| DeliverySteps.RetryWrites | src/admin/punchRecords.ts:291-296 | a retry makes its rows due now and takes them off hold, attempts and log as they were |
| DeliverySteps.AdministrationWrites | src/admin/devices.ts:455-492 | webhook edits, the maximum, deletions and time are never refused by the queue and change one thing each |
| DeliverySteps.WorkersStartAndStop | src/worker.ts:141-169 | only an idle worker polls; any worker may crash and forget what it held, the database as it was |
| DeliverySteps.ParkedUntil2099 | src/worker.ts:32 | the parking date is the first moment of 2099 |
| DeliverySafety.RunSafe | src/worker.ts:34-120 | with any number of workers and no hypothesis, every step keeps the row a mirror of its log and workers free of held rows |
| DeliverySafety.LogFactsUnconditionally | src/worker.ts:76-110 | in every reachable state attempts <= log length, delivered iff some entry is, untried iff the log is empty, last error is the last entry's |
| DeliverySafety.DeliveredIsAbsorbing | src/worker.ts:92-109 | once delivered, a row stays delivered whatever stale workers still commit |
| DeliverySafety.DeliveredIsNeverClaimed | src/worker.ts:40-49 | no later claim of the run takes a delivered row |
| DeliverySafety.HoldLastsUntilRetry | src/admin/punchRecords.ts:291-296 | only a retry clears the hold |
| DeliverySafety.HeldIsNeverSent | src/adms/cdata.ts:115-119 | a punch ingested without an active webhook is not sent, and has no log, until a retry names it |
| DeliveryLogs.LogIsExactIffCommitsFindTheRowAsRead | src/worker.ts:76-110 | any workers, any run: a row's log is exact (numbered 1..attempts, at most one delivered entry, the last, present iff delivered) iff every commit on it finds the row undelivered and with the count read |
| DeliveryLogs.ExactIffAsRead | src/worker.ts:76-110 | the same from any state in which the row's log is exact or the row is yet to come |
| DeliveryLeases.LeasesGiveExactLogs | src/worker.ts:17-60 | N workers whose commits and retries keep to the leases: no row under two live leases, every log numbered 1..attempts with at most one delivered entry, the last, present iff the row is delivered |
| DeliveryLeases.OneWorkerGivesExactLogs | src/worker.ts:62-120 | the same log facts for one worker with no lease hypothesis |
| DeliveryLeases.RunSolo | src/worker.ts:141-159 | the one-worker invariant over every run: what the worker read of a row it holds is still true |
| DeliveryLeases.LateCommitRepeatsANumber | src/worker.ts:76-110 | without the lease hypothesis two workers can both write attempt 1: a concrete run |
| DeliveryBounds.AttemptsAreBounded | src/worker.ts:101-108 | one worker: attempts <= largest maximum ever in force + manual retries of the row |
| DeliveryFleet.FleetAttemptsAreBounded | src/worker.ts:101-108 | the same for any number of workers that keep to their leases |
| DeliveryRetries.NextAttemptClosesExactly | src/worker.ts:101-108 | one worker, any settings: the next committed attempt on a row with n attempts delivers or parks it iff it succeeds or n + 1 reaches the maximum its tick read |
| DeliveryRetries.RetriesBuyOneAttemptEach | src/admin/punchRecords.ts:279-296 | a parked row whose attempts the maximum never exceeds by more than one gains at most one attempt per retry, and is closed when it has gained them all |
| DeliveryFleet.FleetRetriesBuyOneAttemptEach | src/admin/punchRecords.ts:279-296 | the same for any number of workers that keep to their leases |
| DeliveryRetries.OneAttemptPerRetryExactly | src/worker.ts:25-32 | retries of a parked row with n attempts buy one attempt each, in every run, iff the maximum is never set above n + 1 |
| DeliveryRetries.RaisingTheMaximumReopensARetriedRow | src/worker.ts:101-108 | a run from a fresh database in which one retry leads to two more attempts and a third is due |
| DeliveryRetries.RaisingTheMaximumStrandsAPendingRow | src/admin/punchRecords.ts:45-57 | a run from a fresh database in which a raised maximum leaves a pending badge on a parked row |
| DeliveryBounds.ParkedStaysParked | src/worker.ts:25-32 | settings, webhook edits, crashes and time leave a parked row alone; only a retry brings it back |
| DeliveryBounds.ParkedExactlyWhenExhausted | src/worker.ts:104-107 | a tried, undelivered row not retried since is parked iff its attempts reached the maximum its last attempt had read |
| DeliveryBounds.PendingIsScheduled | src/admin/punchRecords.ts:45-57 | while the maximum is never raised, a row badged pending is due within six hours and not parked |
| DeliveryBounds.FailedIsParked | src/admin/punchRecords.ts:45-57 | while the maximum is never lowered, a row badged failed under an active webhook is parked unless retried since |
| DeliveryBounds.BadgeTellsParkingExactly | src/admin/punchRecords.ts:45-57 | of a tried, undelivered, unretried row under an active webhook the badge says failed exactly when it is parked iff the present maximum judges its attempts as the one its last commit had read |
| DeliveryBounds.LoweringTheMaximumBreaksTheBadge | src/worker.ts:104-107 | a concrete run in which a lowered maximum leaves a failed badge on a row due in 30 s |
| Selection.SelectLeast | src/worker.ts:47-48 | ORDER BY with LIMIT: distinct candidates in order, nothing smaller left out, nothing left out while there was room |
| DeliveryWorker.Worker.SelectDue | src/worker.ts:36-50 | the claim query's rows: claimable and unlocked, earliest due first, up to the batch size |
| DeliveryWorker.BatchIsDue | src/worker.ts:36-50 | the batch column by column: undelivered, not held, due, unlocked, webhook enabled with a url; earliest first; whoever else is due is no earlier and left out only for want of room |
| DeliveryWorker.Worker.ClaimBatch | src/worker.ts:34-60 | leases exactly the batch, leaves every other row, and is the queue's claim step |
| DeliveryWorker.ClaimIsAStep | src/worker.ts:34-60 | any batch the query may return is an enabled claim of the queue, with the same result |
| DeliveryWorker.Worker.WriteAttempt | src/worker.ts:78-110 | log entry and row change of one attempt, both outcomes, on the row as it is by then |
| DeliveryWorker.Worker.RecordAttempt | src/worker.ts:78-110 | both or, if the record is gone, neither |
| DeliveryWorker.Worker.ProcessPunchRecord | src/worker.ts:62-120 | one record's turn with others at work during the dispatch: nothing written when the record or url is gone or something throws, else one attempt |
| DeliveryWorker.TurnIsARun | src/worker.ts:62-120 | a turn is a skip, an empty read, or read, the steps of others, and the commit of what the endpoint answered, or a skip; those steps run the queue from the turn's beginning to its end |
| DeliveryWorker.Worker.Tick | src/worker.ts:141-169 | a whole poll, stopped or not, with any steps of others before the claim, between records and during dispatches: claims a due batch, gives every record up to a stop exactly one turn in order, and is a run of the queue |
| DeliveryWorker.OwnStepsOfATick | src/worker.ts:141-159 | the worker's own steps in a tick are the poll, the claim of its batch, and for each record in order one read with the commit of its endpoint's answer, or a read or skip that writes nothing; only a stop leaves records without their turn |
| DeliveryWorker.OwnStepsAre | src/worker.ts:141-169 | every step that is not the worker's own may come between its statements |
| PunchStatus.FilterAgreesExactly | src/admin/punchRecords.ts:81-111 | filter and badge agree on a record iff it is delivered or held, or neither the empty url nor a zero maximum intervenes |
| PunchStatus.FilterAgreesWithSettings | src/admin/punchRecords.ts:81-111 | with a maximum of at least 1 and no empty url every filter selects exactly the rows with that badge |
| PunchStatus.FilterListsTheBadge | src/admin/punchRecords.ts:81-111 | a filtered table is the badged rows in order |
| PunchStatus.FiltersPartition | src/admin/punchRecords.ts:81-111 | the four filters split every table |
| Retrying.RetryAdmin.Retry | src/admin/punchRecords.ts:298-319 | not found, forbidden, nothing to retry or one row reset, each exactly when it applies |
| Retrying.RetryAdmin.RetryBulk | src/admin/punchRecords.ts:323-348 | resets the undelivered rows asked for in the caller's scope whose webhook is enabled with a url, no others, and counts them; every other column as it was |
| Retrying.ResetIsTheRetryStep | src/admin/punchRecords.ts:291-296 | the routes' update is the queue's retry step |
| Retrying.RetryGoesExactly | src/admin/punchRecords.ts:291-296 | right after a retry a claim may take the row and its read will send it iff it is undelivered and the webhook is active |
| Retrying.RetryReachesTheEndpoint | src/admin/punchRecords.ts:266-290 | held, parked or exhausted: after the retry an idle worker polls, claims and sends the row |
| Retrying.BulkRetryGoesExactly | src/admin/punchRecords.ts:336-343 | of the rows the bulk route counts, the undelivered ones go iff their url is not the empty string |
| Ingestion.PunchTable.CreateMany | src/adms/cdata.ts:123 | all storable rows with new keys or none, none if their device is gone, and the number added |
| Ingestion.PunchTable.Create | src/adms/cdata.ts:154 | one row, refused as unstorable, for want of its device, as a duplicate, or transiently |
| Ingestion.InsertOneByOne | src/adms/cdata.ts:149-184 | the fallback loop is the per-record function, counts included |
| Ingestion.StoreAttlog | src/adms/cdata.ts:86-186 | parse, batch insert and fallback leave the table, the decision and the counts of the specification |
| Ingestion.HandleCdataPost | src/adms/cdata.ts:189-253 | unclaimed and untrusted pushes leave the table alone; OK is said iff the batch was stored |
| Ingestion.OnlyTheSecretOpensTheTable | src/adms/cdata.ts:189-210 | an unresolved push and one without the device's secret leave the database alone, are told so and never OK; any other is answered OK or an error |
| Ingestion.StoreGrows | src/adms/cdata.ts:122-184 | one try, failing anywhere, on a device that stays: old rows untouched, keys still unique, new rows are others' or the first storable of their key, and if stored every storable key is there |
| Ingestion.StoredExactlyOnce | src/adms/cdata.ts:247-252 | any failures, repetitions, edits, deletions of the device and other writers: once a push is answered OK every storable record has exactly one row of that device, pin, time, status and verify mode iff the device has not been deleted, or nothing was storable |
| Ingestion.OneRowForEachPunch | prisma/schema.prisma:168 | after an OK on a device still registered, two storable records share a row iff they agree in pin, time, status and verify mode |
| Ingestion.AckedAtAPush | src/adms/cdata.ts:247-252 | a sequence of pushes is acknowledged iff one of them is answered OK in the state those before it left |
| Ingestion.DeletionUnderAPushIsAcknowledged | src/adms/dbErrors.ts:36 | for every batch, one deletion just before the insert and the push is answered OK with no row of the device in the table |
| Ingestion.OnlyItsRowsGo | prisma/schema.prisma:130 | the deletion of a device takes all of its rows and nobody else's |
| Ingestion.FirstRecordWins | src/adms/cdata.ts:102-123 | a key nobody else wrote ends up with the first storable record of that key, built from the device as some push found it |
| Ingestion.FailuresLeaveNoTrace | src/adms/cdata.ts:162-171 | undisturbed and under one configuration, the table after any failures ending in OK is that of one failure-free run |
| Ingestion.InsertAllAbsorbs | prisma/schema.prisma:168 | repeating a batch over a part of itself already stored comes to the longer part |
| Ingestion.BatchInsertRefinesLoop | src/adms/cdata.ts:122-184 | without a failure, batch insert with its fallback and per-record loop give the same table and the same counts, whatever is storable |
| Ingestion.FallbackCounts | src/adms/cdata.ts:149-184 | in a completed fallback inserted + duplicates + skipped is the batch size, and while the device is there skipped counts the unstorable rows |
| Ingestion.RowCarriesTheInstant | src/adms/cdata.ts:102-114 | a text its zone shows at one instant alone is stored with that instant iff the readings the conversion takes are of the year 100 or later |
| Ingestion.RowIsHeldAsQueued | src/adms/cdata.ts:115-119 | the row is held exactly when the delivery queue would hold it |
| Readings.OnlyAZeroGoesBack | src/adms/parsers/attlog.ts:33-49 | a text that parses to a time before the year 100 says the year 100 with a month or a day of zero |
| Readings.JanuaryOf100Parses | src/adms/parsers/attlog.ts:33-49 | the texts of midnights of January of the year 100, January 0 included, parse |
| Readings.EarlyReadingsAreLost | src/adms/timezone.ts:78-94 | a reading before the year 100 is shown by no result in any zone, and the year's first moment by none in a zone behind UTC |
| Registration.Registry.UpsertPendingDevice | src/adms/deviceLookup.ts:132-168 | the row after the four statements, one of them throwing before or after taking effect, and who reports first contact |
| Registration.Registry.ResolveDevice | src/adms/deviceLookup.ts:196-224 | trusted or rejected by exact secret; otherwise the upsert, and a logged ping on first contact or without a serial number |
| Registration.Registry.Claim | src/admin/devices.ts:210-296 | forbidden, conflict or claimed exactly when each applies, and what is left of row and device |
| Registration.UpsertIsASoloPing | src/adms/deviceLookup.ts:132-168 | wherever it fails, the method is the interleaved statements run without interruption |
| Registration.FirstWriteWins | src/adms/deviceLookup.ts:138-161 | over every interleaving between two removals the secret and the company are the first ones offered to the row and the count is the number of increments |
| Registration.ExactlyOneReportsNew | src/adms/deviceLookup.ts:139-163 | without failures exactly one call of a lifetime reports having created the row |
| Registration.AtMostOneReportsNew | src/adms/deviceLookup.ts:139-163 | whatever fails, at most one call of a lifetime reports having created the row |
| Registration.NeverTwoDevices | src/admin/devices.ts:258-283 | the serial number's unique key, kept over every run |
| Registration.AdministratorsWrite | src/admin/devices.ts:389-436 | dismissals, additions, edits and removals are possible at any time and change the pending row or the device, not both |
| Registration.ClaimTransactionWrites | src/admin/devices.ts:258-283 | on the rows as they are by then the transaction creates the device and deletes the row it had seen, or reports why not and leaves everything alone |
| Registration.CompletedPingOffers | src/adms/deviceLookup.ts:149-154 | a ping that completes without error in a lifetime has offered its secret to the row |
| Registration.ClaimCarriesTheFirstSecret | src/admin/devices.ts:224-273 | a claim that reads after a completed ping creates a device with the first captured secret, whatever happens before its transaction; later requests are trusted iff they carry it, until an edit |
| Timezone.ToUtcShowsTheReading | src/adms/timezone.ts:78-94 | for every reading in every zone, the result displays it iff some instant does and the digits and the two local times formatted are of the year 100 or later |
| Timezone.LaterReadingsAreSince | src/adms/timezone.ts:78-94 | that condition holds from twice the largest offset into the year 100 on |
| Timezone.ToUtcInvertsUniqueReadings | src/adms/timezone.ts:78-94 | a reading shown once converts to its instant iff the same condition holds |
| Timezone.OverlapPicksOneOfTheTwo | src/adms/timezone.ts:74-77 | in an overlap the result is one of the two instants, and which one |
| Timezone.GapUsesAnAdjacentOffset | src/adms/timezone.ts:74-77 | in a gap the result uses one of the two offsets around the step, and which one |
| Timezone.ReadingsSurviveTheRoundTrip | src/adms/timezone.ts:17-36 | instant to clock to UTC to clock gives the same reading |
| Timezone.ExactFromTheYear100On | src/adms/timezone.ts:35 | on UTC the conversion is the identity iff the year is at least 100 |
| Calendar.DayFromYearIsDayNumber | src/adms/timezone.ts:35 | counting year by year equals the closed form of ECMA-262 section 21.4.1 |
| Calendar.UtcFieldsOfTime | src/adms/timezone.ts:79-86 | the UTC getters read back the fields a time was made from |
| Calendar.DateUtcRoundTrip | src/adms/timezone.ts:79-86 | Date.UTC of the UTC getters is the time to the second, except for the years 0 to 99 |
| Calendar.TimeOrdersFields | src/adms/parsers/attlog.ts:37-46 | times are ordered as their calendar fields |
| Calendar.MonthLengths | src/adms/timezone.ts:35 | the months have their Gregorian lengths |
| Calendar.MonthsCarryOver | src/adms/parsers/attlog.ts:37-46 | a month twelve too high is the same month of the next year |
| Calendar.DaysCarryOver | src/adms/parsers/attlog.ts:37-46 | a day past a month's end is one of the next month |
| Datetime.MatchingTextIsADate | src/adms/parsers/attlog.ts:33-49 | a text of the right shape always gives a date |
| Datetime.ParsesExactlyTimestamps | src/adms/parsers/attlog.ts:28-36 | a text parses iff, without the spaces around it, it is nineteen characters of digits and separators in their places |
| Datetime.SeparatorsReadAlike | src/adms/parsers/attlog.ts:28 | a T between date and time reads as a space does |
| Datetime.RoundTripsExactly | src/webhooks/dispatcher.ts:28-34 | the Frappe format of the parsed time is the text again iff the text names a calendar moment of year 1000 or later |
| Datetime.ParsingKeepsOrder | src/adms/parsers/attlog.ts:33-49 | parsed times are strictly ordered as the digits read |
| Datetime.PrintedTimestampParses | src/adms/parsers/attlog.ts:28-49 | printing a time as a device does and parsing gives it back |
| Attlog.Collect | src/adms/parsers/attlog.ts:106-112 | the loop collects the records and the errors of the lines in order and never stops at a bad line |
| Attlog.ParseAttlogBody | src/adms/parsers/attlog.ts:100-115 | the records and errors of a body |
| Attlog.EveryLineIsAccountedFor | src/adms/parsers/attlog.ts:97-115 | records and errors together are the nonblank lines, each in its place |
| Attlog.ParsingIsAHomomorphism | src/adms/parsers/attlog.ts:104 | two bodies joined by any line terminator parse to the concatenation, even where terminators meet |
| Attlog.LineIsARecordExactly | src/adms/parsers/attlog.ts:57-83 | a line is a record iff it has four fields, a first that is not blank, a timestamp second, and a third and fourth that begin with a number; otherwise the error is that of the first of these that fails |
| Attlog.ShortLinesParse | src/adms/parsers/attlog.ts:85-94 | four fields and any number of further ones parse to the record with those columns, and null for the ones missing or empty |
| Attlog.FinalCRIsDropped | src/adms/parsers/attlog.ts:58 | a carriage return at the end of a line changes nothing |
| Attlog.BlankLinesAreSkipped | src/adms/parsers/attlog.ts:104 | a line of white space is passed over; any other is a record or an error |
| JsText.ParseIntReadsTheDigits | src/adms/parsers/attlog.ts:75-80 | spaces, a sign, digits and anything after them parse to the number the digits say |
| JsText.SpacesByCode | src/adms/parsers/attlog.ts:34 | the code points that are trimmed, those of sections 12.2 and 12.3 of ECMA-262 |
| Attlog.PrintedRecordParses | src/adms/parsers/attlog.ts:57-95 | a record printed in seven fields parses back |
| Attlog.PrintedBodyParsesBack | src/adms/parsers/attlog.ts:57-115 | printed well-formed records parse back with no errors |
| Template.MatchIsSound | src/webhooks/template.ts:62-63 | what the scan finds is a token of the grammar at that place |
| Template.MatchIsComplete | src/webhooks/template.ts:62-63 | a token of the grammar at a place is what the scan finds there |
| Template.TokensNeverOverlap | src/webhooks/template.ts:62 | two tokens of one text never share a character |
| Template.PrintOfDecompose | src/webhooks/template.ts:65-71 | a text is the printing of its decomposition into literals and tokens |
| Template.DecompositionIsUnique | src/webhooks/template.ts:65-71 | it is the only alternation of token-free literals and tokens |
| Template.EveryTextDecomposesOnce | src/webhooks/template.ts:65-71 | every text has such an alternation, and one alone |
| Template.InterpolationEvaluates | src/webhooks/template.ts:65-71 | interpolation substitutes the tokens of the decomposition, keeps unknown ones, never rescans |
| Template.InterpolationOfPrinted | src/webhooks/template.ts:65-71 | printing any alternation and interpolating is evaluating it |
| Template.InterpolationSubstitutes | src/webhooks/template.ts:65-71 | a token becomes nothing for a null, the text of a string, the numeral of a number, and stays as it is for an unknown name |
| Template.NamesAreWords | src/webhooks/template.ts:62 | a name is made of letters, digits and underscores |
| Rendering.RenderingKeepsShape | src/webhooks/template.ts:73-92 | rendering changes string leaves only |
| Rendering.RenderingDependsOnNames | src/webhooks/template.ts:73-92 | only the values of the names a template mentions matter |
| Rendering.UnknownNamesStayVerbatim | src/webhooks/template.ts:6-8 | a template with no known name comes back as written |
| Rendering.PlaceholderRendersRaw | src/webhooks/template.ts:74-76 | an exact placeholder, white space around it or not, renders to the JSON number, string or null its variable is |
| Rendering.OtherStringsStayStrings | src/webhooks/template.ts:73-77 | any other string renders to a string, its tokens interpolated |
| Rendering.TemplateRendersPartByPart | src/webhooks/template.ts:73-86 | a custom template is rendered item by item and member by member, keys and scalars as they are; a JSON null counts as no template |
| Rendering.RenderHeaders | src/webhooks/template.ts:96-106 | every header once, each value interpolated |
| Rendering.DefaultPayloadIsATemplate | src/webhooks/dispatcher.ts:60-84 | the default payload is what a template of exact placeholders renders |
| Dispatch.DeviceReadingReachesTheEndpoint | src/webhooks/dispatcher.ts:36-57 | the device's timestamp text reaches a Frappe endpoint digit for digit iff it names a calendar moment of year 1000 or later |
| Dispatch.DefaultPayloadIsComplete | src/webhooks/dispatcher.ts:36-75 | the variables of any punch give the default payload all its values |
| Dispatch.BuildTemplateVars | src/webhooks/dispatcher.ts:36-57 | exactly the documented placeholder names, each with its own column |
| Dispatch.PayloadListsVars | src/webhooks/dispatcher.ts:60-75 | the default payload is the event and the eleven variables under their own names, in order |
| Dispatch.DefaultPayloadOfAPunch | src/webhooks/dispatcher.ts:36-75 | the twelve members of a punch's default payload, each with its own column: status and verify mode as numbers, work code, UTC time and zone null when absent |
| RateLimit.RateLimiter.Check | src/middleware/rateLimit.ts:40-44 | the verdict on the live entry, and the expired entry dropped |
| RateLimit.RateLimiter.Sweep | src/middleware/rateLimit.ts:22-27 | removes exactly the expired entries |
| RateLimit.RateLimiter.HandleRequest | src/middleware/rateLimit.ts:68-77 | one request through the middleware: verdict and map |
| RateLimit.SlidingBound | src/middleware/rateLimit.ts:66-78 | any stretch as long as the window lets at most 2·max − 1 requests of a key through, 2·max with its right end |
| RateLimit.SlidingBoundIsReached | src/middleware/rateLimit.ts:66-78 | for every maximum and every window of at least 2 ms one run reaches both numbers |
| RateLimit.ZeroMaxStillAdmits | src/middleware/rateLimit.ts:42 | with a maximum of at most zero the bound fails at the first request |
| RateLimit.SweepIsInvisible | src/middleware/rateLimit.ts:22-27 | every verdict and retry time is the one a limiter without the sweep gives |
| RateLimit.EveryRequestIsAnswered | src/middleware/rateLimit.ts:68-77 | each request of a run gets one verdict, in the state the events before it left |
| RateLimit.WaitingIsRewarded | src/middleware/rateLimit.ts:43 | waiting as told with nothing let through since guarantees admission |
| RateLimit.RefusedUntilTheEnd | src/middleware/rateLimit.ts:43 | refused until the window ends, and told to wait less than a second longer |
| LoginLimit.FailuresAreBounded | src/admin/auth.ts:62-85 | with never more than c logins of a key in flight, at most max − 1 + c failures of it are counted in a window |
| LoginLimit.FailuresInAnyWindow | src/admin/auth.ts:62-85 | a limiter never reset, as the one by address: with n = max − 1 + c, any stretch as long as the window holds at most 2n − 1 counted failures of a key, 2n with its right end |
| LoginLimit.FailuresReachTheBound | src/admin/auth.ts:62-85 | for every maximum and every c a run reaches that bound |
| LoginLimit.SweepsWrite | src/middleware/rateLimit.ts:22-27 | a sweep at any time drops the ended entries alone and no login in flight |
| LoginLimit.SuccessWrites | src/admin/auth.ts:62-85 | a success forgets the failures of its key alone, where its limiter is reset; a lookup that throws counts nothing |
| Commands.CommandQueue.HandleGetRequest | src/adms/getrequest.ts:33-50 | the oldest ten or fewer pending commands are marked sent, every other command and every other field stays, and the body prints the commands |
| Commands.OldestMeans | src/adms/getrequest.ts:33-37 | the poll takes pending commands of the device, at most ten, oldest first; one left out is no older than any taken and ten were taken |
| Commands.CommandQueue.HandleDeviceCmd | src/adms/devicecmd.ts:38-48 | acknowledges the command the report names, if there is one, and no other |
| Commands.ReportFormats | src/adms/devicecmd.ts:38 | an id without ampersand or white space is read back when an ampersand, a white-space character or nothing follows it |
| Commands.ReportAcknowledges | src/adms/devicecmd.ts:38-48 | a report on such an id leaves its command acknowledged with the report as response, its text, device and age kept, and every other command as it was |
| Commands.ExtractsTheFirst | src/adms/devicecmd.ts:38 | the id is that of the leftmost match, as long as it can be |
| Commands.FirstIdIsTaken | src/adms/devicecmd.ts:38 | wherever the report first names an id, that id is read, up to an ampersand, white space or the end |
| Commands.AnIdIsReadIff | src/adms/devicecmd.ts:38 | there is an id iff "ID=" stands somewhere before a character that is neither an ampersand nor white space |
| Commands.ReportNamesItsCommand | src/adms/devicecmd.ts:30-38 | a report names its command whatever fields follow |
| Commands.PrintedBodyReadsBackExactly | src/adms/getrequest.ts:49 | read line by line and colon by colon the body gives back every id and text in order, one line each, iff no text holds a newline |
| Commands.NewlineSplitsALine | src/admin/devices.ts:558-562 | a text with a newline is printed as two lines, and the second may read as another command |
| Commands.RunSane | src/adms/getrequest.ts:33-47 | the invariant of orderly runs: printed commands are never pending again and nothing older waits |
| Commands.PrintedOnceInOrder | src/adms/getrequest.ts:33-50 | over a whole orderly run no command is printed twice and each device gets its commands oldest first |
| Commands.StatusOnlyRises | src/adms/getrequest.ts:44-47 | over orderly runs a status only rises: acknowledged for good, and never pending again |
| CommandRaces.LowersExactly | src/adms/getrequest.ts:44-47 | the one step that lowers a status is a poll's second statement on an acknowledged command it has read |
| CommandRaces.LoweredIffReportedMidPoll | src/adms/getrequest.ts:33-47 | any interleaving: a status ever falls iff a report arrives between the two statements of a poll that has read its command |
| CommandRaces.PrintedTwiceIffPollsOverlap | src/adms/getrequest.ts:33-50 | any interleaving: a command is printed more than once iff two polls that have both read it are open together and both complete |
| CommandRaces.LateMarkUndoesAReport | src/adms/getrequest.ts:44-47 | enqueue, read, report, mark: a run from an empty queue that ends with the report undone |
| CommandRaces.OverlappingPollsRepeat | src/adms/getrequest.ts:33-50 | enqueue and two overlapping polls: a run from an empty queue that prints the command twice |
| Commands.PollsDrain | src/adms/getrequest.ts:33-50 | k polls with nothing else going on print exactly min(10k, n) of n pending commands and leave the rest |
| Commands.QuietStepsWrite | src/admin/devices.ts:564-585 | enqueueing, purging and time: always possible, a new command pending with its text and age, every other as it was |
| DataTable.AlwaysTiebroken | src/utils/datatable.ts:27-37 | every order ends in the unique id |
| DataTable.SortsByTheColumn | src/utils/datatable.ts:33-36 | a sorted result runs along the column in the direction asked for, and along the ids where it ties |
| DataTable.NumbersRunAlong | src/utils/datatable.ts:33-36 | the numbers of a numeric column ascend along the result, or descend if that is asked for |
| DataTable.OtherwiseTheFallbackSorts | src/utils/datatable.ts:33-34 | without a known column the result runs along the fallback order, the ids falling where that ties |
| DataTable.CompareTransitive | src/utils/datatable.ts:27-37 | term-by-term comparison is transitive, nulls included |
| DataTable.OnlyTheSameIdTies | src/utils/datatable.ts:23-26 | with the tiebreaker only rows with the same id tie |
| DataTable.SortedIsUnique | src/utils/datatable.ts:23-26 | two sorted arrangements of the same rows are equal |
| DataTable.SortSorts | src/utils/datatable.ts:27-37 | a sorted arrangement exists |
| DataTable.PagesConcatenate | src/admin/devices.ts:339-348 | pages of separate queries, each free to break ties, concatenate to the whole sorted result |
| DataTable.TiesRepeatRows | src/utils/datatable.ts:24-26 | without the tiebreaker a row may appear on two pages and another on none |
| DataTable.NullsComeLast | src/utils/datatable.ts:52-57 | a nulls-last column has its nulls last in either direction |
| DataTable.NullsAreLargest | src/utils/datatable.ts:52-54 | any other column has its nulls last when ascending and first when descending |
| DataTable.ValuesInOrder | src/utils/datatable.ts:27-37 | numbers ascend by value and texts by the first character in which they differ |
| Slug.PatternMeansTidy | src/utils/slug.ts:11 | the slug pattern means letters, digits and hyphens, none leading, trailing or double |
| Slug.ValidSlugsExactly | src/utils/slug.ts:11-20 | a slug is valid iff it has 3 to 63 letters, digits and hyphens, none leading, trailing or double, and is not a reserved word |
| Slug.SlugifyGivesSlugs | admin-ui/src/utils/slug.ts:4-10 | the suggestion keeps the letters and digits of the lowered name, is empty iff there are none, and is in the pattern otherwise |
| Slug.SlugifyKeepsSlugs | admin-ui/src/utils/slug.ts:4-10 | a slug is its own suggestion |
| Slug.SlugifyIsIdempotent | admin-ui/src/utils/slug.ts:4-10 | suggesting twice is suggesting once |
| Slug.SuggestionIsValid | src/utils/slug.ts:13-20 | the server takes a suggestion iff its length fits and it is not reserved |

## Left out

- DeliveryWorker.Worker.ProcessPunchRecord: the HTTP call, its signature and its timeout are one outcome and whatever happens meanwhile; columns that no rule reads (status code, bodies) are not kept.
- DeliveryWorker.Worker.Tick: a tick that fails while reading settings or claiming has done nothing, and the retention sweep at its end is the queue's delete step.
- DeliveryBounds.AttemptsAreBounded: assumes the clock has not reached 2099-01-01, the parking date, and never goes back.
- DeliveryLeases.LeasesGiveExactLogs: one clock for database and workers; `now()` of the claim query and `Date.now()` of the lease are the same reading.
- Ingestion.StoredExactlyOnce: one device is followed; its rows go only with it, the deletion of single records, by hand or by the retention sweep, and that of other devices being left out. A record is storable or not once and for all, its device apart. The three outcomes of the error classification are modelled, not its table of codes.
- Ingestion.HandleCdataPost: only the ATTLOG table; other tables are stored verbatim. A body over the size limit is acknowledged and dropped before this code (`src/adms/router.ts:105-136`).
- Registration.ClaimCarriesTheFirstSecret: the row is followed for one serial number, all statements of other serial numbers being independent; the ping that counts began in the row's current lifetime.
- Timezone.ToUtcShowsTheReading: a zone is a step function with offsets of whole seconds, of at most a day, and transitions more than twice the largest offset apart; how Intl finds an offset is not modelled.
- Attlog.PrintedRecordParses: parsed numbers are exact integers; JavaScript rounds numerals beyond 2^53. Texts are sequences of characters, where JavaScript has UTF-16 units.
- Rendering.RenderHeaders: headers and template variables are maps, so names JavaScript objects inherit (such as `constructor`) do not count as known.
- Dispatch.DeviceReadingReachesTheEndpoint: `toISOString` is a parameter.
- LoginLimit.FailuresAreBounded: the limiters by address and by e-mail are followed one at a time, the other's verdict being an input.
- RateLimit.SlidingBound: windows are whole milliseconds and at least one long.
- Commands.PrintedOnceInOrder: assumes that one device's requests do not overlap and that it reports only what it was sent; `CommandRaces.dfy` has what happens otherwise.
- DataTable.SortedIsUnique: texts compare by character code; the database's collation is another total order.
- Slug.SlugifyKeepsSlugs: lower-casing is a parameter that leaves slugs alone.
- Postgres and Prisma: statements and transactions are atomic, with their unique and foreign keys.
- The TimeZone= handshake value, device online status, retention cutoffs, settings bounds, search conditions, raw logs and seeding: settled by one expression each.
- Authentication, roles beyond the company checks above, the outbound url guard, Express routing and the React UI apart from the slug suggestion.
