# Insider alerts: verified models

Models of the parts of the insider-alerts system where a mistake would be hard to see: an append-only
acquisition protocol, a live trading ledger beside a broker that does not share its transactions, an
incident tracker, a bar ledger, a crash-safe quarantine and the study kernels.  Each file models one
component and proves what the component is for.

| files | component |
|---|---|
| `Journal.dfy`, `JournalRows.dfy` | the hash-chained commissioning journal: validator and writer |
| `Calendar.dfy`, `CalendarJournal.dfy`, `CalendarConflicts.dfy`, `CalendarNotices.dfy` | versioned exchange days, bindings and their conflicts |
| `LocalTime.dfy`, `Window.dfy` | the frozen window: entry session, history, manifest, admission |
| `Receipts.dfy`, `Evidence.dfy`, `Cases.dfy`, `CaseRecords.dfy` | what one response proves, first complete receipts, cases and jobs |
| `Planner.dfy`, `Fairness.dfy` | the next request, and whole runs of requests |
| `WorkerRuntime.dfy`, `WorkerRecords.dfy`, `Worker.dfy` | one process's locked sections; all processes, locks, sealing and replay |
| `Canary.dfy`, `CanaryRunner.dfy`, `CanaryEntries.dfy`, `CanaryReconcile.dfy`, `CanaryOutcomes.dfy`, `CanaryLive.dfy`, `CanaryCycles.dfy` | the live ledger as a step machine with crashes, its passes and one whole cycle |
| `Shadow.dfy`, `ShadowOutcomes.dfy` | the capacity of the shadow book |
| `Incidents.dfy`, `IncidentLog.dfy` | outage and recovery notices |
| `BarFeed.dfy`, `BarPolls.dfy`, `BarCollection.dfy`, `BarAttempts.dfy` | observations, the poll cache, fair collection |
| `Quarantine.dfy`, `Watchdog.dfy` | the resumable quarantine and the fence around it |
| `MultipleTesting.dfy`, `Rejections.dfy`, `Slots.dfy`, `Buckets.dfy`, `ForwardReturns.dfy`, `Folds.dfy`, `FoldCounts.dfy` | adjusted p-values, slots, quantile buckets, returns and out-of-sample folds |
| `Prelude.dfy`, `Sorting.dfy` | shared results, stable sorting, the order of text |

`dafny verify dfyconfig.toml` checks everything.  Every lemma turns automatic induction off, so each
proof stands in its own body.

## How the models are set up

- Code that updates something step by step is a method with a loop, or a class whose methods update
  fields; each is tied to a function of its inputs or old state, and the lemmas are about that
  function.  Protocols with crashes or several processes are step machines, with theorems over every
  run; the ledger object's passes are proved to be runs of the machine.
- Canonical encoding (section 3.2 of RFC 8785) followed by SHA-256 is one function, taken as a
  parameter.  A theorem that needs it assumes only that no two of the records at hand collide.
  Where the source stores a digest only to compare contents, the model compares the contents.
  A broker token is the packet id itself, and an incident's id its position.
- SQLite tables are sequences or maps; a transaction or a mutex section is one atomic step.  In the
  canary ledger every update is its own step, because the source commits each one alone.
- Instants are integers (microseconds) and dates are ordinals.  New York time is an abstract zone
  whose `at` is the first instant that reaches a local date and time; `LocalTime.UtcIsValid` shows
  the assumption can be met.
- Prices, cash and p-values are exact reals; share counts are whole.
- The environment is a parameter: what a source, a broker, the scheduler or a clock answers is an
  arbitrary function or step.  The canary assumes that the broker reports live entry orders by
  reference, that a rejected order never revives, and that one runner at a time writes the ledger.

Five properties hold only under a condition, which is stated exactly.

- A canary row's exit session does not always stay what it was when the entry was sent.  If the runner
  dies before it records an order that the broker then rejects, the row is still queued, and a later
  pass on its entry day writes the exit session anew, from the sessions listed then.
  `Canary.RejectedUnrecordedExitMoves` is such a run.  The exit session of a held packet is final in
  every later world exactly when its row is no longer queued (`Canary.ExitIsFinalExactlyWhen`), so from
  submission or adoption on (`Canary.SettledExitIsFinal`).
- A conflict on a bound open session persists in every descendant, but a conflict on a skipped closed
  date does not: `CalendarConflicts.SkippedDateConflictPersistsExactlyWhen` says when it does, and
  `CalendarConflicts.SkippedDateConflictCanClear` is an accepted journal in which it clears.
- A first-observed read is not stable at a watermark ahead of the rows stored so far while its range
  has a day without a row: `BarFeed.WatermarkReadIsStable`.
- Equal p-values get equal step-up values exactly unless they are negative, which the code accepts:
  `MultipleTesting.StepUpValueMonotone`, with `MultipleTesting.EqualNegativesDiffer` as the input.
- A resumed quarantine finishes exactly when no member has an occupied destination:
  `Quarantine.ResumeFinishes`.

## Model

| member | source | states |
|---|---|---|
| `Journal.Load` | src/insider_alerts/research/commissioning_journal.py:53-108 | one pass accepts a table exactly when every row satisfies the record rules against all rows before it, and returns those records |
| `Journal.Store.Append` | src/insider_alerts/research/commissioning_journal.py:185-200 | a normal return leaves an accepted table, unchanged for an identical repeated response and otherwise one record longer; a refusal changes nothing |
| `Journal.AcceptedExactlyWhenWritten` | src/insider_alerts/research/commissioning_journal.py:53-108 | the validator accepts a table if and only if some run of writer calls produces it |
| `Journal.HeadCommitsToHistory` | src/insider_alerts/research/commissioning_journal.py:53-108 | two accepted tables with the same head digest are equal record for record, if no two of their records collide |
| `Journal.WalkVisitsTheKey` | src/insider_alerts/research/commissioning_journal.py:53-108 | following supersedes from the newest record of a kind and entity visits exactly that key's records in reverse |
| `Journal.AcceptedShape` | src/insider_alerts/research/commissioning_journal.py:87-94 | only the first record activates, only the last may seal, clocks never run backwards |
| `Journal.ResponsesAnswerOnce` | src/insider_alerts/research/commissioning_journal.py:89-93 | each response answers one earlier attempt and no attempt is answered twice |
| `Journal.SealIsFinal` | src/insider_alerts/research/commissioning_journal.py:94-94 | after a seal no row is acceptable and the writer only repeats old responses |
| `Journal.DigestsDistinct` | src/insider_alerts/research/commissioning_journal.py:59-60 | two positions of an accepted table never share a digest |
| `JournalRows.AcceptedExactlyWhenLegal` | src/insider_alerts/research/commissioning_journal.py:53-108 | the validator accepts a table if and only if it is not empty and every row, on its stored columns alone, is legal where it stands |
| `JournalRows.AppendsExactlyWhen` | src/insider_alerts/research/commissioning_journal.py:141-200 | an event that answers no answered attempt is appended as the one row that carries it and is legal there, and refused if and only if there is none |
| `JournalRows.RepeatsExactlyWhen` | src/insider_alerts/research/commissioning_journal.py:189-196 | an event that answers an answered attempt adds nothing and succeeds if and only if its payload repeats the answer |
| `JournalRows.WalkIsTheKeysRows` | src/insider_alerts/research/commissioning_journal.py:163-176 | following supersedes visits every row of the key and no other, newest first |
| `Calendar.Bind` | src/insider_alerts/research/calendar_v2.py:169-192 | counts the open anchor as session one, refuses an unknown day on the way, and refuses bad counts or a closed anchor |
| `Calendar.SessionsAreOpenDays` | src/insider_alerts/research/calendar_v2.py:177-184 | bound sessions are open days of the version, strictly increasing, from the anchor on |
| `Calendar.SessionsSkipOnlyClosed` | src/insider_alerts/research/calendar_v2.py:177-184 | every day of the span is known, and every open one is bound |
| `Calendar.BindTail` | src/insider_alerts/research/calendar_v2.py:169-192 | binding restarted at session i of a binding equals the matching slice of the original |
| `Calendar.ConflictMeansDisagreement` | src/insider_alerts/research/calendar_v2.py:195-208 | a date conflicts exactly when it lies in the span and the two versions differ on it |
| `Calendar.ConflictFreeExactlyWhenRebindAgrees` | src/insider_alerts/research/calendar_v2.py:195-208 | no conflict if and only if binding the same anchor and count on the descendant succeeds with the same sessions |
| `Calendar.ChangedDay` | src/insider_alerts/research/calendar_v2.py:325-329 | a notice replaces the facts of its named covered dates and of no other |
| `CalendarJournal.Load` | src/insider_alerts/research/calendar_v2.py:348-432 | accepts exactly the tables whose rows replay from the baseline and whose sources are all used, and describes each version |
| `CalendarJournal.Store.AppendNotice` | src/insider_alerts/research/calendar_v2.py:510-531 | an exact retry returns the head, a stale parent is refused, otherwise one version is added and the journal stays accepted |
| `CalendarJournal.MaterialRoundTrip` | src/insider_alerts/research/calendar_v2.py:226-246 | rebuilding a notice from its stored material and source gives the same material |
| `CalendarJournal.ExtendedAcceptedExactly` | src/insider_alerts/research/calendar_v2.py:510-531 | re-reading accepts a table extended by a changing notice exactly when the notice is not dated after its observation |
| `CalendarJournal.StepKeepsAccepted` | src/insider_alerts/research/calendar_v2.py:510-531 | every writer call keeps the journal accepted |
| `CalendarJournal.StoredDaysAreReplay` | src/insider_alerts/research/calendar_v2.py:393-424 | the stored facts of each version are the fold of its notices over the baseline |
| `CalendarJournal.OpenDaysOnlyShrink` | src/insider_alerts/research/calendar_v2.py:325-329 | a day open in a version is open with the same hours in every ancestor |
| `CalendarJournal.ClocksIncrease` | src/insider_alerts/research/calendar_v2.py:405-407 | observation clocks strictly increase along the chain |
| `CalendarJournal.AsOfIgnoresLaterVersions` | src/insider_alerts/research/calendar_v2.py:506-508 | as_of at a cutoff is unchanged by any versions observed after it |
| `CalendarJournal.AsOfIsNewestObserved` | src/insider_alerts/research/calendar_v2.py:506-508 | as_of returns the newest version observed at or before the cutoff |
| `CalendarJournal.AsOfNothingObserved` | src/insider_alerts/research/calendar_v2.py:506-508 | as_of is empty before the first observation |
| `CalendarJournal.OneVersionPerParent` | src/insider_alerts/research/calendar_v2.py:405-407 | no two versions name the same parent |
| `CalendarJournal.LosersAddNothing` | src/insider_alerts/research/calendar_v2.py:519-523 | a later append that names a parent already built on adds nothing |
| `CalendarConflicts.DescendantsAreLater` | src/insider_alerts/research/calendar_v2.py:427-428 | a version is a descendant of another exactly when it comes later in the chain |
| `CalendarConflicts.SessionConflictsPersist` | src/insider_alerts/research/calendar_v2.py:195-208 | a conflict on a bound open session persists in every later descendant |
| `CalendarConflicts.SkippedDateConflictsWhenUnknown` | src/insider_alerts/research/calendar_v2.py:203-208 | a bound closed date conflicts exactly while it is unknown |
| `CalendarConflicts.SkippedDateConflictsExactlyWhen` | src/insider_alerts/research/calendar_v2.py:195-208 | a bound closed date conflicts exactly while the newest notice on it since the binding marks it unknown |
| `CalendarConflicts.SkippedDateConflictPersistsExactlyWhen` | src/insider_alerts/research/calendar_v2.py:195-208 | a conflict on a skipped date is still there in a later version exactly unless the newest notice on it in between closes it |
| `CalendarConflicts.SkippedDateConflictCanClear` | src/insider_alerts/research/calendar_v2.py:325-329 | an accepted journal of three versions and a binding whose conflict on a skipped date is there in the second version and gone in the third |
| `CalendarNotices.BindsExactlyWhen` | src/insider_alerts/research/calendar_v2.py:169-192 | a binding succeeds with a list of sessions if and only if that list is the run of open days of that length from the anchor on, with no unknown day in its span |
| `CalendarNotices.ComparedExactlyWhenLater` | src/insider_alerts/research/calendar_v2.py:195-208 | in one journal a binding is compared if and only if it is what its version gives and the other version is the same or a later one |
| `CalendarNotices.VersionIsRow` | src/insider_alerts/research/calendar_v2.py:427-429 | a version repeats the columns of its row, and its ancestors are the digests of all earlier rows in order |
| `CalendarNotices.AcceptedExactlyWhen` | src/insider_alerts/research/calendar_v2.py:348-432 | a journal is accepted if and only if the published baseline opens it, every row legally follows the row before it, and the kept source bytes are exactly those named |
| `CalendarNotices.PublishedExactlyWhen` | src/insider_alerts/research/calendar_v2.py:510-531 | a notice is published if and only if it is usable, observed at most five seconds ahead, names the newest version, is observed after it, was published by then and changes a covered date, or else repeats the newest one; and the row this adds |
| `Window.SessionFor` | src/insider_alerts/research/commissioning_window.py:41-53 | the search over 32 days with its unknown-day and exhausted errors |
| `Window.EntryIsFirstReachable` | src/insider_alerts/research/commissioning_window.py:41-53 | the entry is the first open day whose 09:20 deadline is still ahead of the signal |
| `Window.EntryMonotone` | src/insider_alerts/research/commissioning_window.py:41-53 | a later signal never enters an earlier session |
| `Window.HistoryDates` | src/insider_alerts/research/commissioning_window.py:56-70 | the newest twenty complete sessions, oldest first, with its errors |
| `Window.HistoryIsOpenDays` | src/insider_alerts/research/commissioning_window.py:56-70 | history is open days in increasing order with none left out |
| `Window.HistoryMonotone` | src/insider_alerts/research/commissioning_window.py:56-70 | a later signal never reaches back before the history of an earlier one |
| `Window.NoticesKeepHours` | src/insider_alerts/research/calendar_v2.py:325-329 | notices never give a trading day other hours |
| `Window.ManifestSessions` | src/insider_alerts/research/commissioning_window.py:124-148 | a valid manifest holds twenty bound open sessions and the first history date of its boundary |
| `Window.Admit` | src/insider_alerts/research/commissioning_window.py:186-236 | membership and reasons are fixed by the frozen instants before any dates, and dates are all present or absent; the instants themselves are pinned by the rows on enrollment and the manifest below |
| `Window.EnrolledEntryIsFrozen` | src/insider_alerts/research/commissioning_window.py:207-221 | a signal inside the enrollment period always enters one of the ten entry sessions |
| `Window.EnrolledRowsAreAdmitted` | src/insider_alerts/research/commissioning_window.py:200-221 | an enrolled row is admitted unless the bounded calendar search finds no session |
| `Window.AdmittedDatesAreContained` | src/insider_alerts/research/commissioning_window.py:124-148 | horizon is ten consecutive frozen sessions from the entry, stability the next, history not before the frozen history, last close before the recovery deadline |
| `Window.LastCloseBeforeRecovery` | src/insider_alerts/research/commissioning_window.py:140-148 | every horizon ends before the recovery deadline |
| `Window.EnrollmentIsExact` | src/insider_alerts/research/commissioning_window.py:200-221 | for a signal from the boundary on, the entry lies in the ten entry sessions if and only if the signal precedes the end of enrollment |
| `Window.ManifestIsProspective` | src/insider_alerts/research/commissioning_window.py:124-148 | a valid manifest is made at least two hours before its boundary from a version observed by then, and recovery ends at the first eight o'clock that leaves five days after the nineteenth session and three after the twentieth |
| `Window.EntryExistsExactly` | src/insider_alerts/research/commissioning_window.py:41-53 | an entry is found if and only if one of the next 32 days is open with its deadline ahead and no unknown day comes before it |
| `Window.HistoryExistsExactly` | src/insider_alerts/research/commissioning_window.py:56-70 | a history is found if and only if some day of the last eighty has twenty open days since, with no unknown day among them |
| `Window.HistoryIsNewestComplete` | src/insider_alerts/research/commissioning_window.py:56-70 | the history is the newest twenty open days whose 16:00 had passed at the signal, with none left out |
| `Window.MembershipDecided` | src/insider_alerts/research/commissioning_window.py:186-236 | which rows are outside and which admitted, by signal, first observation, the frozen instants and whether an entry exists; admission makes none preexisting |
| `Receipts.ReadBars` | src/insider_alerts/research/commissioning_receipts.py:128-174 | bars and date issues after the loop with its seen set |
| `Receipts.CoveredBarIsUnique` | src/insider_alerts/research/commissioning_receipts.py:128-174 | a date kept without issue was returned in exactly one row, and that row is sound |
| `Receipts.ReadSchedule` | src/insider_alerts/research/commissioning_receipts.py:177-216 | completed and projected listings and date issues after the loop |
| `Receipts.CoveredListingIsUnique` | src/insider_alerts/research/commissioning_receipts.py:177-216 | a completed date without issue was listed exactly once and agrees with the frozen calendar |
| `Receipts.InspectReceipt` | src/insider_alerts/research/commissioning_receipts.py:60-125 | a receipt is usable exactly when no check failed |
| `Receipts.CoverageMeansOneSoundBar` | src/insider_alerts/research/commissioning_receipts.py:219-225 | coverage means scope, clocks and window were right and each date has one sound bar that had closed |
| `Receipts.CoverageMeansOneListing` | src/insider_alerts/research/commissioning_receipts.py:219-225 | schedule coverage means each date was listed once with the calendar's hours |
| `Receipts.StableMeansSameRows` | src/insider_alerts/research/commissioning_receipts.py:243-253 | a stable pair returned the same single row for every date |
| `Receipts.UsableExactlyWhen` | src/insider_alerts/research/commissioning_receipts.py:60-125 | a receipt is usable if and only if the answer is of the kind asked for, to the very request committed, asked no later data than it was sent for, came outside trading hours from one qualified contract, and all seven clocks are in order |
| `Receipts.PinsExactlyWhen` | src/insider_alerts/research/commissioning_receipts.py:22-57 | an answer pins a contract if and only if it qualified a US stock on a listed exchange for the attempt, in clock order |
| `Receipts.CoversExactlyWhen` | src/insider_alerts/research/commissioning_receipts.py:219-225 | a receipt covers dates if and only if it is usable, of the kind asked for, and one sound row stands for each date |
| `Evidence.ExchangesExtend` | src/insider_alerts/research/commissioning_planner.py:60-76 | extending the journal only appends to the paired responses |
| `Evidence.PinIsFinal` | src/insider_alerts/research/commissioning_planner.py:90-96 | a pinned contract never changes |
| `Evidence.SuccessIsFinal` | src/insider_alerts/research/commissioning_planner.py:101-119 | the first complete receipt of a job never changes |
| `Evidence.Success` | src/insider_alerts/research/commissioning_planner.py:101-119 | a returned receipt is one of the exchanges and completes the job |
| `Evidence.RepeatAfter` | src/insider_alerts/research/commissioning_planner.py:121-129 | the repeat instant is an exchange close strictly after the response |
| `Evidence.ReceiptsAreFrozen` | src/insider_alerts/research/commissioning_planner.py:90-205 | under one calendar version every extension keeps the pin, each bound receipt and a decided stability; which receipts are bound is said by the row on binding below |
| `Evidence.StableMeansSeparated` | src/insider_alerts/research/commissioning_planner.py:162-205 | stability implies an exchange close strictly after R2 was received and no later than R3 was attempted, and equal single rows |
| `Evidence.ExchangesArePaired` | src/insider_alerts/research/commissioning_planner.py:60-76 | the exchanges are exactly the recorded responses, each with the attempt it names |
| `Evidence.PinIsFirst` | src/insider_alerts/research/commissioning_planner.py:90-96 | the pin of an owner is what the first of its exchanges that qualifies a contract qualifies |
| `Evidence.CompletesExactlyWhen` | src/insider_alerts/research/commissioning_planner.py:101-119 | an exchange completes a job if and only if it carries the key, is usable, on the pinned contract, inside the clocks of the job and has a sound row for each date |
| `Evidence.SuccessIsFirst` | src/insider_alerts/research/commissioning_planner.py:101-119 | a job is complete if and only if some exchange completes it, and its receipt is the first that does |
| `Evidence.RepeatIsNextClose` | src/insider_alerts/research/commissioning_planner.py:121-129 | the repeat instant is the first exchange close after the response |
| `Evidence.StagesBindExactly` | src/insider_alerts/research/commissioning_planner.py:162-205 | R1 is bound if and only if an exchange from the first observation on has one sound row for every history date, R2 and R3 if one has them for history and horizon after the horizon close and after the repeat instant |
| `Evidence.BoundReceiptsAreTimely` | src/insider_alerts/research/commissioning_planner.py:162-205 | nothing bound to R1 was asked for before the first observation, nothing bound to R2 before the horizon close, nothing bound to R3 before R2 was answered, and all were recorded before the deadline |
| `Cases.CollectCases` | src/insider_alerts/research/commissioning_planner.py:207-215 | first payload and revision count of every case after the loop, in order of first appearance |
| `Cases.CasesOnlyGrow` | src/insider_alerts/research/commissioning_planner.py:207-215 | later records only add cases at the end; a first record is never replaced |
| `Cases.CaseReceiptsAreFrozen` | src/insider_alerts/research/commissioning_planner.py:207-240 | once a journal holds a case, every extension keeps its plan, pin and bound receipts however often its row is revised |
| `Cases.MembershipsPartitionCases` | src/insider_alerts/research/commissioning_planner.py:321-330 | admitted, outside, unassignable and preexisting counts add up to the cases |
| `Cases.CountsOnlyGrow` | src/insider_alerts/research/commissioning_planner.py:321-330 | a case never moves between the counts |
| `Cases.JobKeysAreDistinct` | src/insider_alerts/research/commissioning_planner.py:207-313 | no two jobs share a key |
| `Cases.DatedCasesHavePlans` | src/insider_alerts/research/commissioning_planner.py:171-173 | the horizon close of a dated case is always known under the frozen version |
| `Cases.CaseJobsAsk` | src/insider_alerts/research/commissioning_planner.py:207-275 | what every job of a case asks for, when it is ready and when it expires, from the first record of the case |
| `Cases.PlannedCasesAreAsked` | src/insider_alerts/research/commissioning_planner.py:207-275 | every admitted case with a valid symbol and dates has its R1 and its R2 among the jobs |
| `Cases.BenchmarkJobsAsk` | src/insider_alerts/research/commissioning_planner.py:276-313 | what the stages, the checkpoint and the schedules of the benchmark ask for, and when |
| `Cases.BenchmarkHistoryIsOpenDays` | src/insider_alerts/research/commissioning_planner.py:265-273 | the benchmark history is the open days from the earliest history date up to the first session |
| `CaseRecords.FirstCaseIsOldest` | src/insider_alerts/research/commissioning_planner.py:207-215 | a case is what its oldest custody record says |
| `CaseRecords.RevisionsAreRecords` | src/insider_alerts/research/commissioning_planner.py:207-215 | its revisions are all its custody records |
| `CaseRecords.CasesByOldest` | src/insider_alerts/research/commissioning_planner.py:207-215 | cases are listed in the order of their oldest records |
| `CaseRecords.CountsAreCases` | src/insider_alerts/research/commissioning_planner.py:321-330 | each membership is counted once for every listed case that has it |
| `Planner.InfrastructureRetryAt` | src/insider_alerts/research/commissioning_planner.py:78-88 | the retry instant after a backward scan of the attempts |
| `Planner.TrailingIsLongestFailedSuffix` | src/insider_alerts/research/commissioning_planner.py:78-86 | the count is the longest run of failures at the end |
| `Planner.BackoffDoublesToCap` | src/insider_alerts/research/commissioning_planner.py:87-87 | the wait starts at 300 seconds, doubles, and stays at 1800 |
| `Planner.NextRequest` | src/insider_alerts/research/commissioning_planner.py:394-460 | gates, eligibility, sorting and merging as one request; which jobs are eligible, and when none is asked for, is said on attempts and seconds by the rows on eligibility, idling and the fairness of runs |
| `Planner.QueueHead` | src/insider_alerts/research/commissioning_planner.py:408-446 | the queue holds exactly the eligible jobs and its head precedes every one |
| `Planner.RequestNamesServedJobs` | src/insider_alerts/research/commissioning_planner.py:447-460 | the request names exactly the eligible jobs of the head's symbol, contract and kind |
| `Planner.RequestAsksServedDates` | src/insider_alerts/research/commissioning_planner.py:447-460 | it asks for the union of their dates from the earliest |
| `Planner.IdleExactlyWhen` | src/insider_alerts/research/commissioning_planner.py:394-431 | no request is made exactly for one of the stated reasons |
| `Planner.EligibleExactlyWhen` | src/insider_alerts/research/commissioning_planner.py:408-431 | a job is eligible if and only if it is ready, no exchange has delivered it, and the whole content wait has passed since each attempt for it that was answered about content |
| `Planner.RequestFitsItsJobs` | src/insider_alerts/research/commissioning_planner.py:447-460 | a request names open jobs of its own symbol, contract and kind, asks for all their dates up to now, and lists jobs and dates in order |
| `Fairness.AttemptsAreSpaced` | src/insider_alerts/research/commissioning_planner.py:402-407 | consecutive attempts are 300 seconds apart and respect the infrastructure backoff |
| `Fairness.AttemptsIncrease` | src/insider_alerts/research/commissioning_planner.py:402-404 | attempts i and k are at least 300 (k - i) seconds apart |
| `Fairness.HeadClass` | src/insider_alerts/research/commissioning_planner.py:432-446 | the class that has the turn is served whenever it has eligible work |
| `Fairness.BenchmarkTakesOneInFive` | src/insider_alerts/research/commissioning_planner.py:432-446 | no attempt among the four before a benchmark choice carried a benchmark job while candidate work was eligible |
| `Fairness.BenchmarkChoicesApart` | src/insider_alerts/research/commissioning_planner.py:432-446 | two benchmark choices with candidate work eligible are at least five attempts apart |
| `Fairness.BenchmarkIsNotStarved` | src/insider_alerts/research/commissioning_planner.py:432-446 | of five consecutive attempts one carries a benchmark job if benchmark work was eligible |
| `Fairness.HeadIsMostUrgent` | src/insider_alerts/research/commissioning_planner.py:436-446 | inside a class, unexpired precede expired, fresh precede retried, then the earliest deadline |
| `Fairness.AttemptsServeOpenJobs` | src/insider_alerts/research/commissioning_planner.py:408-431 | over whole runs attempts are made in open windows only, and every job named is ready, unfinished and of the symbol, contract and kind asked for |
| `Fairness.ContentRetriesBackOff` | src/insider_alerts/research/commissioning_planner.py:413-424 | over whole runs, after n content answers the next attempt of a job comes at least min(21600, 300 * 2^min(n-1, 10)) seconds after the last of them |
| `WorkerRuntime.Runtime.SealLocked` | src/insider_alerts/research/commissioning_worker.py:242-266 | the seal describes exactly what was loaded under both locks |
| `WorkerRuntime.Runtime.ReadStatus` | src/insider_alerts/research/commissioning_worker.py:200-230 | recomputes the report of the records before the seal on the calendar prefix it names |
| `WorkerRuntime.Runtime.AcquireLocked` | src/insider_alerts/research/commissioning_worker.py:310-358 | idle exactly in trading hours or without budget; otherwise the attempt, its one response and the heartbeat are recorded in this order, and the answer says which append was refused or never made |
| `WorkerRuntime.BudgetKeepsOutOfTrading` | src/insider_alerts/research/commissioning_worker.py:313-333 | while budget is left after the attempt, every instant up to its end lies outside trading hours and before the recovery deadline |
| `WorkerRuntime.Runtime.Heartbeat` | src/insider_alerts/research/commissioning_worker.py:232-240 | after a heartbeat the newest cycle record shows its result and is new or less than five minutes old |
| `WorkerRuntime.HeartbeatsAreSpaced` | src/insider_alerts/research/commissioning_worker.py:232-240 | successive cycle records with one result are at least five minutes apart |
| `WorkerRuntime.FreshAttemptIsUnanswered` | src/insider_alerts/research/commissioning_worker.py:326-354 | nothing recorded before an attempt can answer it |
| `WorkerRecords.SealsExactlyWhen` | src/insider_alerts/research/commissioning_worker.py:242-262 | a journal is sealed if and only if it is not yet, the deadline has passed, the report can be computed and the seal that names the newest version and record can be recorded |
| `WorkerRecords.BeatsExactlyWhen` | src/insider_alerts/research/commissioning_worker.py:232-240 | a cycle record is written if and only if the newest one differs or is five minutes old, and it can be recorded |
| `WorkerRecords.NextEightIsNext` | src/insider_alerts/research/commissioning_worker.py:313-319 | outside trading hours the next eight o'clock is ahead, and the network stays open until then |
| `WorkerRecords.RefusedExactlyWhen` | src/insider_alerts/research/commissioning_worker.py:310-327 | an acquisition is refused if and only if its attempt cannot be recorded |
| `WorkerRecords.UnansweredExactlyWhen` | src/insider_alerts/research/commissioning_worker.py:326-354 | it stays unanswered if and only if there is no response or it cannot be recorded |
| `WorkerRecords.CompletedExactlyWhen` | src/insider_alerts/research/commissioning_worker.py:352-358 | it is completed unless a due heartbeat cannot be recorded |
| `Worker.AttemptsArePlanned` | src/insider_alerts/research/commissioning_worker.py:264-308 | in every journal that any interleaving of processes and crashes reaches, the attempts form a planned run, 300 seconds apart |
| `Worker.StepKeepsSound` | src/insider_alerts/research/commissioning_worker.py:232-308 | every lock-protected step of every process, and every calendar append, keeps the invariant |
| `Worker.SealedReportReplays` | src/insider_alerts/research/commissioning_worker.py:200-230 | once sealed, the journal never changes and every later status gives the same digest whatever versions were added |
| `Worker.WatermarkIsPrevious` | src/insider_alerts/research/commissioning_worker.py:242-262 | the seal names the record immediately before it though other processes ran meanwhile |
| `Worker.LocksAreExclusive` | src/insider_alerts/research/commissioning_worker.py:103-112 | two processes never hold the same lock |
| `Worker.LocksComeFree` | src/insider_alerts/research/commissioning_worker.py:103-112 | the death of whoever holds the locks frees them and leaves the tables |
| `Worker.IdleProcessCanSeal` | src/insider_alerts/research/commissioning_worker.py:268-308 | from every sound world an idle process that finds both locks free seals what the tables then hold |
| `Worker.IdleProcessCanAsk` | src/insider_alerts/research/commissioning_worker.py:288-308 | from every sound world an idle process that finds the network lock free records what the planner plans from the present tables |
| `Canary.StepKeepsSound` | src/insider_alerts/execution/canary.py:740-1390 | every step, including a crash between a send and its ledger update, keeps the invariant |
| `Canary.EntriesAreBounded` | src/insider_alerts/execution/canary.py:880-1068 | in every reachable world active rows and queued rows with a live entry fit the slots, have distinct symbols and carry an exit session |
| `Canary.SettledExitIsFinal` | src/insider_alerts/execution/canary.py:1040-1051 | once a row is submitted or adopted its exit session is the same in every later world, closed or not |
| `Canary.ExitIsFinalExactlyWhen` | src/insider_alerts/execution/canary.py:1037-1051 | in a sound world a held packet keeps its exit session in every later world exactly when its row is no longer queued, and every queued one can still come to hold another |
| `Canary.ArmsAnewWhenRejected` | src/insider_alerts/execution/canary.py:1037-1042 | a packet is armed only while its row is queued and every order placed for it was rejected |
| `Canary.ExitIsFixed` | src/insider_alerts/execution/canary.py:1334-1365 | the exit session never changes after the send unless the broker rejects the order while its row is still queued |
| `Canary.RejectedUnrecordedExitMoves` | src/insider_alerts/execution/canary.py:1037-1051 | without that condition it can: a run that holds the packet with one exit session and later with another |
| `Canary.OneLiveOrder` | src/insider_alerts/execution/canary.py:788-814 | an entry order is only sent when no earlier one of the packet is live |
| `Canary.SendKeeps` | src/insider_alerts/execution/canary.py:1040-1051 | the only step that adds a holding takes a free slot and a new symbol |
| `Canary.AdoptKeeps` | src/insider_alerts/execution/canary.py:788-815 | adoption keeps the invariant even if the order was rejected meanwhile |
| `Canary.ReachingKeepsSound` | src/insider_alerts/execution/canary.py:740-786 | soundness holds at the end of any run |
| `CanaryRunner.SubmittedExactlyWhen` | src/insider_alerts/execution/canary.py:932-1020 | an order is sent exactly on a clean, usable preview within the conservative estimate, which then covers the required cash |
| `CanaryRunner.PassSpendsAtMostCash` | src/insider_alerts/execution/canary.py:920-1068 | cash left plus what every accepted order requires is constant, orders fit the free slots and cash never goes negative, even if an answer is lost |
| `CanaryRunner.EntryPassSpendsAtMostCash` | src/insider_alerts/execution/canary.py:880-1068 | when an order is added, all orders of the pass together are paid from settled funds less the reserve and from available funds less the reserve |
| `CanaryRunner.EntryPassRuns` | src/insider_alerts/execution/canary.py:880-1068 | the whole entry pass is a run of the step machine |
| `CanaryRunner.PickSeparates` | src/insider_alerts/execution/canary.py:919-930 | chosen candidates have new, pairwise different symbols |
| `CanaryRunner.SelectIsExact` | src/insider_alerts/execution/canary.py:417-422 | a query returns each matching row once |
| `CanaryRunner.SuppressedExactlyWhen` | src/insider_alerts/execution/canary.py:932-1020 | a candidate is suppressed for cash if and only if its conservative estimate or what its preview asks does not fit, and the pass raises exactly without a usable preview |
| `CanaryEntries.ExitIsNthSession` | src/insider_alerts/execution/canary.py:884-912 | an entry pass plans an exit if and only if it is in the entry window and the session on which the whole horizon has been held is listed, and that session is the exit |
| `CanaryEntries.EntryPassTouches` | src/insider_alerts/execution/canary.py:880-1068 | an entry pass marks every queued row of an earlier session as missed, and leaves all but the queued rows of today |
| `CanaryEntries.FirstCandidateIsSentExactlyWhen` | src/insider_alerts/execution/canary.py:880-1068 | the first candidate due is sent if and only if the pass is open, no active row has its symbol, its estimate fits both amounts of funds, its preview is clean, it is on time and the broker takes it; and what it becomes otherwise |
| `CanaryEntries.AllOrdersAreCovered` | src/insider_alerts/execution/canary.py:914-1068 | what all orders of a pass need at their cushioned prices and fees fits both amounts of funds less the reserve, and they fit the free slots |
| `CanaryReconcile.AdoptionRuns` | src/insider_alerts/execution/canary.py:788-839 | adoption is a run of the machine after which no listed live order belongs to a queued row |
| `CanaryReconcile.ReconciliationRuns` | src/insider_alerts/execution/canary.py:1070-1390 | wherever a broker call raises, reconciliation is a run of the machine: active rows only, none queued again, written exits kept |
| `CanaryReconcile.ReconciliationComposes` | src/insider_alerts/execution/canary.py:1070-1332 | uninterrupted, the three loops give every row its reconciled form |
| `CanaryReconcile.ReconciledLeavesOnEvidence` | src/insider_alerts/execution/canary.py:1081-1331 | a row leaves the active rows only on a rejected unfilled entry, a filled exit or no shares at the broker |
| `CanaryReconcile.WatchedMayBecome` | src/insider_alerts/execution/canary.py:1143-1316 | an open or closing row keeps its id, symbol and exit session and is never queued or submitted again |
| `CanaryReconcile.TimedExitsRun` | src/insider_alerts/execution/canary.py:1392-1476 | sending due exits is a run of the machine even if a send raises |
| `CanaryOutcomes.AdoptedExactlyWhen` | src/insider_alerts/execution/canary.py:788-839 | which row takes which live broker order, entries by reference, exits in the order time, overdue, mismatch |
| `CanaryOutcomes.ComputedExitIsNth` | src/insider_alerts/execution/canary.py:1334-1345 | the exit computed for a row is the session on which it has been held for the whole horizon, if listed |
| `CanaryOutcomes.EntryDecidedExactly` | src/insider_alerts/execution/canary.py:1081-1141 | a submitted row fails, closes without attribution or opens under protection exactly on these columns of its order and the account |
| `CanaryOutcomes.LapsesExactlyWhen` | src/insider_alerts/execution/canary.py:1317-1332 | a submitted row lapses exactly after its session, with no listed order and no shares |
| `CanaryOutcomes.WatchDecidedExactly` | src/insider_alerts/execution/canary.py:1143-1316 | an open or closing row is closed, closed without attribution, flattened or protected again exactly on these columns |
| `CanaryOutcomes.ExitIsSentExactlyWhen` | src/insider_alerts/execution/canary.py:1392-1476 | an exit goes at the close exactly between the two leads before it, at market past the cutoff or on a later day, and never outside the hours |
| `CanaryCycles.SweepStopsAtFirst` | src/insider_alerts/execution/canary.py:1070-1332 | an interrupted loop has updated its rows up to and including the first that raises |
| `CanaryCycles.DueExitsExactly` | src/insider_alerts/execution/canary.py:1392-1410 | exits are sent exactly for open rows whose session has come and that have no timed exit |
| `CanaryCycles.ReconciledExactly` | src/insider_alerts/execution/canary.py:1070-1332 | which of the three looks decides each row, by its state |
| `CanaryLive.GateOpensExactlyWhen` | src/insider_alerts/execution/canary.py:841-878 | the account is ready exactly when cash suffices and every holding, held row and open order is accounted for |
| `CanaryCycles.EntriesAllowedExactlyWhen` | src/insider_alerts/execution/canary.py:740-786 | entries are allowed exactly when cash, holdings, held rows and working orders are in order, the calendar is open, every held row has an exit and the horizon is listed |
| `CanaryCycles.OpenOrdersAreWorking` | src/insider_alerts/execution/canary.py:866-876 | the ledger's open orders are the listed ones with a working status |
| `CanaryLive.Runner.AdoptBrokerOrders` | src/insider_alerts/execution/canary.py:788-839 | two loops map queued and unexited rows to what the broker lists |
| `CanaryLive.Runner.ReconcileOrders` | src/insider_alerts/execution/canary.py:1070-1332 | three loops up to the first broker call that raises; uninterrupted, every row gets its reconciled form |
| `CanaryLive.Runner.SubmitDueTimeExits` | src/insider_alerts/execution/canary.py:1392-1476 | each due open row is dispatched at the close or at market by the session hours and becomes closing once sent |
| `CanaryLive.Runner.SendOne` | src/insider_alerts/execution/canary.py:1021-1051 | the exit session is committed before the send, and an exception leaves the ledger where it stands |
| `CanaryLive.Runner.SendSelected` | src/insider_alerts/execution/canary.py:931-1068 | the loop leaves the rows, orders and count of the pass proved within cash and slots, and ends where a call raises |
| `CanaryLive.Runner.SubmitDueEntries` | src/insider_alerts/execution/canary.py:880-1068 | the entry pass on the ledger object does what the pass function says, horizon errors included, and what its orders need fits both amounts of funds less the reserve |
| `CanaryLive.Runner.RunLive` | src/insider_alerts/execution/canary.py:740-786 | one live cycle leaves what adoption, reconciliation, due exits and, when every gate is open, the entry pass leave; it is a run of the machine that keeps a sound ledger sound wherever the broker raises, and sends orders only if every holding is known |
| `CanaryLive.Runner.InsertCandidate` | src/insider_alerts/execution/canary.py:356-404 | a packet already in the ledger is ignored; a new one enters without an exit session and a sound ledger stays sound |
| `CanaryLive.Runner.BrokerChanges` | src/insider_alerts/execution/canary.py:788-796 | whatever status the broker gives its orders between cycles, a sound ledger stays sound |
| `Shadow.Book.SettleShadow` | src/insider_alerts/execution/canary.py:660-738 | over all past sessions open shadow rows never exceed the slots unless they already did and never share a symbol; rows of sessions not over stay as they are |
| `Shadow.Book.SettleSession` | src/insider_alerts/execution/canary.py:682-737 | repeats and candidates beyond the free slots are suppressed, then open rows and the rest are evaluated until an exception |
| `Shadow.SessionKeeps` | src/insider_alerts/execution/canary.py:682-737 | one session keeps slots and symbols and touches its own rows only |
| `Shadow.SettlementKeeps` | src/insider_alerts/execution/canary.py:673-738 | later sessions are settled from the rows read at the start, which earlier sessions left as they were |
| `Shadow.WorkingKeeps` | src/insider_alerts/execution/canary.py:699-737 | evaluating the selected rows opens at most as many as were queued |
| `ShadowOutcomes.SessionDecides` | src/insider_alerts/execution/canary.py:682-737 | what becomes of every candidate: passed over for a repeated symbol, for want of a slot, for a held symbol, or left as its bars say |
| `ShadowOutcomes.OpenRowsDecided` | src/insider_alerts/execution/canary.py:699-737 | every open row of the session is left as its bars say |
| `ShadowOutcomes.SessionFailsExactlyWhen` | src/insider_alerts/execution/canary.py:699-737 | settling a session raises exactly when an open row or a candidate that is evaluated does |
| `ShadowOutcomes.SettlementDecides` | src/insider_alerts/execution/canary.py:673-738 | a settlement that ends has settled every past session once, from sound states in which its rows are as they were read |
| `Incidents.Tracker.RecordFailure` | src/insider_alerts/execution/operational_alerts.py:213-329 | abandons awaited recoveries, opens or extends the incident and reserves a due outage notice; when one is due is said on the log by the rows on reservations below |
| `Incidents.Tracker.RecordSuccess` | src/insider_alerts/execution/operational_alerts.py:331-419 | closes the incident or retries the newest awaited recovery |
| `Incidents.Tracker.DispatchNotice` | src/insider_alerts/execution/operational_alerts.py:421-497 | only the current reservation is sent and recorded |
| `Incidents.RunIsSound` | src/insider_alerts/execution/operational_alerts.py:213-497 | the invariant holds after any sequence of operations with any clock readings |
| `Incidents.OneIncidentAtATime` | src/insider_alerts/execution/operational_alerts.py:213-258 | at most one incident is open or awaits recovery, never both, and it is the newest |
| `Incidents.DeliveriesAreOrdered` | src/insider_alerts/execution/operational_alerts.py:462-497 | per incident at most one outage and then at most one recovery is recorded |
| `Incidents.OldIncidentsStaySilent` | src/insider_alerts/execution/operational_alerts.py:437-460 | nothing is recorded for an older incident after a newer one started |
| `Incidents.ReservationsAreSpaced` | src/insider_alerts/execution/operational_alerts.py:296-303 | reservations of one incident and phase are a retry interval apart |
| `Incidents.OutagesWaitForThreshold` | src/insider_alerts/execution/operational_alerts.py:294-303 | no outage is reserved before the threshold after the start |
| `Incidents.FindOpen` | src/insider_alerts/execution/operational_alerts.py:244-247 | finds an open incident if there is one |
| `Incidents.NewestAwaiting` | src/insider_alerts/execution/operational_alerts.py:359-371 | finds the awaiting incident that recovered last |
| `IncidentLog.TableIsItsLog` | src/insider_alerts/execution/operational_alerts.py:213-497 | after any run every column of every incident is the newest event of its kind in the log |
| `IncidentLog.FailureReservesExactlyWhen` | src/insider_alerts/execution/operational_alerts.py:284-329 | a failure reserves and returns an outage notice if and only if the open incident has none delivered, began at least the threshold ago and its last reservation, if any, is a retry interval old |
| `IncidentLog.SuccessReservesExactlyWhen` | src/insider_alerts/execution/operational_alerts.py:331-419 | a success ends the open incident and reserves a recovery notice if and only if an incident whose outage was tried ends now, or its end is known, not announced, not given up and due again |
| `IncidentLog.NoticeIsSentExactlyWhen` | src/insider_alerts/execution/operational_alerts.py:421-497 | a notice is sent if and only if it is the newest reservation of its phase, none of that phase was sent, and its incident has not ended, or for a recovery has ended and was not given up |
| `IncidentLog.FailuresAreCounted` | src/insider_alerts/execution/operational_alerts.py:213-280 | every failure recorded is counted in exactly one incident |
| `BarFeed.AppendAllGrows` | src/insider_alerts/research/bar_feed.py:660-751 | old rows stay, values never repeat, and revisions are new rows less new symbol-day pairs |
| `BarFeed.AppendAllStores` | src/insider_alerts/research/bar_feed.py:681-700 | an accepted batch adds exactly its complete, valid bars |
| `BarFeed.RevisionsAreCounted` | src/insider_alerts/research/bar_feed.py:660-751 | over any history reported revisions equal observations less distinct pairs |
| `BarFeed.WatermarkReadIsStable` | src/insider_alerts/research/bar_feed.py:777-830 | a read gives the same answer after any later batches, accepted or refused, if and only if its watermark is reached or every day of its range has a row |
| `BarFeed.FirstsAreEarliest` | src/insider_alerts/research/bar_feed.py:805-818 | an answer holds exactly the earliest visible row of each matching pair |
| `BarFeed.FirstValueIsNeverReplaced` | src/insider_alerts/research/bar_feed.py:669-674 | an answered first value is never replaced by a revision |
| `BarFeed.InvalidBarsAreRejected` | src/insider_alerts/research/bar_feed.py:681-700 | every complete bar that is not valid is rejected, counted and kept as a failure of its instant |
| `BarFeed.BatchRefusedExactlyWhen` | src/insider_alerts/research/bar_feed.py:675-706 | a batch is refused if and only if one of its new bars would be dated before a stored row |
| `BarFeed.BatchIsOrdered` | src/insider_alerts/research/bar_feed.py:672-680 | a batch is worked through by symbol and day |
| `BarFeed.ReadIsByDay` | src/insider_alerts/research/bar_feed.py:805-830 | an answer is ordered by day, one row a day |
| `BarPolls.RecordPollKeepsCache` | src/insider_alerts/research/bar_feed.py:452-570 | each cache row stays the fold of its symbol's receipts |
| `BarPolls.CacheBounds` | src/insider_alerts/research/bar_feed.py:541-560 | the cached start, completed date and success bound every receipt of the symbol |
| `BarPolls.CacheIsWitnessed` | src/insider_alerts/research/bar_feed.py:541-560 | each cached column comes from some receipt of the symbol |
| `BarPolls.PendingRequests` | src/insider_alerts/research/bar_feed.py:369-419 | two dictionaries and a due set select the requests to poll |
| `BarPolls.PolledIsNotDue` | src/insider_alerts/research/bar_feed.py:401-418 | a symbol polled today over all its unmet requests is not due again today |
| `BarPolls.BoundsMeet` | src/insider_alerts/research/bar_feed.py:369-400 | the range asked of a symbol runs from the earliest start to the latest day of its unmet requests |
| `BarPolls.PendingExactlyWhen` | src/insider_alerts/research/bar_feed.py:369-419 | an open request is polled if and only if its symbol was never polled, or not since the day began, or not back to an open start, or not for the completed day that open requests span |
| `BarCollection.PassedOver` | src/insider_alerts/research/bar_feed.py:572-602 | a due symbol not chosen was preceded by a full cycle of others |
| `BarCollection.AttemptedTouches` | src/insider_alerts/research/bar_feed.py:1271-1325 | success or failure, an attempt sets its symbol's last attempt to now and moves no other |
| `BarCollection.DueSymbolsAreServed` | src/insider_alerts/research/bar_feed.py:1237-1332 | a symbol that stays due is attempted within the universe size over the cap, rounded up, cycles |
| `BarCollection.CollectedKeepsSound` | src/insider_alerts/research/bar_feed.py:1271-1332 | a cycle keeps ledger and cache sound and only adds observations |
| `BarAttempts.LastAttemptIsNewest` | src/insider_alerts/research/bar_feed.py:572-602 | a last attempt is the newest failure or the cached success of the symbol, whichever is later |
| `BarAttempts.ChosenInTurn` | src/insider_alerts/research/bar_feed.py:572-602 | a cycle attempts distinct due symbols, all or as many as the cap, and no other goes before them |
| `BarAttempts.BetweenIsExact` | src/insider_alerts/research/bar_feed.py:1291-1291 | the bars kept are those dated in the range asked for, each as often as returned |
| `BarAttempts.ReceiptExactlyWhen` | src/insider_alerts/research/bar_feed.py:1271-1325 | an attempt leaves a receipt exactly when the answer holds this symbol alone, nothing lies in the future, no row is backdated and the receipt is new; otherwise a failure row and neither receipt nor cache row |
| `BarAttempts.ReachedExactly` | src/insider_alerts/research/bar_feed.py:1270-1332 | a cycle attempts its symbols up to the first that loses the source for good |
| `BarCollection.BarStore.AppendCompleted` | src/insider_alerts/research/bar_feed.py:660-751 | one transaction: all rows are committed or none |
| `BarCollection.BarStore.RecordSuccessfulPoll` | src/insider_alerts/research/bar_feed.py:452-570 | receipt and cache row are written together or not at all |
| `BarCollection.BarStore.RecordFailure` | src/insider_alerts/research/bar_feed.py:605-658 | an identical failure is kept once |
| `BarCollection.BarStore.CollectSymbol` | src/insider_alerts/research/bar_feed.py:1271-1325 | every exception while one symbol is collected becomes a failure row; otherwise one receipt accounts for what was added and rejected |
| `BarCollection.BarStore.CollectOnce` | src/insider_alerts/research/bar_feed.py:1221-1357 | due requests, fair choice and one attempt each until the source cannot be connected; the health row counts every attempt as a receipt or a failure |
| `Quarantine.FirstAttempt` | src/insider_alerts/execution/autopilot_watchdog.py:428-461 | a run without a manifest changes only its staging file or makes a manifest whose promise later runs keep |
| `Quarantine.RerunsComplete` | src/insider_alerts/execution/autopilot_watchdog.py:463-498 | after any crashes and reruns the finishing run leaves every recorded member at its destination with its content, no source and no manifest |
| `Quarantine.NothingIsLost` | src/insider_alerts/execution/autopilot_watchdog.py:485-496 | no existing file is overwritten and no content is lost at any point |
| `Quarantine.QuarantineCompletes` | src/insider_alerts/execution/autopilot_watchdog.py:428-498 | from an untouched store through any crashes, reruns and processes no content is lost, and the finishing run leaves every member under one run's token, all else in place and no manifest |
| `Quarantine.ResumeFinishes` | src/insider_alerts/execution/autopilot_watchdog.py:485-498 | with enough operations a resumed run finishes exactly when no member has an occupied destination |
| `Quarantine.UnfinishedIsStaleAndCorrupt` | src/insider_alerts/execution/autopilot_watchdog.py:351-352 | while a quarantine is unfinished the heartbeat is stale and corrupt |
| `Quarantine.FinishedIsMissing` | src/insider_alerts/execution/autopilot_watchdog.py:351-354 | a finished quarantine reads as a missing store |
| `Quarantine.HeartbeatExactlyWhen` | src/insider_alerts/execution/autopilot_watchdog.py:340-377 | the reading is fresh, stale or corrupt exactly on these files, readings and seconds |
| `Quarantine.AttemptFinishes` | src/insider_alerts/execution/autopilot_watchdog.py:428-498 | a first run with enough operations finishes if and only if no member's destination is occupied |
| `Quarantine.RenamingIsChecked` | src/insider_alerts/execution/autopilot_watchdog.py:463-498 | whatever wrote the manifest, a run finishes only on well-formed items: no member named is left and every required one is at its destination |
| `Quarantine.StrangeManifestsAreRefused` | src/insider_alerts/execution/autopilot_watchdog.py:463-480 | a manifest that cannot be read or does not list three items stops the run and moves nothing |
| `Quarantine.Disk.RenameMembers` | src/insider_alerts/execution/autopilot_watchdog.py:463-498 | the rename loop ends, dies or raises with exactly the files of the renaming function |
| `Quarantine.Disk.QuarantineStore` | src/insider_alerts/execution/autopilot_watchdog.py:428-498 | one run that may die at any file operation |
| `Watchdog.QuarantineFenced` | src/insider_alerts/execution/autopilot_watchdog.py:580-584 | files are moved only while the task is disabled and not running |
| `Watchdog.RunWatchdog` | src/insider_alerts/execution/autopilot_watchdog.py:521-626 | which calls to the scheduler a pass makes, in which order, when it succeeds and at each point where it fails; an unfinished quarantine leaves the worker fenced |
| `Watchdog.ResumeByWatchdog` | src/insider_alerts/execution/autopilot_watchdog.py:521-626 | a pass that succeeds on an unfinished quarantine has completed it, and a failing pass keeps it resumable |
| `Watchdog.Scheduler.Stop` | src/insider_alerts/execution/autopilot_watchdog.py:565-577 | success means a disabled worker has stopped |
| `Watchdog.Recover` | src/insider_alerts/execution/autopilot_watchdog.py:549-610 | fence, stop within the polls, quarantine a corrupt store, enable, start and await one of ten readings, or fail at one of them |
| `MultipleTesting.StepUpValueDecides` | src/insider_alerts/backtest/event_study.py:679-697 | the adjusted value is at most a level in (0, 1) exactly when the key lies up to the largest rank under the line at that level |
| `MultipleTesting.StepUpValueMonotone` | src/insider_alerts/backtest/event_study.py:679-697 | a smaller p-value never gets a larger adjusted value, and equal ones get equal values exactly unless they are negative |
| `MultipleTesting.EqualNegativesDiffer` | src/insider_alerts/backtest/event_study.py:679-697 | two keys with one negative p-value whose adjusted values differ |
| `MultipleTesting.BenjaminiHochbergAdjust` | src/insider_alerts/backtest/event_study.py:679-697 | the loop from the largest p-value down gives every key the value that the step-up procedure decides; repeated keys keep the last write |
| `MultipleTesting.StepDownValueDecides` | src/insider_alerts/backtest/signal_study.py:622-639 | the Holm value is at most a level exactly when the procedure, walking up and stopping at the first failure, rejects the key |
| `MultipleTesting.StepDownValueMonotone` | src/insider_alerts/backtest/signal_study.py:622-639 | smaller p-values get no larger Holm values, so ties are equal |
| `MultipleTesting.HolmAdjust` | src/insider_alerts/backtest/signal_study.py:622-639 | the loop from the smallest p-value up gives every key the value that the step-down procedure decides; a family too small is refused |
| `MultipleTesting.BonferroniImpliesHolm` | src/insider_alerts/backtest/signal_study.py:1181-1184 | a raw p-value at most 0.05/168 is always rejected by the procedure and has a Holm value at most 0.05 |
| `Rejections.StepUpRejectsExactlyWhen` | src/insider_alerts/backtest/event_study.py:679-697 | the step-up procedure rejects a key at a level if and only if some p-value no smaller than its own, times the number supplied, is at most the level times the number of p-values not above it |
| `Rejections.StepDownRejectsExactlyWhen` | src/insider_alerts/backtest/signal_study.py:622-639 | Holm rejects a key at a level if and only if every p-value no larger than its own, times the family size less the number below it, is at most the level |
| `Slots.FixedSlotSchedule` | src/insider_alerts/backtest/signal_study.py:828-847 | on every date at most the slots are taken, each skipped position found them all taken, and nothing is lost |
| `Slots.FixedSlotSummary` | src/insider_alerts/backtest/signal_study.py:848-868 | realized return is the sum of retained returns over the slots, drawdown the deepest fall in exit order, means and counts add up |
| `Slots.NoDrawdownExactlyWhen` | src/insider_alerts/backtest/signal_study.py:848-854 | there is no drawdown exactly when no retained position lost money |
| `Slots.DrawdownIsDeepest` | src/insider_alerts/backtest/signal_study.py:848-854 | the drawdown is reached at some close and no close falls deeper |
| `Slots.DrawdownBelowOneExactlyWhen` | src/insider_alerts/backtest/signal_study.py:848-854 | the drawdown stays below the whole peak exactly while the equity stays positive |
| `Slots.SlotsAreNeverExceeded` | src/insider_alerts/backtest/signal_study.py:835-847 | at most the given number of retained positions is active on any date |
| `Slots.SkippedFindsAllTaken` | src/insider_alerts/backtest/signal_study.py:841-845 | a skipped position finds exactly all slots taken on its entry date |
| `Slots.RetainedOrSkipped` | src/insider_alerts/backtest/signal_study.py:835-847 | retained and skipped positions together are the candidates |
| `Slots.WithoutOverlappingPositions` | src/insider_alerts/backtest/signal_study.py:871-885 | retained positions of a symbol are disjoint and every dropped one starts inside a retained one |
| `Slots.KeptAreDisjoint` | src/insider_alerts/backtest/signal_study.py:871-885 | later positions of a symbol start strictly after earlier ones end |
| `Slots.DroppedOverlapsKept` | src/insider_alerts/backtest/signal_study.py:879-882 | every dropped position overlaps a kept one of its symbol |
| `Slots.FilterIsIdempotent` | src/insider_alerts/backtest/signal_study.py:871-885 | filtering twice changes nothing |
| `Slots.OfferedInOrder` | src/insider_alerts/backtest/signal_study.py:835-838 | positions are offered by entry date, then signal time, then packet id |
| `Slots.ClosedInOrder` | src/insider_alerts/backtest/signal_study.py:848-854 | retained positions are closed by exit date, then packet id |
| `Slots.MeansAreAverages` | src/insider_alerts/backtest/signal_study.py:855-868 | the means are those of the net returns and of the alphas |
| `Buckets.QuantileMonotone` | src/insider_alerts/backtest/event_study.py:399-415 | quantiles never decrease with their level, inside and outside (0, 1) |
| `Buckets.QuantileDividesSteps` | src/insider_alerts/backtest/event_study.py:399-415 | between two neighbouring ranks the quantile divides the step in the same ratio as the level |
| `Buckets.ScoreBucketEdges` | src/insider_alerts/backtest/event_study.py:418-427 | one edge between neighbouring buckets, nondecreasing, with both errors |
| `Buckets.AssignBucket` | src/insider_alerts/backtest/event_study.py:430-437 | the early-exit loop returns one plus the leading edges below the score |
| `Buckets.BucketCountsEdges` | src/insider_alerts/backtest/event_study.py:430-437 | on nondecreasing edges the bucket is one plus the edges below the score |
| `Buckets.BucketMonotone` | src/insider_alerts/backtest/event_study.py:430-437 | a larger score never falls into a lower bucket |
| `Buckets.ScoreWithinBounds` | src/insider_alerts/backtest/event_study.py:478-487 | a score lies above the lower and not above the upper bound of its bucket |
| `Buckets.BoundsDetermineBucket` | src/insider_alerts/backtest/event_study.py:478-487 | on nondecreasing edges the bounds hold of exactly one bucket |
| `ForwardReturns.ComputeForwardReturns` | src/insider_alerts/backtest/event_study.py:213-385 | one outcome per event and horizon, in order |
| `ForwardReturns.FindEntry` | src/insider_alerts/backtest/event_study.py:127-131 | the first bar strictly after the filing date |
| `ForwardReturns.EntryFollowsFiling` | src/insider_alerts/backtest/event_study.py:127-131 | nothing dated on or before the filing is traded |
| `ForwardReturns.EntryIsSettled` | src/insider_alerts/backtest/event_study.py:245-308 | bars that arrive later never change an entry decision |
| `ForwardReturns.TradedIsSettled` | src/insider_alerts/backtest/event_study.py:310-383 | bars that arrive later never change a traded outcome |
| `ForwardReturns.EntersExactlyWhen` | src/insider_alerts/backtest/event_study.py:245-308 | an event is entered, or refused for which reason, exactly on these bars, prices and volumes |
| `ForwardReturns.LiquidExactlyWhen` | src/insider_alerts/backtest/event_study.py:145-162 | liquidity is the median dollar volume of the whole window of bars before the entry |
| `ForwardReturns.TradedExactlyWhen` | src/insider_alerts/backtest/event_study.py:310-383 | an event is traded at a horizon exactly when exit and benchmark bars exist, with these returns, cost and alpha |
| `ForwardReturns.ReturnsInOrder` | src/insider_alerts/backtest/event_study.py:213-385 | outcome i * h + k is that of event i at horizon k |
| `Folds.WindowsAreConsecutive` | src/insider_alerts/backtest/event_study.py:911-921 | test windows follow one another and training ends the day before testing |
| `Folds.WindowsAreDisjoint` | src/insider_alerts/backtest/event_study.py:911-921 | no day lies in two test windows |
| `Folds.TrainingPrecedesTesting` | src/insider_alerts/backtest/event_study.py:918-925 | every training event is filed before every test event of its window |
| `Folds.CountFold` | src/insider_alerts/backtest/event_study.py:995-1032 | dictionaries keyed by horizon and bucket, and by horizon and reason, after both loops |
| `Folds.FoldBalances` | src/insider_alerts/backtest/event_study.py:995-1032 | bucket totals with missing-bucket events, and executed with all skip reasons, both equal the test events |
| `Folds.RunFold` | src/insider_alerts/backtest/event_study.py:911-1086 | a fold is skipped exactly for the stated reason; otherwise its edges are quantiles of the training values and its counters count the test events and their returns, and balance |
| `Folds.AggregateBalances` | src/insider_alerts/backtest/event_study.py:1054-1068 | aggregates are sums over completed folds and balance against all their test events |
| `Folds.RunStudy` | src/insider_alerts/backtest/event_study.py:906-1086 | one such fold for every window that starts by the last filing, in order, and aggregates that balance |
| `Folds.IterHorizons` | src/insider_alerts/backtest/event_study.py:165-179 | positive, strictly increasing, the same members |
| `FoldCounts.CountersAreSizes` | src/insider_alerts/backtest/event_study.py:995-1032 | every counter is the number of test events or observations it counts |
| `FoldCounts.ValuesAreScores` | src/insider_alerts/backtest/event_study.py:943-960 | the training values are the scores of the training events that have one, in order |
| `FoldCounts.PlacedExactlyWhen` | src/insider_alerts/backtest/event_study.py:943-982 | a packet is placed exactly when one of its test events has a score |
| `FoldCounts.BucketOfNewest` | src/insider_alerts/backtest/event_study.py:952-982 | its newest scored event decides its bucket |
| `FoldCounts.WithinKeepsCounts` | src/insider_alerts/backtest/event_study.py:913-920 | a window holds the events filed on its days, each as often as given |
| `FoldCounts.FoldWindows` | src/insider_alerts/backtest/event_study.py:888-911 | the windows of fold k, counted in days from the first filing |
| `FoldCounts.FoldsExistExactly` | src/insider_alerts/backtest/event_study.py:888-911 | fold k exists exactly when a filing is made on or after its first test day |
| `FoldCounts.FoldRunsExactlyWhen` | src/insider_alerts/backtest/event_study.py:922-976 | a fold runs if and only if its window holds enough training and test events and some training event has a score, and is otherwise skipped for the first of these that fails |
| `FoldCounts.AggregatesAreTotals` | src/insider_alerts/backtest/event_study.py:1054-1068 | every aggregate is the sum of that counter over the completed folds |

## Left out

- IBKR, ntfy, SEC and price clients, subprocess, git and Windows job calls: foreign input and output, replaced
  by parameters.
- SQLite itself, file locking, JSON parsing and SHA-256: tables, atomic steps and a function stand for them.
- Time zones and daylight saving, the hard-coded holiday tables and the published hours: the calendar days are
  an arbitrary map from dates to facts.
- Text checks of manifests, notices and symbols: provenance checks are one boolean, and symbols are already
  normalized.
- `execution/observer.py`, `activation.py` and `backtest/engine.py`: smaller repeats of the journal, state
  machine and folds modelled here.
- Bootstrap, permutation and random-control code, `strategy/e07.py`, `review/queue.py` and `cli.py`:
  randomness, or rules of a single branch.
- The report's diagnostic tables (receipt lags, missing dates per stage, capacity per night): the report is a
  function of the records, versions and instant, and only its digest matters to the seal.
- The calendar gate of the live cycle and the hours of a session: the cycle takes the calendar's verdict and
  hours as inputs.
- Not-a-number and infinite amounts: reals have none, so the checks for them are absent.
- Commissions, exit prices and events of canary orders: they do not influence which state a row takes.
- WorkerRuntime.Runtime.AcquireLocked: the installation check repeated with every budget reading is not
  modelled; asks that the new attempt's digest collides with no other record's.
- Worker.AttemptsArePlanned: a clock that does not run backwards inside one locked section is assumed, and the
  jobs planned from are arbitrary.
- Planner.NextRequest: a job without dates would make the source raise while taking a minimum; the model gives
  the start date zero, and no job the source builds has no dates.
- Canary.ExitIsFixed: not for an order rejected while its row is still queued, where it is false; see above.
- Shadow.Book.SettleShadow: what the completed bars say of a candidate is an input.
- Folds.RunStudy: bootstrap intervals, p-values, monotonicity and the negative control built from the counters
  are not modelled.
- BarCollection.DueSymbolsAreServed: covers cycles that run to the end; a cycle that cannot connect attempts
  nothing.
