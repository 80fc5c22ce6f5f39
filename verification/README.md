# Daily report aggregation, modelled in Dafny

This project models the core of the chess club's daily report: the in-memory
`DataStore` of `lib/mockData.ts`. The model covers six pieces:

- **Daily filters:** today's puzzle attempts, sessions and books are the events stamped at or after local midnight.
- **Per-student progress:** counts of attempts, correct and incorrect answers, a per-topic breakdown in first-attempt order, points, sessions, time spent, and rank change.
- **Overview:** totals and the pooled accuracy.
- **Leaderboard changes:** compares each student with the previous-day ranking snapshot and is stably sorted by rank change, biggest rise first.
- **Snapshot capture:** how the snapshot is recorded after seeding.
- **Seven-day history:** built from one report.

Instants are integers (milliseconds). The clock reading `now` and the start of
today `startOfDay` are parameters. Accuracy is an exact `real` percentage.

Modules:

- `Types`: the records of `lib/types.ts`.
- `Seqs`: order-preserving filtering and sums.
- `StableSort`: a stable sort by a descending integer key, with its uniqueness theorem.
- `DailyFilter`: the three "today" filters.
- `TopicBreakdown`: the insertion-ordered map fold, proved equal to a declarative description, plus the emitted rows.
- `Snapshot`: `find` with the `||` fallback, and snapshot capture.
- `Leaderboard`: the leaderboard-changes list.
- `Report`: progress, overview, the report and the history.
- `Scenarios`: concrete cases.

Two behaviours of the code worth knowing:

- **Snapshot fallback:** `previousData?.rank || student.rank` falls back to the current rank both when the student has no snapshot entry and when the entry's rank is 0, because 0 is falsy; `previousData?.points || student.totalPoints` does the same for points. `Snapshot.PreviousRank` and `Snapshot.PreviousPoints` state both cases. `Scenarios.ZeroPointEntryFallsBack` exhibits the zero-points case. A freshly captured snapshot never holds rank 0, since ranks are positions from 1 (`Snapshot.CaptureReadBack`).
- **Overview total versus per-student sums:** the overview's total of attempts is the size of today's log. It equals the sum of the per-student counts when student ids are distinct and every attempt belongs to a listed student. `Report.PooledOverview` and `Report.ReportTotalsAgree` prove it under those hypotheses.

## Model

| member | source | states |
|---|---|---|
| DailyFilter.TodaysPuzzleAttempts | lib/mockData.ts:99-103 | an attempt is kept exactly when it is in the log and its timestamp is at or after the start of today |
| DailyFilter.TodaysSessions | lib/mockData.ts:105-109 | a session is kept exactly when it is in the log and it started at or after the start of today |
| DailyFilter.TodaysBooks | lib/mockData.ts:111-115 | a book is kept exactly when it is in the catalogue and was added at or after the start of today |
| DailyFilter.KeepSince | lib/mockData.ts:102 | the kept events are exactly the log's events whose instant is not before the boundary |
| DailyFilter.KeepSinceConcat | lib/mockData.ts:102 | filtering a concatenated log is the concatenation of the filtered parts, so the log order is kept |
| DailyFilter.KeepSinceSplits | lib/mockData.ts:102 | today's events and the earlier ones together account for every event of the log |
| DailyFilter.KeepSinceNone | lib/mockData.ts:102 | a log whose events all precede the boundary yields nothing |
| DailyFilter.KeepSinceSingle | lib/mockData.ts:102 | a single event is kept if and only if its instant is at or after the boundary |
| DailyFilter.MidnightAttemptIsToday | lib/mockData.ts:100-102 | the boundary is inclusive: an attempt stamped exactly at midnight is today's |
| DailyFilter.TodaysAttemptsInLogOrder | lib/mockData.ts:102 | today's attempts of an appended log are today's attempts of each part, in log order |
| StableSort.Sort | lib/mockData.ts:184 | the result is a permutation of the input, in non-increasing key order, and for every key value the elements with that key keep their input order |
| StableSort.SortUnique | lib/mockData.ts:184 | any permutation that is sorted and keeps the order within each key equals the sort's result |
| StableSort.SortSortedIsIdentity | lib/mockData.ts:221 | sorting an already sorted sequence leaves it unchanged |
| TopicBreakdown.FindTopic | lib/mockData.ts:136 | the map lookup finds the row of the topic when there is one, and otherwise no row carries the topic |
| TopicBreakdown.TallyTopicsDescribes | lib/mockData.ts:134-141 | the map fold yields one row per distinct topic, in order of each topic's first attempt, counting that topic's attempts and correct attempts, with the rows' attempts summing to all attempts |
| TopicBreakdown.Accuracy | lib/mockData.ts:148 | accuracy is 0 with no attempts, otherwise the percentage whose product with the attempts is 100 times the correct count, and between 0 and 100 when correct does not exceed attempted |
| TopicBreakdown.ToStatsAll | lib/mockData.ts:143-149 | every map entry becomes one row, in the same order |
| TopicBreakdown.Breakdown | lib/mockData.ts:133-149 | the breakdown lists each attempted topic exactly once, in first-attempt order; each row counts its topic's attempts, correct and incorrect attempts, with attempted = correct + incorrect and accuracy in [0, 100]; the rows' attempts sum to all attempts |
| Snapshot.FindEntry | lib/mockData.ts:175 | the lookup returns the first entry for the student, or reports that the snapshot has none |
| Snapshot.PreviousRank | lib/mockData.ts:154 | the previous rank is the first entry's rank when present and nonzero, and otherwise the current rank |
| Snapshot.PreviousPoints | lib/mockData.ts:182 | the previous points are the first entry's points when present and nonzero, and otherwise the current total |
| Snapshot.Capture | lib/mockData.ts:86-92 | one entry per student in list order, ranked by position from 1, with points the student's total minus the drawn perturbation, hence less than 100 below the total |
| Snapshot.CaptureReadBack | lib/mockData.ts:86-92 | reading a fresh snapshot back gives each student's list position as previous rank and the perturbed total as previous points unless that is 0 |
| Leaderboard.Change | lib/mockData.ts:174-183 | an entry carries the student's id, name and current rank; rank change is previous minus current; with no snapshot entry both changes are 0; with one, the changes come from the entry's nonzero fields and are 0 for zero fields |
| Leaderboard.Changes | lib/mockData.ts:174-183 | the unsorted list has student i's entry at position i |
| Leaderboard.LeaderboardChanges | lib/mockData.ts:174-184 | the list is a permutation of the per-student entries, in non-increasing rank change, with ties in student-list order |
| Leaderboard.OneEntryPerStudent | lib/mockData.ts:174-184 | with distinct ids each student's entry occurs exactly once, and every entry is some student's |
| Leaderboard.FreshSnapshotKeepsOrder | lib/mockData.ts:174-184 | against a snapshot just captured from students ranked by position, every rank change is 0 and the sorted list is the student order |
| Report.Progress | lib/mockData.ts:126-168 | a student's record counts the student's own attempts and correct attempts, breaks them down by topic, sums their points, and counts the student's sessions and sums their durations; attempted = correct + incorrect with correct at most attempted; the topic rows sum to the attempts and are each consistent; the rank change is the one of the student's leaderboard entry |
| Report.OwnEvents | lib/mockData.ts:127-128 | a student's attempts and sessions are exactly the events of today's logs that carry the student's id |
| Report.OneEventProgress | lib/mockData.ts:127-166 | one attempt and one session count, with the attempt's points and the session's duration, exactly when they carry the student's id, and the attempt counts as correct exactly when it is correct |
| Report.ProgressNonNegative | lib/mockData.ts:151-152 | points earned and time spent are non-negative when every attempt's points and every session's duration are |
| Report.IdleStudentProgress | lib/mockData.ts:126-168 | a student with no attempts or sessions today gets zero counts, an empty breakdown, zero points and zero time |
| Report.ProgressAdditive | lib/mockData.ts:127-152 | aggregating two stretches of events together gives the sums of each stretch's counts, points, sessions and time |
| Report.ProgressAll | lib/mockData.ts:126 | one progress record per student, in list order |
| Report.ProgressSums | lib/mockData.ts:126-131 | the records' attempted and correct counts sum to the attempts owned by the listed students |
| Report.OverviewOf | lib/mockData.ts:190-196 | the overview counts today's sessions, attempts, students and books; its accuracy is the pooled correct share of today's attempts, 0 with no attempts, and within [0, 100] |
| Report.PooledOverview | lib/mockData.ts:171-172 | with distinct ids and every attempt owned by a listed student, the total of attempts is the sum of the students' attempts and the accuracy is the pooled accuracy of their counts, not a mean of their accuracies |
| Report.GenerateDailyReport | lib/mockData.ts:117-201 | the report is stamped with the current instant; its records are the progress of every student, in list order, over today's filtered attempts and sessions, each agreeing with that student's leaderboard entry; its overview is the overview of today's events; its new books are today's books in catalogue order; its leaderboard is the stably sorted list of per-student entries, one per student in non-increasing rank change |
| Report.ReportTotalsAgree | lib/mockData.ts:171-196 | under distinct ids and owned attempts, the report's overview agrees with the sums of its own progress records |
| Report.QuietDay | lib/mockData.ts:117-201 | a day with no events since midnight gives zero attempt, session and book totals, zero accuracy, no new books, and records whose counts, points, topic rows, sessions and time are 0; the rank changes still come from the snapshot |
| Report.RelabelledFacts | lib/mockData.ts:208-219 | the seven copies have strictly decreasing dates, each inside its calendar day, each id equal to its date, and each equal to the base elsewhere |
| Report.History | lib/mockData.ts:203-222 | seven reports, newest first with strictly decreasing dates and distinct ids, the i-th stamped 08:00 of the day i days back (so within that day), each equal to the base report except id, date and generation time |
| Report.AllReports | lib/mockData.ts:203-222 | seven reports, newest first, the i-th stamped 08:00 of the day i days back with id and generation time equal to that stamp, each the freshly generated report apart from id, date and generation time |
| Scenarios.OneCorrectTacticsAttempt | lib/mockData.ts:126-168 | one correct 8-point attempt on Tactics gives 1 attempted, 1 correct, 0 incorrect, 8 points and one Tactics row at 100% |
| Scenarios.RiseFromThirdToFirst | lib/mockData.ts:174-183 | a student who was third with 500 points and is first with 600 gets previous rank 3, rank change 2 and points change 100 |
| Scenarios.ZeroPointEntryFallsBack | lib/mockData.ts:182 | a snapshot entry with 0 points is falsy, so the points change reads 0 |

## Left out

- Random seeding of students, attempts, sessions and books (lib/mockData.ts:18-84) is left out, because it is randomness. The snapshot capture takes its `Math.random()` perturbations as a parameter.
- The lazy reseed when the attempt log is empty (lib/mockData.ts:118-120) is left out: it is a side effect on process-wide state. The model takes the logs as they stand.
- Clock and calendar handling is not modelled: `new Date()`, `setHours`, `setDate` and local time zones. The start of today and `now` are parameters. The history assumes every day is 24 hours long, so daylight-saving transitions are not modelled.
- Separate clock readings are not modelled. The source reads the clock once each for the report's id, date and generation time, and each of the three filters computes its own midnight. A report built across midnight could therefore filter attempts against one day and sessions or books against the next. The model uses one `now` and one `startOfDay` for the whole report.
- Floating-point arithmetic is not modelled. Accuracy is the exact rational percentage, so rounding of `(correct / attempted) * 100` is not represented.
- The report ids `report-<milliseconds>` are modelled as the millisecond number itself. String formatting is not modelled.
- `getStudents` (lib/mockData.ts:95-97) is not modelled: it returns the stored list unchanged.
- The `DailyChange` record (lib/types.ts:39-44) is not modelled: no operation uses it.
- Authentication (lib/auth.ts), the HTTP routes and the UI are not modelled. Neither is looking a report up by id.
- The mutable singleton state of `DataStore` is not modelled. Every operation takes its data as arguments.
