/**
 The daily report of `DataStore.generateDailyReport` and the seven-day history
 of `DataStore.getAllReports` (lib/mockData.ts), as pure functions of the
 student list, the event logs, the ranking snapshot and the clock readings.
 */
module Report {
  import opened Types
  import opened Seqs
  import opened StableSort
  import opened DailyFilter
  import opened TopicBreakdown
  import opened Snapshot
  import opened Leaderboard

  // ----- per student -----

  /** `todayPuzzles.filter(p => p.studentId === id)`. */
  function AttemptsOf(ps: seq<PuzzleAttempt>, id: string): seq<PuzzleAttempt>
  {
    Filter(ps, (p: PuzzleAttempt) => p.studentId == id)
  }

  /** `todaySessions.filter(s => s.studentId === id)`. */
  function SessionsOf(ss: seq<Session>, id: string): seq<Session>
  {
    Filter(ss, (s: Session) => s.studentId == id)
  }

  function PointsOf(p: PuzzleAttempt): int { p.pointsEarned }
  function DurationOf(s: Session): int { s.duration }

  /**
   One student's progress for the day, from today's attempts and sessions:
   the counts split into correct and incorrect, the topic rows account for
   every attempt, and the rank change is the one the leaderboard reports for
   the same student.
   */
  function Progress(s: Student, todayPuzzles: seq<PuzzleAttempt>, todaySessions: seq<Session>,
                    snapshot: seq<RankingEntry>): (r: StudentProgress)
    ensures r.studentId == s.id && r.studentName == s.name
    ensures r.puzzlesAttempted == r.puzzlesCorrect + r.puzzlesIncorrect
    ensures 0 <= r.puzzlesCorrect <= r.puzzlesAttempted
    ensures Sum(r.topicBreakdown, StatsAttempted) == r.puzzlesAttempted
    ensures forall i | 0 <= i < |r.topicBreakdown| :: RowConsistent(r.topicBreakdown[i])
    ensures r.rankChange == Change(s, snapshot).rankChange
    ensures r.puzzlesAttempted == |AttemptsOf(todayPuzzles, s.id)|
    ensures r.puzzlesCorrect == |Filter(AttemptsOf(todayPuzzles, s.id), IsCorrect)|
    ensures r.topicBreakdown == Breakdown(AttemptsOf(todayPuzzles, s.id))
    ensures r.pointsEarned == Sum(AttemptsOf(todayPuzzles, s.id), PointsOf)
    ensures r.sessionsCompleted == |SessionsOf(todaySessions, s.id)|
    ensures r.totalTimeSpent == Sum(SessionsOf(todaySessions, s.id), DurationOf)
  {
    var mine := AttemptsOf(todayPuzzles, s.id);
    var sessions := SessionsOf(todaySessions, s.id);
    FilterComplement(mine, IsCorrect, IsIncorrect);
    var breakdown := Breakdown(mine);
    StudentProgress(
      s.id, s.name,
      |mine|,
      |Filter(mine, IsCorrect)|,
      |Filter(mine, IsIncorrect)|,
      breakdown,
      Sum(mine, PointsOf),
      |sessions|,
      Sum(sessions, DurationOf),
      PreviousRank(s, snapshot) - s.rank)
  }

  /**
   A student with no events today gets zero counts, no topic rows, zero points,
   no sessions and zero time; the rank change still comes from the snapshot.
   */
  lemma IdleStudentProgress(s: Student, todayPuzzles: seq<PuzzleAttempt>, todaySessions: seq<Session>,
                            snapshot: seq<RankingEntry>)
    requires forall p | p in todayPuzzles :: p.studentId != s.id
    requires forall x | x in todaySessions :: x.studentId != s.id
    ensures var r := Progress(s, todayPuzzles, todaySessions, snapshot);
      && r.puzzlesAttempted == 0 && r.puzzlesCorrect == 0 && r.puzzlesIncorrect == 0
      && r.topicBreakdown == [] && r.pointsEarned == 0
      && r.sessionsCompleted == 0 && r.totalTimeSpent == 0
  {
    FilterNone(todayPuzzles, (p: PuzzleAttempt) => p.studentId == s.id);
    FilterNone(todaySessions, (x: Session) => x.studentId == s.id);
    var b := Breakdown([]);
    assert |b| == 0;
  }

  /**
   The student's own events are exactly the events of the logs that carry the
   student's id.
   */
  lemma OwnEvents(todayPuzzles: seq<PuzzleAttempt>, todaySessions: seq<Session>, id: string)
    ensures forall p | p in AttemptsOf(todayPuzzles, id) :: p in todayPuzzles && p.studentId == id
    ensures forall p | p in todayPuzzles && p.studentId == id :: p in AttemptsOf(todayPuzzles, id)
    ensures forall x | x in SessionsOf(todaySessions, id) :: x in todaySessions && x.studentId == id
    ensures forall x | x in todaySessions && x.studentId == id :: x in SessionsOf(todaySessions, id)
  {
    FilterMembers(todayPuzzles, (p: PuzzleAttempt) => p.studentId == id);
    FilterMembers(todaySessions, (s: Session) => s.studentId == id);
  }

  /**
   One attempt and one session: they count, with their points and duration,
   exactly when they are the student's. With `ProgressAdditive` and
   `IdleStudentProgress` this fixes the counts, points and time for every log.
   */
  lemma OneEventProgress(s: Student, p: PuzzleAttempt, x: Session, snapshot: seq<RankingEntry>)
    ensures var r := Progress(s, [p], [x], snapshot);
      && r.puzzlesAttempted == (if p.studentId == s.id then 1 else 0)
      && r.puzzlesCorrect == (if p.studentId == s.id && p.correct then 1 else 0)
      && r.pointsEarned == (if p.studentId == s.id then p.pointsEarned else 0)
      && r.sessionsCompleted == (if x.studentId == s.id then 1 else 0)
      && r.totalTimeSpent == (if x.studentId == s.id then x.duration else 0)
  {
    FilterSingle(p, (q: PuzzleAttempt) => q.studentId == s.id);
    FilterSingle(x, (y: Session) => y.studentId == s.id);
    FilterSingle(p, IsCorrect);
    SumSingle(p, PointsOf);
    SumSingle(x, DurationOf);
    assert Filter([], IsCorrect) == [];
  }

  /**
   Points and time spent are never negative when the events' points and
   durations are not.
   */
  lemma ProgressNonNegative(s: Student, todayPuzzles: seq<PuzzleAttempt>, todaySessions: seq<Session>,
                            snapshot: seq<RankingEntry>)
    requires forall p | p in todayPuzzles :: p.pointsEarned >= 0
    requires forall x | x in todaySessions :: x.duration >= 0
    ensures var r := Progress(s, todayPuzzles, todaySessions, snapshot);
      r.pointsEarned >= 0 && r.totalTimeSpent >= 0
  {
    var mine := AttemptsOf(todayPuzzles, s.id);
    var sessions := SessionsOf(todaySessions, s.id);
    OwnEvents(todayPuzzles, todaySessions, s.id);
    assert forall i | 0 <= i < |mine| :: mine[i] in todayPuzzles;
    assert forall i | 0 <= i < |sessions| :: sessions[i] in todaySessions;
    SumNonNegative(mine, PointsOf);
    SumNonNegative(sessions, DurationOf);
  }

  /**
   Progress is additive over the event logs: aggregating two stretches of
   attempts and sessions together gives the sums of aggregating each.
   */
  lemma ProgressAdditive(s: Student, pa: seq<PuzzleAttempt>, pb: seq<PuzzleAttempt>,
                         sa: seq<Session>, sb: seq<Session>, snapshot: seq<RankingEntry>)
    ensures var all := Progress(s, pa + pb, sa + sb, snapshot);
      var a := Progress(s, pa, sa, snapshot);
      var b := Progress(s, pb, sb, snapshot);
      && all.puzzlesAttempted == a.puzzlesAttempted + b.puzzlesAttempted
      && all.puzzlesCorrect == a.puzzlesCorrect + b.puzzlesCorrect
      && all.pointsEarned == a.pointsEarned + b.pointsEarned
      && all.sessionsCompleted == a.sessionsCompleted + b.sessionsCompleted
      && all.totalTimeSpent == a.totalTimeSpent + b.totalTimeSpent
  {
    FilterConcat(pa, pb, (p: PuzzleAttempt) => p.studentId == s.id);
    FilterConcat(sa, sb, (x: Session) => x.studentId == s.id);
    var ma := AttemptsOf(pa, s.id);
    var mb := AttemptsOf(pb, s.id);
    FilterConcat(ma, mb, IsCorrect);
    SumConcat(ma, mb, PointsOf);
    SumConcat(SessionsOf(sa, s.id), SessionsOf(sb, s.id), DurationOf);
  }

  /** `students.map(...)`: one progress record per student, in list order. */
  function ProgressAll(students: seq<Student>, todayPuzzles: seq<PuzzleAttempt>,
                       todaySessions: seq<Session>, snapshot: seq<RankingEntry>): (r: seq<StudentProgress>)
    ensures |r| == |students|
    ensures forall i | 0 <= i < |students| ::
              r[i] == Progress(students[i], todayPuzzles, todaySessions, snapshot)
  {
    Project(students, (s: Student) => Progress(s, todayPuzzles, todaySessions, snapshot))
  }

  // ----- pooled totals -----

  function AttemptedOf(p: StudentProgress): int { p.puzzlesAttempted }
  function CorrectOf(p: StudentProgress): int { p.puzzlesCorrect }
  function AnyAttempt(p: PuzzleAttempt): bool { true }

  ghost predicate Listed(students: seq<Student>, id: string)
  {
    exists i :: 0 <= i < |students| && students[i].id == id
  }

  /** How many listed students carry `id`. */
  function CountId(students: seq<Student>, id: string): nat
  {
    if |students| == 0 then 0
    else (if students[0].id == id then 1 else 0) + CountId(students[1..], id)
  }

  /** Over the students, the number of their attempts that satisfy `keep`. */
  function Owned(students: seq<Student>, ps: seq<PuzzleAttempt>, keep: PuzzleAttempt -> bool): int
  {
    if |students| == 0 then 0
    else |Filter(AttemptsOf(ps, students[0].id), keep)| + Owned(students[1..], ps, keep)
  }

  lemma {:induction false} CountIdOne(students: seq<Student>, id: string)
    requires DistinctIds(students)
    requires Listed(students, id)
    ensures CountId(students, id) == 1
  {
    if students[0].id == id {
      CountIdZero(students[1..], id);
    } else {
      var i :| 0 <= i < |students| && students[i].id == id;
      assert students[1..][i - 1].id == id;
      CountIdOne(students[1..], id);
    }
  }

  lemma {:induction false} CountIdZero(students: seq<Student>, id: string)
    requires forall i | 0 <= i < |students| :: students[i].id != id
    ensures CountId(students, id) == 0
  {
    if |students| > 0 {
      CountIdZero(students[1..], id);
    }
  }

  /** One more attempt at the front is owned by as many students as carry its id. */
  lemma {:induction false} OwnedCons(students: seq<Student>, p: PuzzleAttempt, ps: seq<PuzzleAttempt>,
                                     keep: PuzzleAttempt -> bool)
    ensures Owned(students, [p] + ps, keep)
         == (if keep(p) then CountId(students, p.studentId) else 0) + Owned(students, ps, keep)
  {
    if |students| > 0 {
      var id := students[0].id;
      var head := if p.studentId == id then [p] else [];
      FilterConcat([p], ps, (q: PuzzleAttempt) => q.studentId == id);
      assert [p][1..] == [];
      assert AttemptsOf([p] + ps, id) == head + AttemptsOf(ps, id);
      FilterConcat(head, AttemptsOf(ps, id), keep);
      if p.studentId == id {
        assert head[1..] == [];
      }
      OwnedCons(students[1..], p, ps, keep);
    }
  }

  /**
   When the ids are distinct and every attempt is a listed student's, the
   students' attempts together are all the attempts, each counted once.
   */
  lemma {:induction false} OwnedAll(students: seq<Student>, ps: seq<PuzzleAttempt>, keep: PuzzleAttempt -> bool)
    requires DistinctIds(students)
    requires forall k | 0 <= k < |ps| :: Listed(students, ps[k].studentId)
    ensures Owned(students, ps, keep) == |Filter(ps, keep)|
  {
    if |ps| == 0 {
      OwnedEmpty(students, keep);
    } else {
      assert ps == [ps[0]] + ps[1..];
      OwnedCons(students, ps[0], ps[1..], keep);
      CountIdOne(students, ps[0].studentId);
      OwnedAll(students, ps[1..], keep);
    }
  }

  lemma {:induction false} OwnedEmpty(students: seq<Student>, keep: PuzzleAttempt -> bool)
    ensures Owned(students, [], keep) == 0
  {
    if |students| > 0 {
      OwnedEmpty(students[1..], keep);
    }
  }

  lemma {:induction false} ProgressSums(students: seq<Student>, todayPuzzles: seq<PuzzleAttempt>,
                                        todaySessions: seq<Session>, snapshot: seq<RankingEntry>)
    ensures var r := ProgressAll(students, todayPuzzles, todaySessions, snapshot);
      && Sum(r, AttemptedOf) == Owned(students, todayPuzzles, AnyAttempt)
      && Sum(r, CorrectOf) == Owned(students, todayPuzzles, IsCorrect)
  {
    if |students| > 0 {
      var r := ProgressAll(students, todayPuzzles, todaySessions, snapshot);
      ProgressSums(students[1..], todayPuzzles, todaySessions, snapshot);
      FilterAll(AttemptsOf(todayPuzzles, students[0].id), AnyAttempt);
      assert r[1..] == ProgressAll(students[1..], todayPuzzles, todaySessions, snapshot);
    }
  }

  /**
   The overview: counts of today's sessions, attempts, students and books, and
   the pooled accuracy over all of today's attempts, 0 when there are none.
   */
  function OverviewOf(students: seq<Student>, todayPuzzles: seq<PuzzleAttempt>,
                      todaySessions: seq<Session>, todayBooks: seq<BookEntry>): (o: Overview)
    ensures o.totalPuzzles == |todayPuzzles| && o.totalSessions == |todaySessions|
    ensures o.totalStudents == |students| && o.newBooks == |todayBooks|
    ensures o.totalPuzzles == 0 ==> o.averageAccuracy == 0.0
    ensures 0.0 <= o.averageAccuracy <= 100.0
    ensures o.averageAccuracy == Accuracy(|Filter(todayPuzzles, IsCorrect)|, |todayPuzzles|)
  {
    var totalCorrect := |Filter(todayPuzzles, IsCorrect)|;
    FilterMembers(todayPuzzles, IsCorrect);
    Overview(|todaySessions|, |todayPuzzles|, |students|, |todayBooks|,
             Accuracy(totalCorrect, |todayPuzzles|))
  }

  /**
   The overview agrees with the per-student records: the total of attempts is
   the sum of the students' attempts, and the average accuracy is the pooled
   one, the students' correct attempts over their attempts, not a mean of
   per-student accuracies.
   */
  lemma PooledOverview(students: seq<Student>, todayPuzzles: seq<PuzzleAttempt>,
                       todaySessions: seq<Session>, todayBooks: seq<BookEntry>, snapshot: seq<RankingEntry>)
    requires DistinctIds(students)
    requires forall k | 0 <= k < |todayPuzzles| :: Listed(students, todayPuzzles[k].studentId)
    ensures var o := OverviewOf(students, todayPuzzles, todaySessions, todayBooks);
      var r := ProgressAll(students, todayPuzzles, todaySessions, snapshot);
      && o.totalPuzzles == Sum(r, AttemptedOf)
      && o.averageAccuracy == Accuracy(Sum(r, CorrectOf), Sum(r, AttemptedOf))
  {
    ProgressSums(students, todayPuzzles, todaySessions, snapshot);
    OwnedAll(students, todayPuzzles, AnyAttempt);
    OwnedAll(students, todayPuzzles, IsCorrect);
    FilterAll(todayPuzzles, AnyAttempt);
  }

  // ----- the report -----

  /**
   `generateDailyReport`, with one clock reading `now` for the report's id, date
   and generation instant, and one start of today for all three filters, passed
   in. The source reads the clock separately for each of these and for each
   filter's midnight, so a report built across midnight could filter attempts
   against one day and sessions or books against the next; this model does not
   represent that. Every student gets
   a progress record in list order whose rank change is the one of that
   student's leaderboard entry; the overview counts today's events; the new
   books are exactly today's books; the leaderboard has one entry per student
   in non-increasing rank change.
   */
  function GenerateDailyReport(students: seq<Student>, attempts: seq<PuzzleAttempt>,
                               sessions: seq<Session>, books: seq<BookEntry>,
                               snapshot: seq<RankingEntry>, now: int, startOfDay: int): (r: DailyReport)
    ensures r.id == now && r.date == now && r.generatedAt == now
    ensures |r.studentProgress| == |students|
    ensures forall i | 0 <= i < |students| ::
              && r.studentProgress[i].studentId == students[i].id
              && r.studentProgress[i].puzzlesAttempted
                 == r.studentProgress[i].puzzlesCorrect + r.studentProgress[i].puzzlesIncorrect
              && Change(students[i], snapshot) in r.leaderboardChanges
              && r.studentProgress[i].rankChange == Change(students[i], snapshot).rankChange
    ensures r.overview.totalStudents == |students|
    ensures r.overview.totalPuzzles == |TodaysPuzzleAttempts(attempts, startOfDay)|
    ensures r.overview.totalSessions == |TodaysSessions(sessions, startOfDay)|
    ensures r.overview.newBooks == |r.newBooks|
    ensures forall b | b in r.newBooks :: b in books && b.addedAt >= startOfDay
    ensures forall b | b in books && b.addedAt >= startOfDay :: b in r.newBooks
    ensures |r.leaderboardChanges| == |students|
    ensures forall i, j | 0 <= i < j < |r.leaderboardChanges| ::
              r.leaderboardChanges[i].rankChange >= r.leaderboardChanges[j].rankChange
    ensures r.studentProgress
         == ProgressAll(students, TodaysPuzzleAttempts(attempts, startOfDay),
                        TodaysSessions(sessions, startOfDay), snapshot)
    ensures r.overview
         == OverviewOf(students, TodaysPuzzleAttempts(attempts, startOfDay),
                       TodaysSessions(sessions, startOfDay), TodaysBooks(books, startOfDay))
    ensures r.newBooks == TodaysBooks(books, startOfDay)
    ensures r.leaderboardChanges == LeaderboardChanges(students, snapshot)
  {
    var todayPuzzles := TodaysPuzzleAttempts(attempts, startOfDay);
    var todaySessions := TodaysSessions(sessions, startOfDay);
    var todayBooks := TodaysBooks(books, startOfDay);
    var changes := LeaderboardChanges(students, snapshot);
    assert forall i | 0 <= i < |students| :: Changes(students, snapshot)[i] in multiset(changes);
    DailyReport(
      now, now, now,
      OverviewOf(students, todayPuzzles, todaySessions, todayBooks),
      ProgressAll(students, todayPuzzles, todaySessions, snapshot),
      todayBooks,
      changes)
  }

  /**
   With distinct student ids and every attempt made by a listed student, the
   report's total of attempts is the sum of the students' attempts and its
   average accuracy is the accuracy of the students' pooled counts.
   */
  lemma ReportTotalsAgree(students: seq<Student>, attempts: seq<PuzzleAttempt>,
                          sessions: seq<Session>, books: seq<BookEntry>,
                          snapshot: seq<RankingEntry>, now: int, startOfDay: int)
    requires DistinctIds(students)
    requires forall k | 0 <= k < |attempts| :: Listed(students, attempts[k].studentId)
    ensures var r := GenerateDailyReport(students, attempts, sessions, books, snapshot, now, startOfDay);
      && r.overview.totalPuzzles == Sum(r.studentProgress, AttemptedOf)
      && r.overview.averageAccuracy
         == Accuracy(Sum(r.studentProgress, CorrectOf), Sum(r.studentProgress, AttemptedOf))
  {
    var todayPuzzles := TodaysPuzzleAttempts(attempts, startOfDay);
    forall k | 0 <= k < |todayPuzzles|
      ensures Listed(students, todayPuzzles[k].studentId)
    {
      assert todayPuzzles[k] in attempts;
    }
    PooledOverview(students, todayPuzzles, TodaysSessions(sessions, startOfDay),
                   TodaysBooks(books, startOfDay), snapshot);
  }

  /**
   A day with no events: no attempts, sessions or books since the start of
   today gives zero attempt, session and book totals, zero accuracy, no new
   books, and records whose counts, points, topic rows, sessions and time are
   0. The rank changes still come from the snapshot.
   */
  lemma QuietDay(students: seq<Student>, attempts: seq<PuzzleAttempt>,
                 sessions: seq<Session>, books: seq<BookEntry>,
                 snapshot: seq<RankingEntry>, now: int, startOfDay: int)
    requires forall p | p in attempts :: p.timestamp < startOfDay
    requires forall x | x in sessions :: x.startTime < startOfDay
    requires forall b | b in books :: b.addedAt < startOfDay
    ensures var r := GenerateDailyReport(students, attempts, sessions, books, snapshot, now, startOfDay);
      && r.overview.totalPuzzles == 0 && r.overview.totalSessions == 0 && r.overview.newBooks == 0
      && r.overview.averageAccuracy == 0.0
      && r.newBooks == []
      && forall i | 0 <= i < |r.studentProgress| ::
           r.studentProgress[i].puzzlesAttempted == 0 && r.studentProgress[i].pointsEarned == 0
           && r.studentProgress[i].topicBreakdown == []
           && r.studentProgress[i].sessionsCompleted == 0 && r.studentProgress[i].totalTimeSpent == 0
  {
    KeepSinceNone(attempts, AttemptTime, startOfDay);
    KeepSinceNone(sessions, SessionTime, startOfDay);
    KeepSinceNone(books, BookTime, startOfDay);
    assert TodaysPuzzleAttempts(attempts, startOfDay) == [];
    assert TodaysSessions(sessions, startOfDay) == [];
    assert TodaysBooks(books, startOfDay) == [];
    forall i | 0 <= i < |students|
      ensures var p := Progress(students[i], [], [], snapshot);
        p.puzzlesAttempted == 0 && p.pointsEarned == 0 && p.topicBreakdown == []
        && p.sessionsCompleted == 0 && p.totalTimeSpent == 0
    {
      IdleStudentProgress(students[i], [], [], snapshot);
    }
  }

  // ----- the seven-day history -----

  const HistoryDays: nat := 7

  /**
   08:00 on the day `daysAgo` days before the day starting at `startOfDay`;
   a day is 86 400 000 ms and 08:00 is 28 800 000 ms after midnight.
   */
  function ReportStamp(startOfDay: int, daysAgo: int): int
  {
    startOfDay - daysAgo * 86_400_000 + 28_800_000
  }

  function DateOf(r: DailyReport): int { r.date }

  /** `{...base, id, date, generatedAt}` for the day `daysAgo` back. */
  function Relabel(base: DailyReport, startOfDay: int, daysAgo: int): DailyReport
  {
    var stamp := ReportStamp(startOfDay, daysAgo);
    base.(id := stamp, date := stamp, generatedAt := stamp)
  }

  /** The seven relabelled copies, today's first, in construction order. */
  function Relabelled(base: DailyReport, startOfDay: int): (r: seq<DailyReport>)
    ensures |r| == HistoryDays
    ensures forall i | 0 <= i < HistoryDays :: r[i] == Relabel(base, startOfDay, i)
  {
    seq(HistoryDays, i requires 0 <= i < HistoryDays => Relabel(base, startOfDay, i))
  }

  lemma RelabelledFacts(base: DailyReport, startOfDay: int)
    ensures var r := Relabelled(base, startOfDay);
      && (forall i, j | 0 <= i < j < |r| :: r[i].date > r[j].date)
      && (forall i | 0 <= i < |r| ::
            startOfDay - i * 86_400_000 <= r[i].date < startOfDay - (i - 1) * 86_400_000)
      && (forall i | 0 <= i < |r| :: r[i].id == r[i].date && r[i].generatedAt == r[i].date)
      && (forall i | 0 <= i < |r| ::
            r[i].(id := base.id, date := base.date, generatedAt := base.generatedAt) == base)
  {
    var r := Relabelled(base, startOfDay);
    forall i, j | 0 <= i < j < |r|
      ensures r[i].date > r[j].date
    {
      assert r[i].date == ReportStamp(startOfDay, i) && r[j].date == ReportStamp(startOfDay, j);
    }
    forall i | 0 <= i < |r|
      ensures startOfDay - i * 86_400_000 <= r[i].date < startOfDay - (i - 1) * 86_400_000
    {
      assert r[i].date == ReportStamp(startOfDay, i);
    }
  }

  /**
   The history built from one report: seven copies, newest first with strictly
   decreasing dates, the `i`-th dated 08:00 of the day `i` days back and
   falling within that calendar day, all with distinct ids, and each equal to
   the base report except for its id, date and generation instant.
   */
  function History(base: DailyReport, startOfDay: int): (r: seq<DailyReport>)
    ensures |r| == HistoryDays
    ensures forall i, j | 0 <= i < j < |r| :: r[i].date > r[j].date
    ensures forall i, j | 0 <= i < j < |r| :: r[i].id != r[j].id
    ensures forall i | 0 <= i < |r| ::
              startOfDay - i * 86_400_000 <= r[i].date < startOfDay - (i - 1) * 86_400_000
    ensures forall i | 0 <= i < |r| :: r[i].date == ReportStamp(startOfDay, i)
    ensures forall i | 0 <= i < |r| :: r[i].id == r[i].date && r[i].generatedAt == r[i].date
    ensures forall i | 0 <= i < |r| ::
              r[i].(id := base.id, date := base.date, generatedAt := base.generatedAt) == base
  {
    var days := Relabelled(base, startOfDay);
    RelabelledFacts(base, startOfDay);
    assert SortedDesc(days, DateOf);
    SortSortedIsIdentity(days, DateOf);
    Sort(days, DateOf)
  }

  /** `getAllReports`: the history of the report generated from the current data. */
  function AllReports(students: seq<Student>, attempts: seq<PuzzleAttempt>,
                      sessions: seq<Session>, books: seq<BookEntry>,
                      snapshot: seq<RankingEntry>, now: int, startOfDay: int): (r: seq<DailyReport>)
    ensures |r| == HistoryDays
    ensures forall i, j | 0 <= i < j < |r| :: r[i].date > r[j].date
    ensures forall i | 0 <= i < |r| :: r[i].date == ReportStamp(startOfDay, i)
    ensures forall i | 0 <= i < |r| :: r[i].id == r[i].date && r[i].generatedAt == r[i].date
    ensures forall i | 0 <= i < |r| ::
              r[i].(id := now, date := now, generatedAt := now)
              == GenerateDailyReport(students, attempts, sessions, books, snapshot, now, startOfDay)
  {
    History(GenerateDailyReport(students, attempts, sessions, books, snapshot, now, startOfDay), startOfDay)
  }
}
