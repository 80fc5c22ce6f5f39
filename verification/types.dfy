/**
 The record shapes of the chess-practice report (lib/types.ts), as immutable
 datatypes. Instants (`Date` in the source) are integer milliseconds since the
 epoch; every JavaScript `number` that holds a count, a point total or a rank
 is an unbounded `int`, and the one fractional quantity, accuracy, is an exact
 `real` percentage.
 */
module Types {

  datatype Option<T> = None | Some(value: T)

  datatype Student = Student(
    id: string,
    name: string,
    email: string,
    totalPoints: int,
    rank: int)

  datatype PuzzleAttempt = PuzzleAttempt(
    id: string,
    studentId: string,
    studentName: string,
    topic: string,
    puzzleId: string,
    correct: bool,
    timestamp: int,
    pointsEarned: int)

  datatype Session = Session(
    id: string,
    studentId: string,
    studentName: string,
    startTime: int,
    endTime: int,
    duration: int,
    puzzlesCompleted: int)

  datatype BookEntry = BookEntry(
    id: string,
    title: string,
    author: string,
    category: string,
    addedBy: string,
    addedAt: int)

  /** One entry of the previous-day ranking snapshot. */
  datatype RankingEntry = RankingEntry(studentId: string, rank: int, points: int)

  /** One row of a student's topic breakdown; `accuracy` is a percentage. */
  datatype TopicStats = TopicStats(
    topic: string,
    attempted: int,
    correct: int,
    incorrect: int,
    accuracy: real)

  datatype StudentProgress = StudentProgress(
    studentId: string,
    studentName: string,
    puzzlesAttempted: int,
    puzzlesCorrect: int,
    puzzlesIncorrect: int,
    topicBreakdown: seq<TopicStats>,
    pointsEarned: int,
    sessionsCompleted: int,
    totalTimeSpent: int,
    rankChange: int)

  datatype Overview = Overview(
    totalSessions: int,
    totalPuzzles: int,
    totalStudents: int,
    newBooks: int,
    averageAccuracy: real)

  datatype LeaderboardChange = LeaderboardChange(
    studentId: string,
    studentName: string,
    previousRank: int,
    currentRank: int,
    rankChange: int,
    pointsChange: int)

  /** `id` is the number `n` of the source's identifier `report-<n>`. */
  datatype DailyReport = DailyReport(
    id: int,
    date: int,
    generatedAt: int,
    overview: Overview,
    studentProgress: seq<StudentProgress>,
    newBooks: seq<BookEntry>,
    leaderboardChanges: seq<LeaderboardChange>)
}
