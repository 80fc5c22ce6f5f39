/**
 Concrete cases of the daily report, written as lemmas over fixed inputs.
 */
module Scenarios {
  import opened Types
  import opened Seqs
  import opened TopicBreakdown
  import opened Snapshot
  import opened Leaderboard
  import opened Report

  /** A lone correct attempt makes one breakdown row at 100% accuracy. */
  lemma LoneCorrectAttemptRow(p: PuzzleAttempt)
    requires p.correct
    ensures Breakdown([p]) == [TopicStats(p.topic, 1, 1, 0, 100.0)]
  {
    assert [p][..0] == [];
    assert TallyTopics([p]) == [Tally(p.topic, 1, 1)];
    assert Accuracy(1, 1) == 100.0;
    assert ToStatsAll([Tally(p.topic, 1, 1)]) == [ToStats(Tally(p.topic, 1, 1))];
  }

  /** Attempts of a student, from a log holding just one of theirs. */
  lemma LoneAttemptIsMine(s: Student, p: PuzzleAttempt)
    requires p.studentId == s.id
    ensures AttemptsOf([p], s.id) == [p]
  {
    FilterSingle(p, (q: PuzzleAttempt) => q.studentId == s.id);
  }

  /**
   One correct attempt on "Tactics" worth 8 points gives one attempt, one
   correct, 8 points and a single breakdown row at 100% accuracy.
   */
  lemma OneCorrectTacticsAttempt(s: Student, p: PuzzleAttempt)
    requires p.studentId == s.id && p.topic == "Tactics" && p.correct && p.pointsEarned == 8
    ensures var r := Progress(s, [p], [], []);
      && r.puzzlesAttempted == 1 && r.puzzlesCorrect == 1 && r.puzzlesIncorrect == 0
      && r.pointsEarned == 8
      && r.topicBreakdown == [TopicStats("Tactics", 1, 1, 0, 100.0)]
  {
    LoneAttemptIsMine(s, p);
    LoneCorrectAttemptRow(p);
    assert [p][1..] == [];
    assert Filter([p], IsCorrect) == [p] + Filter([], IsCorrect);
    assert Filter([p], IsIncorrect) == Filter([], IsIncorrect);
    assert Sum([p], PointsOf) == 8 + Sum([], PointsOf);
  }

  /**
   Yesterday at rank 3 with 500 points, today at rank 1 with 600: the entry
   reports previous rank 3, a rise of 2 places and a gain of 100 points.
   */
  lemma RiseFromThirdToFirst(s: Student)
    requires s.rank == 1 && s.totalPoints == 600
    ensures var c := Change(s, [RankingEntry(s.id, 3, 500)]);
      c.previousRank == 3 && c.currentRank == 1 && c.rankChange == 2 && c.pointsChange == 100
  {
    assert FirstFor([RankingEntry(s.id, 3, 500)], s.id, 0);
  }

  /**
   A snapshot entry with 0 points is falsy and falls back to the current
   total, so the points change reads 0 even though the student gained points.
   */
  lemma ZeroPointEntryFallsBack(s: Student)
    requires s.rank == 2 && s.totalPoints == 40
    ensures Change(s, [RankingEntry(s.id, 2, 0)]).pointsChange == 0
  {
    assert FirstFor([RankingEntry(s.id, 2, 0)], s.id, 0);
  }
}
