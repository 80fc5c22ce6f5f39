/**
 The leaderboard-changes list of `generateDailyReport` (lib/mockData.ts): one
 entry per student comparing the current rank and points with the snapshot,
 stably sorted by rank change, largest improvement first.
 */
module Leaderboard {
  import opened Types
  import opened Seqs
  import opened Snapshot
  import opened StableSort

  /** A student's entry; a positive `rankChange` is an improvement. */
  function Change(s: Student, snapshot: seq<RankingEntry>): (c: LeaderboardChange)
    ensures c.studentId == s.id && c.studentName == s.name && c.currentRank == s.rank
    ensures c.rankChange == c.previousRank - c.currentRank
    ensures Absent(snapshot, s.id) ==> c.previousRank == s.rank && c.rankChange == 0 && c.pointsChange == 0
    ensures forall k | FirstFor(snapshot, s.id, k) ::
              && (snapshot[k].rank != 0 ==> c.previousRank == snapshot[k].rank
                                             && c.rankChange == snapshot[k].rank - s.rank)
              && (snapshot[k].rank == 0 ==> c.rankChange == 0)
              && (snapshot[k].points != 0 ==> c.pointsChange == s.totalPoints - snapshot[k].points)
              && (snapshot[k].points == 0 ==> c.pointsChange == 0)
  {
    var previousRank := PreviousRank(s, snapshot);
    LeaderboardChange(s.id, s.name, previousRank, s.rank, previousRank - s.rank,
                      s.totalPoints - PreviousPoints(s, snapshot))
  }

  /** The entries in student-list order, before sorting. */
  function Changes(students: seq<Student>, snapshot: seq<RankingEntry>): (r: seq<LeaderboardChange>)
    ensures |r| == |students|
    ensures forall i | 0 <= i < |students| :: r[i] == Change(students[i], snapshot)
  {
    Project(students, (s: Student) => Change(s, snapshot))
  }

  function RankChangeOf(c: LeaderboardChange): int { c.rankChange }

  /**
   The leaderboard changes: a rearrangement of the per-student entries in
   non-increasing `rankChange`, where entries with equal `rankChange` keep the
   order of the student list.
   */
  function LeaderboardChanges(students: seq<Student>, snapshot: seq<RankingEntry>): (r: seq<LeaderboardChange>)
    ensures |r| == |students|
    ensures multiset(r) == multiset(Changes(students, snapshot))
    ensures forall i, j | 0 <= i < j < |r| :: r[i].rankChange >= r[j].rankChange
    ensures forall k :: WithKey(r, RankChangeOf, k) == WithKey(Changes(students, snapshot), RankChangeOf, k)
  {
    Sort(Changes(students, snapshot), RankChangeOf)
  }

  /**
   Exactly one entry per student: with distinct ids, every student's entry
   occurs once, and every entry is some student's.
   */
  lemma OneEntryPerStudent(students: seq<Student>, snapshot: seq<RankingEntry>)
    requires DistinctIds(students)
    ensures forall i | 0 <= i < |students| ::
              multiset(LeaderboardChanges(students, snapshot))[Change(students[i], snapshot)] == 1
    ensures forall c | c in LeaderboardChanges(students, snapshot) ::
              exists i :: 0 <= i < |students| && c == Change(students[i], snapshot)
  {
    var cs := Changes(students, snapshot);
    var r := LeaderboardChanges(students, snapshot);
    assert multiset(r) == multiset(cs);
    forall i | 0 <= i < |students|
      ensures multiset(r)[Change(students[i], snapshot)] == 1
    {
      OccursOnce(cs, i);
    }
    forall c | c in r
      ensures exists i :: 0 <= i < |students| && c == Change(students[i], snapshot)
    {
      EntryOfSomeStudent(students, snapshot, r, c);
    }
  }

  /** Anything with the same elements as the unsorted entries holds only students' entries. */
  lemma EntryOfSomeStudent(students: seq<Student>, snapshot: seq<RankingEntry>,
                           r: seq<LeaderboardChange>, c: LeaderboardChange)
    requires multiset(r) == multiset(Changes(students, snapshot))
    requires c in r
    ensures exists i :: 0 <= i < |students| && c == Change(students[i], snapshot)
  {
    var cs := Changes(students, snapshot);
    assert c in multiset(cs);
    var i :| 0 <= i < |cs| && cs[i] == c;
  }

  /** An element whose student id no other element shares occurs once. */
  lemma {:induction false} OccursOnce(cs: seq<LeaderboardChange>, i: nat)
    requires i < |cs|
    requires forall j | 0 <= j < |cs| && j != i :: cs[j].studentId != cs[i].studentId
    ensures multiset(cs)[cs[i]] == 1
  {
    var x := cs[i];
    assert cs == cs[..i] + [x] + cs[i + 1..];
    NotIn(cs[..i], x);
    NotIn(cs[i + 1..], x);
  }

  lemma NotIn(cs: seq<LeaderboardChange>, x: LeaderboardChange)
    requires forall j | 0 <= j < |cs| :: cs[j].studentId != x.studentId
    ensures multiset(cs)[x] == 0
  {
    assert x !in cs;
  }

  /**
   With a snapshot captured from the current student list whose ranks are
   already the list positions, nobody moves: every rank change is 0 and the
   sort leaves the student order as it is.
   */
  lemma FreshSnapshotKeepsOrder(students: seq<Student>, perturbation: seq<int>)
    requires |perturbation| == |students|
    requires forall i | 0 <= i < |perturbation| :: 0 <= perturbation[i] < 100
    requires DistinctIds(students)
    requires forall i | 0 <= i < |students| :: students[i].rank == i + 1
    ensures var snap := Capture(students, perturbation);
      && (forall c | c in LeaderboardChanges(students, snap) :: c.rankChange == 0)
      && LeaderboardChanges(students, snap) == Changes(students, snap)
  {
    var snap := Capture(students, perturbation);
    var cs := Changes(students, snap);
    forall i | 0 <= i < |students|
      ensures cs[i].rankChange == 0
    {
      CaptureReadBack(students, perturbation, i);
    }
    assert SortedDesc(cs, RankChangeOf);
    SortSortedIsIdentity(cs, RankChangeOf);
  }
}
