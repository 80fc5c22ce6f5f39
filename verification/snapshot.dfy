/**
 The previous-day ranking snapshot of `DataStore` (lib/mockData.ts): how it is
 captured after seeding, and how a student's previous rank and points are read
 back from it with `rankings.find(...)` and the `||` fallback.

 A snapshot that was never captured (`previousDayData` still `null`) behaves
 exactly like the empty sequence: `?.` yields `undefined` and the fallback
 applies.
 */
module Snapshot {
  import opened Types

  /** `k` is the first entry of the snapshot for `id`: the one `find` returns. */
  ghost predicate FirstFor(snapshot: seq<RankingEntry>, id: string, k: int)
  {
    && 0 <= k < |snapshot|
    && snapshot[k].studentId == id
    && forall j | 0 <= j < k :: snapshot[j].studentId != id
  }

  /** The snapshot has no entry for `id`. */
  ghost predicate Absent(snapshot: seq<RankingEntry>, id: string)
  {
    forall k | 0 <= k < |snapshot| :: snapshot[k].studentId != id
  }

  /** `rankings.find(r => r.studentId === id)`, as a position. */
  function FindEntry(snapshot: seq<RankingEntry>, id: string): (r: Option<nat>)
    ensures r.Some? ==> FirstFor(snapshot, id, r.value)
    ensures r.None? ==> Absent(snapshot, id)
  {
    if |snapshot| == 0 then None
    else if snapshot[0].studentId == id then Some(0)
    else match FindEntry(snapshot[1..], id)
      case None => None
      case Some(k) => Some(k + 1)
  }

  /**
   `previousData?.rank || student.rank`: the first entry's rank, unless there
   is no entry or its rank is 0 (falsy), in which case the current rank.
   */
  function PreviousRank(s: Student, snapshot: seq<RankingEntry>): (r: int)
    ensures Absent(snapshot, s.id) ==> r == s.rank
    ensures forall k | FirstFor(snapshot, s.id, k) ::
              r == if snapshot[k].rank != 0 then snapshot[k].rank else s.rank
  {
    match FindEntry(snapshot, s.id)
    case Some(k) => if snapshot[k].rank != 0 then snapshot[k].rank else s.rank
    case None => s.rank
  }

  /**
   `previousData?.points || student.totalPoints`: the first entry's points,
   unless there is no entry or its points are 0, in which case the current total.
   */
  function PreviousPoints(s: Student, snapshot: seq<RankingEntry>): (r: int)
    ensures Absent(snapshot, s.id) ==> r == s.totalPoints
    ensures forall k | FirstFor(snapshot, s.id, k) ::
              r == if snapshot[k].points != 0 then snapshot[k].points else s.totalPoints
  {
    match FindEntry(snapshot, s.id)
    case Some(k) => if snapshot[k].points != 0 then snapshot[k].points else s.totalPoints
    case None => s.totalPoints
  }

  /**
   The capture after seeding: one entry per student in list order, ranked by
   position, with points lowered by `perturbation[i]`, the source's
   `Math.floor(Math.random() * 100)` passed in.
   */
  function Capture(students: seq<Student>, perturbation: seq<int>): (r: seq<RankingEntry>)
    requires |perturbation| == |students|
    requires forall i | 0 <= i < |perturbation| :: 0 <= perturbation[i] < 100
    ensures |r| == |students|
    ensures forall i | 0 <= i < |r| :: r[i].studentId == students[i].id && r[i].rank == i + 1
    ensures forall i | 0 <= i < |r| :: r[i].points == students[i].totalPoints - perturbation[i]
    ensures forall i | 0 <= i < |r| ::
              students[i].totalPoints - 100 < r[i].points <= students[i].totalPoints
  {
    seq(|students|, i requires 0 <= i < |students| =>
      RankingEntry(students[i].id, i + 1, students[i].totalPoints - perturbation[i]))
  }

  ghost predicate DistinctIds(students: seq<Student>)
  {
    forall i, j | 0 <= i < j < |students| :: students[i].id != students[j].id
  }

  /**
   Reading a freshly captured snapshot back: with distinct ids, student `i`'s
   previous rank is its position `i + 1` (never 0, so never the fallback), and
   its previous points are the perturbed total unless those happen to be 0.
   */
  lemma CaptureReadBack(students: seq<Student>, perturbation: seq<int>, i: nat)
    requires |perturbation| == |students|
    requires forall j | 0 <= j < |perturbation| :: 0 <= perturbation[j] < 100
    requires DistinctIds(students)
    requires i < |students|
    ensures PreviousRank(students[i], Capture(students, perturbation)) == i + 1
    ensures var p := students[i].totalPoints - perturbation[i];
      PreviousPoints(students[i], Capture(students, perturbation))
        == if p != 0 then p else students[i].totalPoints
  {
    var snap := Capture(students, perturbation);
    assert FirstFor(snap, students[i].id, i);
  }
}
