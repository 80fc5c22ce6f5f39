/**
 The per-student topic breakdown of `generateDailyReport` (lib/mockData.ts).
 The source folds the student's attempts into a JavaScript `Map` keyed by
 topic: a topic seen again updates its entry in place, a new topic is appended,
 so the entries come out in order of each topic's first attempt. Each entry
 then becomes a row with its incorrect count and accuracy percentage.
 */
module TopicBreakdown {
  import opened Types
  import opened Seqs

  /** A `Map` entry: a topic with its running attempted and correct counts. */
  datatype Tally = Tally(topic: string, attempted: int, correct: int)

  // ----- reference definitions -----

  function AttemptTopic(p: PuzzleAttempt): string { p.topic }
  function TallyTopic(row: Tally): string { row.topic }
  function StatsTopic(row: TopicStats): string { row.topic }

  /** The topics of the attempts, one per attempt, in order. */
  function Topics(ps: seq<PuzzleAttempt>): seq<string>
  {
    Project(ps, AttemptTopic)
  }

  /** The position of the first occurrence of `t`. */
  function IndexOf(ts: seq<string>, t: string): (i: nat)
    requires t in ts
    ensures i < |ts| && ts[i] == t
    ensures forall j | 0 <= j < i :: ts[j] != t
  {
    if ts[0] == t then 0 else 1 + IndexOf(ts[1..], t)
  }

  function IsCorrect(p: PuzzleAttempt): bool { p.correct }
  function IsIncorrect(p: PuzzleAttempt): bool { !p.correct }

  /** The attempts on topic `t`. */
  function OnTopic(ps: seq<PuzzleAttempt>, t: string): seq<PuzzleAttempt>
  {
    Filter(ps, (p: PuzzleAttempt) => p.topic == t)
  }

  function CorrectOnTopic(ps: seq<PuzzleAttempt>, t: string): seq<PuzzleAttempt>
  {
    Filter(OnTopic(ps, t), IsCorrect)
  }

  function IncorrectOnTopic(ps: seq<PuzzleAttempt>, t: string): seq<PuzzleAttempt>
  {
    Filter(OnTopic(ps, t), IsIncorrect)
  }

  /** The topics of the rows, in row order. */
  function RowTopics(rows: seq<Tally>): seq<string>
  {
    Project(rows, TallyTopic)
  }

  function TallyAttempted(row: Tally): int { row.attempted }

  /** No topic has two rows. */
  ghost predicate DistinctTopics(rows: seq<Tally>)
  {
    forall i, j | 0 <= i < j < |rows| :: rows[i].topic != rows[j].topic
  }

  /** The rows' topics are exactly the attempted topics. */
  ghost predicate SameTopics(rows: seq<Tally>, ps: seq<PuzzleAttempt>)
  {
    && (forall i | 0 <= i < |rows| :: rows[i].topic in Topics(ps))
    && (forall k | 0 <= k < |ps| :: ps[k].topic in RowTopics(rows))
  }

  /** Rows are ordered by the position of their topic's first attempt. */
  ghost predicate FirstAttemptOrder(rows: seq<Tally>, ps: seq<PuzzleAttempt>)
  {
    var ts := Topics(ps);
    forall i, j | 0 <= i < j < |rows| && rows[i].topic in ts && rows[j].topic in ts ::
      IndexOf(ts, rows[i].topic) < IndexOf(ts, rows[j].topic)
  }

  /** Each row counts the attempts, and the correct attempts, on its topic. */
  ghost predicate CountsMatch(rows: seq<Tally>, ps: seq<PuzzleAttempt>)
  {
    forall i | 0 <= i < |rows| ::
      rows[i].attempted == |OnTopic(ps, rows[i].topic)|
      && rows[i].correct == |CorrectOnTopic(ps, rows[i].topic)|
  }

  /**
   `rows` is the tally of `ps`: one row per distinct topic, in order of first
   attempt, each with the number of attempts and correct attempts on it.
   */
  ghost predicate Describes(rows: seq<Tally>, ps: seq<PuzzleAttempt>)
  {
    && DistinctTopics(rows)
    && SameTopics(rows, ps)
    && FirstAttemptOrder(rows, ps)
    && CountsMatch(rows, ps)
    && Sum(rows, TallyAttempted) == |ps|
  }

  // ----- the fold -----

  /** `topicMap.get(topic)`: the position of the entry for `t`, if any. */
  function FindTopic(rows: seq<Tally>, t: string): (r: Option<nat>)
    ensures r.Some? ==> r.value < |rows| && rows[r.value].topic == t
    ensures r.None? ==> forall i | 0 <= i < |rows| :: rows[i].topic != t
  {
    if |rows| == 0 then None
    else if rows[0].topic == t then Some(0)
    else match FindTopic(rows[1..], t)
      case None => None
      case Some(i) => Some(i + 1)
  }

  /** `topicMap.set(...)` for one attempt. */
  function Record(rows: seq<Tally>, p: PuzzleAttempt): seq<Tally>
  {
    var hit := if p.correct then 1 else 0;
    match FindTopic(rows, p.topic)
    case Some(i) => rows[i := Tally(p.topic, rows[i].attempted + 1, rows[i].correct + hit)]
    case None => rows + [Tally(p.topic, 1, hit)]
  }

  /** The `forEach` over the attempts, left to right. */
  function TallyTopics(ps: seq<PuzzleAttempt>): seq<Tally>
  {
    if |ps| == 0 then [] else Record(TallyTopics(ps[..|ps| - 1]), ps[|ps| - 1])
  }

  // ----- the fold meets the reference -----

  lemma TopicsAppend(ps: seq<PuzzleAttempt>, p: PuzzleAttempt)
    ensures Topics(ps + [p]) == Topics(ps) + [p.topic]
  {
  }

  lemma {:induction false} IndexOfAppend(ts: seq<string>, x: string, t: string)
    requires t in ts
    ensures IndexOf(ts + [x], t) == IndexOf(ts, t)
  {
    if ts[0] != t {
      assert (ts + [x])[1..] == ts[1..] + [x];
      IndexOfAppend(ts[1..], x, t);
    }
  }

  lemma {:induction false} IndexOfAppendNew(ts: seq<string>, t: string)
    requires t !in ts
    ensures IndexOf(ts + [t], t) == |ts|
  {
    if |ts| > 0 {
      assert (ts + [t])[1..] == ts[1..] + [t];
      IndexOfAppendNew(ts[1..], t);
    }
  }

  lemma OnTopicAppend(ps: seq<PuzzleAttempt>, p: PuzzleAttempt, t: string)
    ensures OnTopic(ps + [p], t) == OnTopic(ps, t) + (if p.topic == t then [p] else [])
    ensures CorrectOnTopic(ps + [p], t)
         == CorrectOnTopic(ps, t) + (if p.topic == t && p.correct then [p] else [])
  {
    OnTopicAppendOne(ps, p, t);
    var tail := if p.topic == t then [p] else [];
    FilterConcat(OnTopic(ps, t), tail, IsCorrect);
    if p.topic == t {
      assert tail[1..] == [];
    }
  }

  lemma OnTopicAppendOne(ps: seq<PuzzleAttempt>, p: PuzzleAttempt, t: string)
    ensures OnTopic(ps + [p], t) == OnTopic(ps, t) + (if p.topic == t then [p] else [])
  {
    FilterConcat(ps, [p], (p: PuzzleAttempt) => p.topic == t);
    assert [p][1..] == [];
  }

  lemma OnTopicAbsent(ps: seq<PuzzleAttempt>, t: string)
    requires t !in Topics(ps)
    ensures OnTopic(ps, t) == [] && CorrectOnTopic(ps, t) == []
  {
    forall k | 0 <= k < |ps|
      ensures ps[k].topic != t
    {
      assert Topics(ps)[k] == ps[k].topic;
    }
    FilterNone(ps, (p: PuzzleAttempt) => p.topic == t);
  }

  /** Recording an attempt keeps the rows' topics, adding its topic if new. */
  lemma RecordTopics(rows: seq<Tally>, p: PuzzleAttempt)
    ensures RowTopics(Record(rows, p))
         == if FindTopic(rows, p.topic).Some? then RowTopics(rows) else RowTopics(rows) + [p.topic]
  {
  }

  lemma RecordDistinct(rows: seq<Tally>, p: PuzzleAttempt)
    requires DistinctTopics(rows)
    ensures DistinctTopics(Record(rows, p))
  {
    RecordTopics(rows, p);
    var rows' := Record(rows, p);
    forall i, j | 0 <= i < j < |rows'|
      ensures rows'[i].topic != rows'[j].topic
    {
      assert RowTopics(rows')[i] == rows'[i].topic && RowTopics(rows')[j] == rows'[j].topic;
    }
  }

  lemma RecordSameTopics(rows: seq<Tally>, ps: seq<PuzzleAttempt>, p: PuzzleAttempt)
    requires SameTopics(rows, ps)
    ensures SameTopics(Record(rows, p), ps + [p])
  {
    var ps' := ps + [p];
    var rows' := Record(rows, p);
    RecordTopics(rows, p);
    TopicsAppend(ps, p);
    assert p.topic in RowTopics(rows') by {
      if FindTopic(rows, p.topic).Some? {
        assert RowTopics(rows)[FindTopic(rows, p.topic).value] == p.topic;
      }
    }
    forall k | 0 <= k < |ps'|
      ensures ps'[k].topic in RowTopics(rows')
    {
      if k < |ps| {
        assert ps'[k] == ps[k];
      }
    }
    forall i | 0 <= i < |rows'|
      ensures rows'[i].topic in Topics(ps')
    {
      assert RowTopics(rows')[i] == rows'[i].topic;
      if i < |rows| {
        assert RowTopics(rows)[i] == rows[i].topic;
      }
    }
  }

  /** A topic with no row has not been attempted. */
  lemma NewTopicUnseen(rows: seq<Tally>, ps: seq<PuzzleAttempt>, t: string)
    requires SameTopics(rows, ps)
    requires FindTopic(rows, t) == None
    ensures t !in Topics(ps)
  {
    forall k | 0 <= k < |ps|
      ensures Topics(ps)[k] != t
    {
      var j :| 0 <= j < |rows| && RowTopics(rows)[j] == ps[k].topic;
    }
  }

  /** A topic attempted only now comes after every earlier topic. */
  lemma RecordOrder(rows: seq<Tally>, ps: seq<PuzzleAttempt>, p: PuzzleAttempt)
    requires SameTopics(rows, ps) && FirstAttemptOrder(rows, ps)
    ensures FirstAttemptOrder(Record(rows, p), ps + [p])
  {
    var ts := Topics(ps);
    var rows' := Record(rows, p);
    RecordTopics(rows, p);
    TopicsAppend(ps, p);
    forall j | 0 <= j < |rows|
      ensures rows'[j].topic == rows[j].topic
      ensures IndexOf(ts + [p.topic], rows[j].topic) == IndexOf(ts, rows[j].topic) < |ts|
    {
      assert RowTopics(rows')[j] == rows'[j].topic && RowTopics(rows)[j] == rows[j].topic;
      IndexOfAppend(ts, p.topic, rows[j].topic);
    }
    if FindTopic(rows, p.topic).None? {
      NewTopicUnseen(rows, ps, p.topic);
      IndexOfAppendNew(ts, p.topic);
      assert rows'[|rows|].topic == p.topic;
    }
  }

  lemma RecordCounts(rows: seq<Tally>, ps: seq<PuzzleAttempt>, p: PuzzleAttempt)
    requires DistinctTopics(rows) && SameTopics(rows, ps) && CountsMatch(rows, ps)
    ensures CountsMatch(Record(rows, p), ps + [p])
  {
    match FindTopic(rows, p.topic)
    case Some(i) => RecordCountsHit(rows, ps, p, i);
    case None => RecordCountsNew(rows, ps, p);
  }

  /** An attempt on a topic that has a row adds to that row only. */
  lemma RecordCountsHit(rows: seq<Tally>, ps: seq<PuzzleAttempt>, p: PuzzleAttempt, i: nat)
    requires DistinctTopics(rows) && CountsMatch(rows, ps)
    requires FindTopic(rows, p.topic) == Some(i)
    ensures CountsMatch(Record(rows, p), ps + [p])
  {
    var rows' := Record(rows, p);
    forall j | 0 <= j < |rows'|
      ensures rows'[j].attempted == |OnTopic(ps + [p], rows'[j].topic)|
      ensures rows'[j].correct == |CorrectOnTopic(ps + [p], rows'[j].topic)|
    {
      OnTopicAppend(ps, p, rows[j].topic);
    }
  }

  /** An attempt on a new topic leaves the old rows alone and adds one row for it. */
  lemma RecordCountsNew(rows: seq<Tally>, ps: seq<PuzzleAttempt>, p: PuzzleAttempt)
    requires SameTopics(rows, ps) && CountsMatch(rows, ps)
    requires FindTopic(rows, p.topic).None?
    ensures CountsMatch(Record(rows, p), ps + [p])
  {
    var rows' := Record(rows, p);
    NewTopicUnseen(rows, ps, p.topic);
    OnTopicAbsent(ps, p.topic);
    forall j | 0 <= j < |rows'|
      ensures rows'[j].attempted == |OnTopic(ps + [p], rows'[j].topic)|
      ensures rows'[j].correct == |CorrectOnTopic(ps + [p], rows'[j].topic)|
    {
      OnTopicAppend(ps, p, rows'[j].topic);
    }
  }

  /** Each attempt adds exactly one to the rows' attempted total. */
  lemma RecordSum(rows: seq<Tally>, p: PuzzleAttempt)
    ensures Sum(Record(rows, p), TallyAttempted) == Sum(rows, TallyAttempted) + 1
  {
    var hit := if p.correct then 1 else 0;
    match FindTopic(rows, p.topic)
    case Some(i) =>
      SumUpdate(rows, i, Tally(p.topic, rows[i].attempted + 1, rows[i].correct + hit), TallyAttempted);
    case None =>
      SumConcat(rows, [Tally(p.topic, 1, hit)], TallyAttempted);
  }

  /** The fold computes the reference tally. */
  lemma {:induction false} TallyTopicsDescribes(ps: seq<PuzzleAttempt>)
    ensures Describes(TallyTopics(ps), ps)
  {
    if |ps| > 0 {
      var init := ps[..|ps| - 1];
      var p := ps[|ps| - 1];
      var rows := TallyTopics(init);
      TallyTopicsDescribes(init);
      assert init + [p] == ps;
      RecordDistinct(rows, p);
      RecordSameTopics(rows, init, p);
      RecordOrder(rows, init, p);
      RecordCounts(rows, init, p);
      RecordSum(rows, p);
    }
  }

  // ----- the emitted rows -----

  /** `(correct / attempted) * 100`, guarded to 0 when nothing was attempted. */
  function Accuracy(correct: int, attempted: int): (r: real)
    ensures attempted <= 0 ==> r == 0.0
    ensures attempted > 0 ==> r * (attempted as real) == 100.0 * (correct as real)
    ensures 0 <= correct <= attempted ==> 0.0 <= r <= 100.0
  {
    if attempted > 0 then (correct as real / attempted as real) * 100.0 else 0.0
  }

  function ToStats(row: Tally): TopicStats
  {
    TopicStats(row.topic, row.attempted, row.correct, row.attempted - row.correct,
               Accuracy(row.correct, row.attempted))
  }

  function ToStatsAll(rows: seq<Tally>): (r: seq<TopicStats>)
    ensures |r| == |rows|
    ensures forall i | 0 <= i < |rows| :: r[i] == ToStats(rows[i])
  {
    Project(rows, ToStats)
  }

  function StatsAttempted(row: TopicStats): int { row.attempted }

  /** The topics of the emitted rows, in row order. */
  function StatTopics(r: seq<TopicStats>): seq<string>
  {
    Project(r, StatsTopic)
  }

  lemma {:induction false} ToStatsAllSum(rows: seq<Tally>)
    ensures Sum(ToStatsAll(rows), StatsAttempted) == Sum(rows, TallyAttempted)
  {
    if |rows| > 0 {
      ToStatsAllSum(rows[1..]);
      assert ToStatsAll(rows)[1..] == ToStatsAll(rows[1..]);
    }
  }

  /** A topic that was attempted has at least one attempt on it. */
  lemma OnTopicNonEmpty(ps: seq<PuzzleAttempt>, t: string)
    requires t in Topics(ps)
    ensures |OnTopic(ps, t)| >= 1
  {
    var k :| 0 <= k < |ps| && Topics(ps)[k] == t;
    FilterMembers(ps, (p: PuzzleAttempt) => p.topic == t);
    assert ps[k] in OnTopic(ps, t);
  }

  /** A row is internally consistent: its counts add up and its accuracy is a percentage. */
  ghost predicate RowConsistent(row: TopicStats)
  {
    && row.attempted == row.correct + row.incorrect
    && 0 <= row.correct <= row.attempted
    && 0.0 <= row.accuracy <= 100.0
    && row.accuracy * (row.attempted as real) == 100.0 * (row.correct as real)
  }

  /** A row counts the attempts of its topic; there is at least one. */
  ghost predicate RowCounts(row: TopicStats, ps: seq<PuzzleAttempt>)
  {
    && row.attempted == |OnTopic(ps, row.topic)| >= 1
    && row.correct == |CorrectOnTopic(ps, row.topic)|
    && row.incorrect == |IncorrectOnTopic(ps, row.topic)|
  }

  lemma StatsConsistent(row: Tally)
    requires 0 <= row.correct <= row.attempted
    ensures RowConsistent(ToStats(row))
  {
  }

  lemma StatsCounts(row: Tally, ps: seq<PuzzleAttempt>)
    requires row.topic in Topics(ps)
    requires row.attempted == |OnTopic(ps, row.topic)|
    requires row.correct == |CorrectOnTopic(ps, row.topic)|
    ensures 0 <= row.correct <= row.attempted
    ensures RowCounts(ToStats(row), ps)
  {
    OnTopicNonEmpty(ps, row.topic);
    FilterComplement(OnTopic(ps, row.topic), IsCorrect, IsIncorrect);
  }

  lemma BreakdownFacts(ps: seq<PuzzleAttempt>)
    ensures var r := ToStatsAll(TallyTopics(ps));
      && (forall i, j | 0 <= i < j < |r| :: r[i].topic != r[j].topic)
      && (forall i | 0 <= i < |r| :: r[i].topic in Topics(ps))
      && (forall i | 0 <= i < |r| :: RowCounts(r[i], ps) && RowConsistent(r[i]))
      && (forall k | 0 <= k < |ps| :: ps[k].topic in StatTopics(r))
      && (forall i, j | 0 <= i < j < |r| ::
            IndexOf(Topics(ps), r[i].topic) < IndexOf(Topics(ps), r[j].topic))
      && Sum(r, StatsAttempted) == |ps|
  {
    var rows := TallyTopics(ps);
    var r := ToStatsAll(rows);
    TallyTopicsDescribes(ps);
    forall i | 0 <= i < |r|
      ensures RowCounts(r[i], ps) && RowConsistent(r[i])
    {
      StatsCounts(rows[i], ps);
      StatsConsistent(rows[i]);
    }
    assert StatTopics(r) == RowTopics(rows);
    ToStatsAllSum(rows);
  }

  /**
   The topic breakdown of one student's attempts: one row per distinct topic
   in order of first attempt, each counting that topic's attempts, correct and
   incorrect ones, with an accuracy in [0, 100]; the rows' attempts add up to
   all of the student's attempts.
   */
  function Breakdown(ps: seq<PuzzleAttempt>): (r: seq<TopicStats>)
    ensures forall i, j | 0 <= i < j < |r| :: r[i].topic != r[j].topic
    ensures forall i | 0 <= i < |r| :: r[i].topic in Topics(ps)
    ensures forall k | 0 <= k < |ps| :: ps[k].topic in StatTopics(r)
    ensures forall i, j | 0 <= i < j < |r| ::
              IndexOf(Topics(ps), r[i].topic) < IndexOf(Topics(ps), r[j].topic)
    ensures forall i | 0 <= i < |r| :: RowCounts(r[i], ps)
    ensures forall i | 0 <= i < |r| :: RowConsistent(r[i])
    ensures Sum(r, StatsAttempted) == |ps|
  {
    BreakdownFacts(ps);
    ToStatsAll(TallyTopics(ps))
  }
}
