/**
 The daily filters of `DataStore` (lib/mockData.ts): an event belongs to today
 when its instant is at or after the start of today. The start of today (local
 midnight) is a parameter; computing it from the clock is not modelled.
 */
module DailyFilter {
  import opened Types
  import opened Seqs

  /** The events of `xs` at or after `start`, in their original order. */
  function KeepSince<T>(xs: seq<T>, time: T -> int, start: int): (r: seq<T>)
    ensures forall e | e in r :: e in xs && time(e) >= start
    ensures forall e | e in xs && time(e) >= start :: e in r
  {
    FilterMembers(xs, e => time(e) >= start);
    Filter(xs, e => time(e) >= start)
  }

  /** Keeping events since `start` distributes over concatenation. */
  lemma KeepSinceConcat<T>(a: seq<T>, b: seq<T>, time: T -> int, start: int)
    ensures KeepSince(a + b, time, start) == KeepSince(a, time, start) + KeepSince(b, time, start)
  {
    FilterConcat(a, b, e => time(e) >= start);
  }

  /** Nothing is kept from a log whose events all precede `start`. */
  lemma KeepSinceNone<T>(xs: seq<T>, time: T -> int, start: int)
    requires forall i | 0 <= i < |xs| :: time(xs[i]) < start
    ensures KeepSince(xs, time, start) == []
  {
    FilterNone(xs, e => time(e) >= start);
  }

  /** One event is kept exactly when its instant is not before `start`. */
  lemma KeepSinceSingle<T>(x: T, time: T -> int, start: int)
    ensures KeepSince([x], time, start) == (if time(x) >= start then [x] else [])
  {
    FilterSingle(x, e => time(e) >= start);
  }

  /**
   Today's and earlier events partition the log: the kept events and the
   dropped ones add up to all of them.
   */
  lemma KeepSinceSplits<T>(xs: seq<T>, time: T -> int, start: int)
    ensures |KeepSince(xs, time, start)| + |Filter(xs, e => time(e) < start)| == |xs|
  {
    FilterComplement(xs, e => time(e) >= start, e => time(e) < start);
  }

  function AttemptTime(p: PuzzleAttempt): int { p.timestamp }
  function SessionTime(s: Session): int { s.startTime }
  function BookTime(b: BookEntry): int { b.addedAt }

  /** Attempts made today, selected by their `timestamp`. */
  function TodaysPuzzleAttempts(attempts: seq<PuzzleAttempt>, startOfDay: int): (r: seq<PuzzleAttempt>)
    ensures forall p | p in r :: p in attempts && p.timestamp >= startOfDay
    ensures forall p | p in attempts && p.timestamp >= startOfDay :: p in r
  {
    KeepSince(attempts, AttemptTime, startOfDay)
  }

  /** Sessions begun today, selected by their `startTime`. */
  function TodaysSessions(sessions: seq<Session>, startOfDay: int): (r: seq<Session>)
    ensures forall s | s in r :: s in sessions && s.startTime >= startOfDay
    ensures forall s | s in sessions && s.startTime >= startOfDay :: s in r
  {
    KeepSince(sessions, SessionTime, startOfDay)
  }

  /** Books added today, selected by their `addedAt`. */
  function TodaysBooks(books: seq<BookEntry>, startOfDay: int): (r: seq<BookEntry>)
    ensures forall b | b in r :: b in books && b.addedAt >= startOfDay
    ensures forall b | b in books && b.addedAt >= startOfDay :: b in r
  {
    KeepSince(books, BookTime, startOfDay)
  }

  /** The boundary is inclusive: an attempt stamped exactly at midnight is today's. */
  lemma MidnightAttemptIsToday(p: PuzzleAttempt, startOfDay: int)
    requires p.timestamp == startOfDay
    ensures TodaysPuzzleAttempts([p], startOfDay) == [p]
  {
    KeepSinceSingle(p, AttemptTime, startOfDay);
  }

  /** Filtering a log appended to keeps yesterday's order and today's order. */
  lemma TodaysAttemptsInLogOrder(a: seq<PuzzleAttempt>, b: seq<PuzzleAttempt>, startOfDay: int)
    ensures TodaysPuzzleAttempts(a + b, startOfDay)
         == TodaysPuzzleAttempts(a, startOfDay) + TodaysPuzzleAttempts(b, startOfDay)
  {
    KeepSinceConcat(a, b, AttemptTime, startOfDay);
  }
}
