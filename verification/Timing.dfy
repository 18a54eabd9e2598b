// Active and wall time of a job (studio/src/lib/format.ts:39-68, studio/src/components/job/TotalsStrip.tsx:34-43).
// Instants are milliseconds, None when missing or no date.
module Timing {
  import opened Wrappers

  /** The finish of an attempt: still open, an instant, or a text that is no date. */
  datatype Finish = StillOpen | At(ms: int) | NoDate

  datatype Attempt = Attempt(started: Option<int>, finish: Finish, durationS: Option<int>)

  datatype Job = Job(started: Option<int>, attemptStarted: Option<int>, attempts: seq<Attempt>, activeS: Option<int>)

  function Max(a: int, b: int): int {
    if a > b then a else b
  }

  function Min(a: int, b: int): int {
    if a < b then a else b
  }

  /** The time counted for an attempt: a closed one's recorded duration, otherwise the time from its start to now. */
  function AttemptMs(attempt: Attempt, now: int, attemptStarted: Option<int>): int {
    if attempt.finish != StillOpen && attempt.durationS.Some? then Max(0, attempt.durationS.value * 1000)
    else
      var started := if attempt.started.Some? then attempt.started else attemptStarted;
      if started.None? then 0 else Max(0, now - started.value)
  }

  function SumMs(attempts: seq<Attempt>, now: int, attemptStarted: Option<int>): int {
    if attempts == [] then 0 else AttemptMs(attempts[0], now, attemptStarted) + SumMs(attempts[1..], now, attemptStarted)
  }

  /** Every attempt's time summed; without a history, the time the view carries. */
  function ActiveMs(job: Job, now: int): Option<int> {
    if job.attempts != [] then Some(SumMs(job.attempts, now, job.attemptStarted))
    else if job.activeS.Some? then Some(job.activeS.value * 1000) else None
  }

  function Starts(attempts: seq<Attempt>): seq<int> {
    if attempts == [] then []
    else if attempts[0].started.Some? then [attempts[0].started.value] + Starts(attempts[1..]) else Starts(attempts[1..])
  }

  function Ends(attempts: seq<Attempt>, now: int): seq<int> {
    if attempts == [] then []
    else
      match attempts[0].finish
      case StillOpen => [now] + Ends(attempts[1..], now)
      case At(ms) => [ms] + Ends(attempts[1..], now)
      case NoDate => Ends(attempts[1..], now)
  }

  function Least(s: seq<int>): int
    requires s != []
  {
    if |s| == 1 then s[0] else Min(s[0], Least(s[1..]))
  }

  function Greatest(s: seq<int>): int
    requires s != []
  {
    if |s| == 1 then s[0] else Max(s[0], Greatest(s[1..]))
  }

  /** From the first start to the end of the last attempt, an open one ending now. */
  function WallMs(job: Job, now: int): Option<int> {
    var starts, ends := Starts(job.attempts), Ends(job.attempts, now);
    var start := if job.started.Some? then job.started else if starts != [] then Some(Least(starts)) else None;
    if job.attempts == [] || start.None? || ends == [] then None else Some(Max(0, Greatest(ends) - start.value))
  }

  // ---- a history in order ----

  function EndOf(attempt: Attempt, now: int): int {
    if attempt.finish.At? then attempt.finish.ms else now
  }

  /** An attempt that started by now; a closed one ends after its start, and its duration, when recorded, fits in between. */
  predicate IsTimed(attempt: Attempt, now: int) {
    && attempt.started.Some? && attempt.finish != NoDate && attempt.started.value <= now
    && (attempt.finish.At? ==>
        attempt.started.value <= attempt.finish.ms
        && (attempt.durationS.Some? ==> attempt.durationS.value * 1000 <= attempt.finish.ms - attempt.started.value))
  }

  /** Attempts one after another from an instant on, only the last one possibly open. */
  predicate InOrder(attempts: seq<Attempt>, from: int, now: int) {
    attempts == [] ||
    (&& IsTimed(attempts[0], now) && from <= attempts[0].started.value
     && (|attempts| > 1 ==> attempts[0].finish.At?)
     && InOrder(attempts[1..], EndOf(attempts[0], now), now))
  }

  /** Whether an attempt was closed without its duration being recorded. */
  predicate Unrecorded(attempt: Attempt) {
    attempt.finish.At? && attempt.durationS.None?
  }

  /** How long an attempt ran by its own interval: its recorded duration, or all of it. */
  function RanMs(attempt: Attempt, now: int): int
    requires attempt.started.Some?
  {
    if attempt.finish.At? && attempt.durationS.Some? then Max(0, attempt.durationS.value * 1000)
    else EndOf(attempt, now) - attempt.started.value
  }

  /** The time from an instant on in which no attempt was running: the waits between attempts and what a recorded
      duration leaves out of its interval. */
  function Idle(attempts: seq<Attempt>, from: int, now: int): int
    requires InOrder(attempts, from, now)
  {
    if attempts == [] then 0
    else
      var first := attempts[0];
      (EndOf(first, now) - from - RanMs(first, now)) + Idle(attempts[1..], EndOf(first, now), now)
  }

  /** The time counted past the end of the attempts that were closed without a recorded duration. */
  function Over(attempts: seq<Attempt>, now: int): int {
    if attempts == [] then 0
    else (if Unrecorded(attempts[0]) then now - attempts[0].finish.ms else 0) + Over(attempts[1..], now)
  }

  lemma {:induction false} IdleIsNeverNegative(attempts: seq<Attempt>, from: int, now: int)
    requires InOrder(attempts, from, now)
    ensures Idle(attempts, from, now) >= 0
  {
    if attempts != [] {
      IdleIsNeverNegative(attempts[1..], EndOf(attempts[0], now), now);
    }
  }

  lemma {:induction false} LastEndIsGreatest(attempts: seq<Attempt>, from: int, now: int)
    requires attempts != [] && InOrder(attempts, from, now)
    ensures Ends(attempts, now) != [] && Greatest(Ends(attempts, now)) == EndOf(attempts[|attempts| - 1], now)
    ensures from <= EndOf(attempts[|attempts| - 1], now)
  {
    if |attempts| > 1 {
      LastEndIsGreatest(attempts[1..], EndOf(attempts[0], now), now);
      var end, ends := EndOf(attempts[0], now), Ends(attempts[1..], now);
      assert ([end] + ends)[1..] == ends;
    }
  }

  lemma {:induction false} FirstStartIsLeast(attempts: seq<Attempt>, from: int, now: int)
    requires attempts != [] && InOrder(attempts, from, now)
    ensures Starts(attempts) != [] && Least(Starts(attempts)) == attempts[0].started.value
  {
    if |attempts| > 1 {
      FirstStartIsLeast(attempts[1..], EndOf(attempts[0], now), now);
      var start, starts := attempts[0].started.value, Starts(attempts[1..]);
      assert ([start] + starts)[1..] == starts;
    }
  }

  lemma {:induction false} TimeIsSplit(attempts: seq<Attempt>, from: int, now: int, attemptStarted: Option<int>)
    requires attempts != [] && InOrder(attempts, from, now)
    ensures EndOf(attempts[|attempts| - 1], now) - from
         == SumMs(attempts, now, attemptStarted) + Idle(attempts, from, now) - Over(attempts, now)
  {
    if |attempts| > 1 {
      TimeIsSplit(attempts[1..], EndOf(attempts[0], now), now, attemptStarted);
    }
  }

  predicate AllRecorded(attempts: seq<Attempt>) {
    attempts == [] || (!Unrecorded(attempts[0]) && AllRecorded(attempts[1..]))
  }

  lemma {:induction false} NothingOver(attempts: seq<Attempt>, now: int)
    requires AllRecorded(attempts)
    ensures Over(attempts, now) == 0
  {
    if attempts != [] {
      NothingOver(attempts[1..], now);
    }
  }

  /** When the job counts as started: its own instant, or its first attempt's. */
  function StartOf(job: Job): int
    requires job.attempts != [] && job.attempts[0].started.Some?
  {
    job.started.GetOr(job.attempts[0].started.value)
  }

  predicate HasOrderedHistory(job: Job, now: int) {
    job.attempts != [] && job.attempts[0].started.Some? && InOrder(job.attempts, StartOf(job), now)
  }

  /** For any history in order, the wall time is the active time and the time nothing ran, less what is counted past the
      end of attempts without a recorded duration; so the active time fits in the wall time exactly when that is no more
      than the time nothing ran. */
  lemma {:induction false} ActiveFitsUnlessOver(job: Job, now: int)
    requires HasOrderedHistory(job, now)
    ensures var active, wall := ActiveMs(job, now), WallMs(job, now);
            var idle, over := Idle(job.attempts, StartOf(job), now), Over(job.attempts, now);
            && active.Some? && wall.Some? && idle >= 0 && wall.value == active.value + idle - over
            && (active.value <= wall.value <==> over <= idle)
  {
    var from := StartOf(job);
    FirstStartIsLeast(job.attempts, from, now);
    LastEndIsGreatest(job.attempts, from, now);
    TimeIsSplit(job.attempts, from, now, job.attemptStarted);
    IdleIsNeverNegative(job.attempts, from, now);
  }

  /** With every duration recorded, the wall time is the active time and the time nothing ran, so the remainder shown as
      time at the gate is exactly the latter and never negative. */
  lemma {:induction false} WallIsActiveAndIdle(job: Job, now: int)
    requires HasOrderedHistory(job, now) && AllRecorded(job.attempts)
    ensures var active, wall, idle := ActiveMs(job, now), WallMs(job, now), Idle(job.attempts, StartOf(job), now);
            active.Some? && wall.Some? && wall.value == active.value + idle && idle >= 0
  {
    ActiveFitsUnlessOver(job, now);
    NothingOver(job.attempts, now);
  }

  /** One second of work closed without a recorded duration, looked at four seconds after it ended: five seconds active in
      one second of wall time. */
  lemma {:induction false} UnrecordedDurationRunsOn()
    ensures var job := Job(Some(0), None, [Attempt(Some(0), At(1000), None)], None);
            HasOrderedHistory(job, 5000) && ActiveMs(job, 5000) == Some(5000) && WallMs(job, 5000) == Some(1000)
  {
    var attempts := [Attempt(Some(0), At(1000), None)];
    assert attempts[1..] == [];
    assert SumMs(attempts, 5000, None) == 5000 && Ends(attempts, 5000) == [1000];
  }
}
