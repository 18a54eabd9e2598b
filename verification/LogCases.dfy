// Logs the fold receives that break what a reader may expect of it: one input for each property that LogLaws proves only
// under a condition.
module LogCases {
  import opened Wrappers
  import opened LogRows
  import opened LogStream
  import opened LogLaws
  import Strings

  function Narration(kind: Kind, text: string, phase: Option<int>): Event {
    Event(kind, "", "", text, "", false, None, phase, None, None, None, None, None, None)
  }

  function AttemptLineOf(n: nat): Event {
    Narration(Attempt, ATTEMPT_LEAD + Strings.IntText(n), None)
  }

  /** A running job whose history holds the given attempts. */
  function Running(attempts: seq<AttemptRow>): Context {
    Context(false, attempts, Pending, None, None, map[])
  }

  lemma {:induction false} AttemptLineNames(n: nat)
    ensures AttemptNumberOf(AttemptLineOf(n).text) == Some(n)
  {
    AttemptNumberReadsBack(n, "");
    assert ATTEMPT_LEAD + Strings.IntText(n) + "" == ATTEMPT_LEAD + Strings.IntText(n);
  }

  /** The log of an attempt whose opening line was narrated twice before the next attempt. */
  function RepeatedAttempt(): seq<Event> {
    [AttemptLineOf(1), AttemptLineOf(1), AttemptLineOf(2)]
  }

  /** Both closings of the repeated attempt are in the log, under one key. */
  lemma {:induction false} RepeatedAttemptSharesKey()
    ensures var events, ctx := RepeatedAttempt(), Running([]);
            && EndOf(1) in StreamLines(events, ctx) && EndOf(2) in StreamLines(events, ctx)
            && Fits(events, ctx, EndOf(1)) && Fits(events, ctx, EndOf(2))
            && KeyOf(events, ctx, EndOf(1)) == KeyOf(events, ctx, EndOf(2)) == EndKey(1)
            && !DistinctKeys(events, ctx)
  {
    var events, ctx := RepeatedAttempt(), Running([]);
    AttemptLineNames(1);
    assert IsAttempt(events, 0) && IsAttempt(events, 1) && IsAttempt(events, 2);
    assert ClosedNumber(events, ctx, 1) == Some(1) && ClosedNumber(events, ctx, 2) == Some(1);
    LogIsComplete(events, ctx, EndOf(1));
    LogIsComplete(events, ctx, EndOf(2));
    KeysAreDistinct(events, ctx);
  }

  /** A phase line shown at the end of a running log is gone once the next phase follows at once. */
  lemma {:induction false} PhaseLineIsLost()
    ensures var events, more, ctx := [AttemptLineOf(1), Narration(Phase, "", Some(1))], [Narration(Phase, "", Some(2))], Running([]);
            Own(1) in StreamLines(events, ctx) && Own(1) !in StreamLines(events + more, ctx) && !KeepsKeys(events, more, ctx)
  {
    var events, more, ctx := [AttemptLineOf(1), Narration(Phase, "", Some(1))], [Narration(Phase, "", Some(2))], Running([]);
    assert LosesPhase(events, more);
    assert (events + more)[1] == events[1] && (events + more)[2] == more[0];
    LogIsComplete(events, ctx, Own(1));
    LogIsComplete(events + more, ctx, Own(1));
    KeysStayPut(events, more, ctx);
  }

  /** The gate line of a running attempt is gone once the next attempt opens and the history says the first stopped at a gate. */
  lemma {:induction false} GateLineIsLost()
    ensures var stopped := AttemptRow(None, true, Some(EndedAtGate), None, None, None);
            var events, more, ctx := [AttemptLineOf(1), Narration(Gate, "stop", None)], [AttemptLineOf(2)], Running([stopped]);
            Own(1) in StreamLines(events, ctx) && Own(1) !in StreamLines(events + more, ctx) && !KeepsKeys(events, more, ctx)
  {
    var stopped := AttemptRow(None, true, Some(EndedAtGate), None, None, None);
    var events, more, ctx := [AttemptLineOf(1), Narration(Gate, "stop", None)], [AttemptLineOf(2)], Running([stopped]);
    AttemptLineNames(1);
    GateReplaced(events, more, ctx);
  }

  lemma {:induction false} GateReplaced(events: seq<Event>, more: seq<Event>, ctx: Context)
    requires |events| == 2 && events[0].kind.Attempt? && events[1].kind.Gate? && |more| == 1 && more[0].kind.Attempt?
    requires AttemptNumberOf(events[0].text) == Some(1) && OutcomeIsGate(ctx, 1) && !ctx.ended
    ensures Own(1) in StreamLines(events, ctx) && Own(1) !in StreamLines(events + more, ctx) && !KeepsKeys(events, more, ctx)
  {
    var all := events + more;
    assert all[0] == events[0] && all[1] == events[1] && all[2] == more[0];
    assert OpenerOf(all, 0) == Some(0) && !IsAttempt(all, 1) && OpenerOf(all, 1) == Some(0);
    assert IsAttempt(all, 2) && NextAttempt(all, 2) == 2;
    assert NextAttempt(events, 2) == 2 && OpenerOf(events, 0) == Some(0) && !IsAttempt(events, 1);
    LogIsComplete(events, ctx, Own(1));
    LogIsComplete(all, ctx, Own(1));
    assert GateKind(events[1].kind) && LosesGate(events, more, ctx);
    KeysStayPut(events, more, ctx);
  }

  /** The first phase after an attempt line gives the line a start it did not show before. */
  lemma {:induction false} OpenerIsFilled()
    ensures var events, more, ctx := [AttemptLineOf(1)], [Narration(Phase, "", Some(1)).(at := Some(0))], Running([]);
            && Own(0) in StreamLines(events, ctx) && Fits(events, ctx, Own(0)) && Fits(events + more, ctx, Own(0))
            && RowOfLine(events + more, ctx, Own(0)) != RowOfLine(events, ctx, Own(0))
  {
    var events, more, ctx := [AttemptLineOf(1)], [Narration(Phase, "", Some(1)).(at := Some(0))], Running([]);
    LogIsComplete(events, ctx, Own(0));
    assert NextAttempt(more, 0) == 1 && NextAttempt(events, 1) == 1 && IsAttempt(events, 0);
    assert Range(0, 1) == [0] && Range(1, 1) == [];
    OpenerChanges(events, more, ctx, 0);
  }

  /** Two attempts stopped at gates: once the second is closed too, the first one's answer line has no note. */
  lemma {:induction false} AnswerIsOvertaken()
    ensures var stopped := AttemptRow(None, true, Some(EndedAtGate), None, None, None);
            var events, more, ctx := [AttemptLineOf(1), AttemptLineOf(2)], [AttemptLineOf(3)], Running([stopped, stopped]);
            && AnswerOf(1) in StreamLines(events, ctx) && Fits(events, ctx, AnswerOf(1)) && Fits(events + more, ctx, AnswerOf(1))
            && !RowOfLine(events, ctx, AnswerOf(1)).dim && RowOfLine(events + more, ctx, AnswerOf(1)).dim
  {
    var stopped := AttemptRow(None, true, Some(EndedAtGate), None, None, None);
    var events, more, ctx := [AttemptLineOf(1), AttemptLineOf(2)], [AttemptLineOf(3)], Running([stopped, stopped]);
    AttemptLineNames(1);
    AttemptLineNames(2);
    SecondGateOvertakes(events, more, ctx);
  }

  lemma {:induction false} SecondGateOvertakes(events: seq<Event>, more: seq<Event>, ctx: Context)
    requires |events| == 2 && events[0].kind.Attempt? && events[1].kind.Attempt? && |more| == 1 && more[0].kind.Attempt?
    requires AttemptNumberOf(events[0].text) == Some(1) && AttemptNumberOf(events[1].text) == Some(2)
    requires OutcomeIsGate(ctx, 1) && OutcomeIsGate(ctx, 2) && !ctx.ended
    ensures AnswerOf(1) in StreamLines(events, ctx) && Fits(events, ctx, AnswerOf(1)) && Fits(events + more, ctx, AnswerOf(1))
    ensures !RowOfLine(events, ctx, AnswerOf(1)).dim && RowOfLine(events + more, ctx, AnswerOf(1)).dim
  {
    var all := events + more;
    assert all[0] == events[0] && all[1] == events[1] && all[2] == more[0];
    assert IsAttempt(events, 0) && IsAttempt(events, 1) && IsAttempt(all, 0) && IsAttempt(all, 1) && IsAttempt(all, 2);
    assert AnsweredAt(events, ctx, 1) && ClosedNumber(events, ctx, 1) == Some(1);
    assert AnsweredAt(all, ctx, 1) && AnsweredAt(all, ctx, 2) && ClosedNumber(all, ctx, 1) == Some(1) && ClosedNumber(all, ctx, 2) == Some(2);
    LogIsComplete(events, ctx, AnswerOf(1));
    NoteOnHighestGate(events, ctx, 1);
    NoteOnHighestGate(all, ctx, 1);
  }
}
