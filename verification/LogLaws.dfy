// What the folded log promises its readers: nothing is lost or repeated, lines stay in order, keys are
// distinct, a growing log keeps its rows, one answer is final and one note is shown.
module LogLaws {
  import opened Wrappers
  import opened LogRows
  import opened LogStream

  // ---- conservation and order ----

  /** Where a line stands: the close lines of an attempt after all its events and before the next opener. */
  function Rank(line: Line): nat {
    match line
    case GateOf(hi) => 4 * hi
    case EndOf(hi) => 4 * hi + 1
    case AnswerOf(hi) => 4 * hi + 2
    case Own(index) => 4 * index + 3
  }

  /** The event a line is of, or the end of the attempt it closes. */
  function PlaceOf(line: Line): nat {
    if line.Own? then line.index else line.hi
  }

  /** The lines a log has: one of every event that is not hidden, the close lines of every attempt that closes. */
  predicate Belongs(events: seq<Event>, ctx: Context, line: Line) {
    match line
    case Own(index) => index < |events| && !Hidden(events, ctx, index)
    case GateOf(hi) => Boundary(events, hi) && ClosedNumber(events, ctx, hi).Some? && OutcomeIsGate(ctx, ClosedNumber(events, ctx, hi).value)
    case EndOf(hi) => Boundary(events, hi) && ClosedNumber(events, ctx, hi).Some?
    case AnswerOf(hi) => AnsweredAt(events, ctx, hi)
  }

  ghost predicate Ordered(lines: seq<Line>) {
    forall p, q :: 0 <= p < q < |lines| ==> Rank(lines[p]) < Rank(lines[q])
  }

  lemma {:induction false} OrderedConcat(a: seq<Line>, b: seq<Line>, cut: nat)
    requires Ordered(a) && Ordered(b)
    requires forall p :: 0 <= p < |a| ==> Rank(a[p]) < cut
    requires forall p :: 0 <= p < |b| ==> cut <= Rank(b[p])
    ensures Ordered(a + b)
  {
  }

  lemma {:induction false} ClosingLinesOrdered(events: seq<Event>, ctx: Context, hi: nat)
    requires Boundary(events, hi)
    ensures Ordered(ClosingLines(events, ctx, hi))
    ensures forall p :: 0 <= p < |ClosingLines(events, ctx, hi)| ==> 4 * hi <= Rank(ClosingLines(events, ctx, hi)[p]) <= 4 * hi + 2
  {
    ClosingLinesInTurn(hi, ClosingLines(events, ctx, hi));
  }

  lemma {:induction false} ClosingLinesInTurn(hi: nat, lines: seq<Line>)
    requires lines == [] || lines == [EndOf(hi)] || lines == [EndOf(hi), AnswerOf(hi)]
          || lines == [GateOf(hi), EndOf(hi)] || lines == [GateOf(hi), EndOf(hi), AnswerOf(hi)]
    ensures Ordered(lines)
    ensures forall p :: 0 <= p < |lines| ==> 4 * hi <= Rank(lines[p]) <= 4 * hi + 2
  {
  }

  lemma {:induction false} LinesAtOrdered(events: seq<Event>, ctx: Context, i: nat)
    requires i < |events|
    ensures Ordered(LinesAt(events, ctx, i))
    ensures forall p :: 0 <= p < |LinesAt(events, ctx, i)| ==> 4 * i <= Rank(LinesAt(events, ctx, i)[p]) <= 4 * i + 3
  {
    if Boundary(events, i) {
      ClosingLinesOrdered(events, ctx, i);
    }
  }

  lemma {:induction false} LinesUpToOrdered(events: seq<Event>, ctx: Context, k: nat)
    requires k <= |events|
    ensures Ordered(LinesUpTo(events, ctx, k))
    ensures forall p :: 0 <= p < |LinesUpTo(events, ctx, k)| ==> Rank(LinesUpTo(events, ctx, k)[p]) < 4 * k
  {
    if k > 0 {
      LinesUpToOrdered(events, ctx, k - 1);
      LinesAtOrdered(events, ctx, k - 1);
      OrderedConcat(LinesUpTo(events, ctx, k - 1), LinesAt(events, ctx, k - 1), 4 * (k - 1));
    }
  }

  /** Every line stands after the ones before it: events in order, each attempt's close lines after its own and before the next opener. */
  lemma {:induction false} LogIsOrdered(events: seq<Event>, ctx: Context)
    ensures Ordered(StreamLines(events, ctx))
  {
    LinesUpToOrdered(events, ctx, |events|);
    if events != [] {
      ClosingLinesOrdered(events, ctx, |events|);
      OrderedConcat(LinesUpTo(events, ctx, |events|), ClosingLines(events, ctx, |events|), 4 * |events|);
    } else {
      assert LinesUpTo(events, ctx, 0) + [] == [];
    }
  }

  lemma {:induction false} ClosingLinesBelong(events: seq<Event>, ctx: Context, hi: nat, line: Line)
    requires Boundary(events, hi)
    ensures line in ClosingLines(events, ctx, hi) <==> !line.Own? && line.hi == hi && Belongs(events, ctx, line)
  {
  }

  lemma {:induction false} LinesAtBelong(events: seq<Event>, ctx: Context, i: nat, line: Line)
    requires i < |events|
    ensures line in LinesAt(events, ctx, i) <==>
            Belongs(events, ctx, line) && PlaceOf(line) == i
  {
    if Boundary(events, i) {
      ClosingLinesBelong(events, ctx, i, line);
    }
  }

  lemma {:induction false} InEither(line: Line, a: seq<Line>, b: seq<Line>, belongs: bool, k: nat)
    requires line in a <==> belongs && PlaceOf(line) < k
    requires line in b <==> belongs && PlaceOf(line) == k
    ensures line in a + b <==> belongs && PlaceOf(line) < k + 1
  {
  }

  lemma {:induction false} LinesUpToBelong(events: seq<Event>, ctx: Context, k: nat, line: Line)
    requires k <= |events|
    ensures line in LinesUpTo(events, ctx, k) <==>
            Belongs(events, ctx, line) && PlaceOf(line) < k
  {
    if k > 0 {
      LinesUpToBelong(events, ctx, k - 1, line);
      LinesAtBelong(events, ctx, k - 1, line);
      InEither(line, LinesUpTo(events, ctx, k - 1), LinesAt(events, ctx, k - 1), Belongs(events, ctx, line), k - 1);
    }
  }

  /** Nothing is lost and nothing is made up: a line is in the log exactly when its event is not hidden or its attempt closes so. */
  lemma {:induction false} LogIsComplete(events: seq<Event>, ctx: Context, line: Line)
    ensures line in StreamLines(events, ctx) <==> Belongs(events, ctx, line)
  {
    LinesUpToBelong(events, ctx, |events|, line);
    if events != [] {
      ClosingLinesBelong(events, ctx, |events|, line);
    }
  }

  /** Order and membership leave one log: any ordered list of the lines that belong is the folded one. */
  lemma {:induction false} LogIsDetermined(events: seq<Event>, ctx: Context, lines: seq<Line>)
    requires Ordered(lines) && forall line :: line in lines <==> Belongs(events, ctx, line)
    ensures lines == StreamLines(events, ctx)
  {
    var log := StreamLines(events, ctx);
    LogIsOrdered(events, ctx);
    forall line
      ensures line in log <==> line in lines
    {
      LogIsComplete(events, ctx, line);
    }
    SameOrdered(lines, log);
  }

  lemma {:induction false} SameOrdered(a: seq<Line>, b: seq<Line>)
    requires Ordered(a) && Ordered(b)
    requires forall line :: line in a <==> line in b
    ensures a == b
  {
    assert a != [] ==> a[0] in b;
    assert b != [] ==> b[0] in a;
    if a != [] {
      var p :| 0 <= p < |b| && b[p] == a[0];
      var q :| 0 <= q < |a| && a[q] == b[0];
      assert a[0] == b[0];
      forall line
        ensures line in a[1..] <==> line in b[1..]
      {
        assert line in a <==> line == a[0] || line in a[1..];
        assert line in b <==> line == b[0] || line in b[1..];
        assert a[0] in a[1..] ==> false;
        assert b[0] in b[1..] ==> false;
      }
      SameOrdered(a[1..], b[1..]);
    }
  }

  lemma {:induction false} LogFits(events: seq<Event>, ctx: Context, p: nat)
    requires p < |StreamLines(events, ctx)|
    ensures Belongs(events, ctx, StreamLines(events, ctx)[p]) && Fits(events, ctx, StreamLines(events, ctx)[p])
  {
    LogIsComplete(events, ctx, StreamLines(events, ctx)[p]);
  }

  /** The row of a line carries the line's key. */
  lemma {:induction false} RowHasKey(events: seq<Event>, ctx: Context, line: Line)
    requires Fits(events, ctx, line)
    ensures RowOfLine(events, ctx, line).key == KeyOf(events, ctx, line)
  {
  }

  // ---- keys ----

  /** No two closed attempts bear one number. */
  ghost predicate DistinctNumbers(events: seq<Event>, ctx: Context) {
    forall g: nat, h: nat :: Boundary(events, g) && Boundary(events, h) && g < h && ClosedNumber(events, ctx, g).Some? ==>
      ClosedNumber(events, ctx, g) != ClosedNumber(events, ctx, h)
  }

  /** No two rows of the log have one key text. */
  ghost predicate DistinctKeys(events: seq<Event>, ctx: Context) {
    var lines := StreamLines(events, ctx);
    forall p, q :: 0 <= p < q < |lines| && Fits(events, ctx, lines[p]) && Fits(events, ctx, lines[q]) ==>
      KeyText(KeyOf(events, ctx, lines[p])) != KeyText(KeyOf(events, ctx, lines[q]))
  }

  /** The key texts of the log are distinct exactly when no two closed attempts bear one number. */
  lemma {:induction false} KeysAreDistinct(events: seq<Event>, ctx: Context)
    ensures DistinctKeys(events, ctx) <==> DistinctNumbers(events, ctx)
  {
    if DistinctNumbers(events, ctx) {
      NumbersKeepKeysApart(events, ctx);
    }
    if DistinctKeys(events, ctx) {
      KeysKeepNumbersApart(events, ctx);
    }
  }

  lemma {:induction false} NumbersKeepKeysApart(events: seq<Event>, ctx: Context)
    requires DistinctNumbers(events, ctx)
    ensures DistinctKeys(events, ctx)
  {
    var lines := StreamLines(events, ctx);
    LogIsOrdered(events, ctx);
    forall p, q | 0 <= p < q < |lines| && Fits(events, ctx, lines[p]) && Fits(events, ctx, lines[q])
      ensures KeyText(KeyOf(events, ctx, lines[p])) != KeyText(KeyOf(events, ctx, lines[q]))
    {
      LinesKeepKeysApart(events, ctx, lines[p], lines[q]);
    }
  }

  lemma {:induction false} LinesKeepKeysApart(events: seq<Event>, ctx: Context, a: Line, b: Line)
    requires DistinctNumbers(events, ctx)
    requires Fits(events, ctx, a) && Fits(events, ctx, b) && Rank(a) < Rank(b)
    ensures KeyText(KeyOf(events, ctx, a)) != KeyText(KeyOf(events, ctx, b))
  {
    if KeyText(KeyOf(events, ctx, a)) == KeyText(KeyOf(events, ctx, b)) {
      KeyTextInjective(KeyOf(events, ctx, a), KeyOf(events, ctx, b));
    }
  }

  lemma {:induction false} KeysKeepNumbersApart(events: seq<Event>, ctx: Context)
    requires DistinctKeys(events, ctx)
    ensures DistinctNumbers(events, ctx)
  {
    var lines := StreamLines(events, ctx);
    LogIsOrdered(events, ctx);
    forall g: nat, h: nat | Boundary(events, g) && Boundary(events, h) && g < h && ClosedNumber(events, ctx, g).Some?
      ensures ClosedNumber(events, ctx, g) != ClosedNumber(events, ctx, h)
    {
      LogIsComplete(events, ctx, EndOf(g));
      LogIsComplete(events, ctx, EndOf(h));
      if ClosedNumber(events, ctx, h).Some? {
        var p :| 0 <= p < |lines| && lines[p] == EndOf(g);
        var q :| 0 <= q < |lines| && lines[q] == EndOf(h);
        assert p != q && Fits(events, ctx, lines[p]) && Fits(events, ctx, lines[q]);
      }
    }
  }

  /** Every `attempt` event names a number above the one before it. */
  ghost predicate Numbered(events: seq<Event>) {
    && (forall i :: 0 <= i < |events| && IsAttempt(events, i) ==> AttemptNumberOf(events[i].text).Some?)
    && (forall i, j :: 0 <= i < j < |events| && IsAttempt(events, i) && IsAttempt(events, j) ==>
          AttemptNumberOf(events[i].text).GetOr(0) < AttemptNumberOf(events[j].text).GetOr(0))
  }

  /** With rising numbers the attempt of an earlier event has the smaller number, a leading run's inferred one included. */
  lemma {:induction false} NumbersRise(events: seq<Event>, logged: nat, i: nat, j: nat)
    requires Numbered(events) && i < j < |events|
    requires exists a :: i < a <= j && IsAttempt(events, a)
    requires NumberAt(events, logged, i).Some?
    ensures NumberAt(events, logged, j).Some? && NumberAt(events, logged, i).value < NumberAt(events, logged, j).value
  {
    var a :| i < a <= j && IsAttempt(events, a);
    OpenerIsLast(events, i);
    OpenerIsLast(events, j);
    var later := OpenerOf(events, j);
    assert later.Some? && later.value >= a;
    if OpenerOf(events, i).None? {
      NextAttemptSkips(events, 0);
      var next := NextAttempt(events, 0);
      assert next <= a;
      assert next == later.value || next < later.value;
    }
  }

  lemma {:induction false} RisingNumbersAreDistinct(events: seq<Event>, ctx: Context)
    requires Numbered(events)
    ensures DistinctNumbers(events, ctx)
  {
    forall g: nat, h: nat | Boundary(events, g) && Boundary(events, h) && g < h && ClosedNumber(events, ctx, g).Some?
      ensures ClosedNumber(events, ctx, g) != ClosedNumber(events, ctx, h)
    {
      assert IsAttempt(events, g);
      NumbersRise(events, |ctx.attempts|, g - 1, h - 1);
    }
  }

  // ---- a growing log ----

  /** The last event's phase line disappears because a phase follows it at once. */
  predicate LosesPhase(events: seq<Event>, more: seq<Event>) {
    && events != [] && more != []
    && events[|events| - 1].kind.Phase? && PhaseShown(events, |events| - 1)
    && more[0].kind.Phase?
  }

  /** The last attempt's gate lines are replaced because an attempt follows it and its history says it stopped at a gate. */
  predicate LosesGate(events: seq<Event>, more: seq<Event>, ctx: Context) {
    && events != []
    && (exists j :: 0 <= j < |more| && more[j].kind.Attempt?)
    && (exists i :: StartOf(events, |events| - 1) <= i < |events| && GateKind(events[i].kind))
    && (var number := NumberAt(events + more, |ctx.attempts|, |events| - 1); number.Some? && OutcomeIsGate(ctx, number.value))
  }

  /** Appending changes nothing about where the attempts before the last one start and end. */
  lemma {:induction false} NextAttemptKept(events: seq<Event>, more: seq<Event>, i: nat)
    requires i <= |events|
    ensures NextAttempt(events, i) < |events| ==> NextAttempt(events + more, i) == NextAttempt(events, i)
    ensures NextAttempt(events, i) == |events| ==> NextAttempt(events + more, i) == |events| + NextAttempt(more, 0)
    decreases |events| - i
  {
    if i < |events| {
      assert (events + more)[i] == events[i];
      if !IsAttempt(events, i) {
        NextAttemptKept(events, more, i + 1);
      }
    } else {
      NextAttemptAppended(events, more, 0);
    }
  }

  lemma {:induction false} NextAttemptAppended(events: seq<Event>, more: seq<Event>, j: nat)
    requires j <= |more|
    ensures NextAttempt(events + more, |events| + j) == |events| + NextAttempt(more, j)
    decreases |more| - j
  {
    if j < |more| {
      assert (events + more)[|events| + j] == more[j];
      if !IsAttempt(more, j) {
        NextAttemptAppended(events, more, j + 1);
      }
    }
  }

  lemma {:induction false} OpenerKept(events: seq<Event>, more: seq<Event>, i: nat)
    requires i < |events|
    ensures OpenerOf(events + more, i) == OpenerOf(events, i)
  {
    assert (events + more)[i] == events[i];
    if !IsAttempt(events, i) && i > 0 {
      OpenerKept(events, more, i - 1);
    }
  }

  /** Before the last attempt, and everywhere when no attempt is appended, an event keeps its attempt's number. */
  lemma {:induction false} NumberKept(events: seq<Event>, more: seq<Event>, logged: nat, i: nat)
    requires i < |events|
    requires NextAttempt(events, i + 1) < |events| || NextAttempt(more, 0) == |more|
    ensures NumberAt(events + more, logged, i) == NumberAt(events, logged, i)
  {
    OpenerKept(events, more, i);
    NextAttemptKept(events, more, 0);
    if OpenerOf(events, i).None? {
      OpenerIsLast(events, i);
      NextAttemptSkips(events, 0);
      NextAttemptSkips(events, i + 1);
      NextOverRun(events, 0, i + 1);
    }
    var opener := OpenerOf(events, i);
    if opener.Some? {
      assert (events + more)[opener.value] == events[opener.value];
    } else {
      var next := NextAttempt(events, 0);
      if next < |events| {
        assert (events + more)[next] == events[next];
      }
    }
  }

  lemma {:induction false} NextOverRun(events: seq<Event>, i: nat, j: nat)
    requires i <= j <= |events|
    requires forall k :: i <= k < j ==> !IsAttempt(events, k)
    ensures NextAttempt(events, i) == NextAttempt(events, j)
    decreases j - i
  {
    if i < j {
      assert !IsAttempt(events, i);
      NextOverRun(events, i + 1, j);
    }
  }

  /** An attempt closed before the end of the log closes the same in the longer log. */
  lemma {:induction false} ClosedKept(events: seq<Event>, more: seq<Event>, ctx: Context, hi: nat)
    requires 0 < hi < |events|
    ensures Boundary(events + more, hi) == Boundary(events, hi)
    ensures Boundary(events, hi) ==> ClosedNumber(events + more, ctx, hi) == ClosedNumber(events, ctx, hi)
    ensures Boundary(events, hi) ==> ClosingLines(events + more, ctx, hi) == ClosingLines(events, ctx, hi)
  {
    assert (events + more)[hi] == events[hi];
    if Boundary(events, hi) {
      NextAttemptSkips(events, hi);
      assert NextAttempt(events, hi) == hi;
      NumberKept(events, more, |ctx.attempts|, hi - 1);
    }
  }

  lemma {:induction false} OpenedKept(events: seq<Event>, more: seq<Event>, i: nat, laneId: string)
    requires i <= |events|
    ensures OpenedBefore(events + more, i, laneId) == OpenedBefore(events, i, laneId)
  {
    assert forall j :: 0 <= j < i ==> (events + more)[j] == events[j];
    if OpenedBefore(events, i, laneId) {
      var j :| 0 <= j < i && OpensLane(events[j]) && events[j].laneId == Some(laneId);
      assert OpensLane((events + more)[j]);
    }
  }

  /** An event is in the last attempt exactly when no attempt follows it. */
  lemma {:induction false} InLastAttempt(events: seq<Event>, i: nat)
    requires i < |events|
    ensures NextAttempt(events, i + 1) == |events| <==> StartOf(events, |events| - 1) <= i
  {
    NextAttemptSkips(events, i + 1);
    OpenerIsLast(events, |events| - 1);
  }

  lemma {:induction false} HasAttempt(more: seq<Event>)
    ensures NextAttempt(more, 0) < |more| <==> exists j :: 0 <= j < |more| && more[j].kind.Attempt?
  {
    NextAttemptSkips(more, 0);
    if NextAttempt(more, 0) == |more| {
      forall j | 0 <= j < |more|
        ensures !more[j].kind.Attempt?
      {
        assert !IsAttempt(more, j);
      }
    }
  }

  /** The gate lines of the last attempt are the only ones an appended attempt may replace. */
  lemma {:induction false} InClosedGateKept(events: seq<Event>, more: seq<Event>, ctx: Context, i: nat)
    requires !ctx.ended && i < |events|
    ensures InClosedGate(events + more, ctx, i) <==>
            || InClosedGate(events, ctx, i)
            || (&& StartOf(events, |events| - 1) <= i
                && (exists j :: 0 <= j < |more| && more[j].kind.Attempt?)
                && (var number := NumberAt(events + more, |ctx.attempts|, |events| - 1);
                    number.Some? && OutcomeIsGate(ctx, number.value)))
  {
    var hi := NextAttempt(events, i + 1);
    NextAttemptKept(events, more, i + 1);
    InLastAttempt(events, i);
    HasAttempt(more);
    if hi < |events| {
      ClosedKept(events, more, ctx, hi);
    } else {
      LastAttemptOpen(events, more, ctx, i);
    }
  }

  lemma {:induction false} LastAttemptOpen(events: seq<Event>, more: seq<Event>, ctx: Context, i: nat)
    requires !ctx.ended && i < |events| && NextAttempt(events, i + 1) == |events|
    ensures ClosedNumber(events, ctx, |events|).None?
    ensures var all := events + more;
            var hi := NextAttempt(all, i + 1);
            && Boundary(all, hi)
            && ClosedNumber(all, ctx, hi) == if NextAttempt(more, 0) == |more| then None else NumberAt(all, |ctx.attempts|, |events| - 1)
  {
    var all := events + more;
    NextAttemptKept(events, more, i + 1);
    var hi := NextAttempt(all, i + 1);
    NextAttemptSkips(all, i + 1);
    SameAttempt(all, |ctx.attempts|, |events| - 1, hi - 1);
  }

  /** What appending hides: a phase line at the old end, and the gate lines of a last attempt that stopped at a gate. */
  lemma {:induction false} HiddenKept(events: seq<Event>, more: seq<Event>, ctx: Context, i: nat)
    requires !ctx.ended && i < |events|
    ensures Hidden(events + more, ctx, i) <==>
            || Hidden(events, ctx, i)
            || (i == |events| - 1 && LosesPhase(events, more))
            || (StartOf(events, |events| - 1) <= i && GateKind(events[i].kind) && LosesGate(events, more, ctx))
  {
    var all := events + more;
    assert all[i] == events[i];
    assert i > 0 ==> all[i - 1] == events[i - 1];
    assert i + 1 < |events| ==> all[i + 1] == events[i + 1];
    assert i + 1 == |events| && more != [] ==> all[i + 1] == more[0];
    if OpensLane(events[i]) {
      OpenedKept(events, more, i, events[i].laneId.value);
    }
    InClosedGateKept(events, more, ctx, i);
  }

  lemma {:induction false} LinesKept(events: seq<Event>, more: seq<Event>, ctx: Context, k: nat)
    requires !ctx.ended && k <= |events|
    requires !LosesPhase(events, more) && !LosesGate(events, more, ctx)
    ensures LinesUpTo(events + more, ctx, k) == LinesUpTo(events, ctx, k)
  {
    if k > 0 {
      LinesKept(events, more, ctx, k - 1);
      HiddenKept(events, more, ctx, k - 1);
      if k > 1 {
        ClosedKept(events, more, ctx, k - 1);
      }
      assert LinesAt(events + more, ctx, k - 1) == LinesAt(events, ctx, k - 1);
    }
  }

  /** The lines before event `k` open the whole log. */
  lemma {:induction false} LinesUpToIsPrefix(events: seq<Event>, ctx: Context, k: nat, m: nat)
    requires k <= m <= |events|
    ensures LinesUpTo(events, ctx, k) <= LinesUpTo(events, ctx, m)
  {
    if k < m {
      LinesUpToIsPrefix(events, ctx, k, m - 1);
    }
  }

  lemma {:induction false} RunningLogIsOpen(events: seq<Event>, ctx: Context)
    requires !ctx.ended
    ensures StreamLines(events, ctx) == LinesUpTo(events, ctx, |events|)
  {
    assert LinesUpTo(events, ctx, |events|) + [] == LinesUpTo(events, ctx, |events|);
  }

  /** While the stream runs, the old lines stay in place unless a phase or a gate's lines are lost. */
  lemma {:induction false} LogGrows(events: seq<Event>, more: seq<Event>, ctx: Context)
    requires !ctx.ended
    ensures StreamLines(events, ctx) <= StreamLines(events + more, ctx) <==> !LosesPhase(events, more) && !LosesGate(events, more, ctx)
  {
    if !LosesPhase(events, more) && !LosesGate(events, more, ctx) {
      LinesKept(events, more, ctx, |events|);
      LinesUpToIsPrefix(events + more, ctx, |events|, |events + more|);
      RunningLogIsOpen(events, ctx);
      RunningLogIsOpen(events + more, ctx);
    } else {
      var i := LostLine(events, more, ctx);
      LogIsComplete(events, ctx, Own(i));
      LogIsComplete(events + more, ctx, Own(i));
    }
  }

  /** When a phase or a gate's lines are lost, some event that had a line has none any more. */
  lemma {:induction false} LostLine(events: seq<Event>, more: seq<Event>, ctx: Context) returns (i: nat)
    requires !ctx.ended && (LosesPhase(events, more) || LosesGate(events, more, ctx))
    ensures i < |events| && !Hidden(events, ctx, i) && Hidden(events + more, ctx, i)
  {
    if LosesPhase(events, more) {
      i := |events| - 1;
    } else {
      i :| StartOf(events, |events| - 1) <= i < |events| && GateKind(events[i].kind);
      InLastAttempt(events, i);
    }
    HiddenKept(events, more, ctx, i);
  }

  /** Row by row, the longer log starts with the key texts of the shorter one. */
  ghost predicate KeepsKeys(events: seq<Event>, more: seq<Event>, ctx: Context) {
    var lines, grown := StreamLines(events, ctx), StreamLines(events + more, ctx);
    && |lines| <= |grown|
    && forall p :: 0 <= p < |lines| ==>
         && Fits(events, ctx, lines[p]) && Fits(events + more, ctx, grown[p])
         && KeyText(KeyOf(events + more, ctx, grown[p])) == KeyText(KeyOf(events, ctx, lines[p]))
  }

  /** While the stream runs, appended events leave every old key in place exactly when they lose neither a phase line nor a gate's lines. */
  lemma {:induction false} KeysStayPut(events: seq<Event>, more: seq<Event>, ctx: Context)
    requires !ctx.ended
    ensures KeepsKeys(events, more, ctx) <==> !LosesPhase(events, more) && !LosesGate(events, more, ctx)
  {
    LogGrows(events, more, ctx);
    var lines, grown := StreamLines(events, ctx), StreamLines(events + more, ctx);
    if !LosesPhase(events, more) && !LosesGate(events, more, ctx) {
      forall p | 0 <= p < |lines|
        ensures Fits(events, ctx, lines[p]) && Fits(events + more, ctx, grown[p])
        ensures KeyOf(events + more, ctx, grown[p]) == KeyOf(events, ctx, lines[p])
      {
        assert grown[p] == lines[p];
        LineKept(events, more, ctx, p);
      }
    } else {
      var i := LostLine(events, more, ctx);
      LogIsComplete(events, ctx, Own(i));
      LogIsComplete(events + more, ctx, Own(i));
      var p :| 0 <= p < |lines| && lines[p] == Own(i);
      KeyIsGone(events, more, ctx, i, p);
    }
  }

  lemma {:induction false} KeyIsGone(events: seq<Event>, more: seq<Event>, ctx: Context, i: nat, p: nat)
    requires p < |StreamLines(events, ctx)| && StreamLines(events, ctx)[p] == Own(i)
    requires Own(i) !in StreamLines(events + more, ctx)
    ensures !KeepsKeys(events, more, ctx)
  {
    var grown := StreamLines(events + more, ctx);
    if p < |grown| && Fits(events, ctx, Own(i)) && Fits(events + more, ctx, grown[p])
       && KeyText(KeyOf(events + more, ctx, grown[p])) == KeyText(EventKey(i)) {
      assert grown[p] in grown;
      KeyTextInjective(KeyOf(events + more, ctx, grown[p]), EventKey(i));
    }
  }

  /** A line of a running log belongs to the longer log too, under the same key. */
  lemma {:induction false} LineKept(events: seq<Event>, more: seq<Event>, ctx: Context, p: nat)
    requires !ctx.ended && p < |StreamLines(events, ctx)|
    ensures var line := StreamLines(events, ctx)[p];
            && Fits(events, ctx, line) && Fits(events + more, ctx, line)
            && KeyOf(events + more, ctx, line) == KeyOf(events, ctx, line)
            && (!line.Own? ==> line.hi < |events|)
  {
    LogFits(events, ctx, p);
    var line := StreamLines(events, ctx)[p];
    if !line.Own? && line.hi < |events| {
      ClosedKept(events, more, ctx, line.hi);
    }
  }

  /** The last answered gate of a running log stays the last while no attempt is appended. */
  lemma {:induction false} LatestKept(events: seq<Event>, more: seq<Event>, ctx: Context, k: nat)
    requires !ctx.ended && NextAttempt(more, 0) == |more| && k <= |events + more|
    ensures LatestAnswered(events + more, ctx, k) == LatestAnswered(events, ctx, if k < |events| then k else |events|)
  {
    var all := events + more;
    if k > 0 {
      LatestKept(events, more, ctx, k - 1);
      if k < |events| {
        ClosedKept(events, more, ctx, k);
      } else {
        NextAttemptSkips(more, 0);
        assert forall j :: |events| <= j < |all| ==> all[j] == more[j - |events|] && !IsAttempt(more, j - |events|);
        assert !AnsweredAt(all, ctx, k) && !AnsweredAt(events, ctx, |events|);
      }
    }
  }

  /** An attempt that another one follows holds the same events in the longer log. */
  lemma {:induction false} SegmentKept(events: seq<Event>, more: seq<Event>, logged: nat, lo: nat)
    requires lo < |events| && NextAttempt(events, lo + 1) < |events|
    ensures SegmentAt(events + more, logged, lo) == SegmentAt(events, logged, lo)
  {
    NextAttemptKept(events, more, lo + 1);
    assert (events + more)[lo] == events[lo];
    NumberKept(events, more, logged, lo);
  }

  /** So does one closed before the end of the log. */
  lemma {:induction false} ClosingAtKept(events: seq<Event>, more: seq<Event>, ctx: Context, hi: nat)
    requires 0 < hi < |events| && Boundary(events, hi) && ClosedNumber(events, ctx, hi).Some?
    ensures Boundary(events + more, hi) && ClosedNumber(events + more, ctx, hi).Some?
    ensures ClosingAt(events + more, ctx, hi) == ClosingAt(events, ctx, hi)
  {
    ClosedKept(events, more, ctx, hi);
    OpenerKept(events, more, hi - 1);
    var lo := StartOf(events, hi - 1);
    OpenerIsLast(events, hi - 1);
    NextOverRun(events, lo + 1, hi);
    SegmentKept(events, more, |ctx.attempts|, lo);
  }

  /** A notice question reads only events its segment holds. */
  lemma {:induction false} QuestionKept(events: seq<Event>, more: seq<Event>, indices: seq<nat>)
    requires Within(events, indices)
    ensures Within(events + more, indices) && LastNotice(events + more, indices) == LastNotice(events, indices)
  {
    assert forall p :: 0 <= p < |indices| ==> (events + more)[indices[p]] == events[indices[p]];
    if indices != [] {
      QuestionKept(events, more, indices[..|indices| - 1]);
    }
  }

  predicate IsOpener(events: seq<Event>, line: Line) {
    line.Own? && line.index < |events| && events[line.index].kind.Attempt?
  }

  lemma {:induction false} GateQuestionKept(events: seq<Event>, more: seq<Event>, ctx: Context, closing: Closing)
    requires Within(events, closing.segment.indices)
    ensures Within(events + more, closing.segment.indices)
    ensures GateQuestionText(events + more, closing, ctx) == GateQuestionText(events, closing, ctx)
  {
    QuestionKept(events, more, closing.segment.indices);
    var notice := LastNotice(events, closing.segment.indices);
    if notice.Some? {
      assert (events + more)[notice.value] == events[notice.value];
    }
  }

  lemma {:induction false} OwnRowKept(events: seq<Event>, more: seq<Event>, ctx: Context, i: nat)
    requires i < |events| && !IsAttempt(events, i)
    ensures OwnRow(events + more, ctx, i) == OwnRow(events, ctx, i)
  {
    assert (events + more)[i] == events[i];
  }

  /** While no attempt is appended, a line other than an attempt's opener keeps its whole row. */
  lemma {:induction false} RowsStayTheSame(events: seq<Event>, more: seq<Event>, ctx: Context, p: nat)
    requires !ctx.ended && p < |StreamLines(events, ctx)|
    requires !(exists j :: 0 <= j < |more| && more[j].kind.Attempt?)
    requires !IsOpener(events, StreamLines(events, ctx)[p])
    ensures var line := StreamLines(events, ctx)[p];
            && Fits(events, ctx, line) && Fits(events + more, ctx, line)
            && RowOfLine(events + more, ctx, line) == RowOfLine(events, ctx, line)
  {
    var line := StreamLines(events, ctx)[p];
    LineKept(events, more, ctx, p);
    if line.Own? {
      OwnRowKept(events, more, ctx, line.index);
    } else {
      HasAttempt(more);
      ClosingAtKept(events, more, ctx, line.hi);
      GateQuestionKept(events, more, ctx, ClosingAt(events, ctx, line.hi));
      LatestKept(events, more, ctx, |events + more|);
    }
  }

  // ---- the rows that do change ----

  predicate HasPhase(events: seq<Event>, indices: seq<nat>)
    requires Within(events, indices)
  {
    indices != [] && (events[indices[0]].kind.Phase? || HasPhase(events, indices[1..]))
  }

  predicate StartRecorded(ctx: Context, number: Option<int>) {
    number.Some? && RowOf(ctx, number.value).Some? && RowOf(ctx, number.value).value.startedAt.Some?
  }

  /** The appended events, up to the next attempt, bring the last attempt's opener what it had to leave out: the instant of
      its first phase when no start is recorded, or the phase past the first that a later attempt resumes at. */
  predicate OpenerFills(events: seq<Event>, more: seq<Event>, ctx: Context, lo: nat)
    requires lo < |events|
  {
    var segment, added := SegmentAt(events, |ctx.attempts|, lo), Range(0, NextAttempt(more, 0));
    && NextAttempt(events, lo + 1) == |events|
    && (|| (!StartRecorded(ctx, segment.number) && !HasPhase(events, segment.indices) && FirstPhaseAt(more, added).Some?)
        || (segment.number.GetOr(0) > 1 && FirstWorkPhase(events, segment.indices).None? && FirstWorkPhase(more, added).GetOr(0) > 1))
  }

  /** A gate of a higher attempt than the one closed at `hi` was answered. */
  ghost predicate Overtaken(events: seq<Event>, ctx: Context, hi: nat) {
    && AnsweredAt(events, ctx, hi)
    && exists h: nat :: AnsweredAt(events, ctx, h) && ClosedNumber(events, ctx, h).value > ClosedNumber(events, ctx, hi).value
  }

  lemma {:induction false} FirstOfBoth(events: seq<Event>, a: seq<nat>, b: seq<nat>)
    requires Within(events, a) && Within(events, b)
    ensures Within(events, a + b)
    ensures FirstPhaseAt(events, a + b) == if HasPhase(events, a) then FirstPhaseAt(events, a) else FirstPhaseAt(events, b)
    ensures FirstWorkPhase(events, a + b) == if FirstWorkPhase(events, a).Some? then FirstWorkPhase(events, a) else FirstWorkPhase(events, b)
    decreases |a|
  {
    if a == [] {
      assert a + b == b;
    } else {
      FirstOfBoth(events, a[1..], b);
      assert (a + b)[1..] == a[1..] + b;
    }
  }

  /** The same events under other indices have the same first phases. */
  lemma {:induction false} FirstElsewhere(events: seq<Event>, a: seq<nat>, others: seq<Event>, b: seq<nat>)
    requires Within(events, a) && Within(others, b) && |a| == |b|
    requires forall p :: 0 <= p < |a| ==> events[a[p]] == others[b[p]]
    ensures FirstPhaseAt(events, a) == FirstPhaseAt(others, b) && FirstWorkPhase(events, a) == FirstWorkPhase(others, b)
    ensures HasPhase(events, a) == HasPhase(others, b)
    decreases |a|
  {
    if a != [] {
      FirstElsewhere(events, a[1..], others, b[1..]);
    }
  }

  /** The first phases of the last attempt, seen in the longer log. */
  lemma {:induction false} FirstInBoth(events: seq<Event>, more: seq<Event>, lo: nat, m: nat)
    requires lo < |events| && m <= |more|
    ensures var all, held, added := Range(lo + 1, |events| + m), Range(lo + 1, |events|), Range(0, m);
            && Within(events + more, all)
            && FirstPhaseAt(events + more, all) ==
               (if HasPhase(events, held) then FirstPhaseAt(events, held) else FirstPhaseAt(more, added))
            && FirstWorkPhase(events + more, all) ==
               (if FirstWorkPhase(events, held).Some? then FirstWorkPhase(events, held) else FirstWorkPhase(more, added))
  {
    var held, added, after := Range(lo + 1, |events|), Range(0, m), Range(|events|, |events| + m);
    assert Range(lo + 1, |events| + m) == held + after;
    FirstOfBoth(events + more, held, after);
    FirstElsewhere(events + more, held, events, held);
    FirstElsewhere(events + more, after, more, added);
  }

  lemma {:induction false} SegmentRow(events: seq<Event>, more: seq<Event>, ctx: Context, segment: Segment)
    requires segment.opener.Some? && segment.opener.value < |events| && Within(events, segment.indices)
    ensures Within(events + more, segment.indices)
    ensures AttemptOpenRow(events + more, segment, ctx) == AttemptOpenRow(events, segment, ctx)
  {
    assert (events + more)[segment.opener.value] == events[segment.opener.value];
    FirstElsewhere(events + more, segment.indices, events, segment.indices);
  }

  lemma {:induction false} OpenerChanges(events: seq<Event>, more: seq<Event>, ctx: Context, lo: nat)
    requires lo < |events| && IsAttempt(events, lo)
    ensures OwnRow(events + more, ctx, lo) != OwnRow(events, ctx, lo) <==> OpenerFills(events, more, ctx, lo)
  {
    var logged := |ctx.attempts|;
    assert (events + more)[lo] == events[lo];
    if NextAttempt(events, lo + 1) < |events| {
      SegmentKept(events, more, logged, lo);
      SegmentRow(events, more, ctx, SegmentAt(events, logged, lo));
    } else {
      NextAttemptKept(events, more, lo + 1);
      FirstInBoth(events, more, lo, NextAttempt(more, 0));
      if !HasPhase(events, SegmentAt(events, logged, lo).indices) {
        NoPhaseNoInstant(events, SegmentAt(events, logged, lo).indices);
      }
    }
  }

  lemma {:induction false} NoPhaseNoInstant(events: seq<Event>, indices: seq<nat>)
    requires Within(events, indices) && !HasPhase(events, indices)
    ensures FirstPhaseAt(events, indices) == None
    decreases |indices|
  {
    if indices != [] {
      NoPhaseNoInstant(events, indices[1..]);
    }
  }

  lemma {:induction false} AnsweredKept(events: seq<Event>, more: seq<Event>, ctx: Context, hi: nat)
    requires !ctx.ended && AnsweredAt(events, ctx, hi)
    ensures hi < |events| && AnsweredAt(events + more, ctx, hi) && ClosedNumber(events + more, ctx, hi) == ClosedNumber(events, ctx, hi)
  {
    ClosedKept(events, more, ctx, hi);
  }

  /** An answer overtaken in a running log stays so. */
  lemma {:induction false} OvertakenKept(events: seq<Event>, more: seq<Event>, ctx: Context, hi: nat)
    requires !ctx.ended && Overtaken(events, ctx, hi)
    ensures Overtaken(events + more, ctx, hi)
  {
    var h: nat :| AnsweredAt(events, ctx, h) && ClosedNumber(events, ctx, h).value > ClosedNumber(events, ctx, hi).value;
    AnsweredKept(events, more, ctx, hi);
    AnsweredKept(events, more, ctx, h);
  }

  lemma {:induction false} DimTellsAnswers(events: seq<Event>, more: seq<Event>, ctx: Context, hi: nat)
    requires AnsweredAt(events, ctx, hi) && AnsweredAt(events + more, ctx, hi)
    requires ClosedNumber(events + more, ctx, hi) == ClosedNumber(events, ctx, hi)
    ensures var before, after := RowOfLine(events, ctx, AnswerOf(hi)), RowOfLine(events + more, ctx, AnswerOf(hi));
            before == after <==> before.dim == after.dim
  {
  }

  lemma {:induction false} AnswerChanges(events: seq<Event>, more: seq<Event>, ctx: Context, hi: nat)
    requires !ctx.ended && AnsweredAt(events, ctx, hi)
    ensures AnsweredAt(events + more, ctx, hi)
    ensures RowOfLine(events + more, ctx, AnswerOf(hi)) != RowOfLine(events, ctx, AnswerOf(hi)) <==>
            !Overtaken(events, ctx, hi) && Overtaken(events + more, ctx, hi)
  {
    AnsweredKept(events, more, ctx, hi);
    DimTellsAnswers(events, more, ctx, hi);
    NoteOnHighestGate(events, ctx, hi);
    NoteOnHighestGate(events + more, ctx, hi);
    if Overtaken(events, ctx, hi) {
      OvertakenKept(events, more, ctx, hi);
    }
  }

  /** While the stream runs, an old line's row changes exactly when it is the last attempt's opener and the appended events
      fill it in, or an answer that a higher answered gate now overtakes. */
  lemma {:induction false} RowsThatChange(events: seq<Event>, more: seq<Event>, ctx: Context, p: nat)
    requires !ctx.ended && p < |StreamLines(events, ctx)|
    ensures var line := StreamLines(events, ctx)[p];
            && Fits(events, ctx, line) && Fits(events + more, ctx, line)
            && (RowOfLine(events + more, ctx, line) != RowOfLine(events, ctx, line) <==>
                || (IsOpener(events, line) && OpenerFills(events, more, ctx, line.index))
                || (line.AnswerOf? && !Overtaken(events, ctx, line.hi) && Overtaken(events + more, ctx, line.hi)))
  {
    var line := StreamLines(events, ctx)[p];
    LineKept(events, more, ctx, p);
    if IsOpener(events, line) {
      OpenerChanges(events, more, ctx, line.index);
    } else if line.Own? {
      OwnRowKept(events, more, ctx, line.index);
    } else if line.AnswerOf? {
      LogIsComplete(events, ctx, line);
      AnswerChanges(events, more, ctx, line.hi);
    } else {
      ClosingAtKept(events, more, ctx, line.hi);
      GateQuestionKept(events, more, ctx, ClosingAt(events, ctx, line.hi));
    }
  }

  // ---- one note, one final answer ----

  lemma {:induction false} LatestIsHighest(events: seq<Event>, ctx: Context, k: nat)
    requires k <= |events|
    ensures var latest := LatestAnswered(events, ctx, k);
            && (forall h: nat :: h <= k && AnsweredAt(events, ctx, h) ==> latest.Some? && ClosedNumber(events, ctx, h).value <= latest.value)
            && (latest.Some? ==> exists h: nat :: h <= k && AnsweredAt(events, ctx, h) && ClosedNumber(events, ctx, h) == latest)
  {
    if k > 0 {
      LatestIsHighest(events, ctx, k - 1);
      if AnsweredAt(events, ctx, k) {
        assert ClosedNumber(events, ctx, k).value >= 1;
      }
    }
  }

  /** An answer line is dimmed, its note lost, exactly when a gate of a higher attempt was answered too. */
  lemma {:induction false} NoteOnHighestGate(events: seq<Event>, ctx: Context, hi: nat)
    requires AnsweredAt(events, ctx, hi)
    ensures RowOfLine(events, ctx, AnswerOf(hi)).dim <==>
            exists h: nat :: AnsweredAt(events, ctx, h) && ClosedNumber(events, ctx, h).value > ClosedNumber(events, ctx, hi).value
  {
    LatestIsHighest(events, ctx, |events|);
    var latest := LatestAnswered(events, ctx, |events|);
    var h: nat :| h <= |events| && AnsweredAt(events, ctx, h) && ClosedNumber(events, ctx, h) == latest;
    assert RowOfLine(events, ctx, AnswerOf(hi)).dim <==> latest != ClosedNumber(events, ctx, hi);
  }

  lemma {:induction false} LineRowsAreNotFinal(events: seq<Event>, ctx: Context, line: Line)
    requires Fits(events, ctx, line)
    ensures !RowOfLine(events, ctx, line).final
  {
  }

  /** A row is final exactly when the stream ended and it is the last answer; it is the row the final key names and no other row changed. */
  lemma {:induction false} OneFinalAnswer(events: seq<Event>, ctx: Context, p: nat)
    requires p < |StreamLines(events, ctx)|
    ensures var lines := StreamLines(events, ctx);
            && Fits(events, ctx, lines[p])
            && (var row := FoldedRow(events, ctx, lines, p);
                && (row.final <==> ctx.ended && IsAnswer(events, lines[p]) && forall q :: p < q < |lines| ==> !IsAnswer(events, lines[q]))
                && (row.final <==> FinalKey(events, ctx, lines) == Some(KeyOf(events, ctx, lines[p])))
                && (if row.final then row == Marked(RowOfLine(events, ctx, lines[p])) else row == RowOfLine(events, ctx, lines[p])))
  {
    var lines := StreamLines(events, ctx);
    LogFits(events, ctx, p);
    LastAnswerIsLast(events, lines);
    LineRowsAreNotFinal(events, ctx, lines[p]);
    LogIsOrdered(events, ctx);
    var last := LastAnswer(events, lines);
    assert last >= 0 && last != p && lines[p].Own? ==> lines[last] != lines[p];
  }
}
