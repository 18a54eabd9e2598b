// What the live log shows, defined event by event: which rows each event contributes and which close
// lines come before each `attempt` event and at the end. The fold itself works segment by segment (LogFold).
module LogStream {
  import opened Wrappers
  import opened LogRows

  // ---- attempts as stretches of the log ----

  predicate IsAttempt(events: seq<Event>, i: nat)
    requires i < |events|
  {
    events[i].kind.Attempt?
  }

  /** The first `attempt` event at or after `i`, or the end of the log. */
  function NextAttempt(events: seq<Event>, i: nat): (j: nat)
    requires i <= |events|
    ensures i <= j <= |events|
    ensures j < |events| ==> IsAttempt(events, j)
    decreases |events| - i
  {
    if i == |events| || IsAttempt(events, i) then i else NextAttempt(events, i + 1)
  }

  /** The last `attempt` event at or before `i`. */
  function OpenerOf(events: seq<Event>, i: nat): (opener: Option<nat>)
    requires i < |events|
    ensures opener.Some? ==> opener.value <= i && IsAttempt(events, opener.value)
  {
    if IsAttempt(events, i) then Some(i) else if i == 0 then None else OpenerOf(events, i - 1)
  }

  lemma {:induction false} NextAttemptSkips(events: seq<Event>, i: nat)
    requires i <= |events|
    ensures forall k :: i <= k < NextAttempt(events, i) ==> !IsAttempt(events, k)
    decreases |events| - i
  {
    if i < |events| && !IsAttempt(events, i) {
      NextAttemptSkips(events, i + 1);
    }
  }

  lemma {:induction false} OpenerIsLast(events: seq<Event>, i: nat)
    requires i < |events|
    ensures var opener := OpenerOf(events, i);
            forall k :: (if opener.Some? then opener.value + 1 else 0) <= k <= i ==> !IsAttempt(events, k)
  {
    if !IsAttempt(events, i) && i > 0 {
      OpenerIsLast(events, i - 1);
    }
  }

  /** Where the attempt holding event `i` starts: its opener, or the log's start for a leading run with none. */
  function StartOf(events: seq<Event>, i: nat): nat
    requires i < |events|
  {
    OpenerOf(events, i).GetOr(0)
  }

  /** The number of the attempt holding event `i`; a leading run belongs to the attempt before the first one named. */
  function NumberAt(events: seq<Event>, logged: nat, i: nat): Option<int>
    requires i < |events|
  {
    var opener := OpenerOf(events, i);
    if opener.Some? then AttemptNumberOf(events[opener.value].text)
    else
      var next := NextAttempt(events, 0);
      var named := if next < |events| then AttemptNumberOf(events[next].text) else None;
      if named.Some? then Some(named.value - 1) else if logged == 0 then None else Some(logged)
  }

  function Range(lo: nat, hi: nat): (r: seq<nat>)
    requires lo <= hi
    ensures |r| == hi - lo
    ensures forall p :: 0 <= p < |r| ==> r[p] == lo + p
  {
    if lo == hi then [] else Range(lo, hi - 1) + [hi - 1]
  }

  /** The attempt that starts at `lo`, with its number and the events it holds. */
  function SegmentAt(events: seq<Event>, logged: nat, lo: nat): (segment: Segment)
    requires lo < |events|
    ensures Within(events, segment.indices)
  {
    var opener := if IsAttempt(events, lo) then Some(lo) else None;
    var first := if IsAttempt(events, lo) then lo + 1 else lo;
    Segment(NumberAt(events, logged, lo), opener, Range(first, NextAttempt(events, lo + 1)))
  }

  /** `hi` ends an attempt: the next `attempt` event, or the end of a log that is not empty. */
  predicate Boundary(events: seq<Event>, hi: nat) {
    0 < hi <= |events| && (hi == |events| || IsAttempt(events, hi))
  }

  /** The number of the attempt closed at `hi`, None when it stays open: unnumbered, or last and not known to have finished. */
  function ClosedNumber(events: seq<Event>, ctx: Context, hi: nat): Option<int>
    requires Boundary(events, hi)
  {
    var number := NumberAt(events, |ctx.attempts|, hi - 1);
    if number.None? then None
    else if hi == |events| && !(ctx.ended && Finished(ctx, number.value)) then None
    else number
  }

  /** An attempt closed at `hi` stopped at a gate the operator answered. */
  predicate AnsweredAt(events: seq<Event>, ctx: Context, hi: nat) {
    && Boundary(events, hi)
    && ClosedNumber(events, ctx, hi).Some?
    && GateAnswered(ClosedNumber(events, ctx, hi).value, hi == |events|, ctx)
  }

  function Max(a: int, b: int): int {
    if a < b then b else a
  }

  /** The highest attempt closed at or before `k` whose gate was answered. */
  function LatestAnswered(events: seq<Event>, ctx: Context, k: nat): Option<int>
    requires k <= |events|
  {
    if k == 0 then None
    else
      var before := LatestAnswered(events, ctx, k - 1);
      if AnsweredAt(events, ctx, k) then Some(Max(before.GetOr(0), ClosedNumber(events, ctx, k).value)) else before
  }

  // ---- what each event contributes ----

  predicate OpensLane(event: Event) {
    event.kind.LaneOpen? && Truthy(event.laneId)
  }

  predicate OpenedBefore(events: seq<Event>, i: nat, laneId: string)
    requires i <= |events|
  {
    exists j :: 0 <= j < i && OpensLane(events[j]) && events[j].laneId == Some(laneId)
  }

  predicate GateKind(kind: Kind) {
    kind.Gate? || kind.Notice?
  }

  /** The attempt holding event `i` is closed and its history says it stopped at a gate. */
  predicate InClosedGate(events: seq<Event>, ctx: Context, i: nat)
    requires i < |events|
  {
    var number := ClosedNumber(events, ctx, NextAttempt(events, i + 1));
    number.Some? && OutcomeIsGate(ctx, number.value)
  }

  // ---- the lines of the log ----

  /** A line of the log: the one of event `index`, or one composed where the attempt ending at `hi` closes. */
  datatype Line = Own(index: nat) | GateOf(hi: nat) | EndOf(hi: nat) | AnswerOf(hi: nat)

  /** An event with no line: the result, a phase not worth one, a lane opened again, what a gate's close lines replace. */
  predicate Hidden(events: seq<Event>, ctx: Context, i: nat)
    requires i < |events|
  {
    var event := events[i];
    || event.kind.ResultEnd?
    || (event.kind.Phase? && !PhaseShown(events, i))
    || (OpensLane(event) && OpenedBefore(events, i, event.laneId.value))
    || (GateKind(event.kind) && InClosedGate(events, ctx, i))
  }

  /** The lines that close the attempt ending at `hi`. */
  function ClosingLines(events: seq<Event>, ctx: Context, hi: nat): seq<Line>
    requires Boundary(events, hi)
  {
    var number := ClosedNumber(events, ctx, hi);
    if number.None? then []
    else
      (if OutcomeIsGate(ctx, number.value) then [GateOf(hi)] else [])
      + [EndOf(hi)]
      + (if AnsweredAt(events, ctx, hi) then [AnswerOf(hi)] else [])
  }

  function LinesAt(events: seq<Event>, ctx: Context, i: nat): seq<Line>
    requires i < |events|
  {
    (if Boundary(events, i) then ClosingLines(events, ctx, i) else []) + (if Hidden(events, ctx, i) then [] else [Own(i)])
  }

  function LinesUpTo(events: seq<Event>, ctx: Context, k: nat): seq<Line>
    requires k <= |events|
  {
    if k == 0 then [] else LinesUpTo(events, ctx, k - 1) + LinesAt(events, ctx, k - 1)
  }

  /** Every line of the log in order. */
  function StreamLines(events: seq<Event>, ctx: Context): seq<Line> {
    LinesUpTo(events, ctx, |events|) + if events == [] then [] else ClosingLines(events, ctx, |events|)
  }

  // ---- what a line shows ----

  /** The line belongs to this log. */
  predicate Fits(events: seq<Event>, ctx: Context, line: Line) {
    if line.Own? then line.index < |events|
    else Boundary(events, line.hi) && ClosedNumber(events, ctx, line.hi).Some?
  }

  function ClosingAt(events: seq<Event>, ctx: Context, hi: nat): Closing
    requires Boundary(events, hi) && ClosedNumber(events, ctx, hi).Some?
  {
    Closing(SegmentAt(events, |ctx.attempts|, StartOf(events, hi - 1)), ClosedNumber(events, ctx, hi).value, hi == |events|)
  }

  function KeyOf(events: seq<Event>, ctx: Context, line: Line): Key
    requires Fits(events, ctx, line)
  {
    match line
    case Own(i) => EventKey(i)
    case GateOf(hi) => GateKey(ClosedNumber(events, ctx, hi).value)
    case EndOf(hi) => EndKey(ClosedNumber(events, ctx, hi).value)
    case AnswerOf(hi) => AnswerKey(ClosedNumber(events, ctx, hi).value)
  }

  function OwnRow(events: seq<Event>, ctx: Context, i: nat): Row
    requires i < |events|
  {
    if events[i].kind.Attempt? then AttemptOpenRow(events, SegmentAt(events, |ctx.attempts|, i), ctx)
    else if events[i].kind.Phase? then PhaseRow(events[i], EventKey(i), ctx)
    else EventRow(events[i], EventKey(i))
  }

  function RowOfLine(events: seq<Event>, ctx: Context, line: Line): Row
    requires Fits(events, ctx, line)
  {
    match line
    case Own(i) => OwnRow(events, ctx, i)
    case GateOf(hi) => GateRow(ClosingAt(events, ctx, hi).number, GateQuestionText(events, ClosingAt(events, ctx, hi), ctx))
    case EndOf(hi) => EndRow(ClosingAt(events, ctx, hi), ctx)
    case AnswerOf(hi) => AnswerRow(ClosingAt(events, ctx, hi).number, ctx, LatestAnswered(events, ctx, |events|))
  }

  // ---- the final answer ----

  /** A top-level narrated text with a body. */
  predicate IsAnswer(events: seq<Event>, line: Line) {
    && line.Own? && line.index < |events|
    && events[line.index].kind.Text? && !events[line.index].indent && Truthy(events[line.index].body)
  }

  /** The position of the last answer, -1 when there is none. */
  function LastAnswer(events: seq<Event>, lines: seq<Line>): (p: int)
    ensures -1 <= p < |lines|
  {
    AnswerBefore(events, lines, |lines|)
  }

  /** The position of the last answer among the first `k` lines, -1 when there is none. */
  function AnswerBefore(events: seq<Event>, lines: seq<Line>, k: nat): (p: int)
    requires k <= |lines|
    ensures -1 <= p < k
  {
    if k == 0 then -1
    else if IsAnswer(events, lines[k - 1]) then k - 1
    else AnswerBefore(events, lines, k - 1)
  }

  /** The last answer among the first lines is one, and none of them follows it. */
  lemma {:induction false} NoAnswerAfter(events: seq<Event>, lines: seq<Line>, k: nat)
    requires k <= |lines|
    ensures var last := AnswerBefore(events, lines, k);
            && (last >= 0 ==> IsAnswer(events, lines[last]))
            && (forall q :: last < q < k ==> !IsAnswer(events, lines[q]))
  {
    if k > 0 && !IsAnswer(events, lines[k - 1]) {
      NoAnswerAfter(events, lines, k - 1);
    }
  }

  lemma {:induction false} LastAnswerIsLast(events: seq<Event>, lines: seq<Line>)
    ensures var last := LastAnswer(events, lines);
            && (last >= 0 ==> IsAnswer(events, lines[last]))
            && (forall q :: last < q < |lines| ==> !IsAnswer(events, lines[q]))
  {
    NoAnswerAfter(events, lines, |lines|);
  }

  /** A line of a narrated event that is not a report: neither a phase line, an attempt line nor a composed one. */
  predicate CountsAsEvent(events: seq<Event>, line: Line) {
    && line.Own? && line.index < |events|
    && (var kind := events[line.index].kind; !kind.Report? && !kind.Phase? && !kind.Attempt?)
  }

  function LastEventKey(events: seq<Event>, lines: seq<Line>): Option<Key> {
    EventKeyBefore(events, lines, |lines|)
  }

  /** The key of the last narrated event among the first `k` lines. */
  function EventKeyBefore(events: seq<Event>, lines: seq<Line>, k: nat): Option<Key>
    requires k <= |lines|
  {
    if k == 0 then None
    else if CountsAsEvent(events, lines[k - 1]) then Some(EventKey(lines[k - 1].index))
    else EventKeyBefore(events, lines, k - 1)
  }

  function Marked(row: Row): Row {
    row.(final := true, body := Some(AnswerBody))
  }

  /** The row at a position of the folded log: its line's, marked when it is the final answer of an ended stream. */
  function FoldedRow(events: seq<Event>, ctx: Context, lines: seq<Line>, p: nat): Row
    requires p < |lines| && Fits(events, ctx, lines[p])
  {
    var row := RowOfLine(events, ctx, lines[p]);
    if ctx.ended && p == LastAnswer(events, lines) then Marked(row) else row
  }

  /** The highest attempt number any event belongs to, 0 when none is numbered above it. */
  predicate IsAttemptCount(events: seq<Event>, logged: nat, k: nat, count: int)
    requires k <= |events|
  {
    && count >= 0
    && (forall i :: 0 <= i < k && NumberAt(events, logged, i).Some? ==> NumberAt(events, logged, i).value <= count)
    && (count > 0 ==> exists i :: 0 <= i < k && NumberAt(events, logged, i) == Some(count))
  }

  // ---- facts the fold and the laws share ----

  /** Two events with no `attempt` event after the first up to the second belong to one attempt. */
  lemma {:induction false} SameAttempt(events: seq<Event>, logged: nat, i: nat, j: nat)
    requires i <= j < |events|
    requires forall k :: i < k <= j ==> !IsAttempt(events, k)
    ensures OpenerOf(events, j) == OpenerOf(events, i)
    ensures NumberAt(events, logged, j) == NumberAt(events, logged, i)
    ensures NextAttempt(events, j + 1) == NextAttempt(events, i + 1)
    decreases j - i
  {
    if i < j {
      SameAttempt(events, logged, i, j - 1);
      assert !IsAttempt(events, j);
    }
  }

  /** The values of a folded log's rows. */
  ghost predicate IsFolded(events: seq<Event>, ctx: Context, values: seq<Row>) {
    var lines := StreamLines(events, ctx);
    && |values| == |lines|
    && forall p :: 0 <= p < |lines| ==> Fits(events, ctx, lines[p]) && values[p] == FoldedRow(events, ctx, lines, p)
  }

  /** The key of the final answer, None while the stream runs or when there is none. */
  function FinalKey(events: seq<Event>, ctx: Context, lines: seq<Line>): Option<Key> {
    var p := LastAnswer(events, lines);
    if ctx.ended && p >= 0 && lines[p].Own? then Some(EventKey(lines[p].index)) else None
  }
}
