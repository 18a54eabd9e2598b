// The fold of the live log as the studio runs it: segment by segment, over rows it may still change
// (studio/src/lib/log-tree.ts:94-307). Each method is proved against the event-by-event log of LogStream.
module LogFold {
  import opened Wrappers
  import opened LogRows
  import opened LogStream

  /** A row under construction: the final answer is marked in place, so other holders of the row see it. */
  class LogRow {
    const key: Key
    const event: Shown
    const lane: bool
    const dim: bool
    ghost const position: nat  // where in the log the row was pushed; tells two rows apart
    var body: Option<BodyKind>
    var final: bool

    constructor (row: Row, ghost position: nat)
      ensures Value() == row && this.position == position
    {
      this.position := position;
      key, event, lane, dim := row.key, row.event, row.lane, row.dim;
      body, final := row.body, row.final;
    }

    function Value(): Row
      reads this
    {
      Row(key, event, lane, body, final, dim)
    }
  }

  /** The values are those of the lines. */
  ghost predicate Shows(events: seq<Event>, ctx: Context, lines: seq<Line>, values: seq<Row>) {
    && |values| == |lines|
    && (forall p {:trigger Fits(events, ctx, lines[p])} :: 0 <= p < |lines| ==> Fits(events, ctx, lines[p]))
    && (forall p {:trigger RowOfLine(events, ctx, lines[p])} :: 0 <= p < |lines| ==> values[p] == RowOfLine(events, ctx, lines[p]))
  }

  lemma {:induction false} ShowsPush(events: seq<Event>, ctx: Context, lines: seq<Line>, values: seq<Row>, line: Line, row: Row)
    requires Shows(events, ctx, lines, values)
    requires Fits(events, ctx, line) && row == RowOfLine(events, ctx, line)
    ensures Shows(events, ctx, lines + [line], values + [row])
  {
    forall p | 0 <= p < |lines + [line]|
      ensures Fits(events, ctx, (lines + [line])[p]) && (values + [row])[p] == RowOfLine(events, ctx, (lines + [line])[p])
    {
      if p < |lines| {
        assert Fits(events, ctx, lines[p]) && values[p] == RowOfLine(events, ctx, lines[p]);
      }
    }
  }

  lemma {:induction false} ShowsConcat(events: seq<Event>, ctx: Context, lines: seq<Line>, values: seq<Row>, more: seq<Line>, moreValues: seq<Row>)
    requires Shows(events, ctx, lines, values) && Shows(events, ctx, more, moreValues)
    ensures Shows(events, ctx, lines + more, values + moreValues)
  {
    forall p | 0 <= p < |lines + more|
      ensures Fits(events, ctx, (lines + more)[p]) && (values + moreValues)[p] == RowOfLine(events, ctx, (lines + more)[p])
    {
      if p < |lines| {
        assert Fits(events, ctx, lines[p]) && values[p] == RowOfLine(events, ctx, lines[p]);
      } else {
        assert Fits(events, ctx, more[p - |lines|]) && moreValues[p - |lines|] == RowOfLine(events, ctx, more[p - |lines|]);
      }
    }
  }

  class FoldState {
    ghost const events: seq<Event>
    ghost const ctx: Context
    ghost var lines: seq<Line>  // the lines the rows show
    ghost var values: seq<Row>  // what the rows say
    ghost var made: set<LogRow>  // the rows made so far
    var rows: seq<LogRow>
    var lanes: set<string>
    var lastEventKey: Option<Key>
    var lastAnswer: LogRow?

    constructor (ghost events: seq<Event>, ghost ctx: Context)
      ensures this.events == events && this.ctx == ctx
      ensures lines == [] && rows == [] && lanes == {} && made == {} && Valid()
    {
      this.events, this.ctx := events, ctx;
      lines, values, made, rows, lanes, lastEventKey, lastAnswer := [], [], {}, [], {}, None, null;
    }

    /** Every row shows its line, no row is pushed twice, and the two trackers name the rows they are meant to. */
    ghost predicate Valid()
      reads this, rows
    {
      HoldsLines() && Tracks()
    }

    ghost predicate HoldsLines()
      reads this, rows
    {
      && Shows(events, ctx, lines, values)
      && |rows| == |values|
      && (forall p :: 0 <= p < |rows| ==> rows[p].position == p && rows[p].Value() == values[p] && rows[p] in made)
    }

    ghost predicate Tracks()
      reads this
    {
      && |rows| == |lines|
      && lastEventKey == LastEventKey(events, lines)
      && lastAnswer == if LastAnswer(events, lines) < 0 then null else rows[LastAnswer(events, lines)]
    }

    /** The rows are those of the log before event `k`. */
    ghost predicate Reached(k: nat)
      reads this
    {
      && k <= |events|
      && LanesAre(lanes, events, k)
      && lines == LinesUpTo(events, ctx, k)
    }

    /** The rows are those of the log before event `k`, with the close lines of the attempt ending there. */
    ghost predicate Turned(k: nat)
      reads this
    {
      && k <= |events|
      && LanesAre(lanes, events, k)
      && lines == LinesUpTo(events, ctx, k) + if Boundary(events, k) then ClosingLines(events, ctx, k) else []
    }

    /** Pushes one new row; the trackers are the caller's to settle. */
    method Push(row: Row, ghost line: Line) returns (pushed: LogRow)
      requires HoldsLines() && Fits(events, ctx, line) && row == RowOfLine(events, ctx, line)
      modifies this`rows, this`lines, this`values, this`made
      ensures HoldsLines() && rows == old(rows) + [pushed] && lines == old(lines) + [line]
      ensures made == old(made) + {pushed} && fresh(pushed)
    {
      ShowsPush(events, ctx, lines, values, line, row);
      pushed := new LogRow(row, |rows|);
      rows, lines, values, made := rows + [pushed], lines + [line], values + [row], made + {pushed};
    }

    /** Pushes a line that is neither an answer nor a narrated event: an opener, a phase line or a composed line. */
    method PushPlain(row: Row, ghost line: Line)
      requires Valid() && Fits(events, ctx, line) && row == RowOfLine(events, ctx, line)
      requires !IsAnswer(events, line) && !CountsAsEvent(events, line)
      modifies this`rows, this`lines, this`values, this`made
      ensures Valid() && lines == old(lines) + [line] && fresh(made - old(made))
    {
      TrackersOfPush(events, lines, line);
      var pushed := Push(row, line);
    }

    /** Pushes every one of some composed rows; none of them moves a tracker. */
    method PushAll(more: seq<Row>, ghost moreLines: seq<Line>)
      requires Valid() && Shows(events, ctx, moreLines, more)
      requires forall p :: 0 <= p < |moreLines| ==> !moreLines[p].Own?
      modifies this`rows, this`lines, this`values, this`made
      ensures Valid() && lines == old(lines) + moreLines && fresh(made - old(made))
    {
      ShowsConcat(events, ctx, lines, values, moreLines, more);
      TrackersOfAppend(events, lines, moreLines);
      for p := 0 to |more|
        invariant lines == old(lines) && values == old(values) + more[..p] && fresh(made - old(made))
        invariant old(rows) <= rows && |rows| == |values|
        invariant forall q :: 0 <= q < |rows| ==> rows[q].position == q && rows[q].Value() == values[q] && rows[q] in made
      {
        var pushed := new LogRow(more[p], |rows|);
        rows, values, made := rows + [pushed], values + [more[p]], made + {pushed};
        assert more[..p + 1] == more[..p] + [more[p]];
      }
      assert more[..|more|] == more;
      lines := lines + moreLines;
    }

    /** Pushes the row of a narrated event and keeps the last answer and the last event up to date. */
    method PushEvent(event: Event, index: nat, row: Row)
      requires Valid() && index < |events| && event == events[index] && !event.kind.Phase? && !event.kind.Attempt?
      requires row == RowOfLine(events, ctx, Own(index))
      modifies this`rows, this`lines, this`values, this`made, this`lastAnswer, this`lastEventKey
      ensures Valid() && lines == old(lines) + [Own(index)] && fresh(made - old(made))
    {
      TrackersOfPush(events, lines, Own(index));
      var pushed := Push(row, Own(index));
      if event.kind.Text? && !event.indent && Truthy(event.body) {
        lastAnswer := pushed;
      }
      if !event.kind.Report? {
        lastEventKey := Some(EventKey(index));
      }
    }
  }

  /** The trackers of the first lines are the same whatever lines follow. */
  lemma {:induction false} TrackersStay(events: seq<Event>, lines: seq<Line>, longer: seq<Line>, k: nat)
    requires k <= |lines| <= |longer| && forall p :: 0 <= p < |lines| ==> longer[p] == lines[p]
    ensures AnswerBefore(events, longer, k) == AnswerBefore(events, lines, k)
    ensures EventKeyBefore(events, longer, k) == EventKeyBefore(events, lines, k)
  {
    if k > 0 {
      TrackersStay(events, lines, longer, k - 1);
      assert longer[k - 1] == lines[k - 1];
    }
  }

  /** What one more line does to the last answer and the last event. */
  lemma {:induction false} TrackersOfPush(events: seq<Event>, lines: seq<Line>, line: Line)
    ensures LastAnswer(events, lines + [line]) == if IsAnswer(events, line) then |lines| else LastAnswer(events, lines)
    ensures LastEventKey(events, lines + [line]) == if CountsAsEvent(events, line) then Some(EventKey(line.index)) else LastEventKey(events, lines)
  {
    TrackersStay(events, lines, lines + [line], |lines|);
  }

  /** Composed lines leave the trackers as they are. */
  lemma {:induction false} TrackersPass(events: seq<Event>, lines: seq<Line>, k: nat, m: nat)
    requires k <= m <= |lines| && forall p :: k <= p < m ==> !lines[p].Own?
    ensures AnswerBefore(events, lines, m) == AnswerBefore(events, lines, k)
    ensures EventKeyBefore(events, lines, m) == EventKeyBefore(events, lines, k)
    decreases m
  {
    if k < m {
      TrackersPass(events, lines, k, m - 1);
      assert !lines[m - 1].Own?;
    }
  }

  lemma {:induction false} TrackersOfAppend(events: seq<Event>, lines: seq<Line>, more: seq<Line>)
    requires forall p :: 0 <= p < |more| ==> !more[p].Own?
    ensures LastAnswer(events, lines + more) == LastAnswer(events, lines)
    ensures LastEventKey(events, lines + more) == LastEventKey(events, lines)
  {
    TrackersStay(events, lines, lines + more, |lines|);
    TrackersPass(events, lines + more, |lines|, |lines + more|);
  }

  /** The lanes opened by the first `i` events. */
  ghost predicate LanesAre(lanes: set<string>, events: seq<Event>, i: nat)
    requires i <= |events|
  {
    forall id :: id in lanes <==> OpenedBefore(events, i, id)
  }

  lemma {:induction false} LanesStep(lanes: set<string>, events: seq<Event>, i: nat)
    requires i < |events| && LanesAre(lanes, events, i)
    ensures OpensLane(events[i]) ==>
              && (events[i].laneId.value in lanes <==> OpenedBefore(events, i, events[i].laneId.value))
              && LanesAre(lanes + {events[i].laneId.value}, events, i + 1)
    ensures !OpensLane(events[i]) || events[i].laneId.value in lanes ==> LanesAre(lanes, events, i + 1)
  {
    forall id
      ensures OpenedBefore(events, i + 1, id) <==> OpenedBefore(events, i, id) || (OpensLane(events[i]) && events[i].laneId == Some(id))
    {
    }
  }

  // ---- splitting at the attempt events ----

  /** Where the attempts of the first `k` events start. */
  ghost function Starts(events: seq<Event>, k: nat): (starts: seq<nat>)
    requires k <= |events|
    ensures forall p :: 0 <= p < |starts| ==> starts[p] < k
    ensures k > 0 ==> |starts| > 0
  {
    if k == 0 then []
    else if k == 1 || IsAttempt(events, k - 1) then Starts(events, k - 1) + [k - 1]
    else Starts(events, k - 1)
  }

  lemma {:induction false} StartsInOrder(events: seq<Event>, k: nat)
    requires k <= |events|
    ensures var starts := Starts(events, k);
            && (k > 0 ==> starts[0] == 0)
            && (forall p :: 0 < p < |starts| ==> IsAttempt(events, starts[p]))
            && (forall p, q :: 0 <= p < q < |starts| ==> starts[p] < starts[q])
  {
    if k > 0 {
      StartsInOrder(events, k - 1);
    }
  }

  lemma {:induction false} StartsMissNone(events: seq<Event>, k: nat, j: nat)
    requires 0 < j < k <= |events| && IsAttempt(events, j)
    ensures exists p :: 0 <= p < |Starts(events, k)| && Starts(events, k)[p] == j
  {
    var starts := Starts(events, k);
    if j == k - 1 {
      assert starts[|starts| - 1] == j;
    } else {
      StartsMissNone(events, k - 1, j);
      var p :| 0 <= p < |Starts(events, k - 1)| && Starts(events, k - 1)[p] == j;
      assert starts[p] == j;
    }
  }

  ghost function SegmentEnd(starts: seq<nat>, k: nat, p: nat): nat {
    if p + 1 < |starts| then starts[p + 1] else k
  }

  lemma {:induction false} NextStart(events: seq<Event>, p: nat)
    requires p < |Starts(events, |events|)|
    ensures var starts := Starts(events, |events|);
            NextAttempt(events, starts[p] + 1) == SegmentEnd(starts, |events|, p)
  {
    var starts := Starts(events, |events|);
    StartsInOrder(events, |events|);
    var next := NextAttempt(events, starts[p] + 1);
    NextAttemptSkips(events, starts[p] + 1);
    if next < |events| {
      StartsMissNone(events, |events|, next);
      var q :| 0 <= q < |starts| && starts[q] == next;
      assert q > p;
    }
  }

  /** A segment as the split leaves it: its own number only, its events up to `hi`. */
  ghost predicate IsSplit(events: seq<Event>, segment: Segment, lo: nat, hi: nat)
  {
    && lo < hi <= |events|
    && segment.opener == (if IsAttempt(events, lo) then Some(lo) else None)
    && segment.number == (if IsAttempt(events, lo) then AttemptNumberOf(events[lo].text) else None)
    && segment.indices == Range(if IsAttempt(events, lo) then lo + 1 else lo, hi)
  }

  ghost predicate AreSplit(events: seq<Event>, segments: seq<Segment>, k: nat)
    requires k <= |events|
  {
    var starts := Starts(events, k);
    && |segments| == |starts|
    && forall p {:trigger segments[p]} :: 0 <= p < |segments| ==> IsSplit(events, segments[p], starts[p], SegmentEnd(starts, k, p))
  }

  lemma {:induction false} SplitOpens(events: seq<Event>, segments: seq<Segment>, index: nat, segment: Segment)
    requires index < |events| && (index == 0 || IsAttempt(events, index))
    requires AreSplit(events, segments, index)
    requires IsSplit(events, segment, index, index + 1)
    ensures AreSplit(events, segments + [segment], index + 1)
  {
    var starts := Starts(events, index);
    assert Starts(events, index + 1) == starts + [index];
    assert forall p :: 0 <= p < |starts| ==> SegmentEnd(starts + [index], index + 1, p) == SegmentEnd(starts, index, p);
  }

  lemma {:induction false} SplitGrows(events: seq<Event>, segments: seq<Segment>, index: nat)
    requires 0 < index < |events| && !IsAttempt(events, index)
    requires AreSplit(events, segments, index)
    ensures |segments| > 0
    ensures var last := segments[|segments| - 1];
            AreSplit(events, segments[|segments| - 1 := last.(indices := last.indices + [index])], index + 1)
  {
    var starts := Starts(events, index);
    assert Starts(events, index + 1) == starts;
    var lo := starts[|starts| - 1];
    var first := if IsAttempt(events, lo) then lo + 1 else lo;
    assert Range(first, index) + [index] == Range(first, index + 1);
    assert forall p :: 0 <= p < |starts| - 1 ==> SegmentEnd(starts, index + 1, p) == SegmentEnd(starts, index, p);
  }

  ghost predicate AreSegments(events: seq<Event>, logged: nat, segments: seq<Segment>) {
    var starts := Starts(events, |events|);
    && |segments| == |starts|
    && forall p :: 0 <= p < |segments| ==> segments[p] == SegmentAt(events, logged, starts[p])
  }

  /** Once split, only the number of a leading run is missing. */
  lemma {:induction false} SplitIsSegment(events: seq<Event>, logged: nat, segment: Segment, lo: nat)
    requires lo < |events| && IsSplit(events, segment, lo, NextAttempt(events, lo + 1))
    ensures segment.(number := NumberAt(events, logged, lo)) == SegmentAt(events, logged, lo)
    ensures IsAttempt(events, lo) ==> segment.number == NumberAt(events, logged, lo)
  {
  }

  lemma {:induction false} SplitNumbered(events: seq<Event>, logged: nat, segments: seq<Segment>, p: nat)
    requires AreSplit(events, segments, |events|) && p < |segments|
    ensures var lo := Starts(events, |events|)[p];
            && segments[p].(number := NumberAt(events, logged, lo)) == SegmentAt(events, logged, lo)
            && (p > 0 || segments[p].opener.Some? ==> segments[p].number == NumberAt(events, logged, lo))
  {
    StartsInOrder(events, |events|);
    NextStart(events, p);
    SplitIsSegment(events, logged, segments[p], Starts(events, |events|)[p]);
  }

  /** The second segment, when there is one, opens with the first `attempt` event after a leading run. */
  lemma {:induction false} SecondSegment(events: seq<Event>, segments: seq<Segment>)
    requires AreSplit(events, segments, |events|) && |segments| > 0
    ensures var next := NextAttempt(events, 1);
            if |segments| > 1 then next < |events| && segments[1].number == AttemptNumberOf(events[next].text) else next == |events|
  {
    var starts := Starts(events, |events|);
    StartsInOrder(events, |events|);
    NextStart(events, 0);
    if |segments| > 1 {
      assert IsSplit(events, segments[1], starts[1], SegmentEnd(starts, |events|, 1));
    }
  }

  /** A leading run is numbered after the attempt that follows it. */
  lemma {:induction false} LeadNumber(events: seq<Event>, logged: nat, segments: seq<Segment>)
    requires AreSplit(events, segments, |events|) && |segments| > 0 && segments[0].opener.None?
    ensures NumberAt(events, logged, 0) == LeadNumberOf(segments, logged)
  {
    SecondSegment(events, segments);
    StartsInOrder(events, |events|);
    assert IsSplit(events, segments[0], 0, SegmentEnd(Starts(events, |events|), |events|, 0));
    assert NextAttempt(events, 0) == NextAttempt(events, 1);
  }

  function LeadNumberOf(segments: seq<Segment>, attemptsLogged: nat): Option<int>
  {
    var next := if |segments| > 1 then segments[1].number else None;
    if next.Some? then Some(next.value - 1) else if attemptsLogged == 0 then None else Some(attemptsLogged)
  }

  lemma {:induction false} LeadCompletes(events: seq<Event>, logged: nat, segments: seq<Segment>)
    requires AreSplit(events, segments, |events|)
    ensures AreSegments(events, logged,
                        if |segments| > 0 && segments[0].opener.None?
                        then segments[0 := segments[0].(number := LeadNumberOf(segments, logged))]
                        else segments)
  {
    StartsInOrder(events, |events|);
    if |segments| > 0 && segments[0].opener.None? {
      LeadNumber(events, logged, segments);
    }
    forall p | 0 <= p < |segments|
      ensures var lo := Starts(events, |events|)[p];
              && segments[p].(number := NumberAt(events, logged, lo)) == SegmentAt(events, logged, lo)
              && (p > 0 || segments[p].opener.Some? ==> segments[p].number == NumberAt(events, logged, lo))
    {
      SplitNumbered(events, logged, segments, p);
    }
  }

  /** Splits the events at each `attempt` event and numbers a leading run after the attempt that follows it. */
  method SegmentsOf(events: seq<Event>, attemptsLogged: nat) returns (segments: seq<Segment>)
    ensures AreSegments(events, attemptsLogged, segments)
  {
    segments := [];
    for index := 0 to |events|
      invariant AreSplit(events, segments, index)
    {
      if events[index].kind.Attempt? {
        var own := Segment(AttemptNumberOf(events[index].text), Some(index), []);
        SplitOpens(events, segments, index, own);
        segments := segments + [own];
      } else if |segments| == 0 {
        SplitOpens(events, segments, index, Segment(None, None, [index]));
        segments := segments + [Segment(None, None, [index])];
      } else {
        SplitGrows(events, segments, index);
        var last := segments[|segments| - 1];
        segments := segments[|segments| - 1 := last.(indices := last.indices + [index])];
      }
    }
    LeadCompletes(events, attemptsLogged, segments);
    if |segments| > 0 && segments[0].opener.None? {
      segments := segments[0 := segments[0].(number := LeadNumberOf(segments, attemptsLogged))];
    }
  }

  // ---- which attempts close, and with what answer ----

  /** The stretch from `lo` to the next `attempt` event is one attempt, with one number. */
  lemma {:induction false} AttemptSpan(events: seq<Event>, logged: nat, lo: nat)
    requires lo < |events| && (lo == 0 || IsAttempt(events, lo))
    ensures var hi := NextAttempt(events, lo + 1);
            && Boundary(events, hi)
            && StartOf(events, hi - 1) == lo
            && NumberAt(events, logged, hi - 1) == NumberAt(events, logged, lo)
  {
    NextAttemptSkips(events, lo + 1);
    SameAttempt(events, logged, lo, NextAttempt(events, lo + 1) - 1);
  }

  lemma {:induction false} SegmentSpan(events: seq<Event>, logged: nat, p: nat)
    requires p < |Starts(events, |events|)|
    ensures var starts := Starts(events, |events|);
            var lo, hi := starts[p], SegmentEnd(starts, |events|, p);
            && lo < hi && Boundary(events, hi) && hi == NextAttempt(events, lo + 1)
            && (lo == 0 || IsAttempt(events, lo))
            && (hi == |events| <==> p == |starts| - 1)
            && StartOf(events, hi - 1) == lo
            && NumberAt(events, logged, hi - 1) == NumberAt(events, logged, lo)
  {
    StartsInOrder(events, |events|);
    NextStart(events, p);
    AttemptSpan(events, logged, Starts(events, |events|)[p]);
  }

  /** A segment the fold closes: a numbered one that a later attempt follows, or the last once its history row finished. */
  predicate Closes(segment: Segment, last: bool, ctx: Context) {
    segment.number.Some? && !(last && !(ctx.ended && Finished(ctx, segment.number.value)))
  }

  ghost predicate ClosesThese(segments: seq<Segment>, ctx: Context, closings: map<nat, Closing>) {
    && (forall p :: p in closings ==> p < |segments|)
    && (forall p :: 0 <= p < |segments| ==> (p in closings <==> Closes(segments[p], p == |segments| - 1, ctx)))
    && (forall p :: p in closings ==> closings[p] == Closing(segments[p], segments[p].number.GetOr(0), p == |segments| - 1))
  }

  /** The attempts the fold closes, by their position: every one a later attempt follows, and a finished last one once the stream ended. */
  method ClosingsOf(segments: seq<Segment>, ctx: Context) returns (closings: map<nat, Closing>)
    ensures ClosesThese(segments, ctx, closings)
  {
    closings := map[];
    for index := 0 to |segments|
      invariant forall p :: p in closings ==> p < index
      invariant forall p :: 0 <= p < index ==> (p in closings <==> Closes(segments[p], p == |segments| - 1, ctx))
      invariant forall p :: p in closings ==> closings[p] == Closing(segments[p], segments[p].number.GetOr(0), p == |segments| - 1)
    {
      var segment := segments[index];
      var last := index == |segments| - 1;
      if Closes(segment, last, ctx) {
        closings := closings[index := Closing(segment, segment.number.value, last)];
      }
    }
  }

  /** The closing of a segment is the one the log has at the segment's end. */
  ghost predicate AreClosings(events: seq<Event>, ctx: Context, closings: map<nat, Closing>) {
    var starts := Starts(events, |events|);
    && (forall p :: p in closings ==> p < |starts|)
    && (forall p :: 0 <= p < |starts| ==> IsClosing(events, ctx, closings, starts[p], p))
  }

  ghost predicate IsClosing(events: seq<Event>, ctx: Context, closings: map<nat, Closing>, lo: nat, p: nat)
    requires lo < |events|
  {
    var hi := NextAttempt(events, lo + 1);
    && Boundary(events, hi)
    && (p in closings <==> ClosedNumber(events, ctx, hi).Some?)
    && (p in closings ==> closings[p] == Closing(SegmentAt(events, |ctx.attempts|, lo), ClosedNumber(events, ctx, hi).value, hi == |events|))
  }

  lemma {:induction false} ClosesWhenNumbered(events: seq<Event>, ctx: Context, segment: Segment, lo: nat)
    requires lo < |events| && segment == SegmentAt(events, |ctx.attempts|, lo)
    requires var hi := NextAttempt(events, lo + 1);
             Boundary(events, hi) && NumberAt(events, |ctx.attempts|, hi - 1) == NumberAt(events, |ctx.attempts|, lo)
    ensures var hi := NextAttempt(events, lo + 1);
            && (Closes(segment, hi == |events|, ctx) <==> ClosedNumber(events, ctx, hi).Some?)
            && (Closes(segment, hi == |events|, ctx) ==> segment.number == ClosedNumber(events, ctx, hi))
  {
  }

  lemma {:induction false} ClosingMatches(events: seq<Event>, ctx: Context, segments: seq<Segment>, closings: map<nat, Closing>, p: nat)
    requires AreSegments(events, |ctx.attempts|, segments) && p < |segments|
    requires ClosesThese(segments, ctx, closings)
    ensures IsClosing(events, ctx, closings, Starts(events, |events|)[p], p)
  {
    var lo := Starts(events, |events|)[p];
    var segment := segments[p];
    var last := p == |segments| - 1;
    assert segment == SegmentAt(events, |ctx.attempts|, lo);
    assert p in closings <==> Closes(segment, last, ctx);
    assert p in closings ==> closings[p] == Closing(segment, segment.number.GetOr(0), last);
    SegmentSpan(events, |ctx.attempts|, p);
    ClosesWhenNumbered(events, ctx, segment, lo);
    var hi := NextAttempt(events, lo + 1);
    assert last <==> hi == |events|;
  }

  lemma {:induction false} ClosingsMatch(events: seq<Event>, ctx: Context, segments: seq<Segment>, closings: map<nat, Closing>)
    requires AreSegments(events, |ctx.attempts|, segments)
    requires ClosesThese(segments, ctx, closings)
    ensures AreClosings(events, ctx, closings)
  {
    forall p | 0 <= p < |segments|
      ensures IsClosing(events, ctx, closings, Starts(events, |events|)[p], p)
    {
      ClosingMatches(events, ctx, segments, closings, p);
    }
  }

  /** Nothing is answered between two attempt events. */
  lemma {:induction false} LatestHolds(events: seq<Event>, ctx: Context, lo: nat, hi: nat)
    requires lo <= hi <= |events|
    requires forall k :: lo < k <= hi ==> !Boundary(events, k)
    ensures LatestAnswered(events, ctx, hi) == LatestAnswered(events, ctx, lo)
    decreases hi - lo
  {
    if lo < hi {
      LatestHolds(events, ctx, lo, hi - 1);
      assert !Boundary(events, hi);
    }
  }

  lemma {:induction false} LatestOverSegment(events: seq<Event>, ctx: Context, p: nat)
    requires p < |Starts(events, |events|)|
    ensures var lo, hi := Starts(events, |events|)[p], SegmentEnd(Starts(events, |events|), |events|, p);
            && Boundary(events, hi)
            && LatestAnswered(events, ctx, hi) ==
               if AnsweredAt(events, ctx, hi)
               then Some(Max(LatestAnswered(events, ctx, lo).GetOr(0), ClosedNumber(events, ctx, hi).value))
               else LatestAnswered(events, ctx, lo)
  {
    var lo, hi := Starts(events, |events|)[p], SegmentEnd(Starts(events, |events|), |events|, p);
    SegmentSpan(events, |ctx.attempts|, p);
    NextAttemptSkips(events, lo + 1);
    LatestHolds(events, ctx, lo, hi - 1);
  }

  /** What the closing of the segment at position `p` makes of the latest answered gate. */
  lemma {:induction false} LatestAfter(events: seq<Event>, ctx: Context, closings: map<nat, Closing>, p: nat)
    requires p < |Starts(events, |events|)| && AreClosings(events, ctx, closings)
    ensures var starts := Starts(events, |events|);
            var lo, hi := starts[p], SegmentEnd(starts, |events|, p);
            LatestAnswered(events, ctx, hi) ==
              if p in closings && GateAnswered(closings[p].number, closings[p].last, ctx)
              then Some(Max(LatestAnswered(events, ctx, lo).GetOr(0), closings[p].number))
              else LatestAnswered(events, ctx, lo)
  {
    LatestOverSegment(events, ctx, p);
    SegmentSpan(events, |ctx.attempts|, p);
    assert IsClosing(events, ctx, closings, Starts(events, |events|)[p], p);
  }

  /** The highest attempt whose gate the operator answered. */
  method LatestAnsweredGate(ghost events: seq<Event>, count: nat, closings: map<nat, Closing>, ctx: Context) returns (latest: Option<int>)
    requires count == |Starts(events, |events|)| && AreClosings(events, ctx, closings)
    ensures latest == LatestAnswered(events, ctx, |events|)
  {
    latest := None;
    ghost var starts := Starts(events, |events|);
    StartsInOrder(events, |events|);
    for p := 0 to count
      invariant latest == LatestAnswered(events, ctx, if p < count then starts[p] else |events|)
    {
      LatestAfter(events, ctx, closings, p);
      if p in closings && GateAnswered(closings[p].number, closings[p].last, ctx) {
        latest := Some(Max(latest.GetOr(0), closings[p].number));
      }
    }
  }

  // ---- folding ----

  /** Takes one event past its opener into the state: its own line is pushed unless the definition hides it. */
  method PlaceEvent(state: FoldState, events: seq<Event>, index: nat, ctx: Context)
    requires index < |events| && !events[index].kind.Attempt? && !(GateKind(events[index].kind) && InClosedGate(events, ctx, index))
    requires state.events == events && state.ctx == ctx
    requires state.Valid() && LanesAre(state.lanes, events, index)
    modifies state
    ensures state.Valid() && LanesAre(state.lanes, events, index + 1) && fresh(state.made - old(state.made))
    ensures state.lines == old(state.lines) + if Hidden(events, ctx, index) then [] else [Own(index)]
  {
    var event := events[index];
    var key := EventKey(index);
    LanesStep(state.lanes, events, index);
    if event.kind.ResultEnd? {
      return;
    }
    if event.kind.Phase? {
      if PhaseShown(events, index) {
        state.PushPlain(PhaseRow(event, key, ctx), Own(index));
      }
      return;
    }
    if OpensLane(event) {
      if event.laneId.value in state.lanes {
        return;
      }
      state.lanes := state.lanes + {event.laneId.value};
    }
    state.PushEvent(event, index, EventRow(event, key));
  }

  /** The rows are those of the lines that close the attempt ending at `hi`. */
  ghost predicate ClosesWith(events: seq<Event>, ctx: Context, hi: nat, rows: seq<Row>) {
    && Boundary(events, hi)
    && Shows(events, ctx, ClosingLines(events, ctx, hi), rows)
  }

  /** The rows of the lines that the definition composes where an attempt closes. */
  method CloseRows(events: seq<Event>, closing: Closing, ctx: Context, latestAnswered: Option<int>, ghost hi: nat) returns (rows: seq<Row>)
    requires Boundary(events, hi) && ClosedNumber(events, ctx, hi).Some? && closing == ClosingAt(events, ctx, hi)
    requires latestAnswered == LatestAnswered(events, ctx, |events|)
    ensures ClosesWith(events, ctx, hi, rows)
  {
    rows := [];
    var number := closing.number;
    var gated := OutcomeIsGate(ctx, number);
    ghost var lines := [];
    if gated {
      var line := GateRow(number, GateQuestionText(events, closing, ctx));
      ShowsPush(events, ctx, lines, rows, GateOf(hi), line);
      rows, lines := rows + [line], lines + [GateOf(hi)];
    }
    ShowsPush(events, ctx, lines, rows, EndOf(hi), EndRow(closing, ctx));
    rows, lines := rows + [EndRow(closing, ctx)], lines + [EndOf(hi)];
    if gated && GateAnswered(number, closing.last, ctx) {
      var line := AnswerRow(number, ctx, latestAnswered);
      ShowsPush(events, ctx, lines, rows, AnswerOf(hi), line);
      rows, lines := rows + [line], lines + [AnswerOf(hi)];
    }
    ClosingLinesAre(events, ctx, hi, closing, lines);
  }

  lemma {:induction false} ClosingLinesAre(events: seq<Event>, ctx: Context, hi: nat, closing: Closing, lines: seq<Line>)
    requires Boundary(events, hi) && ClosedNumber(events, ctx, hi).Some? && closing == ClosingAt(events, ctx, hi)
    requires var gated := OutcomeIsGate(ctx, closing.number);
             lines == (if gated then [] + [GateOf(hi)] else []) + [EndOf(hi)]
                      + (if gated && GateAnswered(closing.number, closing.last, ctx) then [AnswerOf(hi)] else [])
    ensures lines == ClosingLines(events, ctx, hi)
  {
  }

  /** The events from `lo` to `hi` are inside one attempt, closed at a gate or not. */
  ghost predicate Inside(events: seq<Event>, ctx: Context, lo: nat, hi: nat, gated: bool) {
    && lo <= hi <= |events|
    && forall i :: lo <= i < hi ==> !IsAttempt(events, i) && InClosedGate(events, ctx, i) == gated
  }

  /** An event past its attempt's opener adds its own line at most. */
  lemma {:induction false} LinesStep(events: seq<Event>, ctx: Context, lo: nat, hi: nat, gated: bool, i: nat)
    requires Inside(events, ctx, lo, hi, gated) && lo <= i < hi
    ensures !events[i].kind.Attempt? && InClosedGate(events, ctx, i) == gated
    ensures gated && GateKind(events[i].kind) ==> Hidden(events, ctx, i)
    ensures LinesUpTo(events, ctx, i + 1) == LinesUpTo(events, ctx, i) + if Hidden(events, ctx, i) then [] else [Own(i)]
  {
    assert !IsAttempt(events, i) && !Boundary(events, i);
  }

  /** The state holds the rows of the log before event `k`. */
  ghost predicate PlacedTo(state: FoldState, events: seq<Event>, ctx: Context, k: nat)
    reads state, state.rows
  {
    state.events == events && state.ctx == ctx && state.Valid() && state.Reached(k)
  }

  /** Places an event unless its attempt's close lines replace it. */
  method PlaceInside(state: FoldState, index: nat, dropsGate: bool, events: seq<Event>, ctx: Context, ghost lo: nat, ghost hi: nat)
    requires Inside(events, ctx, lo, hi, dropsGate) && lo <= index < hi
    requires PlacedTo(state, events, ctx, index)
    modifies state
    ensures PlacedTo(state, events, ctx, index + 1) && fresh(state.made - old(state.made))
  {
    LanesStep(state.lanes, events, index);
    LinesStep(events, ctx, lo, hi, dropsGate, index);
    if !(dropsGate && GateKind(events[index].kind)) {
      PlaceEvent(state, events, index, ctx);
    }
  }

  /** Places every event of a segment that its close lines do not replace. */
  method PlaceSegment(state: FoldState, indices: seq<nat>, dropsGate: bool, events: seq<Event>, ctx: Context, ghost lo: nat, ghost hi: nat)
    requires Inside(events, ctx, lo, hi, dropsGate) && |indices| == hi - lo && forall p :: 0 <= p < |indices| ==> indices[p] == lo + p
    requires PlacedTo(state, events, ctx, lo)
    modifies state
    ensures PlacedTo(state, events, ctx, hi) && fresh(state.made - old(state.made))
  {
    for p := 0 to |indices|
      invariant PlacedTo(state, events, ctx, lo + p) && fresh(state.made - old(state.made))
    {
      PlaceInside(state, indices[p], dropsGate, events, ctx, lo, hi);
    }
  }

  /** Pushes the `attempt` event that opens a segment. */
  method PushOpener(state: FoldState, segment: Segment, events: seq<Event>, ctx: Context, ghost lo: nat)
    requires state.events == events && state.ctx == ctx
    requires lo < |events| && IsAttempt(events, lo) && segment == SegmentAt(events, |ctx.attempts|, lo)
    requires state.Valid() && state.Turned(lo)
    modifies state
    ensures state.Valid() && state.Reached(lo + 1) && fresh(state.made - old(state.made))
  {
    LanesStep(state.lanes, events, lo);
    LinesPastOpener(events, ctx, lo);
    state.PushPlain(AttemptOpenRow(events, segment, ctx), Own(lo));
  }

  lemma {:induction false} LinesPastOpener(events: seq<Event>, ctx: Context, lo: nat)
    requires lo < |events| && IsAttempt(events, lo)
    ensures LinesUpTo(events, ctx, lo + 1) ==
            LinesUpTo(events, ctx, lo) + (if Boundary(events, lo) then ClosingLines(events, ctx, lo) else []) + [Own(lo)]
  {
    var lines, closing := LinesUpTo(events, ctx, lo), if Boundary(events, lo) then ClosingLines(events, ctx, lo) else [];
    assert lines + (closing + [Own(lo)]) == lines + closing + [Own(lo)];
  }

  /** Closes the attempt ending at `hi`, when it closes. */
  method PushClosing(state: FoldState, closes: bool, closing: Closing, latestAnswered: Option<int>, events: seq<Event>, ctx: Context, ghost hi: nat)
    requires state.events == events && state.ctx == ctx
    requires Boundary(events, hi) && closes == ClosedNumber(events, ctx, hi).Some?
    requires closes ==> closing == ClosingAt(events, ctx, hi)
    requires latestAnswered == LatestAnswered(events, ctx, |events|)
    requires state.Valid() && state.Reached(hi)
    modifies state
    ensures state.Valid() && state.Turned(hi) && fresh(state.made - old(state.made))
  {
    assert state.lines == LinesUpTo(events, ctx, hi);
    if closes {
      var rows := CloseRows(events, closing, ctx, latestAnswered, hi);
      ClosingLinesAreComposed(events, ctx, hi);
      state.PushAll(rows, ClosingLines(events, ctx, hi));
    }
  }

  lemma {:induction false} ClosingLinesAreComposed(events: seq<Event>, ctx: Context, hi: nat)
    requires Boundary(events, hi)
    ensures forall p :: 0 <= p < |ClosingLines(events, ctx, hi)| ==> !ClosingLines(events, ctx, hi)[p].Own?
  {
  }

  /** The events after `lo` up to the next `attempt` event are inside one attempt. */
  lemma {:induction false} SpanInside(events: seq<Event>, ctx: Context, lo: nat, i: nat)
    requires lo < |events| && lo <= i < NextAttempt(events, lo + 1) && (lo < i || !IsAttempt(events, i))
    ensures !IsAttempt(events, i) && NextAttempt(events, i + 1) == NextAttempt(events, lo + 1)
  {
    NextAttemptSkips(events, lo + 1);
    SameAttempt(events, |ctx.attempts|, lo, i);
  }

  lemma {:induction false} SegmentInside(events: seq<Event>, ctx: Context, lo: nat, hi: nat, gated: bool)
    requires lo < |events| && hi == NextAttempt(events, lo + 1) && Boundary(events, hi)
    requires gated == (ClosedNumber(events, ctx, hi).Some? && OutcomeIsGate(ctx, ClosedNumber(events, ctx, hi).value))
    ensures Inside(events, ctx, if IsAttempt(events, lo) then lo + 1 else lo, hi, gated)
  {
    var first := if IsAttempt(events, lo) then lo + 1 else lo;
    forall i | first <= i < hi
      ensures !IsAttempt(events, i) && InClosedGate(events, ctx, i) == gated
    {
      SpanInside(events, ctx, lo, i);
    }
  }

  lemma {:induction false} ReachedAtFront(state: FoldState)
    requires state.Turned(0)
    ensures state.Reached(0)
  {
  }

  /** Pushes an attempt's opener and places the events after it. */
  method PlaceOpened(state: FoldState, segment: Segment, dropsGate: bool, events: seq<Event>, ctx: Context, ghost lo: nat, ghost hi: nat)
    requires state.events == events && state.ctx == ctx
    requires lo < |events| && IsAttempt(events, lo) && segment == SegmentAt(events, |ctx.attempts|, lo)
    requires hi == NextAttempt(events, lo + 1) && Inside(events, ctx, lo + 1, hi, dropsGate)
    requires state.Valid() && state.Turned(lo)
    modifies state
    ensures state.Valid() && state.Reached(hi) && fresh(state.made - old(state.made))
  {
    PushOpener(state, segment, events, ctx, lo);
    PlaceSegment(state, segment.indices, dropsGate, events, ctx, lo + 1, hi);
  }

  /** Places the events before the first attempt named. */
  method PlaceLeading(state: FoldState, segment: Segment, dropsGate: bool, events: seq<Event>, ctx: Context, ghost hi: nat)
    requires state.events == events && state.ctx == ctx
    requires events != [] && !IsAttempt(events, 0) && segment == SegmentAt(events, |ctx.attempts|, 0)
    requires hi == NextAttempt(events, 1) && Inside(events, ctx, 0, hi, dropsGate)
    requires state.Valid() && state.Turned(0)
    modifies state
    ensures state.Valid() && state.Reached(hi) && fresh(state.made - old(state.made))
  {
    ReachedAtFront(state);
    PlaceSegment(state, segment.indices, dropsGate, events, ctx, 0, hi);
  }

  /** Folds one segment: its opener, the events it holds and its close lines. */
  method FoldSegment(state: FoldState, segment: Segment, closes: bool, closing: Closing, latestAnswered: Option<int>,
                     events: seq<Event>, ctx: Context, ghost lo: nat, ghost hi: nat)
    requires state.events == events && state.ctx == ctx
    requires lo < |events| && (lo == 0 || IsAttempt(events, lo)) && hi == NextAttempt(events, lo + 1) && Boundary(events, hi)
    requires segment == SegmentAt(events, |ctx.attempts|, lo)
    requires closes == ClosedNumber(events, ctx, hi).Some?
    requires closes ==> closing == ClosingAt(events, ctx, hi)
    requires latestAnswered == LatestAnswered(events, ctx, |events|)
    requires state.Valid() && state.Turned(lo)
    modifies state
    ensures state.Valid() && state.Turned(hi) && fresh(state.made - old(state.made))
  {
    var dropsGate := closes && OutcomeIsGate(ctx, closing.number);
    SegmentInside(events, ctx, lo, hi, dropsGate);
    if segment.opener.Some? {
      PlaceOpened(state, segment, dropsGate, events, ctx, lo, hi);
    } else {
      PlaceLeading(state, segment, dropsGate, events, ctx, hi);
    }
    PushClosing(state, closes, closing, latestAnswered, events, ctx, hi);
  }

  /** What the fold is given for the segment at position `p`: the attempt it is, whether it closes and how. */
  lemma {:induction false} SegmentGiven(events: seq<Event>, ctx: Context, segments: seq<Segment>, closings: map<nat, Closing>, p: nat)
    requires AreSegments(events, |ctx.attempts|, segments) && AreClosings(events, ctx, closings) && p < |segments|
    ensures var lo, hi := StartAt(events, p), StartAt(events, p + 1);
            && lo < |events| && (lo == 0 || IsAttempt(events, lo)) && hi == NextAttempt(events, lo + 1) && Boundary(events, hi)
            && segments[p] == SegmentAt(events, |ctx.attempts|, lo)
            && (p in closings <==> ClosedNumber(events, ctx, hi).Some?)
            && (p in closings ==> closings[p] == ClosingAt(events, ctx, hi))
  {
    var lo, hi := StartAt(events, p), StartAt(events, p + 1);
    SpanGiven(events, |ctx.attempts|, p);
    assert IsClosing(events, ctx, closings, lo, p);
    if p in closings {
      ClosingGiven(events, ctx, closings[p], lo, hi);
    }
  }

  lemma {:induction false} SpanGiven(events: seq<Event>, logged: nat, p: nat)
    requires p < |Starts(events, |events|)|
    ensures var lo, hi := StartAt(events, p), StartAt(events, p + 1);
            && lo == Starts(events, |events|)[p] && lo < |events| && (lo == 0 || IsAttempt(events, lo))
            && hi == NextAttempt(events, lo + 1) && Boundary(events, hi) && StartOf(events, hi - 1) == lo
  {
    SegmentSpan(events, logged, p);
  }

  lemma {:induction false} ClosingGiven(events: seq<Event>, ctx: Context, closing: Closing, lo: nat, hi: nat)
    requires lo < |events| && Boundary(events, hi) && ClosedNumber(events, ctx, hi).Some? && StartOf(events, hi - 1) == lo
    requires closing == Closing(SegmentAt(events, |ctx.attempts|, lo), ClosedNumber(events, ctx, hi).value, hi == |events|)
    ensures closing == ClosingAt(events, ctx, hi)
  {
  }

  /** The running maximum of the attempt numbers over one more segment. */
  lemma {:induction false} CountOverSegment(events: seq<Event>, logged: nat, lo: nat, count: int)
    requires lo < |events| && IsAttemptCount(events, logged, lo, count)
    ensures IsAttemptCount(events, logged, NextAttempt(events, lo + 1), Max(count, NumberAt(events, logged, lo).GetOr(0)))
  {
    var hi := NextAttempt(events, lo + 1);
    NextAttemptSkips(events, lo + 1);
    forall i | lo <= i < hi
      ensures NumberAt(events, logged, i) == NumberAt(events, logged, lo)
    {
      SameAttempt(events, logged, lo, i);
    }
  }

  /** Marks the final answer in place; every other row keeps what it says. */
  method MarkFinal(state: FoldState, final: LogRow?)
    requires state.Valid() && final == (if state.ctx.ended then state.lastAnswer else null)
    modifies state.made
    ensures |state.rows| == |state.lines|
    ensures forall p :: 0 <= p < |state.rows| ==>
              && Fits(state.events, state.ctx, state.lines[p])
              && state.rows[p].Value() == FoldedRow(state.events, state.ctx, state.lines, p)
    ensures final != null ==>
              && LastAnswer(state.events, state.lines) >= 0
              && final.key == KeyOf(state.events, state.ctx, state.lines[LastAnswer(state.events, state.lines)])
    ensures final == null ==> !state.ctx.ended || LastAnswer(state.events, state.lines) < 0
  {
    ghost var last := LastAnswer(state.events, state.lines);
    forall p | 0 <= p < |state.lines|
      ensures Fits(state.events, state.ctx, state.lines[p])
      ensures state.values[p] == RowOfLine(state.events, state.ctx, state.lines[p])
      ensures state.values[p].key == KeyOf(state.events, state.ctx, state.lines[p])
    {
    }
    if final != null {
      assert final == state.rows[last];
      final.final, final.body := true, Some(AnswerBody);
    }
  }

  /** Where the segment at position `p` starts, the log's end past the last one. */
  ghost function StartAt(events: seq<Event>, p: nat): nat {
    var starts := Starts(events, |events|);
    if p < |starts| then starts[p] else |events|
  }

  /** The segments before position `p` are folded and their attempts counted. */
  ghost predicate FoldedTo(state: FoldState, events: seq<Event>, ctx: Context, p: nat, count: int)
    reads state, state.rows
  {
    && state.events == events && state.ctx == ctx
    && state.Valid() && state.Turned(StartAt(events, p))
    && StartAt(events, p) <= |events| && IsAttemptCount(events, |ctx.attempts|, StartAt(events, p), count)
  }

  /** Folds the segment at position `p` with its closing, and counts its attempt. */
  method FoldAt(state: FoldState, segments: seq<Segment>, closings: map<nat, Closing>, latestAnswered: Option<int>, p: nat,
                count: int, events: seq<Event>, ctx: Context)
    returns (attemptCount: int)
    requires AreSegments(events, |ctx.attempts|, segments) && AreClosings(events, ctx, closings) && p < |segments|
    requires latestAnswered == LatestAnswered(events, ctx, |events|)
    requires FoldedTo(state, events, ctx, p, count)
    modifies state
    ensures FoldedTo(state, events, ctx, p + 1, attemptCount) && fresh(state.made - old(state.made))
  {
    ghost var lo, hi := StartAt(events, p), StartAt(events, p + 1);
    SegmentGiven(events, ctx, segments, closings, p);
    CountOverSegment(events, |ctx.attempts|, lo, count);
    var segment := segments[p];
    attemptCount := Max(count, segment.number.GetOr(0));
    var closing := if p in closings then closings[p] else Closing(segment, 0, false);
    FoldSegment(state, segment, p in closings, closing, latestAnswered, events, ctx, lo, hi);
  }

  /** The rows say what the folded log shows. */
  ghost predicate Folds(events: seq<Event>, ctx: Context, rows: seq<LogRow>)
    reads rows
  {
    var lines := StreamLines(events, ctx);
    && |rows| == |lines|
    && forall p :: 0 <= p < |rows| ==> Fits(events, ctx, lines[p]) && rows[p].Value() == FoldedRow(events, ctx, lines, p)
  }

  lemma {:induction false} TurnedAtEnd(state: FoldState)
    requires state.Turned(|state.events|)
    ensures state.lines == StreamLines(state.events, state.ctx)
  {
    assert state.lines == LinesUpTo(state.events, state.ctx, |state.events|)
                          + if Boundary(state.events, |state.events|) then ClosingLines(state.events, state.ctx, |state.events|) else [];
  }

  /** Folds every segment into a fresh state. */
  method FoldSegments(segments: seq<Segment>, closings: map<nat, Closing>, latestAnswered: Option<int>, events: seq<Event>, ctx: Context)
    returns (state: FoldState, attemptCount: int)
    requires AreSegments(events, |ctx.attempts|, segments) && AreClosings(events, ctx, closings)
    requires latestAnswered == LatestAnswered(events, ctx, |events|)
    ensures fresh(state) && fresh(state.made) && state.events == events && state.ctx == ctx
    ensures state.Valid() && state.Turned(|events|)
    ensures IsAttemptCount(events, |ctx.attempts|, |events|, attemptCount)
  {
    state := new FoldState(events, ctx);
    attemptCount := 0;
    StartsInOrder(events, |events|);
    for p := 0 to |segments|
      invariant fresh(state) && fresh(state.made)
      invariant FoldedTo(state, events, ctx, p, attemptCount)
    {
      attemptCount := FoldAt(state, segments, closings, latestAnswered, p, attemptCount, events, ctx);
    }
  }

  /** The row at each position of a finished state is what the folded log shows there. */
  lemma {:induction false} FinishedFolds(state: FoldState)
    requires state.Turned(|state.events|) && |state.rows| == |state.lines|
    requires forall p :: 0 <= p < |state.rows| ==>
               && Fits(state.events, state.ctx, state.lines[p])
               && state.rows[p].Value() == FoldedRow(state.events, state.ctx, state.lines, p)
    ensures Folds(state.events, state.ctx, state.rows)
  {
    TurnedAtEnd(state);
  }

  /** Marks the final answer of a finished state and names it. */
  method Finish(state: FoldState, ended: bool) returns (finalKey: Option<Key>)
    requires state.Valid() && state.Turned(|state.events|) && ended == state.ctx.ended
    modifies state.made
    ensures Folds(state.events, state.ctx, state.rows)
    ensures finalKey == FinalKey(state.events, state.ctx, state.lines)
  {
    ghost var last := LastAnswer(state.events, state.lines);
    LastAnswerIsLast(state.events, state.lines);
    var final := if ended then state.lastAnswer else null;
    MarkFinal(state, final);
    FinishedFolds(state);
    finalKey := if final == null then None else Some(final.key);
  }

  /** Folds every attempt's narration into one chronological list of rows, with the attempt, gate and answer lines composed. */
  method FoldStream(events: seq<Event>, ctx: Context)
    returns (rows: seq<LogRow>, attemptCount: int, lastEventKey: Option<Key>, finalKey: Option<Key>)
    ensures Folds(events, ctx, rows)
    ensures IsAttemptCount(events, |ctx.attempts|, |events|, attemptCount)
    ensures lastEventKey == LastEventKey(events, StreamLines(events, ctx))
    ensures finalKey == FinalKey(events, ctx, StreamLines(events, ctx))
  {
    var segments := SegmentsOf(events, |ctx.attempts|);
    var closings := ClosingsOf(segments, ctx);
    ClosingsMatch(events, ctx, segments, closings);
    var latestAnswered := LatestAnsweredGate(events, |segments|, closings, ctx);
    var state;
    state, attemptCount := FoldSegments(segments, closings, latestAnswered, events, ctx);
    TurnedAtEnd(state);
    lastEventKey := state.lastEventKey;
    finalKey := Finish(state, ctx.ended);
    rows := state.rows;
  }
}
