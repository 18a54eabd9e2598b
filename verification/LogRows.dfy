// The live log of one job: narration events, the rows they become and the pure row builders
// (studio/src/lib/log-tree.ts).
module LogRows {
  import opened Wrappers
  import Strings

  /** The kinds the fold tells apart; any other wire kind is `Other`. */
  datatype Kind =
    | Attempt | Phase | ResultEnd
    | LaneOpen | LaneClose | LaneOrphan
    | Tool | ToolError | Text | Report
    | Gate | Notice
    | GateQuestion | AttemptEnd | Operator
    | Other(name: string)

  /** A narration event as the wire carries it. Instants (`at`) are milliseconds, None when missing or no date. */
  datatype Event = Event(
    kind: Kind, glyph: string, clock: string, text: string, dim: string, indent: bool,
    agent: Option<string>, phase: Option<int>, model: Option<string>, laneId: Option<string>,
    body: Option<string>, at: Option<int>, artifact: Option<string>, title: Option<string>)

  datatype Outcome = EndedDone | EndedAtGate | EndedOtherwise(name: string)

  /** One attempt of the job's history; `finished` is whether it carries a finish instant. */
  datatype AttemptRow = AttemptRow(
    startedAt: Option<int>, finished: bool, outcome: Option<Outcome>,
    durationS: Option<int>, tokens: Option<int>, costUsd: Option<real>)

  datatype JobStatus = Pending | AtGate | OtherStatus(name: string)

  datatype Context = Context(
    ended: bool, attempts: seq<AttemptRow>, status: JobStatus,
    notice: Option<string>, operatorNote: Option<string>, phaseNames: map<int, string>)

  /** The text of a line, kept as the values its template is filled with. */
  datatype LineText =
    | Narrated(text: string)
    | AttemptLine(attempt: string, startedSecond: Option<int>, resumedAtPhase: Option<int>)
    | PhaseLine(number: int, name: string, model: Option<string>)
    | ReportLine(artifact: string, title: Option<string>)
    | GateLine(head: string)
    | EndLine(attemptNumber: int, status: Option<JobStatus>)
    | SummaryLine(endedAttempt: int, outcome: Outcome, durationS: Option<int>, tokens: Option<int>, costUsd: Option<real>)
    | AnswerLine(said: string)
    | AnswerNotKeptLine

  /** An event as a row shows it: the event itself with its glyph and text replaced. */
  datatype Shown = Shown(source: Event, glyph: string, text: LineText)

  datatype BodyKind = AnswerBody | HandBackBody | ReportBody | ToolErrorBody | GateBody

  /** The React key of a row or lane block. */
  datatype Key =
    | EventKey(index: nat)
    | GateKey(number: int)
    | EndKey(number: int)
    | AnswerKey(number: int)
    | LaneKey(laneId: string)

  datatype Row = Row(key: Key, event: Shown, lane: bool, body: Option<BodyKind>, final: bool, dim: bool)

  datatype Segment = Segment(number: Option<int>, opener: Option<nat>, indices: seq<nat>)

  datatype Closing = Closing(segment: Segment, number: int, last: bool)

  function KeyText(key: Key): string {
    match key
    case EventKey(index) => "e" + Strings.IntText(index)
    case GateKey(number) => "a" + Strings.IntText(number) + "-gate"
    case EndKey(number) => "a" + Strings.IntText(number) + "-end"
    case AnswerKey(number) => "a" + Strings.IntText(number) + "-answer"
    case LaneKey(laneId) => "lane-" + laneId
  }

  /** The number inside a composed key's text is found again by cutting its fixed ends off. */
  lemma {:induction false} ComposedKeyText(number: int, suffix: string)
    ensures var t := "a" + Strings.IntText(number) + suffix;
            t[1..|t| - |suffix|] == Strings.IntText(number) && t[|t| - |suffix|..] == suffix
  {
  }

  /** The key strings the view compares are as distinct as the keys they render. */
  lemma {:induction false} KeyTextInjective(a: Key, b: Key)
    requires KeyText(a) == KeyText(b)
    ensures a == b
  {
    assert KeyText(a)[0] == KeyText(b)[0];
    match a
    case EventKey(i) =>
      assert KeyText(a)[1..] == Strings.IntText(i) && KeyText(b)[1..] == Strings.IntText(b.index);
      Strings.IntTextInjective(i, b.index);
    case LaneKey(id) =>
      assert KeyText(a)[5..] == id && KeyText(b)[5..] == b.laneId;
    case _ =>
      var last := KeyText(a)[|KeyText(a)| - 1];
      assert last == KeyText(b)[|KeyText(b)| - 1];
      ComposedKeyText(a.number, if a.GateKey? then "-gate" else if a.EndKey? then "-end" else "-answer");
      ComposedKeyText(b.number, if b.GateKey? then "-gate" else if b.EndKey? then "-end" else "-answer");
      Strings.IntTextInjective(a.number, b.number);
  }

  // ---- reading events ----

  predicate Truthy(s: Option<string>) {
    s.Some? && s.value != ""
  }

  const ATTEMPT_LEAD := "attempt "

  /** The number the run of digits at the front of `text` writes, None when there is no digit. */
  function LeadingNumber(text: string): Option<int> {
    var run := Strings.DigitRun(text);
    if run == 0 then None else Some(Strings.DecimalValue(text[..run]))
  }

  /** The number right after `lead` at the front of `text`, None when `text` does not open so. */
  function NumberAfter(text: string, lead: string): Option<int> {
    if lead == "" then LeadingNumber(text)
    else if text != "" && text[0] == lead[0] then NumberAfter(text[1..], lead[1..])
    else None
  }

  /** The number an `attempt` event's text names, None when it names none. */
  function AttemptNumberOf(text: string): Option<int> {
    NumberAfter(text, ATTEMPT_LEAD)
  }

  lemma {:induction false} NumberAfterLead(lead: string, rest: string)
    ensures NumberAfter(lead + rest, lead) == LeadingNumber(rest)
  {
    if lead == "" {
      assert lead + rest == rest;
    } else {
      NumberAfterLead(lead[1..], rest);
      assert (lead + rest)[1..] == lead[1..] + rest;
    }
  }

  /** Reading the number back from a line that names it gives the number. */
  lemma {:induction false} AttemptNumberReadsBack(n: nat, tail: string)
    requires tail != [] ==> !Strings.IsDigit(tail[0])
    ensures AttemptNumberOf(ATTEMPT_LEAD + Strings.IntText(n) + tail) == Some(n)
  {
    var digits := Strings.Numeral(n);
    var rest := digits + tail;
    assert ATTEMPT_LEAD + Strings.IntText(n) + tail == ATTEMPT_LEAD + rest;
    NumberAfterLead(ATTEMPT_LEAD, rest);
    var run := Strings.DigitRun(rest);
    assert forall i :: 0 <= i < |digits| ==> rest[i] in digits;
    assert tail != [] ==> rest[|digits|] == tail[0];
    assert run == |digits|;
    assert rest[..run] == digits;
  }

  /** Every index points at an event. */
  predicate Within(events: seq<Event>, indices: seq<nat>) {
    forall p :: 0 <= p < |indices| ==> indices[p] < |events|
  }

  /** The first of `indices` whose event is a phase past the brief, and that phase. */
  function FirstWorkPhase(events: seq<Event>, indices: seq<nat>): Option<int>
    requires Within(events, indices)
  {
    if indices == [] then None
    else
      var event := events[indices[0]];
      if event.kind.Phase? && event.phase.Some? && event.phase.value >= 1 then event.phase
      else FirstWorkPhase(events, indices[1..])
  }

  function FirstPhaseAt(events: seq<Event>, indices: seq<nat>): Option<int>
    requires Within(events, indices)
  {
    if indices == [] then None
    else if events[indices[0]].kind.Phase? then events[indices[0]].at
    else FirstPhaseAt(events, indices[1..])
  }

  /** The whole seconds of an instant, as an ISO text at second precision keeps them. */
  function SecondOf(at: Option<int>): Option<int> {
    if at.Some? then Some(at.value / 1000) else None
  }

  /** The history row of an attempt number, None when the history has no such row. */
  function RowOf(ctx: Context, number: int): Option<AttemptRow> {
    if 1 <= number <= |ctx.attempts| then Some(ctx.attempts[number - 1]) else None
  }

  predicate OutcomeIsGate(ctx: Context, number: int) {
    var row := RowOf(ctx, number);
    row.Some? && row.value.outcome == Some(EndedAtGate)
  }

  predicate Finished(ctx: Context, number: int) {
    var row := RowOf(ctx, number);
    row.Some? && row.value.finished
  }

  // ---- row builders ----

  function ComposedEvent(kind: Kind, glyph: string, clock: string, dim: string, body: Option<string>): Event {
    Event(kind, glyph, clock, "", dim, false, None, None, None, None, body, None, None, None)
  }

  function AttemptOpenRow(events: seq<Event>, segment: Segment, ctx: Context): Row
    requires segment.opener.Some? && segment.opener.value < |events|
    requires Within(events, segment.indices)
  {
    var event := events[segment.opener.value];
    var number := segment.number;
    var row := if number.Some? then RowOf(ctx, number.value) else None;
    var recorded := if row.Some? then SecondOf(row.value.startedAt) else None;
    var started := if recorded.Some? then recorded else SecondOf(FirstPhaseAt(events, segment.indices));
    var resumedAt := FirstWorkPhase(events, segment.indices);
    var resumed := number.Some? && number.value > 1 && resumedAt.Some? && resumedAt.value > 1;
    Row(EventKey(segment.opener.value),
        Shown(event, event.glyph, AttemptLine(event.text, started, if resumed then resumedAt else None)),
        false, None, false, false)
  }

  /** A phase event has a line unless it is phase 0 just after an attempt event or a phase event follows at once. */
  predicate PhaseShown(events: seq<Event>, index: nat)
    requires index < |events|
  {
    && !(events[index].phase == Some(0) && index > 0 && events[index - 1].kind.Attempt?)
    && !(index + 1 < |events| && events[index + 1].kind.Phase?)
  }

  const PHASE_NAMES: map<int, string> := map[
    0 := "brief", 1 := "triager", 2 := "explore", 3 := "architect", 4 := "coder",
    5 := "qa-guardian", 6 := "verifier", 7 := "runtime", 8 := "commit · PR"]

  function PhaseRow(event: Event, key: Key, ctx: Context): Row {
    var number := event.phase.GetOr(0);
    var name :=
      if number in ctx.phaseNames then ctx.phaseNames[number]
      else if number in PHASE_NAMES then PHASE_NAMES[number]
      else event.agent.GetOr("phase");
    Row(key, Shown(event, "─", PhaseLine(number, name, if Truthy(event.model) then event.model else None)), false, None, false, false)
  }

  function BodyKindOf(event: Event): Option<BodyKind> {
    if event.kind.Report? then Some(ReportBody)
    else if !Truthy(event.body) then None
    else if event.kind.Text? && Strings.Trim(event.body.value) != Strings.Trim(event.text) then Some(AnswerBody)
    else if event.kind.LaneClose? then Some(HandBackBody)
    else if event.kind.ToolError? then Some(ToolErrorBody)
    else None
  }

  function EventRow(event: Event, key: Key): Row {
    var shown :=
      if event.kind.Report?
      then Shown(event, "▣", ReportLine(event.artifact.GetOr("report"), if Truthy(event.title) then event.title else None))
      else Shown(event, event.glyph, Narrated(event.text));
    Row(key, shown, event.indent, BodyKindOf(event), false, false)
  }

  const NOTICE_INDENT := "    "

  function WithoutIndent(line: string): string {
    if Strings.StartsWith(line, NOTICE_INDENT) then line[|NOTICE_INDENT|..] else line
  }

  function WithoutIndents(lines: seq<string>): seq<string> {
    if lines == [] then [] else [WithoutIndent(lines[0])] + WithoutIndents(lines[1..])
  }

  /** The last of `indices` whose event is a notice. */
  function LastNotice(events: seq<Event>, indices: seq<nat>): (index: Option<nat>)
    requires Within(events, indices)
    ensures index.Some? ==> index.value < |events| && events[index.value].kind.Notice?
  {
    if indices == [] then None
    else if events[indices[|indices| - 1]].kind.Notice? then Some(indices[|indices| - 1])
    else LastNotice(events, indices[..|indices| - 1])
  }

  /** The last notice of a segment without its first line and the indents of the others, empty when it has none. */
  function NoticeQuestion(events: seq<Event>, segment: Segment): string
    requires Within(events, segment.indices)
  {
    var index := LastNotice(events, segment.indices);
    if index.None? then ""
    else
      var lines := Strings.Split(events[index.value].text, '\n')[1..];
      Strings.Trim(Strings.Join(WithoutIndents(lines), "\n"))
  }

  function FirstNonBlank(lines: seq<string>): string {
    if lines == [] then ""
    else if Strings.Trim(lines[0]) != "" then lines[0]
    else FirstNonBlank(lines[1..])
  }

  /** The trimmed text of the first line that is not blank, without the `#` run it may open with. */
  function FirstLineOf(text: string): string {
    var line := FirstNonBlank(Strings.Split(text, '\n'));
    var rest := Strings.TrimStart(line);
    var hashes := Strings.HashRun(rest);
    var marked := 1 <= hashes <= 6 && hashes < |rest| && Strings.IsSpace(rest[hashes]);
    Strings.Trim(if marked then rest[hashes..] else line)
  }

  function GateRow(number: int, question: string): Row {
    var event := ComposedEvent(GateQuestion, "⏸", "", "", if question == "" then None else Some(question));
    Row(GateKey(number), Shown(event, "⏸", GateLine(FirstLineOf(question))), false,
        if question == "" then None else Some(GateBody), false, false)
  }

  function AttemptEndText(number: int, row: Option<AttemptRow>, lastStatus: Option<JobStatus>): LineText {
    if row.None? || row.value.outcome.None? then EndLine(number, lastStatus)
    else SummaryLine(number, row.value.outcome.value, row.value.durationS, row.value.tokens, row.value.costUsd)
  }

  const NOT_KEPT := " (answer not kept)"

  /** The line of an answered gate: with the note, or dimmed when the note is no longer kept. */
  function OperatorRow(number: int, note: Option<string>): Row {
    if note.None? then
      Row(AnswerKey(number), Shown(ComposedEvent(Operator, "✎", "—", NOT_KEPT, None), "✎", AnswerNotKeptLine), false, None, false, true)
    else
      var text := Strings.Trim(note.value);
      var multiLine := '\n' in text;
      var event := ComposedEvent(Operator, "✎", "—", "", if multiLine then Some(text) else None);
      Row(AnswerKey(number), Shown(event, "✎", AnswerLine(if multiLine then FirstLineOf(text) else text)), false,
          if multiLine then Some(AnswerBody) else None, false, false)
  }

  /** Whether a closed attempt stopped at a gate the operator then answered. */
  predicate GateAnswered(number: int, last: bool, ctx: Context) {
    OutcomeIsGate(ctx, number) && (!last || ctx.status.Pending?)
  }

  /** The question a closed attempt's gate line shows: the job's own notice while it waits there, else the narrated one. */
  function GateQuestionText(events: seq<Event>, closing: Closing, ctx: Context): string
    requires Within(events, closing.segment.indices)
  {
    var kept := if closing.last && ctx.status.AtGate? then Strings.Trim(ctx.notice.GetOr("")) else "";
    if kept != "" then kept else NoticeQuestion(events, closing.segment)
  }

  function EndRow(closing: Closing, ctx: Context): Row {
    Row(EndKey(closing.number),
        Shown(ComposedEvent(AttemptEnd, "═", "", "", None), "═",
              AttemptEndText(closing.number, RowOf(ctx, closing.number), if closing.last then Some(ctx.status) else None)),
        false, None, false, false)
  }

  /** The operator's answer of a gate: only the latest one still has its note. */
  function AnswerRow(number: int, ctx: Context, latestAnswered: Option<int>): Row {
    OperatorRow(number, if Some(number) == latestAnswered then Some(ctx.operatorNote.GetOr("")) else None)
  }
}
