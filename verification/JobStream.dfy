// What the job screen keeps of one job's stream (studio/src/lib/events.ts:60-133).
module JobStream {
  import opened Wrappers
  import opened LogRows

  /** The end of a stretch of the stream; `final` when the server will send no more. */
  datatype End = End(status: Option<string>, reason: Option<string>, final: bool)

  datatype State = State(
    meta: Option<string>, events: seq<Event>, timeline: Option<string>, files: seq<string>,
    ended: Option<End>, error: Option<string>)

  datatype Action =
    | Reset
    | Meta(meta: string)
    | Narration(events: seq<Event>)
    | Timeline(timeline: string)
    | Files(files: seq<string>)
    | Ended(ended: End)
    | Resume
    | Error(message: string)

  const EMPTY := State(None, [], None, [], None, None)

  function Reduced(state: State, action: Action): State {
    match action
    case Reset => EMPTY
    case Meta(meta) => EMPTY.(meta := Some(meta))
    case Narration(events) => state.(events := state.events + events)
    case Timeline(timeline) => state.(timeline := Some(timeline))
    case Files(files) => state.(files := files)
    case Ended(ended) => state.(ended := Some(ended))
    case Resume => state.(ended := None, error := None)
    case Error(message) => state.(error := Some(message))
  }

  function After(state: State, actions: seq<Action>): State {
    if actions == [] then state else Reduced(After(state, actions[..|actions| - 1]), actions[|actions| - 1])
  }

  // ---- what a state says of the actions behind it ----

  datatype Field = TheMeta | TheTimeline | TheFiles | TheEnd | TheError

  predicate Restarts(action: Action) {
    action.Reset? || action.Meta?
  }

  /** The actions that settle a field anew. */
  predicate Settles(action: Action, field: Field) {
    || Restarts(action)
    || (match field
        case TheMeta => false
        case TheTimeline => action.Timeline?
        case TheFiles => action.Files?
        case TheEnd => action.Ended? || action.Resume?
        case TheError => action.Error? || action.Resume?)
  }

  /** The last action that settles a field. */
  function LastSettling(actions: seq<Action>, field: Field): Option<Action> {
    if actions == [] then None
    else if Settles(actions[|actions| - 1], field) then Some(actions[|actions| - 1])
    else LastSettling(actions[..|actions| - 1], field)
  }

  /** How many actions there are up to and including the last restart. */
  function LastRestart(actions: seq<Action>): (n: nat)
    ensures n <= |actions|
  {
    if actions == [] then 0
    else if Restarts(actions[|actions| - 1]) then |actions| else LastRestart(actions[..|actions| - 1])
  }

  /** The narration batches of the actions, joined. */
  function Narrated(actions: seq<Action>): seq<Event> {
    if actions == [] then []
    else
      var rest, last := Narrated(actions[..|actions| - 1]), actions[|actions| - 1];
      if last.Narration? then rest + last.events else rest
  }

  /** The events are the narration batches since the last restart, joined, however they were batched. */
  lemma {:induction false} EventsAreNarration(actions: seq<Action>)
    ensures After(EMPTY, actions).events == Narrated(actions[LastRestart(actions)..])
  {
    if actions != [] {
      var rest, last := actions[..|actions| - 1], actions[|actions| - 1];
      EventsAreNarration(rest);
      if !Restarts(last) {
        var since := actions[LastRestart(actions)..];
        assert since[..|since| - 1] == rest[LastRestart(rest)..];
      } else {
        assert actions[|actions|..] == [];
      }
    }
  }

  /** Whether a field holds what the action that last settled it carries: nothing when none did or that one clears it. */
  predicate Holds(state: State, field: Field, settling: Option<Action>) {
    match field
    case TheMeta => state.meta == if settling.Some? && settling.value.Meta? then Some(settling.value.meta) else None
    case TheTimeline => state.timeline == if settling.Some? && settling.value.Timeline? then Some(settling.value.timeline) else None
    case TheFiles => state.files == if settling.Some? && settling.value.Files? then settling.value.files else []
    case TheEnd => state.ended == if settling.Some? && settling.value.Ended? then Some(settling.value.ended) else None
    case TheError => state.error == if settling.Some? && settling.value.Error? then Some(settling.value.message) else None
  }

  lemma {:induction false} HoldsNext(state: State, field: Field, settling: Option<Action>, action: Action)
    requires Holds(state, field, settling)
    ensures Holds(Reduced(state, action), field, if Settles(action, field) then Some(action) else settling)
  {
  }

  /** Each field but the events holds what the last action that settles it carries. */
  lemma {:induction false} FieldIsLastSet(actions: seq<Action>, field: Field)
    ensures Holds(After(EMPTY, actions), field, LastSettling(actions, field))
  {
    if actions != [] {
      var rest := actions[..|actions| - 1];
      FieldIsLastSet(rest, field);
      HoldsNext(After(EMPTY, rest), field, LastSettling(rest, field), actions[|actions| - 1]);
    }
  }

  lemma {:induction false} AfterTogether(state: State, first: seq<Action>, second: seq<Action>)
    ensures After(state, first + second) == After(After(state, first), second)
    decreases |second|
  {
    if second == [] {
      assert first + second == first;
    } else {
      AfterTogether(state, first, second[..|second| - 1]);
      assert (first + second)[..|first + second| - 1] == first + second[..|second| - 1];
    }
  }

  /** A restart forgets all before it: a stream that reconnects and is told its meta again shows nothing twice. */
  lemma {:induction false} RestartForgets(before: seq<Action>, restart: Action, rest: seq<Action>)
    requires Restarts(restart)
    ensures After(EMPTY, before + [restart] + rest) == After(EMPTY, [restart] + rest)
  {
    AfterTogether(EMPTY, before + [restart], rest);
    AfterTogether(EMPTY, before, [restart]);
    AfterTogether(EMPTY, [restart], rest);
    AfterOne(After(EMPTY, before), restart);
    AfterOne(EMPTY, restart);
  }

  lemma {:induction false} AfterOne(state: State, action: Action)
    ensures After(state, [action]) == Reduced(state, action)
  {
    assert [action][..0] == [];
  }

  /** A batch sent whole or in two parts, whatever comes before and after, leaves the same state. */
  lemma {:induction false} BatchingDoesNotMatter(before: seq<Action>, first: seq<Event>, second: seq<Event>, rest: seq<Action>)
    ensures After(EMPTY, before + [Narration(first + second)] + rest) == After(EMPTY, before + [Narration(first), Narration(second)] + rest)
  {
    var whole, parts := [Narration(first + second)], [Narration(first), Narration(second)];
    AfterTogether(EMPTY, before + whole, rest);
    AfterTogether(EMPTY, before, whole);
    AfterTogether(EMPTY, before + parts, rest);
    AfterTogether(EMPTY, before, parts);
    var state := After(EMPTY, before);
    AfterOne(state, Narration(first + second));
    AfterTogether(state, [Narration(first)], [Narration(second)]);
    AfterOne(state, Narration(first));
    AfterOne(Reduced(state, Narration(first)), Narration(second));
    assert [Narration(first)] + [Narration(second)] == parts;
    assert state.events + (first + second) == state.events + first + second;
  }

  // ---- the subscription ----

  /** What the wire says of `final`: nothing, a boolean, or something else. */
  datatype Flag = Missing | Said(value: bool) | NotBoolean

  /** An event of the stream; `Unreadable` when its data is no JSON or null, `Failed` when the connection breaks. */
  datatype Message =
    | MetaSent(meta: string)
    | NarrationSent(events: seq<Event>)
    | TimelineSent(timeline: string)
    | FilesSent(files: seq<string>)
    | EndSent(status: Option<string>, reason: Option<string>, final: Flag)
    | ResumeSent
    | Unreadable
    | Failed

  function StreamEnd(status: Option<string>, reason: Option<string>, final: Flag): End {
    End(status, reason, final == Said(true))
  }

  /** The actions one event dispatches. */
  function ActionsOf(message: Message): seq<Action> {
    match message
    case MetaSent(meta) => [Meta(meta)]
    case NarrationSent(events) => [Narration(events)]
    case TimelineSent(timeline) => [Timeline(timeline)]
    case FilesSent(files) => [Files(files)]
    case EndSent(status, reason, final) => [Ended(StreamEnd(status, reason, final))]
    case ResumeSent => [Resume]
    case Unreadable => []
    case Failed => [Error("the job stream is unavailable")]
  }

  function ActionsOfAll(messages: seq<Message>): seq<Action> {
    if messages == [] then [] else ActionsOfAll(messages[..|messages| - 1]) + ActionsOf(messages[|messages| - 1])
  }

  predicate IsFinalEnd(message: Message) {
    message.EndSent? && message.final == Said(true)
  }

  predicate EndsFinally(messages: seq<Message>) {
    messages != [] && IsFinalEnd(messages[|messages| - 1])
  }

  /** The messages up to and including the first final end. */
  function Heard(messages: seq<Message>): seq<Message> {
    if messages == [] then []
    else
      var rest := Heard(messages[..|messages| - 1]);
      if EndsFinally(rest) then rest else rest + [messages[|messages| - 1]]
  }

  /** The job screen's subscription to one job: its state and whether its event source is listening. */
  class Subscription {
    var state: State
    var listening: bool
    ghost var arrived: seq<Message>

    /** The source is closed exactly once a final end is shown, and the state is that of the messages heard till then. */
    ghost predicate Valid()
      reads this
    {
      && (listening <==> !ShowsFinalEnd(state))
      && (listening <==> !EndsFinally(Heard(arrived)))
      && state == After(EMPTY, [Reset] + ActionsOfAll(Heard(arrived)))
    }

    constructor ()
      ensures Valid() && arrived == [] && state == EMPTY
    {
      state, listening, arrived := EMPTY, true, [];
      new;
      AfterOne(EMPTY, Reset);
      assert [Reset] + ActionsOfAll(Heard([])) == [Reset];
    }

    method Dispatch(action: Action)
      modifies this`state
      ensures state == Reduced(old(state), action)
    {
      state := Reduced(state, action);
    }

    /** An event arrives; a source that closed delivers it no more. */
    method Arrives(message: Message)
      requires Valid()
      modifies this
      ensures Valid() && arrived == old(arrived) + [message]
      ensures !old(listening) ==> state == old(state) && !listening
    {
      ghost var heard := Heard(arrived);
      arrived := arrived + [message];
      assert arrived[..|arrived| - 1] == old(arrived);
      if listening {
        HeardOneMore(heard, message);
        FinalEndIsShown(state, message);
        Hears(message);
      }
    }

    method Hears(message: Message)
      modifies this`state, this`listening
      ensures state == Told(old(state), message)
      ensures listening == (old(listening) && !IsFinalEnd(message))
    {
      match message
      case MetaSent(meta) => Dispatch(Meta(meta));
      case NarrationSent(events) => Dispatch(Narration(events));
      case TimelineSent(timeline) => Dispatch(Timeline(timeline));
      case FilesSent(files) => Dispatch(Files(files));
      case EndSent(status, reason, final) =>
        var ended := StreamEnd(status, reason, final);
        Dispatch(Ended(ended));
        if ended.final {
          listening := false;
        }
      case ResumeSent => Dispatch(Resume);
      case Unreadable =>
      case Failed => Dispatch(Error("the job stream is unavailable"));
    }
  }

  /** The state once one event was heard. */
  function Told(state: State, message: Message): State {
    var actions := ActionsOf(message);
    if actions == [] then state else Reduced(state, actions[0])
  }

  predicate ShowsFinalEnd(state: State) {
    state.ended.Some? && state.ended.value.final
  }

  lemma {:induction false} FinalEndIsShown(state: State, message: Message)
    requires !ShowsFinalEnd(state)
    ensures ShowsFinalEnd(Told(state, message)) <==> IsFinalEnd(message)
  {
  }

  lemma {:induction false} HeardOneMore(heard: seq<Message>, message: Message)
    ensures After(EMPTY, [Reset] + ActionsOfAll(heard + [message])) == Told(After(EMPTY, [Reset] + ActionsOfAll(heard)), message)
  {
    assert (heard + [message])[..|heard|] == heard;
    var actions, more := [Reset] + ActionsOfAll(heard), ActionsOf(message);
    AfterTogether(EMPTY, actions, more);
    assert [Reset] + (ActionsOfAll(heard) + more) == actions + more;
    if more != [] {
      assert more == [more[0]];
      AfterOne(After(EMPTY, actions), more[0]);
    }
  }
}
