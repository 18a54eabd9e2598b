// The terminal dock: its clamped width, what is saved and what subscribers see
// (studio/src/lib/dock.ts:14-106, studio/src/lib/dock-geometry.ts:1-10).
module Dock {
  import opened Wrappers

  const DEFAULT_WIDTH := 560
  const MIN_WIDTH := 320

  /** The integer nearest to a number, halves up. */
  function Rounded(x: real): int {
    (x + 0.5).Floor
  }

  /** Seven tenths of the viewport, rounded. */
  function MaxShare(viewport: nat): nat {
    (7 * viewport + 5) / 10
  }

  function Max(a: int, b: int): int {
    if a > b then a else b
  }

  function Min(a: int, b: int): int {
    if a < b then a else b
  }

  /** A dock width, None when it is not finite, bounded between the minimum and seven tenths of the viewport. */
  function ClampDockWidth(width: Option<real>, viewport: nat): int {
    var most := Min(viewport, Max(MIN_WIDTH, MaxShare(viewport)));
    Min(Max(Rounded(width.GetOr(DEFAULT_WIDTH as real)), MIN_WIDTH), most)
  }

  function Clamp(width: real, viewport: nat): int {
    ClampDockWidth(Some(width), viewport)
  }

  /** Clamping again changes nothing, and the width fits the viewport. */
  lemma {:induction false} ClampIsStable(width: Option<real>, viewport: nat)
    ensures var clamped := ClampDockWidth(width, viewport);
            && Clamp(clamped as real, viewport) == clamped
            && 0 <= clamped <= viewport && (viewport >= MIN_WIDTH ==> clamped >= MIN_WIDTH)
  {
    RoundedIsExact(ClampDockWidth(width, viewport));
  }

  lemma {:induction false} RoundedIsExact(n: int)
    ensures Rounded(n as real) == n
  {
  }

  /** A wider wish or viewport never gives a narrower dock. */
  lemma {:induction false} ClampIsMonotone(width: real, wider: real, viewport: nat, larger: nat)
    requires width <= wider && viewport <= larger
    ensures Clamp(width, viewport) <= Clamp(wider, larger)
  {
    FloorIsMonotone(width + 0.5, wider + 0.5);
  }

  lemma {:induction false} FloorIsMonotone(x: real, y: real)
    requires x <= y
    ensures x.Floor <= y.Floor
  {
  }

  // ---- the state of the page ----

  /** The chosen width, the state rendered, the subscribers, what is saved, and the size of the window. */
  datatype State = State(
    preferred: real, open: bool, activeId: Option<string>, width: int,
    listeners: set<nat>, savedWidth: Option<real>, savedOpen: Option<bool>, viewport: nat)

  datatype Event =
    | FocusTab(id: string)
    | Show
    | Hide
    | Drag(width: Option<real>)
    | SaveWidth(stored: bool)
    | WindowResizes(viewport: nat)
    | Subscribe(listener: nat)
    | Unsubscribe(listener: nat)

  /** The page as it loads: the saved width unbounded, the default when none is saved or it is no finite number. */
  function Loaded(savedWidth: Option<real>, savedOpen: Option<bool>, viewport: nat): State {
    var preferred := savedWidth.GetOr(DEFAULT_WIDTH as real);
    State(preferred, savedOpen == Some(true), None, Clamp(preferred, viewport), {}, savedWidth, savedOpen, viewport)
  }

  function Fitted(d: State): State {
    d.(width := Clamp(d.preferred, d.viewport))
  }

  function After(d: State, event: Event): State {
    match event
    case FocusTab(id) => d.(open := true, activeId := Some(id), savedOpen := Some(true))
    case Show => d.(open := true, savedOpen := Some(true))
    case Hide => d.(open := false, savedOpen := Some(false))
    case Drag(width) =>
      var chosen := ClampDockWidth(width, d.viewport);
      d.(preferred := chosen as real, width := chosen)
    case SaveWidth(stored) => if stored then d.(savedWidth := Some(d.preferred)) else d
    case WindowResizes(viewport) =>
      var resized := d.(viewport := viewport);
      if d.listeners != {} then Fitted(resized) else resized
    case Subscribe(listener) =>
      var fitted := if d.listeners == {} then Fitted(d) else d;
      fitted.(listeners := d.listeners + {listener})
    case Unsubscribe(listener) => d.(listeners := d.listeners - {listener})
  }

  /** The dock of the page. Saving the open state always succeeds here; a storage failure only loses it. */
  class DockStore {
    var preferred: real
    var open: bool
    var activeId: Option<string>
    var width: int
    var listeners: set<nat>
    var savedWidth: Option<real>
    var savedOpen: Option<bool>
    var viewport: nat

    ghost function Value(): State
      reads this
    {
      State(preferred, open, activeId, width, listeners, savedWidth, savedOpen, viewport)
    }

    /** While anyone is subscribed, the width rendered is the chosen one clamped to the window. */
    ghost predicate Valid()
      reads this
    {
      FitsWhileWatched(Value())
    }

    constructor (savedWidth: Option<real>, savedOpen: Option<bool>, viewport: nat)
      ensures Valid() && Value() == Loaded(savedWidth, savedOpen, viewport)
    {
      preferred := savedWidth.GetOr(DEFAULT_WIDTH as real);
      open := savedOpen == Some(true);
      activeId := None;
      width := ClampDockWidth(Some(savedWidth.GetOr(DEFAULT_WIDTH as real)), viewport);
      listeners := {};
      this.savedWidth, this.savedOpen, this.viewport := savedWidth, savedOpen, viewport;
    }

    /** Changes the open state, saves it, and tells every subscriber. */
    method SetOpen(opening: bool) returns (told: set<nat>)
      modifies this`open, this`savedOpen
      ensures open == opening && savedOpen == Some(opening) && told == listeners
    {
      open := opening;
      told := listeners;
      savedOpen := Some(opening);
    }

    method Focus(id: string) returns (told: set<nat>)
      requires Valid()
      modifies this
      ensures Valid() && Value() == After(old(Value()), FocusTab(id)) && told == listeners
    {
      activeId := Some(id);
      told := SetOpen(true);
    }

    method ShowDock() returns (told: set<nat>)
      requires Valid()
      modifies this
      ensures Valid() && Value() == After(old(Value()), Show) && told == listeners
    {
      told := SetOpen(true);
    }

    method HideDock() returns (told: set<nat>)
      requires Valid()
      modifies this
      ensures Valid() && Value() == After(old(Value()), Hide) && told == listeners
    {
      told := SetOpen(false);
    }

    /** Changes the width while it is dragged, without saving it. */
    method Resize(wish: Option<real>) returns (told: set<nat>)
      requires Valid()
      modifies this
      ensures Valid() && Value() == After(old(Value()), Drag(wish)) && told == listeners
    {
      var chosen := ClampDockWidth(wish, viewport);
      ClampIsStable(wish, viewport);
      preferred := chosen as real;
      width := chosen;
      told := listeners;
    }

    /** Saves the width the user chose, never a bound the window imposed. */
    method Save(stored: bool)
      requires Valid()
      modifies this`savedWidth
      ensures Valid() && Value() == After(old(Value()), SaveWidth(stored))
    {
      if stored {
        savedWidth := Some(preferred);
      }
    }

    /** Bounds the chosen width to the window again, telling subscribers only when the rendered width changes. */
    method FitToWindow() returns (told: set<nat>)
      modifies this`width
      ensures width == Clamp(preferred, viewport)
      ensures told == if old(width) != width then listeners else {}
    {
      told := {};
      var fitted := ClampDockWidth(Some(preferred), viewport);
      if fitted != width {
        width := fitted;
        told := listeners;
      }
    }

    /** The window changes size; the dock follows it only while someone is subscribed. */
    method WindowResized(size: nat) returns (told: set<nat>)
      requires Valid()
      modifies this
      ensures Valid() && Value() == After(old(Value()), WindowResizes(size))
      ensures told == if old(width) != width then listeners else {}
    {
      viewport := size;
      told := {};
      if listeners != {} {
        told := FitToWindow();
      }
    }

    /** Subscribes a view; the first one makes the dock fit the window and follow it. */
    method SubscribeView(listener: nat) returns (told: set<nat>)
      requires Valid()
      modifies this
      ensures Valid() && Value() == After(old(Value()), Subscribe(listener))
    {
      told := {};
      if listeners == {} {
        told := FitToWindow();
      }
      listeners := listeners + {listener};
    }

    method UnsubscribeView(listener: nat)
      requires Valid()
      modifies this`listeners
      ensures Valid() && Value() == After(old(Value()), Unsubscribe(listener))
    {
      listeners := listeners - {listener};
    }
  }

  // ---- runs ----

  predicate FitsWhileWatched(d: State) {
    d.listeners != {} ==> d.width == Clamp(d.preferred, d.viewport)
  }

  function Run(d: State, events: seq<Event>): State
    decreases |events|
  {
    if events == [] then d else Run(After(d, events[0]), events[1..])
  }

  lemma {:induction false} EveryEventKeepsFit(d: State, event: Event)
    requires FitsWhileWatched(d)
    ensures FitsWhileWatched(After(d, event))
  {
    if event.Drag? {
      ClampIsStable(event.width, d.viewport);
    }
  }

  lemma {:induction false} EveryRunKeepsFit(d: State, events: seq<Event>)
    requires FitsWhileWatched(d)
    ensures FitsWhileWatched(Run(d, events))
    decreases |events|
  {
    if events != [] {
      EveryEventKeepsFit(d, events[0]);
      EveryRunKeepsFit(After(d, events[0]), events[1..]);
    }
  }

  /** The widths dragged to over a run, each bounded by the window at that time. */
  function Dragged(d: State, events: seq<Event>): set<real>
    decreases |events|
  {
    if events == [] then {}
    else
      var rest := Dragged(After(d, events[0]), events[1..]);
      if events[0].Drag? then rest + {ClampDockWidth(events[0].width, d.viewport) as real} else rest
  }

  /** The chosen width is only ever the one loaded or one dragged to, and so is the width saved: resizing the window and
      mounting views leave both. */
  lemma {:induction false} SavedWidthWasChosen(d: State, events: seq<Event>)
    ensures var later, chosen := Run(d, events), Dragged(d, events) + {d.preferred};
            && later.preferred in chosen
            && (later.savedWidth == d.savedWidth || (later.savedWidth.Some? && later.savedWidth.value in chosen))
    decreases |events|
  {
    if events != [] {
      SavedWidthWasChosen(After(d, events[0]), events[1..]);
    }
  }

  predicate NoDrag(events: seq<Event>) {
    events == [] || (!events[0].Drag? && NoDrag(events[1..]))
  }

  lemma {:induction false} ChoiceStays(d: State, events: seq<Event>)
    requires NoDrag(events)
    ensures Run(d, events).preferred == d.preferred
    decreases |events|
  {
    if events != [] {
      ChoiceStays(After(d, events[0]), events[1..]);
    }
  }

  /** Shrinking the window and restoring it, views coming and going meanwhile, gives the width back. */
  lemma {:induction false} RestoringTheWindowRestoresTheWidth(d: State, events: seq<Event>)
    requires NoDrag(events) && d.listeners != {} && FitsWhileWatched(d)
    requires Run(d, events).listeners != {} && Run(d, events).viewport == d.viewport
    ensures Run(d, events).width == d.width
  {
    ChoiceStays(d, events);
    EveryRunKeepsFit(d, events);
  }
}
