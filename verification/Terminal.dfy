// The connection machine of one terminal (studio/src/lib/terminalController.ts:67-184). A container on the page, a
// view that renders the connection and a websocket are known by their identity, a number.
module Terminal {
  import opened Wrappers
  import opened Strings

  datatype Link = Idle | Connecting | Open | Closed

  datatype Snapshot = Snapshot(state: Link, code: Option<int>, reason: string)

  /** The resize observer of the controller: none, one observing a container, or one that was disconnected but kept. */
  datatype Observer = NoObserver | Watching(container: nat) | Disconnected

  /** The promise of the first attach: not made, waiting for the fonts, or settled. */
  datatype Fonts = NotAsked | Loading | Settled

  datatype Controller = Controller(
    id: string,
    socket: Option<nat>,
    fonts: Fonts,
    xtermOpen: bool,
    observer: Observer,
    parent: Option<nat>,
    snapshot: Snapshot,
    views: set<nat>,
    disposed: bool)

  /** What `new WebSocket` answers: a new socket, or the message of what it throws. */
  datatype Dial = Dialed(socket: nat) | Refused(message: string)

  /** What the controller does outside itself: dial, hang up, tell the pty the xterm's size, write into the xterm, tell the
      views, tell whoever follows closed terminals. */
  datatype Effect =
    | Dials(socket: nat)
    | HangsUp(socket: nat)
    | SendsSize(socket: nat)
    | Writes(text: string)
    | Tells(views: set<nat>, snapshot: Snapshot)
    | Notices(id: string)

  datatype Action =
    | Attach(container: nat, dial: Dial)
    | Detach(container: nat)
    | Reconnect(dial: Dial)
    | Dispose
    | FontsSettle
    | OnOpen(socket: nat)
    | OnClose(socket: nat, code: int, reason: string)
    | Subscribe(view: nat)
    | Unsubscribe(view: nat)

  datatype Outcome = Outcome(controller: Controller, effects: seq<Effect>)

  const ATTACHED_ELSEWHERE := 4001

  function Created(id: string): Controller {
    Controller(id, None, NotAsked, false, NoObserver, None, Snapshot(Idle, None, ""), {}, false)
  }

  /** The controller with its state replaced, every view told. */
  function Show(c: Controller, next: Snapshot, effects: seq<Effect>): Outcome {
    Outcome(c.(snapshot := next), effects + [Tells(c.views, next)])
  }

  function Connect(c: Controller, dial: Dial): Outcome {
    match dial
    case Refused(message) => Show(c, Snapshot(Closed, None, message), [])
    case Dialed(socket) => Show(c.(socket := Some(socket)), Snapshot(Connecting, None, ""), [Dials(socket)])
  }

  function CloseReason(code: int, reason: string): string {
    if code == ATTACHED_ELSEWHERE then "attached elsewhere (another browser tab took this terminal)"
    else if reason != "" then reason
    else "connection closed (" + IntText(code) + ")"
  }

  /** The dim line a closing leaves in the terminal. */
  function CloseLine(reason: string): string {
    "\r\n\U{1b}[2m[nightqueue] " + reason + "\U{1b}[0m\r\n"
  }

  /** The controller shown in a container: its observer replaced, the fonts asked for the first time. */
  function Placed(c: Controller, container: nat): Controller {
    c.(parent := Some(container), observer := Watching(container), fonts := if c.fonts.NotAsked? then Loading else c.fonts)
  }

  /** The controller once disposed. */
  function Gone(c: Controller): Controller {
    c.(disposed := true, socket := None, parent := None,
       observer := if c.observer == NoObserver then NoObserver else Disconnected)
  }

  function HangUps(c: Controller): seq<Effect> {
    if c.socket.Some? then [HangsUp(c.socket.value)] else []
  }

  /** The controller after one call or callback, and what it did outside itself. */
  function After(c: Controller, action: Action): Outcome {
    match action
    case Attach(container, dial) =>
      if c.disposed then Outcome(c, [])
      else if c.snapshot.state == Idle then Connect(Placed(c, container), dial)
      else Outcome(Placed(c, container), [])
    case Detach(container) =>
      Outcome(c.(observer := NoObserver, parent := if c.parent == Some(container) then None else c.parent), [])
    case Reconnect(dial) =>
      if c.disposed || c.snapshot.state == Open || c.snapshot.state == Connecting then Outcome(c, [])
      else Connect(c, dial)
    case Dispose =>
      if c.disposed then Outcome(c, []) else Outcome(Gone(c), HangUps(c))
    case FontsSettle =>
      Outcome(c.(fonts := Settled, xtermOpen := c.xtermOpen || !c.disposed), [])
    case OnOpen(socket) =>
      if c.socket != Some(socket) then Outcome(c, [])
      else
        var shown := Show(c, Snapshot(Open, None, ""), []);
        Outcome(shown.controller, shown.effects + [SendsSize(socket)])
    case OnClose(socket, code, reason) =>
      if c.socket != Some(socket) || c.disposed then Outcome(c, [])
      else
        var why := CloseReason(code, reason);
        var shown := Show(c.(socket := None), Snapshot(Closed, Some(code), why), [Writes(CloseLine(why))]);
        Outcome(shown.controller, shown.effects + [Notices(c.id)])
    case Subscribe(view) => Outcome(c.(views := c.views + {view}), [])
    case Unsubscribe(view) => Outcome(c.(views := c.views - {view}), [])
  }

  /** One terminal of the page, living outside its views so that tab switches never reconnect. */
  class TerminalController {
    const id: string
    var socket: Option<nat>
    var fonts: Fonts
    var xtermOpen: bool
    var observer: Observer
    var parent: Option<nat>
    var snapshot: Snapshot
    var views: set<nat>
    var disposed: bool

    ghost function Value(): Controller
      reads this
    {
      Controller(id, socket, fonts, xtermOpen, observer, parent, snapshot, views, disposed)
    }

    constructor (id: string)
      ensures this.id == id && Value() == Created(id)
    {
      this.id := id;
      socket, fonts, xtermOpen, observer := None, NotAsked, false, NoObserver;
      parent, snapshot, views, disposed := None, Snapshot(Idle, None, ""), {}, false;
    }

    /** Moves the terminal into a container on screen and connects it the first time. */
    method AttachTo(container: nat, dial: Dial) returns (effects: seq<Effect>)
      modifies this
      ensures Outcome(Value(), effects) == After(old(Value()), Attach(container, dial))
    {
      effects := [];
      if disposed {
        return;
      }
      parent := Some(container);
      observer := Watching(container);
      if fonts.NotAsked? {
        fonts := Loading;
      }
      if snapshot.state == Idle {
        effects := Connects(dial);
      }
    }

    /** Drops the observer, and leaves the container when it is the one that shows the terminal. */
    method DetachFrom(container: nat)
      modifies this
      ensures Outcome(Value(), []) == After(old(Value()), Detach(container))
    {
      observer := NoObserver;
      if parent == Some(container) {
        parent := None;
      }
    }

    /** Opens a new socket after the previous one closed, unless the controller was disposed. */
    method Reconnects(dial: Dial) returns (effects: seq<Effect>)
      modifies this
      ensures Outcome(Value(), effects) == After(old(Value()), Reconnect(dial))
    {
      effects := [];
      if disposed || snapshot.state == Open || snapshot.state == Connecting {
        return;
      }
      effects := Connects(dial);
    }

    /** Closes the socket and frees the xterm. */
    method Disposes() returns (effects: seq<Effect>)
      modifies this
      ensures Outcome(Value(), effects) == After(old(Value()), Dispose)
    {
      effects := [];
      if disposed {
        return;
      }
      disposed := true;
      if observer != NoObserver {
        observer := Disconnected;
      }
      if socket.Some? {
        effects := effects + [HangsUp(socket.value)];
      }
      socket := None;
      parent := None;
    }

    method FontsSettled()
      modifies this
      ensures Outcome(Value(), []) == After(old(Value()), FontsSettle)
    {
      fonts := Settled;
      if !disposed {
        xtermOpen := true;
      }
    }

    method SubscribeView(view: nat)
      modifies this`views
      ensures Outcome(Value(), []) == After(old(Value()), Subscribe(view))
    {
      views := views + {view};
    }

    method UnsubscribeView(view: nat)
      modifies this`views
      ensures Outcome(Value(), []) == After(old(Value()), Unsubscribe(view))
    {
      views := views - {view};
    }

    method SetSnapshot(next: Snapshot) returns (effects: seq<Effect>)
      modifies this`snapshot
      ensures snapshot == next && effects == [Tells(views, next)]
    {
      snapshot := next;
      effects := [Tells(views, next)];
    }

    method Connects(dial: Dial) returns (effects: seq<Effect>)
      modifies this
      ensures Outcome(Value(), effects) == Connect(old(Value()), dial)
    {
      match dial
      case Refused(message) =>
        effects := SetSnapshot(Snapshot(Closed, None, message));
      case Dialed(created) =>
        socket := Some(created);
        var told := SetSnapshot(Snapshot(Connecting, None, ""));
        effects := [Dials(created)] + told;
    }

    /** The socket opened. */
    method SocketOpens(opening: nat) returns (effects: seq<Effect>)
      modifies this
      ensures Outcome(Value(), effects) == After(old(Value()), OnOpen(opening))
    {
      effects := [];
      if socket != Some(opening) {
        return;
      }
      effects := SetSnapshot(Snapshot(Open, None, ""));
      effects := effects + [SendsSize(opening)];
    }

    /** The socket closed: why is recorded, the views and whoever follows closed terminals are told. */
    method SocketCloses(closing: nat, code: int, reason: string) returns (effects: seq<Effect>)
      modifies this
      ensures Outcome(Value(), effects) == After(old(Value()), OnClose(closing, code, reason))
    {
      effects := [];
      if socket != Some(closing) || disposed {
        return;
      }
      socket := None;
      var why := CloseReason(code, reason);
      effects := [Writes(CloseLine(why))];
      var told := SetSnapshot(Snapshot(Closed, Some(code), why));
      effects := effects + told + [Notices(id)];
    }
  }

  predicate EachOnce(ids: seq<string>) {
    ids == [] || (ids[|ids| - 1] !in ids[..|ids| - 1] && EachOnce(ids[..|ids| - 1]))
  }

  /** Hanging up the sockets of some terminals one after another. */
  function HangUpsInTurn(ids: seq<string>, was: map<string, Controller>): seq<Effect> {
    if ids == [] then []
    else
      var rest, last := HangUpsInTurn(ids[..|ids| - 1], was), ids[|ids| - 1];
      if last in was then rest + HangUps(was[last]) else rest
  }

  /** The terminals gone are listed once each, and the effects are the hang-ups of their sockets in that order. */
  ghost predicate HungUp(effects: seq<Effect>, order: seq<string>, gone: set<string>, was: map<string, Controller>) {
    && EachOnce(order)
    && (forall id :: id in order <==> id in gone)
    && effects == HangUpsInTurn(order, was)
  }

  lemma {:induction false} OneMoreHangUp(
    effects: seq<Effect>, order: seq<string>, gone: set<string>, was: map<string, Controller>, id: string)
    requires HungUp(effects, order, gone, was) && id !in gone && id in was
    ensures HungUp(effects + HangUps(was[id]), order + [id], gone + {id}, was)
  {
    assert (order + [id])[..|order|] == order;
  }

  /** The controllers of the page by terminal id. */
  class Registry {
    var controllers: map<string, TerminalController>

    /** Every controller held is the one of its id and is not disposed. */
    ghost predicate Valid()
      reads this, controllers.Values
    {
      forall id :: id in controllers ==> Held(id)
    }

    ghost predicate Held(id: string)
      requires id in controllers
      reads this, controllers.Values
    {
      controllers[id].id == id && !controllers[id].disposed
    }

    /** The value of each controller held. */
    ghost function Values(): map<string, Controller>
      reads this, controllers.Values
    {
      map id | id in controllers :: controllers[id].Value()
    }

    constructor ()
      ensures Valid() && controllers == map[]
    {
      controllers := map[];
    }

    /** The controller of one terminal, created on first use and kept until the terminal is gone. */
    method ControllerFor(id: string) returns (controller: TerminalController)
      requires Valid()
      modifies this
      ensures Valid() && controllers == old(controllers)[id := controller]
      ensures if id in old(controllers) then controller == old(controllers)[id] else fresh(controller) && controller.Value() == Created(id)
    {
      if id in controllers {
        controller := controllers[id];
        assert controllers[id := controller] == controllers;
      } else {
        controller := new TerminalController(id);
        controllers := controllers[id := controller];
      }
    }

    /** Frees the controller of a terminal that left the listing. */
    method DisposeController(id: string) returns (effects: seq<Effect>)
      requires Valid()
      modifies this, if id in controllers then {controllers[id]} else {}
      ensures Valid() && controllers == old(controllers) - {id}
      ensures if id in old(controllers) then
                old(controllers)[id].Value() == Gone(old(controllers[id].Value())) && effects == HangUps(old(controllers[id].Value()))
              else effects == []
    {
      effects := [];
      if id in controllers {
        effects := controllers[id].Disposes();
      }
      controllers := controllers - {id};
    }

    /** Of the controllers held when their values were these, those of the terminals gone are freed and dropped since, and
        the others are as they were. */
    ghost predicate Since(held: map<string, TerminalController>, was: map<string, Controller>, gone: set<string>)
      reads this, held.Values, controllers.Values
    {
      && controllers == held - gone
      && Valid()
      && held.Keys == was.Keys
      && (forall id {:trigger was[id]} :: id in was ==> was[id].id == id && !was[id].disposed)
      && forall id {:trigger held[id]} :: id in held ==> held[id].Value() == if id in gone then Gone(was[id]) else was[id]
    }

    lemma SinceNow()
      requires Valid()
      ensures Since(controllers, Values(), {})
    {
    }

    /** Frees one more of the controllers held. */
    method DropNext(id: string, ghost held: map<string, TerminalController>, ghost was: map<string, Controller>, ghost gone: set<string>)
      returns (effects: seq<Effect>)
      requires Since(held, was, gone) && id in controllers
      modifies this, held.Values
      ensures Since(held, was, gone + {id})
      ensures effects == HangUps(was[id])
    {
      assert held[id].Value() == was[id];
      effects := DisposeController(id);
      assert controllers == held - (gone + {id});
    }

    /** Frees every controller whose terminal is no longer listed, each once; the others are left as they were. */
    method DisposeControllersExcept(live: set<string>) returns (effects: seq<Effect>, ghost order: seq<string>)
      requires Valid()
      modifies this, controllers.Values
      ensures Since(old(controllers), old(Values()), old(controllers).Keys - live)
      ensures HungUp(effects, order, old(controllers).Keys - live, old(Values()))
    {
      effects, order := [], [];
      ghost var was, held, gone := Values(), controllers, {};
      var left := controllers.Keys;
      SinceNow();
      while left != {}
        invariant left <= held.Keys && gone == held.Keys - live - left
        invariant Since(held, was, gone)
        invariant HungUp(effects, order, gone, was)
      {
        var id :| id in left;
        left := left - {id};
        if id !in live {
          var more := DropNext(id, held, was, gone);
          OneMoreHangUp(effects, order, gone, was, id);
          effects, order, gone := effects + more, order + [id], gone + {id};
        }
      }
    }
  }
}
