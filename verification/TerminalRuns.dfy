// Runs of one terminal: any interleaving of view calls and socket callbacks
// (studio/src/lib/terminalController.ts:93-184).
module TerminalRuns {
  import opened Wrappers
  import opened Terminal

  /** Where the browser stands with a socket it created. */
  datatype Phase = Dialing | Up | Over

  /** The controller, the sockets ever created for it, and the sockets whose closing was announced, in order. */
  datatype World = World(terminal: Controller, phases: map<nat, Phase>, announced: seq<nat>)

  function Beginning(id: string): World {
    World(Created(id), map[], [])
  }

  /** A browser answers a dial with a socket of its own, opens it at most once and closes it once. */
  predicate Possible(w: World, action: Action) {
    match action
    case Attach(_, dial) => dial.Dialed? ==> dial.socket !in w.phases
    case Reconnect(dial) => dial.Dialed? ==> dial.socket !in w.phases
    case OnOpen(socket) => socket in w.phases && w.phases[socket] == Dialing
    case OnClose(socket, _, _) => socket in w.phases && w.phases[socket] != Over
    case FontsSettle => w.terminal.fonts == Loading
    case _ => true
  }

  /** The sockets once an action happened: the one it is about moves on, the one it dialed joins. */
  function PhasesAfter(phases: map<nat, Phase>, action: Action, effects: seq<Effect>): map<nat, Phase> {
    match action
    case OnOpen(socket) => phases[socket := Up]
    case OnClose(socket, _, _) => phases[socket := Over]
    case _ => if effects != [] && effects[0].Dials? then phases[effects[0].socket := Dialing] else phases
  }

  predicate Announces(effects: seq<Effect>) {
    effects != [] && effects[|effects| - 1].Notices?
  }

  function Happens(w: World, action: Action): World {
    var out := After(w.terminal, action);
    World(out.controller, PhasesAfter(w.phases, action, out.effects),
          if action.OnClose? && Announces(out.effects) then w.announced + [action.socket] else w.announced)
  }

  predicate CanRun(w: World, actions: seq<Action>)
    decreases |actions|
  {
    actions == [] || (Possible(w, actions[0]) && CanRun(Happens(w, actions[0]), actions[1..]))
  }

  function Run(w: World, actions: seq<Action>): World
    decreases |actions|
  {
    if actions == [] then w else Run(Happens(w, actions[0]), actions[1..])
  }

  // ---- what every run keeps ----

  /** A live controller has a socket exactly while it says it is connecting or open, and that socket is dialing or up. */
  predicate SocketMatchesState(w: World) {
    var c := w.terminal;
    match c.socket
    case None => c.disposed || c.snapshot.state == Idle || c.snapshot.state == Closed
    case Some(s) =>
      && !c.disposed && s in w.phases
      && ((c.snapshot.state == Connecting && w.phases[s] == Dialing) || (c.snapshot.state == Open && w.phases[s] == Up))
  }

  predicate IsLive(w: World, s: nat) {
    s in w.phases && w.phases[s] != Over
  }

  /** Every socket but the current one is over; a disposed controller leaves at most one that is not. */
  ghost predicate OneLiveSocket(w: World) {
    if w.terminal.disposed then forall s: nat, t: nat :: IsLive(w, s) && IsLive(w, t) ==> s == t
    else forall s: nat :: IsLive(w, s) ==> w.terminal.socket == Some(s)
  }

  ghost predicate Distinct(s: seq<nat>) {
    forall i, j :: 0 <= i < j < |s| ==> s[i] != s[j]
  }

  /** Closings are announced once, for sockets that are over; for all of them while the controller lives. */
  ghost predicate EachAnnouncedOnce(w: World) {
    && Distinct(w.announced)
    && (forall s :: s in w.announced ==> s in w.phases && w.phases[s] == Over)
    && (!w.terminal.disposed ==> forall s :: s in w.phases && w.phases[s] == Over ==> s in w.announced)
  }

  predicate ObserverFollowsHost(c: Controller) {
    && (c.observer.Watching? ==> !c.disposed && c.parent == Some(c.observer.container))
    && (c.disposed ==> c.parent == None)
    && (c.fonts != Settled ==> !c.xtermOpen)
  }

  ghost predicate Sound(w: World) {
    && SocketMatchesState(w) && OneLiveSocket(w) && EachAnnouncedOnce(w) && ObserverFollowsHost(w.terminal)
    && (w.terminal.snapshot.state == Idle ==> w.phases == map[])
  }

  /** A socket that is not over was live before, or was just dialed by a controller that had none. */
  lemma {:induction false} LiveBefore(w: World, action: Action)
    requires Sound(w) && Possible(w, action)
    ensures var next := Happens(w, action);
            forall s: nat {:trigger IsLive(next, s)} :: IsLive(next, s) ==>
              IsLive(w, s) || (!w.terminal.disposed && w.terminal.socket == None && next.terminal.socket == Some(s))
  {
  }

  lemma {:induction false} LivenessKept(w: World, action: Action)
    requires Sound(w) && Possible(w, action)
    ensures OneLiveSocket(Happens(w, action))
  {
    LiveBefore(w, action);
  }

  lemma {:induction false} AnnouncementsKept(w: World, action: Action)
    requires Sound(w) && Possible(w, action)
    ensures EachAnnouncedOnce(Happens(w, action))
  {
    if action.OnClose? && !w.terminal.disposed {
      assert IsLive(w, action.socket);
    }
  }

  lemma {:induction false} EveryActionKeeps(w: World, action: Action)
    requires Sound(w) && Possible(w, action)
    ensures Sound(Happens(w, action))
  {
    LivenessKept(w, action);
    AnnouncementsKept(w, action);
    if action.OnOpen? || action.OnClose? {
      CallbacksAreCurrent(w, action);
    }
  }

  /** Whatever the views, the browser and the server do in whatever order, the world stays sound. */
  lemma {:induction false} EveryRunIsSound(w: World, actions: seq<Action>)
    requires Sound(w) && CanRun(w, actions)
    ensures Sound(Run(w, actions))
    decreases |actions|
  {
    if actions != [] {
      EveryActionKeeps(w, actions[0]);
      EveryRunIsSound(Happens(w, actions[0]), actions[1..]);
    }
  }

  lemma {:induction false} EveryPageIsSound(id: string, actions: seq<Action>)
    requires CanRun(Beginning(id), actions)
    ensures Sound(Run(Beginning(id), actions))
  {
    EveryRunIsSound(Beginning(id), actions);
  }

  // ---- consequences over runs ----

  /** A callback that can happen is about the current socket, or finds a disposed controller and changes nothing; one about
      any other socket would change nothing in any state. */
  lemma {:induction false} CallbacksAreCurrent(w: World, action: Action)
    requires Sound(w) && Possible(w, action) && (action.OnOpen? || action.OnClose?)
    ensures if w.terminal.disposed then After(w.terminal, action) == Outcome(w.terminal, [])
            else w.terminal.socket == Some(action.socket)
    ensures forall c: Controller :: c.socket != Some(action.socket) ==> After(c, action) == Outcome(c, [])
  {
    assert IsLive(w, action.socket);
  }

  lemma {:induction false} NeverIdleAgain(w: World, actions: seq<Action>)
    requires w.terminal.snapshot.state != Idle
    ensures Run(w, actions).terminal.snapshot.state != Idle
    decreases |actions|
  {
    if actions != [] {
      NeverIdleAgain(Happens(w, actions[0]), actions[1..]);
    }
  }

  /** What of a world a disposed controller can no longer change. */
  predicate Frozen(w: World, later: World) {
    && later.terminal.disposed && later.terminal.socket == None
    && later.terminal.snapshot == w.terminal.snapshot && later.terminal.xtermOpen == w.terminal.xtermOpen
    && later.phases.Keys == w.phases.Keys && later.announced == w.announced
  }

  /** No action of a run does anything outside the controller. */
  predicate Quiet(w: World, actions: seq<Action>)
    decreases |actions|
  {
    actions == [] || (After(w.terminal, actions[0]).effects == [] && Quiet(Happens(w, actions[0]), actions[1..]))
  }

  /** Once disposed, no socket is ever created or hung up, no closing announced and no state shown again; the xterm is not
      opened, and disposing again at any moment changes nothing. */
  lemma {:induction false} DisposedIsFinal(w: World, actions: seq<Action>)
    requires w.terminal.disposed && w.terminal.socket == None && CanRun(w, actions)
    ensures Frozen(w, Run(w, actions)) && Quiet(w, actions)
    ensures Happens(Run(w, actions), Dispose) == Run(w, actions)
    decreases |actions|
  {
    if actions != [] {
      assert Frozen(w, Happens(w, actions[0]));
      DisposedIsFinal(Happens(w, actions[0]), actions[1..]);
    }
  }

  predicate NeverReconnects(actions: seq<Action>) {
    actions == [] || (!actions[0].Reconnect? && NeverReconnects(actions[1..]))
  }

  /** Whether at most one socket was created between two moments. */
  ghost predicate AtMostOneMore(w: World, later: World) {
    forall s: nat, t: nat :: s in later.phases && t in later.phases ==> s in w.phases || t in w.phases || s == t
  }

  /** Without a reconnect, no run creates a second socket: moving the terminal between tabs never dials again. */
  lemma {:induction false} TabSwitchesNeverReconnect(w: World, actions: seq<Action>)
    requires CanRun(w, actions) && NeverReconnects(actions)
    ensures w.terminal.snapshot.state != Idle ==> Run(w, actions).phases.Keys == w.phases.Keys
    ensures AtMostOneMore(w, Run(w, actions))
    decreases |actions|
  {
    if actions != [] {
      var next := Happens(w, actions[0]);
      TabSwitchesNeverReconnect(next, actions[1..]);
      DialsOnce(w, actions[0], Run(w, actions));
    }
  }

  lemma {:induction false} DialsOnce(w: World, action: Action, later: World)
    requires Possible(w, action) && !action.Reconnect?
    requires var next := Happens(w, action);
             (next.terminal.snapshot.state != Idle ==> later.phases.Keys == next.phases.Keys) && AtMostOneMore(next, later)
    ensures w.terminal.snapshot.state != Idle ==> later.phases.Keys == w.phases.Keys
    ensures AtMostOneMore(w, later)
  {
    var next := Happens(w, action);
    if next.terminal.snapshot.state == Idle {
      assert next.phases.Keys == w.phases.Keys;
    }
  }

  /** A live terminal that lost its socket can be reconnected, and reads open once the new socket opens. */
  lemma {:induction false} ReconnectReopens(w: World, socket: nat)
    requires Sound(w) && !w.terminal.disposed && w.terminal.snapshot.state == Closed && socket !in w.phases
    ensures var actions := [Reconnect(Dialed(socket)), OnOpen(socket)];
            CanRun(w, actions) && Run(w, actions).terminal.snapshot.state == Open
  {
    var redial := Reconnect(Dialed(socket));
    var next := Happens(w, redial);
    assert next.terminal.socket == Some(socket) && next.phases[socket] == Dialing;
    var actions := [redial, OnOpen(socket)];
    assert actions[1..] == [OnOpen(socket)] && actions[1..][1..] == [];
    assert CanRun(next, actions[1..]);
    assert Run(next, actions[1..]) == Run(Happens(next, OnOpen(socket)), actions[1..][1..]);
  }

  // ---- a terminal on screen and the observer that fits it ----

  /** A terminal on screen is observed in the container that shows it. */
  predicate Watched(c: Controller) {
    c.parent.Some? ==> c.observer == Watching(c.parent.value)
  }

  /** A live, watched terminal stays watched by any action but one: detaching it from a container that does not show it,
      while another does. The code drops the observer whatever container is detached. */
  lemma {:induction false} StaysWatchedUnlessLeftElsewhere(w: World, action: Action)
    requires Sound(w) && Possible(w, action) && !w.terminal.disposed && Watched(w.terminal)
    ensures Watched(Happens(w, action).terminal) <==>
            !(action.Detach? && w.terminal.parent.Some? && w.terminal.parent != Some(action.container))
  {
  }

  /** Whether the i-th action showed the terminal where it still is: nothing later attached it or took it from there. */
  ghost predicate ShownAt(actions: seq<Action>, i: nat) {
    && i < |actions| && actions[i].Attach?
    && forall l :: i < l < |actions| ==> !actions[l].Attach? && actions[l] != Detach(actions[i].container)
  }

  /** The j-th action detached the terminal from another container than the i-th attached it to, later. */
  predicate StrayDetach(actions: seq<Action>, i: nat, j: nat) {
    i < j < |actions| && actions[i].Attach? && actions[j].Detach? && actions[j].container != actions[i].container
  }

  /** After the attach that shows the terminal now, it was detached from another container. */
  ghost predicate LeftElsewhere(actions: seq<Action>) {
    exists i: nat, j: nat :: ShownAt(actions, i) && StrayDetach(actions, i, j)
  }

  lemma {:induction false} RunOneMore(w: World, actions: seq<Action>, last: Action)
    ensures Run(w, actions + [last]) == Happens(Run(w, actions), last)
    decreases |actions|
  {
    if actions == [] {
      assert [] + [last] == [last] && [last][1..] == [];
    } else {
      RunOneMore(Happens(w, actions[0]), actions[1..], last);
      assert (actions + [last])[1..] == actions[1..] + [last];
    }
  }

  /** Where the terminal is after a run, and whether it is watched there, from the actions alone. */
  ghost predicate PlacedBy(c: Controller, actions: seq<Action>) {
    && (forall i: nat :: ShownAt(actions, i) ==> c.parent == Some(actions[i].container))
    && (c.parent.Some? ==> exists i: nat :: ShownAt(actions, i))
    && (Watched(c) <==> !LeftElsewhere(actions))
  }

  lemma {:induction false} ShownBefore(actions: seq<Action>, last: Action, i: nat)
    ensures ShownAt(actions + [last], i) <==>
            if i == |actions| then last.Attach?
            else ShownAt(actions, i) && !last.Attach? && last != Detach(actions[i].container)
  {
    var all := actions + [last];
    if i < |actions| {
      assert all[i] == actions[i];
      if ShownAt(all, i) {
        assert all[|actions|] == last;
        forall l | i < l < |actions|
          ensures !actions[l].Attach? && actions[l] != Detach(actions[i].container)
        {
          assert all[l] == actions[l];
        }
      }
    }
  }

  lemma {:induction false} StrayBefore(actions: seq<Action>, last: Action, i: nat, j: nat)
    ensures StrayDetach(actions + [last], i, j) <==>
            if j == |actions| then i < j && actions[i].Attach? && last.Detach? && last.container != actions[i].container
            else StrayDetach(actions, i, j)
  {
  }

  lemma {:induction false} LeftNext(actions: seq<Action>, last: Action)
    ensures LeftElsewhere(actions + [last]) <==>
            exists i: nat :: ShownAt(actions, i) && !last.Attach? && last != Detach(actions[i].container)
                             && (last.Detach? || exists j: nat :: StrayDetach(actions, i, j))
  {
    var all := actions + [last];
    forall i: nat, j: nat
      ensures StrayDetach(all, i, j) <==>
              if j == |actions| then i < j && actions[i].Attach? && last.Detach? && last.container != actions[i].container
              else StrayDetach(actions, i, j)
    {
      StrayBefore(actions, last, i, j);
    }
    forall i: nat
      ensures ShownAt(all, i) <==>
              if i == |actions| then last.Attach? else ShownAt(actions, i) && !last.Attach? && last != Detach(actions[i].container)
    {
      ShownBefore(actions, last, i);
    }
    if i: nat :| ShownAt(actions, i) && !last.Attach? && last != Detach(actions[i].container)
                 && (last.Detach? || exists j: nat :: StrayDetach(actions, i, j)) {
      assert ShownAt(all, i);
      if last.Detach? {
        assert StrayDetach(all, i, |actions|);
      } else {
        var j: nat :| StrayDetach(actions, i, j);
        assert StrayDetach(all, i, j);
      }
    }
  }

  lemma {:induction false} PlacedNext(c: Controller, actions: seq<Action>, last: Action)
    requires PlacedBy(c, actions) && !c.disposed && !last.Dispose?
    ensures PlacedBy(After(c, last).controller, actions + [last])
  {
    var all, later := actions + [last], After(c, last).controller;
    LeftNext(actions, last);
    forall i: nat
      ensures ShownAt(all, i) <==>
              if i == |actions| then last.Attach? else ShownAt(actions, i) && !last.Attach? && last != Detach(actions[i].container)
    {
      ShownBefore(actions, last, i);
    }
    if last.Attach? {
      assert ShownAt(all, |actions|);
    } else if c.parent.Some? && later.parent.Some? {
      var i: nat :| ShownAt(actions, i);
      assert ShownAt(all, i);
    }
  }

  /** A terminal that lives at the end of a run is watched there exactly when, since the attach that shows it, it was not
      detached from another container. */
  lemma {:induction false} WatchedUnlessLeftElsewhere(id: string, actions: seq<Action>)
    requires !Run(Beginning(id), actions).terminal.disposed
    ensures PlacedBy(Run(Beginning(id), actions).terminal, actions)
    decreases |actions|
  {
    if actions != [] {
      var before, last := actions[..|actions| - 1], actions[|actions| - 1];
      assert actions == before + [last];
      RunOneMore(Beginning(id), before, last);
      WatchedUnlessLeftElsewhere(id, before);
      PlacedNext(Run(Beginning(id), before).terminal, before, last);
    }
  }

  /** Leaving a container the terminal already moved out of stops it from following its new one. */
  lemma {:induction false} LateDetachStopsFitting(c: Controller, from: nat, to: nat, dial: Dial)
    requires !c.disposed && from != to
    ensures var moved := After(c, Attach(to, dial)).controller;
            var after := After(moved, Detach(from)).controller;
            Watched(moved) && after.parent == Some(to) && !Watched(after)
  {
  }
}
