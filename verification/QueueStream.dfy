// One shared poller of the queue for every page that listens (src/studio/events.mjs:97-160) and what such a page keeps
// of the events it receives (studio/src/lib/events.ts:28-52).
module QueueStream {
  import opened Wrappers
  import opened Replica
  import opened ReplicaLaws

  /** An event of the stream: a whole read, the patch to the next one, or a failed read. */
  datatype Message = Whole(snapshot: Snapshot) | Change(patch: Patch) | Failure(message: string)

  /** What a page keeps: the cached read and the error of the last failed one. */
  datatype Page = Page(cache: Option<Snapshot>, error: Option<string>)

  function Received(page: Page, message: Message): Page {
    match message
    case Whole(snapshot) => Page(Some(snapshot), None)
    case Change(patch) => Page(if page.cache.Some? then Some(Patched(page.cache.value, patch)) else None, None)
    case Failure(text) => page.(error := Some(text))
  }

  function ReceivedAll(page: Page, messages: seq<Message>): Page {
    if messages == [] then page else Received(ReceivedAll(page, messages[..|messages| - 1]), messages[|messages| - 1])
  }

  lemma {:induction false} OneMore(page: Page, messages: seq<Message>, message: Message)
    ensures ReceivedAll(page, messages + [message]) == Received(ReceivedAll(page, messages), message)
  {
    assert (messages + [message])[..|messages|] == messages;
  }

  /** A page's connection: what the page had before it, what was sent on it, and whether it got a whole read. */
  class Client {
    const before: Page
    var ready: bool
    var inbox: seq<Message>

    constructor (before: Page)
      ensures this.before == before && !ready && inbox == []
    {
      this.before := before;
      ready, inbox := false, [];
    }

    ghost function Now(): Page
      reads this
    {
      ReceivedAll(before, inbox)
    }

    /** The page's copy of the queue agrees with a read of the server. */
    ghost predicate Follows(server: Snapshot)
      reads this
    {
      Now().cache.Some? && Agrees(Now().cache.value, server)
    }

    method Send(message: Message)
      modifies this`inbox
      ensures inbox == old(inbox) + [message] && Now() == Received(old(Now()), message)
    {
      OneMore(before, inbox, message);
      inbox := inbox + [message];
    }
  }

  class Stream {
    var clients: set<Client>
    var last: Option<Snapshot>
    var timer: bool
    var polling: bool

    /** Every page that got a whole read agrees with the last one; the poller runs once, and whenever anyone listens. */
    ghost predicate Valid()
      reads this, clients
    {
      && (last.Some? ==> UniqueIds(last.value.jobs))
      && (forall c :: c in clients && c.ready ==> last.Some? && c.Follows(last.value))
      && !(timer && polling)
      && (clients != {} ==> timer || polling)
    }

    constructor ()
      ensures Valid() && clients == {} && last == None && !polling
    {
      clients, last, timer, polling := {}, None, false, false;
    }

    /** A page starts listening: it gets the last read at once when there is one, and wakes the poller when it sleeps. */
    method Subscribe(client: Client)
      requires Valid() && client !in clients && !client.ready && client.inbox == []
      modifies this, client
      ensures Valid() && clients == old(clients) + {client} && last == old(last)
      ensures if last.Some? then client.ready && client.inbox == [Whole(last.value)] else !client.ready && client.inbox == []
      ensures timer == old(timer) && polling == (old(polling) || !old(timer))
    {
      clients := clients + {client};
      if last.Some? {
        Greet(client, last.value);
      }
      if !timer && !polling {
        polling := true;
      }
    }

    static method Greet(client: Client, snapshot: Snapshot)
      requires client.inbox == []
      modifies client
      ensures client.ready && client.inbox == [Whole(snapshot)] && client.Follows(snapshot)
    {
      client.Send(Whole(snapshot));
      SnapshotAgreesWithItself(snapshot);
      client.ready := true;
    }

    /** A page stops listening; the last one to leave stops the timer and drops the last read. */
    method Leave(client: Client)
      requires Valid() && client in clients
      modifies this
      ensures Valid() && clients == old(clients) - {client}
      ensures if clients == {} then last == None && !timer else last == old(last) && timer == old(timer)
      ensures polling == old(polling)
    {
      clients := clients - {client};
      if clients == {} {
        Stop();
      }
    }

    method Stop()
      modifies this`timer, this`last
      ensures !timer && last == None
    {
      timer := false;
      last := None;
    }

    /** The timer fires: another read begins. */
    method TimerFires()
      requires Valid() && timer
      modifies this
      ensures Valid() && !timer && polling
      ensures clients == old(clients) && last == old(last)
    {
      timer := false;
      polling := true;
    }

    method PollEnds()
      modifies this`polling, this`timer
      ensures !polling && timer == (clients != {} || old(timer))
    {
      polling := false;
      if clients != {} {
        timer := true;
      }
    }

    /** The patch from the last read to the next, when there is a last one and something changed. */
    static ghost function PatchBetween(last: Option<Snapshot>, next: Snapshot): Option<Patch> {
      if last.Some? then Difference(last.value, next) else None
    }

    /** What a page is sent of a read: all of it when it has none yet, the patch alone or nothing otherwise. */
    static function Owed(ready: bool, patch: Option<Patch>, snapshot: Snapshot): seq<Message> {
      if !ready then [Whole(snapshot)] else if patch.Some? then [Change(patch.value)] else []
    }

    /** A read succeeds: every page that listens is sent what it is owed, and ends up agreeing with the read. */
    method PollSucceeds(snapshot: Snapshot)
      requires Valid() && polling && UniqueIds(snapshot.jobs)
      modifies this, clients
      ensures Valid() && last == Some(snapshot) && clients == old(clients)
      ensures forall c :: c in clients ==> c.ready && c.Follows(snapshot)
      ensures forall c :: c in clients ==> c.inbox == old(c.inbox) + Owed(old(c.ready), PatchBetween(old(last), snapshot), snapshot)
      ensures !polling && (timer <==> clients != {})
    {
      Deliver(snapshot);
      PollEnds();
    }

    method Deliver(snapshot: Snapshot)
      requires Valid() && UniqueIds(snapshot.jobs)
      modifies this`last, clients
      ensures last == Some(snapshot)
      ensures forall c :: c in clients ==> c.ready && c.Follows(snapshot)
      ensures forall c :: c in clients ==> c.inbox == old(c.inbox) + Owed(old(c.ready), PatchBetween(old(last), snapshot), snapshot)
    {
      var patch: Option<Patch> := None;
      if last.Some? {
        patch := SnapshotPatch(last.value, snapshot);
      }
      var left := clients;
      while left != {}
        invariant left <= clients && last == old(last)
        invariant forall c :: c in left ==> (c.ready ==> last.Some? && c.Follows(last.value))
        invariant forall c :: c in left ==> c.ready == old(c.ready) && c.inbox == old(c.inbox)
        invariant forall c :: c in clients && c !in left ==> c.ready && c.Follows(snapshot)
        invariant forall c :: c in clients && c !in left ==> c.inbox == old(c.inbox) + Owed(old(c.ready), patch, snapshot)
      {
        var client :| client in left;
        left := left - {client};
        DeliverTo(client, snapshot, patch, last);
      }
      last := Some(snapshot);
    }

    /** A page not ready gets the whole read, a ready one the patch when something changed. */
    static method DeliverTo(client: Client, snapshot: Snapshot, patch: Option<Patch>, last: Option<Snapshot>)
      requires UniqueIds(snapshot.jobs)
      requires last.Some? ==> UniqueIds(last.value.jobs) && patch == Difference(last.value, snapshot)
      requires client.ready ==> last.Some? && client.Follows(last.value)
      modifies client
      ensures client.ready && client.Follows(snapshot)
      ensures client.inbox == old(client.inbox) + Owed(old(client.ready), patch, snapshot)
    {
      if !client.ready {
        SnapshotAgreesWithItself(snapshot);
        client.Send(Whole(snapshot));
      } else {
        PatchKeepsAgreement(client.Now().cache.value, last.value, snapshot);
        if patch.Some? {
          client.Send(Change(patch.value));
        }
      }
      client.ready := true;
    }

    /** A read fails: every page is told, none changes its copy of the queue. */
    method PollFails(message: string)
      requires Valid() && polling
      modifies this`polling, this`timer, clients
      ensures Valid() && last == old(last) && clients == old(clients)
      ensures forall c :: c in clients ==> c.Now() == old(c.Now()).(error := Some(message)) && c.ready == old(c.ready)
      ensures !polling && (timer <==> clients != {})
    {
      var left := clients;
      while left != {}
        invariant left <= clients && !timer
        invariant forall c :: c in left ==> c.Now() == old(c.Now())
        invariant forall c :: c in clients ==> c.ready == old(c.ready)
        invariant forall c :: c in clients && c !in left ==> c.Now() == old(c.Now()).(error := Some(message))
      {
        var client :| client in left;
        left := left - {client};
        client.Send(Failure(message));
      }
      PollEnds();
    }

    /** The server closes the stream. */
    method Close()
      requires Valid()
      modifies this
      ensures Valid() && clients == {} && last == None && !timer && polling == old(polling)
    {
      Stop();
      clients := {};
    }
  }
}
