/** `AvailabilityPublisher`: publishes the state of a subject whenever it changes and whenever the client
    gets its connection. */
module Publisher {
  import opened Availability
  import opened CppString

  /** The client of the publisher; `payload` is the last one that it published. */
  class Client {
    var hasConnection: bool
    var payload: Option<AvailabilityState>

    constructor ()
      ensures !hasConnection && payload == None
    {
      hasConnection := false;
      payload := None;
    }

    method HandleConnect(accepted: bool)
      modifies this`hasConnection
      ensures hasConnection == (old(hasConnection) || accepted)
    {
      if accepted {
        hasConnection := true;
      }
    }

    method HandleDisconnect()
      modifies this`hasConnection
      ensures !hasConnection
    {
      hasConnection := false;
    }

    /** Whether the library takes the message is its own affair. */
    method Publish(state: AvailabilityState, delivered: bool) returns (ok: bool)
      modifies this`payload
      ensures ok == delivered
      ensures payload == if delivered then Some(state) else old(payload)
    {
      if delivered {
        payload := Some(state);
      }
      return delivered;
    }
  }

  class AvailabilityPublisher {
    const client: Client
    var state: AvailabilityState

    constructor (client: Client, subjectState: AvailabilityState, delivered: bool)
      modifies client`payload
      ensures this.client == client && state == subjectState
      ensures client.payload == if client.hasConnection && delivered then Some(subjectState) else old(client.payload)
    {
      this.client := client;
      state := subjectState;
      new;
      if client.hasConnection {
        Publish(delivered);
      }
    }

    /** A message that is not taken is only logged. */
    method Publish(delivered: bool)
      modifies client`payload
      ensures client.payload == if delivered then Some(state) else old(client.payload)
    {
      var ok := client.Publish(state, delivered);
    }

    method OnStateUpdate(newState: AvailabilityState, delivered: bool)
      modifies this`state, client`payload
      ensures state == newState
      ensures client.payload == if client.hasConnection && delivered then Some(newState) else old(client.payload)
    {
      state := newState;
      if client.hasConnection {
        Publish(delivered);
      }
    }

    method OnPublisherConnect(accepted: bool, delivered: bool)
      modifies client`payload
      ensures client.payload == if accepted && delivered then Some(state) else old(client.payload)
    {
      if accepted {
        Publish(delivered);
      }
    }
  }

  datatype Event = Connect(accepted: bool) | Disconnect | StateUpdate(state: AvailabilityState)

  function LastState(events: seq<Event>, before: AvailabilityState): AvailabilityState {
    if events == [] then before
    else if events[|events| - 1].StateUpdate? then events[|events| - 1].state
    else LastState(events[..|events| - 1], before)
  }

  /** One event after the other: whenever the client is connected, the last payload is the latest state. */
  method Replay(client: Client, subjectState: AvailabilityState, events: seq<Event>)
    modifies client
    ensures client.hasConnection ==> client.payload == Some(LastState(events, subjectState))
  {
    var publisher := new AvailabilityPublisher(client, subjectState, true);
    var subject := subjectState;
    var i := 0;
    while i < |events|
      invariant i <= |events| && publisher.client == client && fresh(publisher)
      invariant publisher.state == subject == LastState(events[..i], subjectState)
      invariant client.hasConnection ==> client.payload == Some(subject)
    {
      assert events[..i + 1][..i] == events[..i];
      match events[i] {
        case Connect(accepted) =>
          client.HandleConnect(accepted);
          publisher.OnPublisherConnect(accepted, true);
        case Disconnect =>
          client.HandleDisconnect();
        case StateUpdate(s) =>
          if subject != s {
            subject := s;
            publisher.OnStateUpdate(s, true);
          }
      }
      i := i + 1;
    }
    assert events[..|events|] == events;
  }

  // Both threads at work. Publishing takes two steps: the state is read, and then handed to the library.

  /** The state that was read, and how many updates the publisher had stored by then. */
  datatype Message = Message(text: AvailabilityState, readAt: nat)

  /** What the broker's thread is about to do within a connect callback. */
  datatype BrokerTask = NoTask | SetFlag(accepted: bool) | Notify(accepted: bool) | BrokerHands(message: Message)

  /** What the thread of the subject is about to do within an update. */
  datatype UpdateTask = NoUpdate | Store | Check | Read | UpdateHands(message: Message)

  /** `last` is the message that was handed over last, and `delivered` says whether the library took it. */
  datatype World = World(
    hasConnection: bool, subject: AvailabilityState, state: AvailabilityState, stores: nat,
    payload: Option<AvailabilityState>, last: Option<Message>, delivered: bool,
    broker: BrokerTask, update: UpdateTask)

  datatype Step =
    | ConnectCallback(accepted: bool)
    | DisconnectCallback
    | BrokerStep(delivered: bool)
    | SetState(to: AvailabilityState)
    | UpdateStep(delivered: bool)

  function HandedOver(w: World, m: Message, delivered: bool): World {
    w.(payload := if delivered then Some(m.text) else w.payload, last := Some(m), delivered := delivered)
  }

  /** One step of either thread. In the connect callback the flag comes first in the program; `flagFirst`
      says so, to compare it with the opposite order. */
  function Next(w: World, s: Step, flagFirst: bool): World {
    match s
    case ConnectCallback(accepted) =>
      if w.broker != NoTask then w
      else w.(broker := if flagFirst then SetFlag(accepted) else Notify(accepted))
    case DisconnectCallback =>
      if w.broker != NoTask then w else w.(hasConnection := false)
    case BrokerStep(delivered) => NextOfBroker(w, delivered, flagFirst)
    case SetState(to) =>
      if w.update != NoUpdate || w.subject == to then w else w.(subject := to, update := Store)
    case UpdateStep(delivered) => NextOfUpdate(w, delivered)
  }

  function NextOfBroker(w: World, delivered: bool, flagFirst: bool): World {
    match w.broker
    case NoTask => w
    case SetFlag(accepted) =>
      w.(hasConnection := w.hasConnection || accepted, broker := if flagFirst then Notify(accepted) else NoTask)
    case Notify(accepted) =>
      w.(broker :=
           if accepted then BrokerHands(Message(w.state, w.stores))
           else if flagFirst then NoTask else SetFlag(accepted))
    case BrokerHands(m) =>
      HandedOver(w, m, delivered).(broker := if flagFirst then NoTask else SetFlag(true))
  }

  function NextOfUpdate(w: World, delivered: bool): World {
    match w.update
    case NoUpdate => w
    case Store => w.(state := w.subject, stores := w.stores + 1, update := Check)
    case Check => w.(update := if w.hasConnection then Read else NoUpdate)
    case Read => w.(update := UpdateHands(Message(w.state, w.stores)))
    case UpdateHands(m) => HandedOver(w, m, delivered).(update := NoUpdate)
  }

  /** The publisher after its construction. */
  function Start(hasConnection: bool, subject: AvailabilityState, delivered: bool): World {
    World(hasConnection, subject, subject, 0, if hasConnection && delivered then Some(subject) else None,
          if hasConnection then Some(Message(subject, 0)) else None, delivered, NoTask, NoUpdate)
  }

  function After(w: World, steps: seq<Step>, flagFirst: bool): World
    decreases |steps|
  {
    if steps == [] then w else Next(After(w, steps[..|steps| - 1], flagFirst), steps[|steps| - 1], flagFirst)
  }

  /** Both threads are done, the client is connected, and it took the last message. */
  predicate IsQuiet(w: World) {
    w.broker == NoTask && w.update == NoUpdate && w.hasConnection && w.delivered
  }

  predicate WillPublish(w: World) {
    w.update != NoUpdate || w.broker == Notify(true) || w.broker.BrokerHands?
  }

  /** A message is up to date when the updates stored since it was read, each of which changes the state,
      cancel out. */
  predicate IsTracked(state: AvailabilityState, stores: nat, m: Message) {
    m.readAt <= stores && (m.text == state <==> (stores - m.readAt) % 2 == 0)
  }

  lemma TrackedOnward(state: AvailabilityState, stores: nat, m: Message, to: AvailabilityState)
    requires IsTracked(state, stores, m) && to != state
    ensures IsTracked(to, stores + 1, m)
  {
  }

  lemma TrackedAtFirst(state: AvailabilityState, stores: nat)
    ensures IsTracked(state, stores, Message(state, stores))
  {
  }

  /** What is known of all messages, and that a connected client has been handed one. */
  predicate Tracked(w: World) {
    && (w.update == Store <==> w.state != w.subject)
    && (w.last.Some? ==>
          IsTracked(w.state, w.stores, w.last.value) && (w.delivered ==> w.payload == Some(w.last.value.text)))
    && (w.broker.BrokerHands? ==> IsTracked(w.state, w.stores, w.broker.message))
    && (w.update.UpdateHands? ==> IsTracked(w.state, w.stores, w.update.message))
    && (w.hasConnection && !WillPublish(w) ==> w.last.Some?)
  }

  lemma NextKeepsTracked(w: World, s: Step)
    requires Tracked(w)
    ensures Tracked(Next(w, s, true))
  {
    hide IsTracked;
    TrackedAtFirst(w.state, w.stores);
    if s.UpdateStep? && w.update == Store {
      if w.last.Some? {
        TrackedOnward(w.state, w.stores, w.last.value, w.subject);
      }
      if w.broker.BrokerHands? {
        TrackedOnward(w.state, w.stores, w.broker.message, w.subject);
      }
    }
  }

  lemma {:induction false} RunsAreTracked(w: World, steps: seq<Step>)
    requires Tracked(w)
    ensures Tracked(After(w, steps, true))
    decreases |steps|
  {
    hide Tracked, Next;
    if steps != [] {
      RunsAreTracked(w, steps[..|steps| - 1]);
      NextKeepsTracked(After(w, steps[..|steps| - 1], true), steps[|steps| - 1]);
    }
  }

  /** Over all interleavings of the two threads, when they are quiet: the payload is the subject's state if
      and only if the updates stored since the last message was read cancel out. */
  lemma CurrentIffNotOvertaken(hasConnection: bool, subject: AvailabilityState, delivered: bool, steps: seq<Step>)
    ensures var w := After(Start(hasConnection, subject, delivered), steps, true);
      IsQuiet(w) ==>
        && w.last.Some? && w.last.value.readAt <= w.stores
        && (w.payload == Some(w.subject) <==> (w.stores - w.last.value.readAt) % 2 == 0)
  {
    RunsAreTracked(Start(hasConnection, subject, delivered), steps);
  }

  /** An update reads the state while the broker's thread holds a message that it has not handed over. */
  predicate Overlaps(w: World, s: Step) {
    s.UpdateStep? && w.update == Read && w.broker.BrokerHands?
  }

  predicate NeverOverlaps(w: World, steps: seq<Step>, flagFirst: bool)
    decreases |steps|
  {
    steps == [] ||
    (&& NeverOverlaps(w, steps[..|steps| - 1], flagFirst)
     && !Overlaps(After(w, steps[..|steps| - 1], flagFirst), steps[|steps| - 1]))
  }

  /** Without overlaps nothing is stored behind a message that nobody follows up. */
  predicate IsFresh(w: World) {
    && (w.update == Store || w.state == w.subject)
    && (w.broker == Notify(true) || w.broker.BrokerHands? ==> w.hasConnection)
    && (w.broker.BrokerHands? && (w.update == NoUpdate || w.update.UpdateHands?) ==> w.broker.message.text == w.state)
    && (w.update.UpdateHands? ==> w.update.message.text == w.state)
    && (w.hasConnection && !WillPublish(w) && w.delivered ==> w.payload == Some(w.state))
  }

  lemma {:induction false} RunsAreFresh(w: World, steps: seq<Step>)
    requires IsFresh(w) && NeverOverlaps(w, steps, true)
    ensures IsFresh(After(w, steps, true))
    decreases |steps|
  {
    if steps != [] {
      RunsAreFresh(w, steps[..|steps| - 1]);
    }
  }

  /** Over all interleavings in which publishing does not overlap, when both threads are quiet: the last
      payload is the subject's state. */
  lemma PublishedStateIsLatest(hasConnection: bool, subject: AvailabilityState, delivered: bool, steps: seq<Step>)
    requires NeverOverlaps(Start(hasConnection, subject, delivered), steps, true)
    ensures var w := After(Start(hasConnection, subject, delivered), steps, true);
      IsQuiet(w) ==> w.payload == Some(w.subject)
  {
    RunsAreFresh(Start(hasConnection, subject, delivered), steps);
  }

  lemma AfterStep(w: World, steps: seq<Step>, s: Step, flagFirst: bool)
    ensures After(w, steps + [s], flagFirst) == Next(After(w, steps, flagFirst), s, flagFirst)
    ensures NeverOverlaps(w, steps + [s], flagFirst) <==>
      NeverOverlaps(w, steps, flagFirst) && !Overlaps(After(w, steps, flagFirst), s)
  {
    assert (steps + [s])[..|steps|] == steps;
  }

  lemma AfterSteps(w: World, a: seq<Step>, b: seq<Step>, flagFirst: bool)
    ensures After(w, a + b, flagFirst) == After(After(w, a, flagFirst), b, flagFirst)
    ensures NeverOverlaps(w, a + b, flagFirst) <==>
      NeverOverlaps(w, a, flagFirst) && NeverOverlaps(After(w, a, flagFirst), b, flagFirst)
    decreases |b|
  {
    if b == [] {
      assert a + b == a;
    } else {
      assert (a + b)[..|a + b| - 1] == a + b[..|b| - 1];
      AfterSteps(w, a, b[..|b| - 1], flagFirst);
    }
  }

  /** Publishing that overlaps can leave an outdated payload: the broker's thread reads the state, the update
      is stored and published, and then the broker's thread hands over what it read. */
  lemma OvertakenMessageIsOutdated()
    ensures exists steps :: var w := After(Start(false, Offline, true), steps, true);
      IsQuiet(w) && w.payload == Some(Offline) && w.subject == Online
  {
    var w0 := Start(false, Offline, true);
    var connect := [ConnectCallback(true), BrokerStep(true), BrokerStep(true)];
    var store := [SetState(Online), UpdateStep(true), UpdateStep(true)];
    var publish := [UpdateStep(true), UpdateStep(true), BrokerStep(true)];
    var message := Message(Offline, 0);
    var w1 := w0.(hasConnection := true, broker := BrokerHands(message));
    var w2 := w1.(subject := Online, state := Online, stores := 1, update := Read);
    ThreeSteps(w0, connect, true);
    assert After(w0, connect, true) == w1;
    ThreeSteps(w1, store, true);
    assert After(w1, store, true) == w2;
    ThreeSteps(w2, publish, true);
    AfterSteps(w0, connect, store, true);
    AfterSteps(w0, connect + store, publish, true);
    assert After(w0, connect + store + publish, true).payload == Some(Offline);
  }

  /** If the callback notified before setting the flag, an update in between would be lost, even though
      nothing overlaps. */
  lemma NotifyingFirstLosesUpdates()
    ensures exists steps :: var w0 := Start(false, Offline, true); var w := After(w0, steps, false);
      NeverOverlaps(w0, steps, false) && IsQuiet(w) && w.payload == Some(Offline) && w.subject == Online
  {
    var w0 := Start(false, Offline, true);
    var notify := [ConnectCallback(true), BrokerStep(true), BrokerStep(true)];
    var update := [SetState(Online), UpdateStep(true), UpdateStep(true)];
    var w1 := w0.(payload := Some(Offline), last := Some(Message(Offline, 0)), broker := SetFlag(true));
    var w2 := w1.(subject := Online, state := Online, stores := 1);
    ThreeSteps(w0, notify, false);
    assert After(w0, notify, false) == w1;
    ThreeSteps(w1, update, false);
    assert After(w1, update, false) == w2;
    AfterSteps(w0, notify, update, false);
    AfterStep(w0, notify + update, BrokerStep(true), false);
    assert After(w0, notify + update + [BrokerStep(true)], false).payload == Some(Offline);
  }

  lemma ThreeSteps(w: World, s: seq<Step>, flagFirst: bool)
    requires |s| == 3
    ensures var a := Next(w, s[0], flagFirst); var b := Next(a, s[1], flagFirst);
      && After(w, s, flagFirst) == Next(b, s[2], flagFirst)
      && (NeverOverlaps(w, s, flagFirst) <==> !Overlaps(w, s[0]) && !Overlaps(a, s[1]) && !Overlaps(b, s[2]))
  {
    hide Next, Overlaps;
    assert s[..2][..1] == s[..1] && s[..1][..0] == [];
    assert After(w, [], flagFirst) == w && NeverOverlaps(w, [], flagFirst);
    assert After(w, s[..1], flagFirst) == Next(w, s[0], flagFirst);
    assert NeverOverlaps(w, s[..1], flagFirst) <==> !Overlaps(w, s[0]);
    assert After(w, s[..2], flagFirst) == Next(Next(w, s[0], flagFirst), s[1], flagFirst);
    assert NeverOverlaps(w, s[..2], flagFirst) <==>
      NeverOverlaps(w, s[..1], flagFirst) && !Overlaps(After(w, s[..1], flagFirst), s[1]);
  }
}
