/** The completion table of `MqttAsyncClient`: callers push the handlers of their operations, and the
    broker's thread takes them out again when an acknowledgement arrives. */
module MqttTable {
  import opened CppString

  datatype HandlerKind = ConnDisc | Completion

  /** A handler belongs to the operation that it was given to. */
  datatype Handler = Handler(kind: HandlerKind, operation: nat)

  type Table = map<int, Handler>

  const CONN_HANDLER_ID: int := -0x8000_0000 + 1
  const DISC_HANDLER_ID: int := -0x8000_0000 + 2

  predicate IsReserved(id: int) {
    id == CONN_HANDLER_ID || id == DISC_HANDLER_ID
  }

  /** A packet identifier of MQTT 3.1.1, section 2.3.1. */
  predicate IsMessageId(id: int) {
    1 <= id <= 65535
  }

  /** `std::map::insert` keeps what is there. */
  function Inserted(table: Table, id: int, handler: Handler): Table {
    if id in table then table else table[id := handler]
  }

  /** What a caller asks for, with the message identifier that the client library hands out. */
  datatype Request = Connect | Disconnect | Subscribe(mid: int) | Unsubscribe(mid: int) | Publish(mid: int)

  /** What the broker's thread reports. */
  datatype Event = OnConnect | OnDisconnect | OnSubscribe(mid: int) | OnUnsubscribe(mid: int) | OnPublish(mid: int)

  function RequestId(r: Request): int {
    match r
    case Connect => CONN_HANDLER_ID
    case Disconnect => DISC_HANDLER_ID
    case _ => r.mid
  }

  function RequestKind(r: Request): HandlerKind {
    if r == Connect || r == Disconnect then ConnDisc else Completion
  }

  function EventId(e: Event): int {
    match e
    case OnConnect => CONN_HANDLER_ID
    case OnDisconnect => DISC_HANDLER_ID
    case _ => e.mid
  }

  function EventKind(e: Event): HandlerKind {
    if e == OnConnect || e == OnDisconnect then ConnDisc else Completion
  }

  predicate HasMid(e: Event, mid: int) {
    match e
    case OnConnect => false
    case OnDisconnect => false
    case OnSubscribe(m) => m == mid
    case OnUnsubscribe(m) => m == mid
    case OnPublish(m) => m == mid
  }

  /** An acknowledgement is for the connection, for its end, or for what bears its message identifier. */
  predicate Answers(r: Request, e: Event) {
    match r
    case Connect => e == OnConnect
    case Disconnect => e == OnDisconnect
    case Subscribe(mid) => HasMid(e, mid)
    case Unsubscribe(mid) => HasMid(e, mid)
    case Publish(mid) => HasMid(e, mid)
  }

  /** Two requests that no event tells apart. */
  ghost predicate AreRivals(r: Request, q: Request) {
    exists e :: Answers(r, e) && Answers(q, e)
  }

  /** Where the handler of an operation is. `Dropped` handlers are destroyed without having been called. */
  datatype Stage = ErrorPosted | AwaitingPush | InTable | Taken(caller: HandlerKind) | Dispatched | Dropped

  /** An operation that a caller initiated; `posts` counts how often its handler was posted. */
  datatype Operation = Operation(request: Request, id: int, kind: HandlerKind, stage: Stage, posts: nat)

  datatype World = World(operations: seq<Operation>, table: Table)

  /** The steps of all threads. A caller's two steps, and the two of an acknowledgement, have a lock
      between them or let go of it, so others may come in between. */
  datatype Step =
    | Initiate(request: Request, accepted: bool)
    | Push(operation: nat)
    | Acknowledge(event: Event)
    | Call(operation: nat)

  const START := World([], map[])

  predicate Enabled(w: World, s: Step) {
    match s
    case Initiate(r, _) => r == Connect || r == Disconnect || IsMessageId(r.mid)
    case Push(o) => o < |w.operations| && w.operations[o].stage == AwaitingPush
    case Acknowledge(e) => e == OnConnect || e == OnDisconnect || IsMessageId(e.mid)
    case Call(o) => o < |w.operations| && w.operations[o].stage.Taken?
  }

  function WithStage(w: World, o: nat, stage: Stage): World
    requires o < |w.operations|
  {
    w.(operations := w.operations[o := w.operations[o].(stage := stage)])
  }

  function Posted(w: World, o: nat, stage: Stage): World
    requires o < |w.operations|
  {
    w.(operations := w.operations[o := w.operations[o].(stage := stage, posts := w.operations[o].posts + 1)])
  }

  function Next(w: World, s: Step): World {
    if !Enabled(w, s) then w else
    match s
    case Initiate(r, accepted) =>
      w.(operations := w.operations +
        [if accepted then Operation(r, RequestId(r), RequestKind(r), AwaitingPush, 0)
         else Operation(r, RequestId(r), RequestKind(r), ErrorPosted, 1)])
    case Push(o) =>
      var op := w.operations[o];
      WithStage(w, o, if op.id in w.table then Dropped else InTable)
        .(table := Inserted(w.table, op.id, Handler(op.kind, o)))
    case Acknowledge(e) =>
      var id := EventId(e);
      if id in w.table && w.table[id].operation < |w.operations| then
        WithStage(w, w.table[id].operation, Taken(EventKind(e))).(table := w.table - {id})
      else w
    case Call(o) =>
      if w.operations[o].stage.caller == w.operations[o].kind then Posted(w, o, Dispatched)
      else WithStage(w, o, Dropped)
  }

  function After(steps: seq<Step>): World
    decreases |steps|
  {
    if steps == [] then START else Next(After(steps[..|steps| - 1]), steps[|steps| - 1])
  }

  /** Every step of the run is one that some thread can take. */
  predicate IsRun(steps: seq<Step>) {
    forall k | 0 <= k < |steps| :: Enabled(After(steps[..k]), steps[k])
  }

  /** What holds at all times: the table is the operations in it, reserved identifiers belong to
      connection handlers, and a handler was posted exactly when its operation is over. */
  predicate Consistent(w: World) {
    && (forall id | id in w.table :: HoldsOperation(w, id))
    && (forall o | 0 <= o < |w.operations| :: IsConsistent(w, o))
  }

  predicate HoldsOperation(w: World, id: int) {
    id in w.table &&
    var h := w.table[id];
    && h.operation < |w.operations|
    && w.operations[h.operation].stage == InTable
    && w.operations[h.operation].id == id
    && w.operations[h.operation].kind == h.kind
  }

  predicate IsConsistent(w: World, o: nat)
    requires o < |w.operations|
  {
    var op := w.operations[o];
    && op.id == RequestId(op.request)
    && (op.request == Connect || op.request == Disconnect || IsMessageId(op.request.mid))
    && op.kind == (if IsReserved(op.id) then ConnDisc else Completion)
    && (op.stage == InTable ==> op.id in w.table && w.table[op.id].operation == o)
    && (op.stage.Taken? ==> op.stage.caller == op.kind)
    && op.posts == (if op.stage == ErrorPosted || op.stage == Dispatched then 1 else 0)
  }

  lemma NextKeepsConsistent(w: World, s: Step)
    requires Consistent(w)
    ensures Consistent(Next(w, s))
  {
    var after := Next(w, s);
    forall id | id in after.table
      ensures HoldsOperation(after, id)
    {
      assert id in w.table ==> HoldsOperation(w, id);
    }
    forall o | 0 <= o < |after.operations|
      ensures IsConsistent(after, o)
    {
      assert o < |w.operations| ==> IsConsistent(w, o);
      if s.Acknowledge? && EventId(s.event) in w.table {
        assert HoldsOperation(w, EventId(s.event));
      }
    }
  }

  lemma {:induction false} RunsAreConsistent(steps: seq<Step>)
    ensures Consistent(After(steps))
    decreases |steps|
  {
    if steps != [] {
      RunsAreConsistent(steps[..|steps| - 1]);
      NextKeepsConsistent(After(steps[..|steps| - 1]), steps[|steps| - 1]);
    }
  }

  /** What the executors were given: each handler as often as its operation says. */
  predicate ArePosted(w: World, posted: seq<Handler>) {
    && (forall h | h in posted :: h.operation < |w.operations| && h.kind == w.operations[h.operation].kind)
    && (forall o | 0 <= o < |w.operations| ::
          multiset(posted)[Handler(w.operations[o].kind, o)] == w.operations[o].posts)
  }

  /** No handler is given to its executor twice. */
  lemma NothingIsPostedTwice(w: World, posted: seq<Handler>, i: nat, j: nat)
    requires Consistent(w) && ArePosted(w, posted) && i < j < |posted|
    ensures posted[i] != posted[j]
  {
    var h := posted[i];
    assert h in posted && IsConsistent(w, h.operation);
    assert posted == posted[..j] + posted[j..];
    assert multiset(posted) == multiset(posted[..j]) + multiset(posted[j..]);
    assert posted[..j][i] == h;
    assert posted[j] == posted[j..][0];
  }

  lemma PostedOnce(w: World, posted: seq<Handler>, h: Handler, s: Step)
    requires Consistent(w) && ArePosted(w, posted) && Enabled(w, s)
    requires var after := Next(w, s);
      h.operation < |after.operations| && h.kind == after.operations[h.operation].kind
    requires s.Initiate? ==> !s.accepted && h.operation == |w.operations|
    requires !s.Initiate? ==> s == Call(h.operation) && w.operations[h.operation].stage == Taken(h.kind)
    ensures ArePosted(Next(w, s), posted + [h])
  {
    var after := Next(w, s);
    assert multiset(posted + [h]) == multiset(posted)[h := multiset(posted)[h] + 1];
    if s.Initiate? {
      assert h !in posted;
    }
  }

  lemma NothingPosted(w: World, posted: seq<Handler>, s: Step)
    requires ArePosted(w, posted) && (s.Push? || s.Acknowledge? || (s.Initiate? && s.accepted))
    ensures ArePosted(Next(w, s), posted)
  {
    if s.Initiate? && Enabled(w, s) {
      assert Handler(RequestKind(s.request), |w.operations|) !in posted;
    }
  }

  /** The client itself. Its table is the one of the world, and every method takes one step of it. */
  class MqttAsyncClient {
    var handlers: Table
    /** The handlers given to their executors. */
    var posted: seq<Handler>
    ghost var world: World

    ghost predicate Valid()
      reads this
    {
      handlers == world.table && Consistent(world) && ArePosted(world, posted)
    }

    constructor ()
      ensures Valid() && world == START
    {
      handlers := map[];
      posted := [];
      world := START;
    }

    /** A caller's first step, for its operation `operation`: if the library refuses the request, the handler is
        posted with the error. Otherwise the handler is the one to push, under the identifier that is returned. */
    method Request(r: Request, accepted: bool, operation: nat) returns (id: int, handler: Handler)
      requires Valid() && Enabled(world, Initiate(r, accepted)) && operation == |world.operations|
      modifies this
      ensures Valid() && world == Next(old(world), Initiate(r, accepted))
      ensures handlers == old(handlers) && handler.operation == operation
      ensures posted == if accepted then old(posted) else old(posted) + [handler]
      ensures accepted ==>
        && Enabled(world, Push(operation))
        && world.operations[operation].id == id && world.operations[operation].kind == handler.kind
      ensures IsReserved(id) <==> handler.kind == ConnDisc
    {
      NextKeepsConsistent(world, Initiate(r, accepted));
      match r {
        case Connect =>
          id, handler := CONN_HANDLER_ID, Handler(ConnDisc, operation);
        case Disconnect =>
          id, handler := DISC_HANDLER_ID, Handler(ConnDisc, operation);
        case Subscribe(mid) =>
          id, handler := mid, Handler(Completion, operation);
        case Unsubscribe(mid) =>
          id, handler := mid, Handler(Completion, operation);
        case Publish(mid) =>
          id, handler := mid, Handler(Completion, operation);
      }
      if !accepted {
        PostedOnce(world, posted, handler, Initiate(r, accepted));
        posted := posted + [handler];
      } else {
        NothingPosted(world, posted, Initiate(r, accepted));
      }
      world := Next(world, Initiate(r, accepted));
    }

    /** A caller's second step, under the lock. What is in the table stays there. */
    method PushHandler(id: int, handler: Handler)
      requires Valid() && Enabled(world, Push(handler.operation))
      requires world.operations[handler.operation].id == id && world.operations[handler.operation].kind == handler.kind
      modifies this
      ensures Valid() && world == Next(old(world), Push(handler.operation))
      ensures world.operations[handler.operation].stage == InTable <==> id !in old(handlers)
      ensures forall i | i in old(handlers) :: i in handlers && handlers[i] == old(handlers)[i]
      ensures posted == old(posted)
    {
      NextKeepsConsistent(world, Push(handler.operation));
      NothingPosted(world, posted, Push(handler.operation));
      if id !in handlers {
        handlers := handlers[id := handler];
      }
      world := Next(world, Push(handler.operation));
    }

    /** The broker's first step, under the lock. */
    method TakeHandler(e: Event) returns (handler: Option<Handler>)
      requires Valid() && Enabled(world, Acknowledge(e))
      modifies this
      ensures Valid() && world == Next(old(world), Acknowledge(e))
      ensures handler.None? ==>
        handlers == old(handlers) && forall o | 0 <= o < |world.operations| && world.operations[o].stage == InTable ::
          !Answers(world.operations[o].request, e)
      ensures handler.Some? ==>
        && handler.value.operation < |old(world).operations| == |world.operations|
        && Answers(world.operations[handler.value.operation].request, e)
        && old(world).operations[handler.value.operation].stage == InTable
        && (exists id :: id in old(handlers) && old(handlers)[id] == handler.value && handlers == old(handlers) - {id})
        && Enabled(world, Call(handler.value.operation))
        && world.operations[handler.value.operation].stage == Taken(EventKind(e))
        && world.operations[handler.value.operation].kind == handler.value.kind
      ensures posted == old(posted)
    {
      NextKeepsConsistent(world, Acknowledge(e));
      NothingPosted(world, posted, Acknowledge(e));
      assert EventId(e) in handlers ==> HoldsOperation(world, EventId(e));
      AnswersById(world, e);
      handler := if EventId(e) in handlers then Some(handlers[EventId(e)]) else None;
      handlers := handlers - {EventId(e)};
      world := Next(world, Acknowledge(e));
    }

    /** The broker's second step, without the lock: the cast to the kind that the event calls never fails, and
        the handler is given to its executor. */
    method CallTaken(handler: Handler, kind: HandlerKind)
      requires Valid() && Enabled(world, Call(handler.operation))
      requires world.operations[handler.operation].stage == Taken(kind)
      requires world.operations[handler.operation].kind == handler.kind
      modifies this
      ensures Valid() && world == Next(old(world), Call(handler.operation))
      ensures world.operations[handler.operation].stage == Dispatched
      ensures posted == old(posted) + [handler] && handlers == old(handlers)
    {
      NextKeepsConsistent(world, Call(handler.operation));
      assert IsConsistent(world, handler.operation);
      PostedOnce(world, posted, handler, Call(handler.operation));
      if handler.kind == kind {
        posted := posted + [handler];
      }
      world := Next(world, Call(handler.operation));
    }
  }

  /** The handler of an operation was pushed at step `i`, onto a free or a taken identifier. */
  predicate PushedAt(steps: seq<Step>, o: nat, id: int, i: nat, free: bool) {
    i < |steps| && steps[i] == Push(o) && (free <==> id !in After(steps[..i]).table)
  }

  ghost predicate Stored(steps: seq<Step>, o: nat, id: int) {
    exists i: nat :: PushedAt(steps, o, id, i, true)
  }

  ghost predicate Refused(steps: seq<Step>, o: nat, id: int) {
    exists i: nat :: PushedAt(steps, o, id, i, false)
  }

  /** An acknowledgement came after the handler was stored. */
  ghost predicate Acknowledged(steps: seq<Step>, o: nat, id: int) {
    exists i: nat, j: nat :: PushedAt(steps, o, id, i, true) && AcknowledgedAt(steps, id, i, j)
  }

  predicate AcknowledgedAt(steps: seq<Step>, id: int, i: nat, j: nat) {
    i < j < |steps| && steps[j].Acknowledge? && EventId(steps[j].event) == id
  }

  predicate IsOver(stage: Stage) {
    stage.Taken? || stage == Dispatched
  }

  ghost predicate FateById(steps: seq<Step>, o: nat)
    requires o < |After(steps).operations|
  {
    var op := After(steps).operations[o];
    && (op.stage == Dropped <==> Refused(steps, o, op.id))
    && (op.stage == InTable || IsOver(op.stage) <==> Stored(steps, o, op.id))
    && (IsOver(op.stage) <==> Acknowledged(steps, o, op.id))
  }

  lemma StoredByStep(steps: seq<Step>, s: Step, o: nat, id: int)
    ensures Stored(steps + [s], o, id) <==> Stored(steps, o, id) || (s == Push(o) && id !in After(steps).table)
    ensures Refused(steps + [s], o, id) <==> Refused(steps, o, id) || (s == Push(o) && id in After(steps).table)
  {
    forall i: nat, free: bool
      ensures PushedAt(steps + [s], o, id, i, free) <==>
        PushedAt(steps, o, id, i, free) ||
        (i == |steps| && s == Push(o) && (free <==> id !in After(steps).table))
    {
      assert i <= |steps| ==> (steps + [s])[..i] == steps[..i];
      assert steps[..|steps|] == steps;
    }
    if s == Push(o) {
      assert PushedAt(steps + [s], o, id, |steps|, id !in After(steps).table);
    }
  }

  lemma AcknowledgedByStep(steps: seq<Step>, s: Step, o: nat, id: int)
    ensures Acknowledged(steps + [s], o, id) <==>
      Acknowledged(steps, o, id) || (Stored(steps, o, id) && s.Acknowledge? && EventId(s.event) == id)
  {
    var more := steps + [s];
    forall i: nat | i < |steps|
      ensures PushedAt(more, o, id, i, true) <==> PushedAt(steps, o, id, i, true)
    {
      assert more[..i] == steps[..i];
    }
    if Acknowledged(more, o, id) {
      var i: nat, j: nat :| PushedAt(more, o, id, i, true) && AcknowledgedAt(more, id, i, j);
      assert PushedAt(steps, o, id, i, true);
      assert j < |steps| ==> AcknowledgedAt(steps, id, i, j);
    }
    if Acknowledged(steps, o, id) {
      var i: nat, j: nat :| PushedAt(steps, o, id, i, true) && AcknowledgedAt(steps, id, i, j);
      assert PushedAt(more, o, id, i, true) && AcknowledgedAt(more, id, i, j);
    }
    if Stored(steps, o, id) && s.Acknowledge? && EventId(s.event) == id {
      var i: nat :| PushedAt(steps, o, id, i, true);
      assert PushedAt(more, o, id, i, true) && AcknowledgedAt(more, id, i, |steps|);
    }
  }

  lemma {:induction false} OperationsGrow(steps: seq<Step>, k: nat)
    requires k <= |steps|
    ensures |After(steps[..k]).operations| <= |After(steps).operations|
    decreases |steps|
  {
    if k < |steps| {
      OperationsGrow(steps[..|steps| - 1], k);
      assert steps[..|steps| - 1][..k] == steps[..k];
    } else {
      assert steps[..k] == steps;
    }
  }

  /** Nothing is pushed for an operation that has not been initiated. */
  lemma NotPushedYet(steps: seq<Step>, o: nat, id: int)
    requires IsRun(steps) && o >= |After(steps).operations|
    ensures !Stored(steps, o, id) && !Refused(steps, o, id) && !Acknowledged(steps, o, id)
  {
    forall i: nat, free: bool
      ensures !PushedAt(steps, o, id, i, free)
    {
      if PushedAt(steps, o, id, i, free) {
        assert Enabled(After(steps[..i]), steps[i]);
        OperationsGrow(steps, i);
      }
    }
  }

  lemma PrefixIsRun(steps: seq<Step>)
    requires IsRun(steps) && steps != []
    ensures IsRun(steps[..|steps| - 1]) && Enabled(After(steps[..|steps| - 1]), steps[|steps| - 1])
  {
    var prefix := steps[..|steps| - 1];
    forall k | 0 <= k < |prefix|
      ensures Enabled(After(prefix[..k]), prefix[k])
    {
      assert prefix[..k] == steps[..k];
    }
  }

  /** What one step does to one handler. */
  lemma StepMovesHandler(w: World, s: Step, o: nat)
    requires Consistent(w) && Enabled(w, s) && o < |w.operations|
    ensures |Next(w, s).operations| >= |w.operations|
    ensures var op, after := w.operations[o], Next(w, s).operations[o];
      && after.id == op.id
      && (after.stage == Dropped <==> op.stage == Dropped || (s == Push(o) && op.id in w.table))
      && (after.stage == InTable || IsOver(after.stage) <==>
            op.stage == InTable || IsOver(op.stage) || (s == Push(o) && op.id !in w.table))
      && (IsOver(after.stage) <==>
            IsOver(op.stage) || (op.stage == InTable && s.Acknowledge? && EventId(s.event) == op.id))
  {
    assert IsConsistent(w, o);
    if s.Acknowledge? && EventId(s.event) in w.table {
      assert HoldsOperation(w, EventId(s.event));
    }
    if s.Call? {
      assert IsConsistent(w, s.operation);
    }
  }

  /** A handler begins outside of the table. */
  lemma StepAddsHandler(w: World, s: Step, o: nat)
    requires Enabled(w, s) && |w.operations| <= o < |Next(w, s).operations|
    ensures var stage := Next(w, s).operations[o].stage; stage == ErrorPosted || stage == AwaitingPush
    ensures !s.Push? && !s.Acknowledge?
  {
  }

  lemma FateByStep(prefix: seq<Step>, s: Step, o: nat)
    requires IsRun(prefix) && Enabled(After(prefix), s) && o < |After(prefix + [s]).operations|
    requires o < |After(prefix).operations| ==> FateById(prefix, o)
    ensures FateById(prefix + [s], o)
  {
    hide Next, Enabled, Consistent, After, Stored, Refused, Acknowledged, IsRun;
    var w, id := After(prefix), After(prefix + [s]).operations[o].id;
    AfterStep(prefix, s);
    RunsAreConsistent(prefix);
    StoredByStep(prefix, s, o, id);
    AcknowledgedByStep(prefix, s, o, id);
    if o < |w.operations| {
      StepMovesHandler(w, s, o);
    } else {
      NotPushedYet(prefix, o, id);
      StepAddsHandler(w, s, o);
    }
  }

  lemma {:induction false} FateIsDecided(steps: seq<Step>, o: nat)
    requires IsRun(steps) && o < |After(steps).operations|
    ensures FateById(steps, o)
    decreases |steps|
  {
    assert steps != [];
    hide Next, Enabled, IsRun, FateById;
    var prefix, s := steps[..|steps| - 1], steps[|steps| - 1];
    PrefixIsRun(steps);
    if o < |After(prefix).operations| {
      FateIsDecided(prefix, o);
    }
    assert steps == prefix + [s];
    FateByStep(prefix, s, o);
  }

  /** No handler in the table waits for an event that this request waits for. */
  ghost predicate IsUnrivaled(w: World, r: Request) {
    forall p | 0 <= p < |w.operations| && w.operations[p].stage == InTable :: !AreRivals(r, w.operations[p].request)
  }

  ghost predicate PushedOnto(steps: seq<Step>, o: nat, r: Request, i: nat, free: bool) {
    i < |steps| && steps[i] == Push(o) && (free <==> IsUnrivaled(After(steps[..i]), r))
  }

  predicate AnsweredAt(steps: seq<Step>, r: Request, i: nat, j: nat) {
    i < j < |steps| && steps[j].Acknowledge? && Answers(r, steps[j].event)
  }

  /** Where every handler ends up, over all interleavings: it is dropped exactly when a rival was in the table
      when it was pushed; otherwise it is handed out exactly when an event that answers its request came after
      its push, and stays in the table when the only ones came before. */
  ghost predicate Fate(steps: seq<Step>, o: nat)
    requires o < |After(steps).operations|
  {
    var op := After(steps).operations[o];
    && (op.stage == Dropped <==> exists i: nat :: PushedOnto(steps, o, op.request, i, false))
    && (op.stage == InTable || IsOver(op.stage) <==> exists i: nat :: PushedOnto(steps, o, op.request, i, true))
    && (IsOver(op.stage) <==>
          exists i: nat, j: nat :: PushedOnto(steps, o, op.request, i, true) && AnsweredAt(steps, op.request, i, j))
  }

  lemma EventIdAnswers(r: Request, e: Event)
    requires r == Connect || r == Disconnect || IsMessageId(r.mid)
    requires e == OnConnect || e == OnDisconnect || IsMessageId(e.mid)
    ensures Answers(r, e) <==> RequestId(r) == EventId(e)
  {
  }

  /** The identifier of an event leads to the handler that waits for it, if there is one. */
  lemma AnswersById(w: World, e: Event)
    requires Consistent(w) && Enabled(w, Acknowledge(e))
    ensures EventId(e) in w.table ==>
      var o := w.table[EventId(e)].operation;
      o < |w.operations| && w.operations[o].stage == InTable && Answers(w.operations[o].request, e)
    ensures EventId(e) !in w.table ==>
      forall o | 0 <= o < |w.operations| && w.operations[o].stage == InTable :: !Answers(w.operations[o].request, e)
  {
    hide EventId, Answers, RequestId;
    forall o | 0 <= o < |w.operations|
      ensures Answers(w.operations[o].request, e) <==> w.operations[o].id == EventId(e)
    {
      assert IsConsistent(w, o);
      EventIdAnswers(w.operations[o].request, e);
    }
    if EventId(e) in w.table {
      assert HoldsOperation(w, EventId(e));
    } else {
      forall o | 0 <= o < |w.operations| && w.operations[o].stage == InTable
        ensures w.operations[o].id != EventId(e)
      {
        assert IsConsistent(w, o);
      }
    }
  }

  lemma RivalsById(r: Request, q: Request)
    requires r == Connect || r == Disconnect || IsMessageId(r.mid)
    requires q == Connect || q == Disconnect || IsMessageId(q.mid)
    ensures AreRivals(r, q) <==> RequestId(r) == RequestId(q)
  {
    var e := if r == Connect then OnConnect else if r == Disconnect then OnDisconnect else OnPublish(r.mid);
    assert Answers(r, e);
    if RequestId(r) == RequestId(q) {
      assert Answers(q, e);
    }
  }

  lemma UnrivaledById(w: World, r: Request)
    requires Consistent(w) && (r == Connect || r == Disconnect || IsMessageId(r.mid))
    ensures IsUnrivaled(w, r) <==> RequestId(r) !in w.table
  {
    hide RequestId, AreRivals;
    forall p | 0 <= p < |w.operations|
      ensures AreRivals(r, w.operations[p].request) <==> RequestId(r) == w.operations[p].id
      ensures w.operations[p].stage == InTable ==> w.operations[p].id in w.table
    {
      assert IsConsistent(w, p);
      RivalsById(r, w.operations[p].request);
    }
    if RequestId(r) in w.table {
      assert HoldsOperation(w, RequestId(r));
    }
  }

  lemma PushedById(steps: seq<Step>, o: nat, r: Request, i: nat, free: bool)
    requires r == Connect || r == Disconnect || IsMessageId(r.mid)
    ensures PushedOnto(steps, o, r, i, free) <==> PushedAt(steps, o, RequestId(r), i, free)
  {
    if i < |steps| {
      RunsAreConsistent(steps[..i]);
      UnrivaledById(After(steps[..i]), r);
    }
  }

  lemma AnsweredById(steps: seq<Step>, r: Request, i: nat, j: nat)
    requires IsRun(steps) && (r == Connect || r == Disconnect || IsMessageId(r.mid))
    ensures AnsweredAt(steps, r, i, j) <==> AcknowledgedAt(steps, RequestId(r), i, j)
  {
    hide EventId, Answers, RequestId;
    if j < |steps| && steps[j].Acknowledge? {
      assert Enabled(After(steps[..j]), steps[j]);
      EventIdAnswers(r, steps[j].event);
    }
  }

  lemma EveryHandlerMeetsItsFate(steps: seq<Step>, o: nat)
    requires IsRun(steps) && o < |After(steps).operations|
    ensures Fate(steps, o)
  {
    var op := After(steps).operations[o];
    FateIsDecided(steps, o);
    RunsAreConsistent(steps);
    assert IsConsistent(After(steps), o);
    hide After, PushedAt, PushedOnto, AnsweredAt, AcknowledgedAt, IsRun, RequestId, Consistent;
    forall i: nat, free: bool
      ensures PushedOnto(steps, o, op.request, i, free) <==> PushedAt(steps, o, op.id, i, free)
    {
      PushedById(steps, o, op.request, i, free);
    }
    forall i: nat, j: nat
      ensures AnsweredAt(steps, op.request, i, j) <==> AcknowledgedAt(steps, op.id, i, j)
    {
      AnsweredById(steps, op.request, i, j);
    }
  }

  /** Over all interleavings, a handler is posted at most once: with its error, or when it was handed out. */
  lemma PostedAtMostOnce(steps: seq<Step>, o: nat)
    requires IsRun(steps) && o < |After(steps).operations|
    ensures var op := After(steps).operations[o];
      && op.posts <= 1
      && (op.posts == 1 <==> op.stage == ErrorPosted || op.stage == Dispatched)
      && (op.stage.Taken? ==> op.stage.caller == op.kind)
  {
    RunsAreConsistent(steps);
    assert IsConsistent(After(steps), o);
  }

  /** The operation's handler is in the table, or will be. */
  predicate IsOutstanding(op: Operation) {
    op.stage == AwaitingPush || op.stage == InTable
  }

  predicate IsFree(w: World, id: int) {
    forall o | 0 <= o < |w.operations| && IsOutstanding(w.operations[o]) :: w.operations[o].id != id
  }

  /** The identifier of an accepted request is not that of an operation that is still outstanding. */
  predicate IdsAreNotReused(steps: seq<Step>) {
    forall k | 0 <= k < |steps| && steps[k].Initiate? && steps[k].accepted ::
      IsFree(After(steps[..k]), RequestId(steps[k].request))
  }

  predicate IdsAreDistinct(w: World) {
    && (forall o, p | 0 <= o < p < |w.operations| && IsOutstanding(w.operations[o]) && IsOutstanding(w.operations[p]) ::
          w.operations[o].id != w.operations[p].id)
    && (forall o | 0 <= o < |w.operations| :: w.operations[o].stage != Dropped)
  }

  lemma NextKeepsIdsDistinct(w: World, s: Step)
    requires Consistent(w) && IdsAreDistinct(w)
    requires s.Initiate? && s.accepted ==> IsFree(w, RequestId(s.request))
    ensures IdsAreDistinct(Next(w, s))
  {
    if s.Push? && Enabled(w, s) {
      var id := w.operations[s.operation].id;
      assert id in w.table ==> HoldsOperation(w, id);
    } else if s.Call? && Enabled(w, s) {
      assert IsConsistent(w, s.operation);
    } else if s.Acknowledge? && EventId(s.event) in w.table {
      assert HoldsOperation(w, EventId(s.event));
    }
  }

  /** Runs leave callers and broker free: behind every run may come any request and any event, with any packet
      identifier, and the push of any accepted request. */
  lemma AnyStepMayCome(steps: seq<Step>, r: Request, accepted: bool, e: Event, o: nat)
    requires IsRun(steps)
    requires r == Connect || r == Disconnect || 1 <= r.mid <= 65535
    requires e == OnConnect || e == OnDisconnect || 1 <= e.mid <= 65535
    ensures IsRun(steps + [Initiate(r, accepted)]) && IsRun(steps + [Acknowledge(e)])
    ensures o < |After(steps).operations| && After(steps).operations[o].stage == AwaitingPush ==>
      IsRun(steps + [Push(o)])
  {
    RunExtended(steps, Initiate(r, accepted));
    RunExtended(steps, Acknowledge(e));
    RunExtended(steps, Push(o));
  }

  lemma RunExtended(steps: seq<Step>, s: Step)
    requires IsRun(steps)
    ensures Enabled(After(steps), s) ==> IsRun(steps + [s])
  {
    hide After, Enabled;
    var more := steps + [s];
    forall k | 0 <= k < |more| && Enabled(After(steps), s)
      ensures Enabled(After(more[..k]), more[k])
    {
      assert more[..k] == steps[..k];
      assert steps[..|steps|] == steps;
    }
  }

  /** Without reuse no handler is lost: each one was posted with its error, waits for its push or its
      acknowledgement, is being called, or was called once. */
  lemma {:induction false} NoHandlerIsDropped(steps: seq<Step>)
    requires IdsAreNotReused(steps)
    ensures IdsAreDistinct(After(steps))
    decreases |steps|
  {
    if steps != [] {
      var prefix := steps[..|steps| - 1];
      forall k | 0 <= k < |prefix| && prefix[k].Initiate? && prefix[k].accepted
        ensures IsFree(After(prefix[..k]), RequestId(prefix[k].request))
      {
        assert prefix[..k] == steps[..k] && prefix[k] == steps[k];
      }
      NoHandlerIsDropped(prefix);
      RunsAreConsistent(prefix);
      NextKeepsIdsDistinct(After(prefix), steps[|steps| - 1]);
    }
  }

  /** Two connects before the first is acknowledged share their identifier: the second handler is never called. */
  lemma SecondConnectIsDropped()
    ensures var steps := [Initiate(Connect, true), Push(0), Initiate(Connect, true), Push(1)];
      && IsRun(steps) && After(steps).operations[1].stage == Dropped
  {
    var steps := [Initiate(Connect, true), Push(0), Initiate(Connect, true), Push(1)];
    assert steps[..1] == [] + [steps[0]] && steps[..2] == steps[..1] + [steps[1]];
    assert steps[..3] == steps[..2] + [steps[2]] && steps == steps[..3] + [steps[3]];
    AfterStep([], steps[0]);
    AfterStep(steps[..1], steps[1]);
    AfterStep(steps[..2], steps[2]);
    AfterStep(steps[..3], steps[3]);
  }

  /** An acknowledgement that overtakes the push leaves the handler in the table. */
  lemma EarlyAcknowledgementIsMissed(mid: int)
    requires IsMessageId(mid)
    ensures var steps := [Initiate(Publish(mid), true), Acknowledge(OnPublish(mid)), Push(0)];
      && IsRun(steps) && After(steps).operations[0].stage == InTable
  {
    var steps := [Initiate(Publish(mid), true), Acknowledge(OnPublish(mid)), Push(0)];
    AfterStep([], steps[0]);
    AfterStep(steps[..1], steps[1]);
    AfterStep(steps[..2], steps[2]);
  }

  lemma AfterStep(steps: seq<Step>, s: Step)
    ensures After(steps + [s]) == Next(After(steps), s)
  {
    assert (steps + [s])[..|steps|] == steps;
  }
}
