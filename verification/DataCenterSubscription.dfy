/**
 Subscriptions: a snapshot followed by a stream, with a bounded queue per subscriber that drops its
 oldest update when it is full (src/DataCenter/DataCenterGrpcService.cc). Registering, taking the
 snapshot, publishing and queueing all happen under the service's mutex, and taking from a queue
 under the subscriber's own, so each is one step here.
 */
module DataCenterSubscription {
  import opened Wrappers
  import opened DataCenterModel
  import opened DataCenterPublish
  import opened DataCenterInvariant

  const MAX_QUEUE_SIZE := 10000

  /** `base` is the snapshot. `matched`, `delivered` and `positions` are history: the updates published
      for the subscriber while it was open, those written to its stream, and where the latter stand
      in the former. */
  datatype Sub = Sub(
    connId: Id,
    filter: set<string>,
    base: map<Endpoint, Update>,
    queue: seq<Update>,
    dropped: nat,
    closed: bool,
    matched: seq<Update>,
    delivered: seq<Update>,
    positions: seq<nat>)

  predicate Wants(sub: Sub, u: Update) {
    InFilter(Target(u), sub.connId, sub.filter)
  }

  /** How many updates must go to make room for one more. */
  function Surplus(sub: Sub): nat {
    if |sub.queue| >= MAX_QUEUE_SIZE then |sub.queue| - MAX_QUEUE_SIZE + 1 else 0
  }

  function Queued(sub: Sub, u: Update): Sub {
    if sub.closed then sub
    else sub.(queue := sub.queue[Surplus(sub)..] + [u], dropped := sub.dropped + Surplus(sub),
              matched := sub.matched + [u])
  }

  function EnqueueAll(sub: Sub, updates: seq<Update>): Sub {
    if updates == [] then sub
    else
      var before := EnqueueAll(sub, updates[..|updates| - 1]);
      var u := updates[|updates| - 1];
      if Wants(sub, u) then Queued(before, u) else before
  }

  function Take(sub: Sub): Sub
    requires |sub.queue| > 0 && |sub.queue| <= |sub.matched|
  {
    sub.(queue := sub.queue[1..],
         delivered := sub.delivered + [sub.queue[0]],
         positions := sub.positions + [|sub.matched| - |sub.queue|])
  }

  function Open(s: State, connId: Id, filter: set<string>): Sub {
    Sub(connId, filter, Latest(s.latestByDst, connId, filter), [], 0, false, [], [], [])
  }

  // ---------- one queue ----------

  /** The queue is the end of what was published for the subscriber; every update was either written
      in order, or dropped, or waits. */
  ghost predicate QueueInv(sub: Sub) {
    && |sub.queue| <= MAX_QUEUE_SIZE
    && |sub.delivered| + sub.dropped + |sub.queue| == |sub.matched|
    && sub.queue == sub.matched[|sub.matched| - |sub.queue|..]
    && |sub.positions| == |sub.delivered|
    && (forall i :: 0 <= i < |sub.positions| ==>
          && sub.positions[i] < |sub.matched| - |sub.queue| && sub.delivered[i] == sub.matched[sub.positions[i]])
    && (forall i, j :: 0 <= i < j < |sub.positions| ==> sub.positions[i] < sub.positions[j])
    && (sub.dropped == 0 ==> sub.delivered + sub.queue == sub.matched)
  }

  lemma {:induction false} EnqueueAllKeeps(sub: Sub, updates: seq<Update>)
    requires QueueInv(sub)
    ensures QueueInv(EnqueueAll(sub, updates))
    ensures SameView(sub, EnqueueAll(sub, updates))
  {
    if updates != [] {
      EnqueueAllKeeps(sub, updates[..|updates| - 1]);
    }
  }

  predicate SameView(sub: Sub, after: Sub) {
    sub.connId == after.connId && sub.filter == after.filter && sub.base == after.base && sub.closed == after.closed
  }

  // ---------- the service ----------

  datatype Service = Service(core: State, subs: map<nat, Sub>)

  datatype Event =
    | CoreStep(op: Op)
    | Subscribe(id: nat, connId: Id, filter: set<string>)
    | Deliver(id: nat)
    | Leave(id: nat)

  ghost predicate Possible(v: Service, e: Event) {
    match e
    case CoreStep(op) => Enabled(v.core, op)
    case Subscribe(id, connId, filter) => id !in v.subs && connId != 0 && "" !in filter
    case Deliver(id) => id in v.subs && !v.subs[id].closed && |v.subs[id].queue| > 0 &&
        |v.subs[id].queue| <= |v.subs[id].matched|
    case Leave(id) => id in v.subs
  }

  /** The updates an operation publishes. Only the two publishes have any. */
  function Sent(s: State, op: Op): seq<Update> {
    match op
    case OpPublish(p, order) => (match Publish(s, p, order) case Success(r) => r.1 case Failure(_) => [])
    case OpBatchPublish(ps, order) => (match BatchPublish(s, ps, order) case Success(r) => r.1 case Failure(_) => [])
    case _ => []
  }

  /** Deleting a connection closes its subscribers. */
  predicate Closes(s: State, op: Op, sub: Sub) {
    op.OpDelete? && DeleteConnection(s, op.key).Success? && s.idsByKey[op.key] == sub.connId
  }

  function Served(s: State, op: Op, sub: Sub): Sub {
    if Closes(s, op, sub) then sub.(closed := true) else EnqueueAll(sub, Sent(s, op))
  }

  function After(v: Service, e: Event): Service
    requires Possible(v, e)
  {
    match e
    case CoreStep(op) => Service(Step(v.core, op), map id | id in v.subs :: Served(v.core, op, v.subs[id]))
    case Subscribe(id, connId, filter) => v.(subs := v.subs[id := Open(v.core, connId, filter)])
    case Deliver(id) => v.(subs := v.subs[id := Take(v.subs[id])])
    case Leave(id) => v.(subs := v.subs[id := v.subs[id].(closed := true)])
  }

  // ---------- the stream is the cache ----------

  /** The subscriber's snapshot, overlaid with everything published for it, is what `GetLatest`
      returns now. */
  ghost predicate Coherent(s: State, sub: Sub) {
    Overlay(sub.base, sub.matched) == Latest(s.latestByDst, sub.connId, sub.filter)
  }

  lemma LatestOneMore(cache: map<Endpoint, Update>, connId: Id, filter: set<string>, u: Update)
    ensures Latest(cache[Target(u) := u], connId, filter) ==
              if InFilter(Target(u), connId, filter) then Latest(cache, connId, filter)[Target(u) := u]
                  else Latest(cache, connId, filter)
  {
  }

  /** Publishing moves an open subscriber and its part of the cache together. */
  lemma {:induction false} EnqueueTracksCache(cache: map<Endpoint, Update>, sub: Sub, updates: seq<Update>)
    requires !sub.closed && Overlay(sub.base, sub.matched) == Latest(cache, sub.connId, sub.filter)
    ensures var after := EnqueueAll(sub, updates);
            && SameView(sub, after)
            && Overlay(after.base, after.matched) == Latest(Overlay(cache, updates), sub.connId, sub.filter)
  {
    if updates != [] {
      var n := |updates| - 1;
      EnqueueTracksCache(cache, sub, updates[..n]);
      var before := EnqueueAll(sub, updates[..n]);
      LatestOneMore(Overlay(cache, updates[..n]), sub.connId, sub.filter, updates[n]);
      assert (before.matched + [updates[n]])[..|before.matched|] == before.matched;
    }
  }

  /** An operation changes the subscriber's part of the cache without publishing anything: a stored
      command writes a new value there, or a deleted connection takes values away. */
  predicate Unannounced(s: State, op: Op, sub: Sub) {
    match op
    case OpStoreAccepted(c, dst) =>
      && StoreAcceptedCommand(s, c, dst).Success?
      && InFilter(dst, sub.connId, sub.filter)
      && (dst in s.latestByDst ==> StoreAcceptedCommand(s, c, dst).value.latestByDst[dst] != s.latestByDst[dst])
    case OpDelete(key) =>
      && DeleteConnection(s, key).Success?
      && exists e :: e in Latest(s.latestByDst, sub.connId, sub.filter) &&
            Mentions(s.latestByDst[e], e, s.idsByKey[key])
    case _ => false
  }

  predicate Mentions(u: Update, e: Endpoint, id: Id) {
    e.connId == id || u.srcConnId == id || u.dstConnId == id
  }

  lemma QuietOps(s: State, op: Op)
    requires !op.OpPublish? && !op.OpBatchPublish? && !op.OpDelete? && !op.OpStoreAccepted?
    ensures Step(s, op).latestByDst == s.latestByDst && Sent(s, op) == []
  {
    match op
    case OpGetOrCreate(key) =>
    case OpRename(oldKey, newKey) => QuietRename(s, oldKey, newKey);
    case OpUpsertConnection(conn) =>
    case OpUpsertConnTags(id, tags, replace) =>
    case OpUpsertRoutes(routes, replace) =>
    case OpDeleteRoutes(routes) =>
  }

  lemma QuietRename(s: State, oldKey: Key, newKey: Key)
    ensures Step(s, OpRename(oldKey, newKey)).latestByDst == s.latestByDst
  {
  }

  lemma PublishTracks(s: State, op: Op)
    requires op.OpPublish? || op.OpBatchPublish?
    ensures Step(s, op).latestByDst == Overlay(s.latestByDst, Sent(s, op))
  {
  }

  lemma StoreTracks(s: State, op: Op, sub: Sub)
    requires op.OpStoreAccepted?
    ensures Latest(Step(s, op).latestByDst, sub.connId, sub.filter) ==
              Latest(s.latestByDst, sub.connId, sub.filter) <==>
              !Unannounced(s, op, sub)
  {
    if StoreAcceptedCommand(s, op.command, op.dst).Success? {
      var after := Step(s, op).latestByDst;
      if InFilter(op.dst, sub.connId, sub.filter) {
        assert op.dst in Latest(after, sub.connId, sub.filter);
      }
    }
  }

  lemma DeleteTracks(s: State, op: Op, sub: Sub)
    requires Inv(s) && op.OpDelete?
    ensures Latest(Step(s, op).latestByDst, sub.connId, sub.filter) ==
              Latest(s.latestByDst, sub.connId, sub.filter) <==>
              !Unannounced(s, op, sub)
  {
    if DeleteConnection(s, op.key).Success? {
      var id := s.idsByKey[op.key];
      assert Step(s, op).latestByDst == ForgetTargets(s.latestByDst, id);
    }
  }

  /** An open subscriber stays coherent through an operation exactly when the operation does not
      change its values unannounced. */
  lemma ServedCoherent(s: State, op: Op, sub: Sub)
    requires Inv(s) && QueueInv(sub) && !sub.closed && Coherent(s, sub) && !Closes(s, op, sub)
    ensures Coherent(Step(s, op), Served(s, op, sub)) <==> !Unannounced(s, op, sub)
  {
    if op.OpPublish? || op.OpBatchPublish? {
      PublishTracks(s, op);
      EnqueueTracksCache(s.latestByDst, sub, Sent(s, op));
    } else if op.OpStoreAccepted? {
      StoreTracks(s, op, sub);
    } else if op.OpDelete? {
      DeleteTracks(s, op, sub);
    } else {
      QuietOps(s, op);
    }
  }

  // ---------- the exceptions are real ----------

  /** Connections 1 and 2, and a route from the first to the second. */
  function Linked(a: Key, b: Key): State {
    Empty.(connections := map[1 := Conn(1, a), 2 := Conn(2, b)], idsByKey := map[a := 1, b := 2], nextId := 3,
           routes := {Route(Stable(a, "x"), Stable(b, "y"))})
  }

  lemma LinkedByRun(a: Key, b: Key) returns (states: seq<State>, ops: seq<Op>)
    requires ValidKey(a) && ValidKey(b) && a != b
    ensures DataCenterInvariant.Run(states, ops) && states[0] == Empty && |ops| == 3 && states[3] == Linked(a, b)
  {
    var ref := RouteRef(EndpointRef(0, a, "x"), EndpointRef(0, b, "y"));
    var one := Step(Empty, OpGetOrCreate(a));
    var two := Step(one, OpGetOrCreate(b));
    assert one.connections == map[1 := Conn(1, a)] && one.idsByKey == map[a := 1] && one.nextId == 2;
    assert two.connections == map[1 := Conn(1, a), 2 := Conn(2, b)] && two.idsByKey == map[a := 1, b := 2];
    assert ResolveRoute(two, ref) == Success(Route(Stable(a, "x"), Stable(b, "y")));
    assert {} + Denoted(two, [ref]) == Linked(a, b).routes;
    assert Step(two, OpUpsertRoutes([ref], false)) == Linked(a, b);
    states := [Empty, one, two, Linked(a, b)];
    ops := [OpGetOrCreate(a), OpGetOrCreate(b), OpUpsertRoutes([ref], false)];
  }

  /** The value of a command from connection 1 to connection 2, after its target accepted it. */
  function StoreFrom(a: Key): Op {
    OpStoreAccepted(Command(Some(EndpointRef(0, a, "x")), Some(0), 1, Some(0), 0, true), Endpoint(2, "y"))
  }

  lemma StoredLinked(a: Key, b: Key) returns (u: Update)
    requires ValidKey(a) && ValidKey(b) && a != b
    ensures Inv(Linked(a, b)) && Inv(Step(Linked(a, b), StoreFrom(a)))
    ensures u.srcConnId == 1 && Step(Linked(a, b), StoreFrom(a)) ==
              Linked(a, b).(latestByDst := map[Endpoint(2, "y") := u])
  {
    var states, ops := LinkedByRun(a, b);
    DataCenterInvariant.RunInv(states, ops, 3);
    StepInv(Linked(a, b), StoreFrom(a));
    u := Update(1, "x", 2, "y", Payload(0, 1, 0));
  }

  lemma StoreIsUnannounced(a: Key, b: Key, sub: Sub)
    requires ValidKey(a) && ValidKey(b) && a != b && sub.connId == 2 && sub.filter == {}
    ensures Unannounced(Linked(a, b), StoreFrom(a), sub)
  {
  }

  /** A subscription to connection 2 no longer has what `GetLatest` returns once a command from 1 to 2
      was stored. */
  lemma StoreBreaksCoherence(a: Key, b: Key)
    requires ValidKey(a) && ValidKey(b) && a != b
    ensures var s, store, sub := Linked(a, b), StoreFrom(a), Open(Linked(a, b), 2, {});
            Inv(s) && Coherent(s, sub) && !Closes(s, store, sub) && !Coherent(Step(s, store), Served(s, store, sub))
  {
    var u := StoredLinked(a, b);
    OpenIsCoherent(Linked(a, b), 2, {});
    StoreIsUnannounced(a, b, Open(Linked(a, b), 2, {}));
    ServedCoherent(Linked(a, b), StoreFrom(a), Open(Linked(a, b), 2, {}));
  }

  /** The state after the command was stored. */
  function Stored(a: Key, b: Key, u: Update): State {
    Linked(a, b).(latestByDst := map[Endpoint(2, "y") := u])
  }

  lemma DeleteIsUnannounced(a: Key, b: Key, u: Update, sub: Sub)
    requires ValidKey(a) && a != b && u.srcConnId == 1 && sub.connId == 2 && sub.filter == {}
    ensures Unannounced(Stored(a, b, u), OpDelete(a), sub) && !Closes(Stored(a, b, u), OpDelete(a), sub)
  {
    var s := Stored(a, b, u);
    assert s.idsByKey[a] == 1;
    assert Endpoint(2, "y") in Latest(s.latestByDst, 2, {}) && Mentions(u, Endpoint(2, "y"), 1);
  }

  /** One made after that no longer has it once connection 1 was deleted. */
  lemma DeleteBreaksCoherence(a: Key, b: Key)
    requires ValidKey(a) && ValidKey(b) && a != b
    ensures var s, op := Step(Linked(a, b), StoreFrom(a)), OpDelete(a);
            var sub := Open(s, 2, {});
            Inv(s) && Coherent(s, sub) && !Closes(s, op, sub) && !Coherent(Step(s, op), Served(s, op, sub))
  {
    var u := StoredLinked(a, b);
    var s := Step(Linked(a, b), StoreFrom(a));
    assert s == Stored(a, b, u);
    OpenIsCoherent(s, 2, {});
    DeleteIsUnannounced(a, b, u, Open(s, 2, {}));
    ServedCoherent(s, OpDelete(a), Open(s, 2, {}));
  }

  // ---------- every run ----------

  ghost predicate ServiceInv(v: Service) {
    Inv(v.core) && forall id :: id in v.subs ==> QueueInv(v.subs[id])
  }

  lemma OpenIsCoherent(s: State, connId: Id, filter: set<string>)
    ensures QueueInv(Open(s, connId, filter)) && Coherent(s, Open(s, connId, filter))
  {
  }

  lemma ServedKeeps(s: State, op: Op, sub: Sub)
    requires QueueInv(sub)
    ensures QueueInv(Served(s, op, sub))
    ensures Served(s, op, sub).closed <==> sub.closed || Closes(s, op, sub)
  {
    EnqueueAllKeeps(sub, Sent(s, op));
  }

  lemma CoreStepKeeps(v: Service, op: Op)
    requires ServiceInv(v) && Enabled(v.core, op)
    ensures ServiceInv(After(v, CoreStep(op)))
  {
    StepInv(v.core, op);
    forall id | id in v.subs ensures QueueInv(Served(v.core, op, v.subs[id])) {
      ServedKeeps(v.core, op, v.subs[id]);
    }
  }

  lemma TakeKeeps(sub: Sub)
    requires QueueInv(sub) && |sub.queue| > 0
    ensures QueueInv(Take(sub))
  {
  }

  lemma OneSubKeeps(v: Service, id: nat, sub: Sub)
    requires ServiceInv(v) && QueueInv(sub)
    ensures ServiceInv(v.(subs := v.subs[id := sub]))
  {
  }

  lemma AfterKeeps(v: Service, e: Event)
    requires ServiceInv(v) && Possible(v, e)
    ensures ServiceInv(After(v, e))
  {
    match e
    case CoreStep(op) =>
      CoreStepKeeps(v, op);
    case Subscribe(id, connId, filter) =>
      OpenIsCoherent(v.core, connId, filter);
      OneSubKeeps(v, id, Open(v.core, connId, filter));
    case Deliver(id) =>
      TakeKeeps(v.subs[id]);
      OneSubKeeps(v, id, Take(v.subs[id]));
    case Leave(id) =>
      OneSubKeeps(v, id, v.subs[id].(closed := true));
  }

  ghost predicate Follows(v: Service, e: Event, after: Service) {
    Possible(v, e) && after == After(v, e)
  }

  ghost predicate Run(services: seq<Service>, events: seq<Event>) {
    && |services| == |events| + 1
    && forall i :: 0 <= i < |events| ==> Follows(services[i], events[i], services[i + 1])
  }

  lemma {:induction false} RunKeeps(services: seq<Service>, events: seq<Event>, i: nat)
    requires Run(services, events) && ServiceInv(services[0]) && i < |services|
    ensures forall k :: 0 <= k <= i ==> ServiceInv(services[k])
  {
    if i > 0 {
      RunKeeps(services, events, i - 1);
      assert Follows(services[i - 1], events[i - 1], services[i - 1 + 1]);
      AfterKeeps(services[i - 1], events[i - 1]);
    }
  }

  /** Subscriber `id` exists, is open and coherent. */
  ghost predicate InStep(v: Service, id: nat) {
    id in v.subs && !v.subs[id].closed && Coherent(v.core, v.subs[id])
  }

  /** Subscriber `id` is not closed by the event, and its values do not change unannounced. */
  ghost predicate Undisturbed(v: Service, e: Event, id: nat)
    requires id in v.subs
  {
    && e != Leave(id)
    && (e.CoreStep? ==> !Closes(v.core, e.op, v.subs[id]) && !Unannounced(v.core, e.op, v.subs[id]))
  }

  lemma CoreStepKeepsInStep(v: Service, op: Op, id: nat)
    requires ServiceInv(v) && Possible(v, CoreStep(op)) && InStep(v, id) && Undisturbed(v, CoreStep(op), id)
    ensures InStep(After(v, CoreStep(op)), id)
  {
    ServedCoherent(v.core, op, v.subs[id]);
    ServedKeeps(v.core, op, v.subs[id]);
    assert After(v, CoreStep(op)).subs[id] == Served(v.core, op, v.subs[id]);
  }

  /** Taking from a queue, other subscriptions and other subscribers leaving change nothing here. */
  lemma OtherEventKeepsInStep(v: Service, e: Event, id: nat)
    requires !e.CoreStep? && Possible(v, e) && InStep(v, id) && e != Leave(id)
    ensures InStep(After(v, e), id)
  {
    match e
    case Subscribe(other, connId, filter) => assert other != id;
    case Deliver(other) => assert Coherent(v.core, v.subs[id]);
    case Leave(other) => assert other != id;
  }

  lemma EventKeepsInStep(v: Service, e: Event, id: nat)
    requires ServiceInv(v) && Possible(v, e) && InStep(v, id) && Undisturbed(v, e, id)
    ensures InStep(After(v, e), id)
  {
    if e.CoreStep? {
      CoreStepKeepsInStep(v, e.op, id);
    } else {
      OtherEventKeepsInStep(v, e, id);
    }
  }

  lemma StepInRun(services: seq<Service>, events: seq<Event>, k: nat, id: nat)
    requires Run(services, events) && ServiceInv(services[0]) && k < |events|
    requires InStep(services[k], id) && Undisturbed(services[k], events[k], id)
    ensures InStep(services[k + 1], id)
  {
    RunKeeps(services, events, k);
    assert Follows(services[k], events[k], services[k + 1]);
    EventKeepsInStep(services[k], events[k], id);
  }

  lemma {:induction false} RunInStep(services: seq<Service>, events: seq<Event>, from: nat, i: nat, id: nat)
    requires Run(services, events) && ServiceInv(services[0]) && from <= i < |services|
    requires InStep(services[from], id)
    requires forall k :: from <= k < i ==> id in services[k].subs ==> Undisturbed(services[k], events[k], id)
    ensures forall k :: from <= k <= i ==> InStep(services[k], id)
  {
    if from < i {
      RunInStep(services, events, from, i - 1, id);
      StepInRun(services, events, i - 1, id);
    }
  }

  /** For a subscription made at moment `from` of any run and undisturbed since: if nothing was
      dropped, its snapshot overlaid with what it was sent and then with what waits in its queue is
      exactly what `GetLatest` returns. */
  lemma SnapshotPlusStreamIsLatest(services: seq<Service>, events: seq<Event>, from: nat, i: nat, id: nat)
    requires Run(services, events) && ServiceInv(services[0]) && from < i < |services|
    requires events[from].Subscribe? && events[from].id == id
    requires forall k :: from < k < i ==> id in services[k].subs ==> Undisturbed(services[k], events[k], id)
    ensures id in services[i].subs
    ensures var sub := services[i].subs[id];
            sub.dropped == 0 ==>
              Overlay(Overlay(sub.base, sub.delivered), sub.queue) ==
                  Latest(services[i].core.latestByDst, sub.connId, sub.filter)
  {
    assert Follows(services[from], events[from], services[from + 1]);
    OpenIsCoherent(services[from].core, events[from].connId, events[from].filter);
    RunInStep(services, events, from + 1, i, id);
    RunKeeps(services, events, i);
    var sub := services[i].subs[id];
    OverlayConcat(sub.base, sub.delivered, sub.queue);
  }

  // ---------- the end of a subscription ----------

  /** The event ends the subscription: its caller leaves, or its connection is deleted. */
  predicate Finishes(v: Service, e: Event, id: nat) {
    match e
    case Leave(other) => other == id
    case CoreStep(OpDelete(key)) =>
      && ValidKey(key) && key in v.core.idsByKey
      && id in v.subs && v.core.idsByKey[key] == v.subs[id].connId
    case _ => false
  }

  lemma {:induction false} ClosedTakesNothing(sub: Sub, updates: seq<Update>)
    requires sub.closed
    ensures EnqueueAll(sub, updates) == sub
  {
    if updates != [] {
      ClosedTakesNothing(sub, updates[..|updates| - 1]);
    }
  }

  lemma EventCloses(v: Service, e: Event, id: nat)
    requires Possible(v, e) && id in v.subs
    ensures id in After(v, e).subs
    ensures After(v, e).subs[id].closed <==> v.subs[id].closed || Finishes(v, e, id)
    ensures v.subs[id].closed ==> After(v, e).subs[id] == v.subs[id]
  {
    if e.CoreStep? {
      var sub := v.subs[id];
      if sub.closed {
        ClosedTakesNothing(sub, Sent(v.core, e.op));
      }
      OpenStays(sub, Sent(v.core, e.op));
      assert After(v, e).subs[id] == Served(v.core, e.op, sub);
    }
  }

  lemma {:induction false} OpenStays(sub: Sub, updates: seq<Update>)
    ensures EnqueueAll(sub, updates).closed == sub.closed
  {
    if updates != [] {
      OpenStays(sub, updates[..|updates| - 1]);
    }
  }

  /** A subscription is closed exactly if something has ended it since it was made, and from then on neither
      its queue nor its stream changes. */
  lemma {:induction false} ClosedIffFinished(services: seq<Service>, events: seq<Event>, from: nat, i: nat, id: nat)
    requires Run(services, events) && from < i < |services| && events[from].Subscribe? && events[from].id == id
    ensures id in services[i].subs
    ensures services[i].subs[id].closed <==> exists k :: from < k < i && Finishes(services[k], events[k], id)
    ensures from + 1 < i && id in services[i - 1].subs && services[i - 1].subs[id].closed ==>
              services[i].subs[id] == services[i - 1].subs[id]
  {
    assert Follows(services[i - 1], events[i - 1], services[i - 1 + 1]);
    if from + 1 < i {
      ClosedIffFinished(services, events, from, i - 1, id);
      EventCloses(services[i - 1], events[i - 1], id);
    }
  }

  // ---------- when nothing is dropped ----------

  /** How many updates published for a subscriber were not written to its stream. */
  ghost function Undelivered(v: Service, id: nat): int {
    if id in v.subs then |v.subs[id].matched| - |v.subs[id].delivered| else 0
  }

  lemma {:induction false} EnqueueAllDrops(sub: Sub, updates: seq<Update>)
    requires QueueInv(sub)
    ensures var after := EnqueueAll(sub, updates);
            && sub.dropped <= after.dropped && |sub.matched| <= |after.matched| && after.delivered == sub.delivered
            && (sub.dropped == 0 && |after.matched| - |after.delivered| <= 10000 ==> after.dropped == 0)
  {
    if updates != [] {
      EnqueueAllDrops(sub, updates[..|updates| - 1]);
      EnqueueAllKeeps(sub, updates[..|updates| - 1]);
    }
  }

  lemma EventDrops(v: Service, e: Event, id: nat)
    requires ServiceInv(v) && Possible(v, e) && id in v.subs
    ensures var after := After(v, e);
            && id in after.subs && v.subs[id].dropped <= after.subs[id].dropped
            && (v.subs[id].dropped == 0 && Undelivered(after, id) <= 10000 ==> after.subs[id].dropped == 0)
  {
    if e.CoreStep? {
      EnqueueAllDrops(v.subs[id], Sent(v.core, e.op));
      assert After(v, e).subs[id] == Served(v.core, e.op, v.subs[id]);
    }
  }

  lemma DropsFew(sub: Sub)
    requires QueueInv(sub) && sub.dropped == 0
    ensures |sub.matched| - |sub.delivered| <= 10000
  {
  }

  /** Nothing was dropped exactly if that held before and few enough are undelivered now. */
  ghost predicate DropsOnlyWhenFull(v: Service, after: Service, id: nat) {
    && id in v.subs && id in after.subs
    && (after.subs[id].dropped == 0 <==> v.subs[id].dropped == 0 && Undelivered(after, id) <= 10000)
  }

  lemma StepDrops(services: seq<Service>, events: seq<Event>, k: nat, id: nat)
    requires Run(services, events) && ServiceInv(services[0]) && k < |events| && id in services[k].subs
    ensures DropsOnlyWhenFull(services[k], services[k + 1], id)
  {
    RunKeeps(services, events, k + 1);
    assert Follows(services[k], events[k], services[k + 1]);
    EventDrops(services[k], events[k], id);
    if services[k + 1].subs[id].dropped == 0 {
      DropsFew(services[k + 1].subs[id]);
    }
  }

  lemma Opens(services: seq<Service>, events: seq<Event>, k: nat)
    requires Run(services, events) && k < |events| && events[k].Subscribe?
    ensures var id := events[k].id;
            id in services[k + 1].subs && services[k + 1].subs[id].dropped == 0 && Undelivered(services[k + 1], id) == 0
  {
    assert Follows(services[k], events[k], services[k + 1]);
  }

  ghost predicate FewUndelivered(services: seq<Service>, from: nat, i: nat, id: nat)
    requires i < |services|
  {
    forall k :: from < k <= i ==> Undelivered(services[k], id) <= 10000
  }

  /** A subscription has lost nothing exactly if at no moment since it was made more than 10000 of the
      updates published for it were undelivered. */
  lemma {:induction false} DropsNothingIff(services: seq<Service>, events: seq<Event>, from: nat, i: nat, id: nat)
    requires Run(services, events) && ServiceInv(services[0]) && from < i < |services|
    requires events[from].Subscribe? && events[from].id == id
    ensures id in services[i].subs
    ensures services[i].subs[id].dropped == 0 <==> FewUndelivered(services, from, i, id)
  {
    if from + 1 < i {
      DropsNothingIff(services, events, from, i - 1, id);
      StepDrops(services, events, i - 1, id);
      assert FewUndelivered(services, from, i, id) <==>
             FewUndelivered(services, from, i - 1, id) && Undelivered(services[i], id) <= 10000;
    } else {
      Opens(services, events, from);
    }
  }

  // ---------- the subscriber object ----------

  class Subscriber {
    const connId: Id
    const tagsFilter: set<string>
    var queue: seq<Update>
    var dropped: nat
    var closed: bool
    ghost const base: map<Endpoint, Update>
    ghost var matched: seq<Update>
    ghost var delivered: seq<Update>
    ghost var positions: seq<nat>

    ghost function Value(): Sub
      reads this
    {
      Sub(connId, tagsFilter, base, queue, dropped, closed, matched, delivered, positions)
    }

    constructor (connId: Id, tags: set<string>, ghost core: State)
      ensures Value() == Open(core, connId, tags)
    {
      this.connId, tagsFilter := connId, tags;
      queue, dropped, closed := [], 0, false;
      base := Latest(core.latestByDst, connId, tags);
      matched, delivered, positions := [], [], [];
    }

    /** Appends the update, and drops the oldest one if 10000 wait. */
    method Enqueue(update: Update)
      modifies this
      ensures Value() == Queued(old(Value()), update)
      ensures closed == old(closed) && (old(closed) ==> Value() == old(Value()))
      ensures !old(closed) && |old(queue)| < 10000 ==> queue == old(queue) + [update] && dropped == old(dropped)
      ensures !old(closed) && |old(queue)| == 10000 ==>
                queue == old(queue)[1..] + [update] && dropped == old(dropped) + 1
    {
      if closed {
        return;
      }
      var droppedNow := 0;
      while |queue| >= MAX_QUEUE_SIZE
        modifies this`queue
        invariant droppedNow <= Surplus(old(Value())) && queue == old(queue)[droppedNow..]
        decreases |queue|
      {
        queue := queue[1..];
        droppedNow := droppedNow + 1;
      }
      if droppedNow > 0 {
        dropped := dropped + droppedNow;
      }
      queue := queue + [update];
      matched := matched + [update];
    }

    /** One turn of the stream's loop: nothing once closed, and nothing from an empty queue. */
    method Next() returns (update: Option<Update>)
      requires QueueInv(Value())
      modifies this
      ensures update.Some? <==> !old(closed) && old(queue) != []
      ensures update.Some? ==> update.value == old(queue)[0] && Value() == Take(old(Value()))
      ensures update.None? ==> Value() == old(Value())
    {
      if closed || queue == [] {
        return None;
      }
      update := Some(queue[0]);
      delivered, positions := delivered + [queue[0]], positions + [|matched| - |queue|];
      queue := queue[1..];
    }
  }

  /** Whom an update goes to: the subscribers of its connection whose filter is empty or has its tag. */
  method MatchSubscribers(subscribersByConn: map<Id, map<nat, set<string>>>, u: Update) returns (result: set<nat>)
    ensures forall id :: id in result <==>
              && u.dstConnId in subscribersByConn && id in subscribersByConn[u.dstConnId]
              && (subscribersByConn[u.dstConnId][id] == {} || u.dstTag in subscribersByConn[u.dstConnId][id])
  {
    result := {};
    if u.dstConnId !in subscribersByConn {
      return;
    }
    var filters := subscribersByConn[u.dstConnId];
    var todo := filters.Keys;
    while todo != {}
      invariant todo <= filters.Keys
      invariant forall id :: id in result <==>
                  id in filters.Keys - todo && InFilter(Target(u), u.dstConnId, filters[id])
    {
      var id :| id in todo;
      todo := todo - {id};
      if filters[id] != {} && u.dstTag !in filters[id] {
        continue;
      }
      result := result + {id};
    }
  }
}
