/**
 What every operation of the DataCenter core keeps, over every run: the two connection maps stay
 inverse to each other, tag tables and routes only name registered connections, the caches only
 name live sources, and a connection id is never given out a second time.
 */
module DataCenterInvariant {
  import opened Wrappers
  import opened DataCenterModel
  import opened DataCenterPublish

  ghost predicate Registry(connections: map<Id, Conn>, idsByKey: map<Key, Id>) {
    && (forall id: Id :: id in connections ==>
          && id != 0 && connections[id].connId == id && ValidKey(connections[id].key)
          && connections[id].key in idsByKey && idsByKey[connections[id].key] == id)
    && (forall key :: key in idsByKey ==> idsByKey[key] in connections && connections[idsByKey[key]].key == key)
  }

  ghost predicate TablesNamed(s: State) {
    forall key :: key in s.tagsByKey ==> key in s.idsByKey && "" !in s.tagsByKey[key]
  }

  ghost predicate RoutesNamed(s: State) {
    forall r :: r in s.routes ==> Named(s, r.src) && Named(s, r.dst)
  }

  ghost predicate SourcesLive(s: State) {
    && (forall e :: e in s.latestBySrc ==>
          && e.connId in s.connections && e.tag != ""
          && s.latestBySrc[e].connId == e.connId && s.latestBySrc[e].tag == e.tag
          && 0 < s.latestBySrc[e].sequence <= s.sequence)
    && (forall e, f :: e in s.latestBySrc && f in s.latestBySrc && e != f ==>
          s.latestBySrc[e].sequence != s.latestBySrc[f].sequence)
  }

  ghost predicate GoodUpdate(s: State, u: Update) {
    u.srcConnId in s.connections && u.srcTag != "" && u.dstConnId != 0 && u.dstTag != ""
  }

  ghost predicate TargetsMatch(s: State) {
    forall e :: e in s.latestByDst ==> Target(s.latestByDst[e]) == e && GoodUpdate(s, s.latestByDst[e])
  }

  ghost predicate Inv(s: State) {
    && Registry(s.connections, s.idsByKey)
    && TablesNamed(s) && RoutesNamed(s) && SourcesLive(s) && TargetsMatch(s)
  }

  /** Until the 32-bit ids run out, the next one is above every id in use. */
  ghost predicate Fresh(s: State) {
    s.nextId != 0 ==> forall id: Id :: id in s.connections ==> id < s.nextId
  }

  /** Every cached destination still exists. */
  ghost predicate TargetsLive(s: State) {
    forall e :: e in s.latestByDst ==> e.connId in s.connections
  }

  // ---------- operations ----------

  datatype Op =
    | OpGetOrCreate(key: Key)
    | OpRename(oldKey: Key, newKey: Key)
    | OpUpsertConnection(conn: Conn)
    | OpDelete(key: Key)
    | OpUpsertConnTags(id: Id, tags: seq<string>, replace: bool)
    | OpUpsertRoutes(routes: seq<RouteRef>, replace: bool)
    | OpDeleteRoutes(routes: seq<RouteRef>)
    | OpPublish(point: Point, order: Order)
    | OpBatchPublish(points: seq<Point>, order: Order)
    | OpStoreAccepted(command: Command, dst: Endpoint)

  ghost predicate Enabled(s: State, op: Op) {
    match op
    case OpPublish(_, order) => Enumerates(order, s.routes)
    case OpBatchPublish(_, order) => Enumerates(order, s.routes)
    case _ => true
  }

  /** What an operation leaves behind; a failing one leaves everything as it was. */
  function Step(s: State, op: Op): State {
    match op
    case OpGetOrCreate(key) => (match GetOrCreateConnection(s, key) case Success(r) => r.0 case Failure(_) => s)
    case OpRename(oldKey, newKey) =>
      (match RenameConnection(s, oldKey, newKey) case Success(r) => r.0 case Failure(_) => s)
    case OpUpsertConnection(conn) => (match UpsertConnection(s, conn) case Success(r) => r case Failure(_) => s)
    case OpDelete(key) => (match DeleteConnection(s, key) case Success(r) => r case Failure(_) => s)
    case OpUpsertConnTags(id, tags, replace) =>
      (match UpsertConnTags(s, id, tags, replace) case Success(r) => r case Failure(_) => s)
    case OpUpsertRoutes(routes, replace) => (match UpsertRoutes(s, routes, replace) case Some(r) => r case None => s)
    case OpDeleteRoutes(routes) => (match DeleteRoutes(s, routes) case Some(r) => r case None => s)
    case OpPublish(p, order) => (match Publish(s, p, order) case Success(r) => r.0 case Failure(_) => s)
    case OpBatchPublish(ps, order) => (match BatchPublish(s, ps, order) case Success(r) => r.0 case Failure(_) => s)
    case OpStoreAccepted(c, dst) => (match StoreAcceptedCommand(s, c, dst) case Success(r) => r case Failure(_) => s)
  }

  lemma CreateInv(s: State, key: Key)
    requires Inv(s) && GetOrCreateConnection(s, key).Success?
    ensures Inv(GetOrCreateConnection(s, key).value.0)
  {
  }

  lemma RekeyInv(s: State, id: Id, newKey: Key)
    requires Inv(s) && id in s.connections && ValidKey(newKey)
    requires newKey in s.idsByKey ==> s.idsByKey[newKey] == id
    ensures Inv(Rekey(s, id, s.connections[id].key, newKey))
  {
  }

  lemma DeleteKeepsNames(s: State, key: Key)
    requires Inv(s) && key in s.idsByKey
    ensures var t := Deleted(s, key, s.idsByKey[key]);
            Registry(t.connections, t.idsByKey) && TablesNamed(t) && RoutesNamed(t)
  {
  }

  lemma DeleteInv(s: State, key: Key)
    requires Inv(s) && DeleteConnection(s, key).Success?
    ensures Inv(DeleteConnection(s, key).value)
  {
    DeleteKeepsNames(s, key);
  }

  lemma TagsInv(s: State, id: Id, tags: seq<string>, replace: bool)
    requires Inv(s) && UpsertConnTags(s, id, tags, replace).Success?
    ensures Inv(UpsertConnTags(s, id, tags, replace).value)
  {
  }

  lemma RoutesInv(s: State, routes: seq<RouteRef>, replace: bool)
    requires Inv(s) && UpsertRoutes(s, routes, replace).Some?
    ensures Inv(UpsertRoutes(s, routes, replace).value)
  {
  }

  // ---------- publishing ----------

  /** Every destination of a route is registered, so `Publish` never takes its "destination not
      registered" branch: it fails only for a malformed request, an unknown source or an exhausted
      sequence. */
  lemma PublishFailsOnlyFor(s: State, p: Point, order: Order)
    requires Inv(s) && Enumerates(order, s.routes)
    ensures Publish(s, p, order).Failure? <==>
              !WellFormed(p) || p.connId !in s.connections || s.sequence == MAX_SEQUENCE
    ensures p.connId in s.connections ==> Deliverable(s, p, order)
  {
    if p.connId in s.connections {
      var src := SourceOf(s, p);
      forall d | d in Walk(order, src)
        ensures d.key in s.idsByKey
      {
        assert Route(src, d) in s.routes;
      }
    }
  }

  /** What a cache holds after a log was written into it: for a destination the log mentions, one
      of the log's updates, and otherwise what it held before. */
  lemma {:induction false} OverlayCases(cache: map<Endpoint, Update>, log: seq<Update>, e: Endpoint)
    ensures e in Overlay(cache, log) <==> e in cache || exists u :: u in log && Target(u) == e
    ensures (exists u :: u in log && Target(u) == e) ==>
              Overlay(cache, log)[e] in log && Target(Overlay(cache, log)[e]) == e
    ensures e in cache && !(exists u :: u in log && Target(u) == e) ==> Overlay(cache, log)[e] == cache[e]
  {
    if log != [] {
      var n := |log| - 1;
      OverlayCases(cache, log[..n], e);
      assert log == log[..n] + [log[n]];
    }
  }

  lemma UpdatesAreGood(s: State, p: Point, order: Order, u: Update)
    requires Inv(s) && WellFormed(p) && p.connId in s.connections && Enumerates(order, s.routes)
    requires u in UpdatesFor(s.idsByKey, p, Walk(order, SourceOf(s, p)))
    ensures GoodUpdate(s, u) && u.dstConnId in s.connections
  {
    var src := SourceOf(s, p);
    var updates := UpdatesFor(s.idsByKey, p, Walk(order, src));
    var i :| 0 <= i < |updates| && updates[i] == u;
    assert Route(src, order[src][i]) in s.routes;
  }

  lemma PublishInv(s: State, p: Point, order: Order)
    requires Inv(s) && Enumerates(order, s.routes) && Publish(s, p, order).Success?
    ensures Inv(Publish(s, p, order).value.0)
    ensures TargetsLive(s) ==> TargetsLive(Publish(s, p, order).value.0)
    ensures Publish(s, p, order).value.0.routes == s.routes
  {
    var (after, updates) := Publish(s, p, order).value;
    forall u | u in updates
      ensures GoodUpdate(s, u) && u.dstConnId in s.connections
    {
      UpdatesAreGood(s, p, order, u);
    }
    forall e | e in after.latestByDst
      ensures Target(after.latestByDst[e]) == e && GoodUpdate(s, after.latestByDst[e])
      ensures TargetsLive(s) ==> e.connId in s.connections
    {
      OverlayCases(s.latestByDst, updates, e);
    }
  }

  lemma {:induction false} PublishAllInv(s: State, points: seq<Point>, order: Order)
    requires Inv(s) && Enumerates(order, s.routes) && PublishAll(s, points, order).Success?
    ensures var after := PublishAll(s, points, order).value.0;
            Inv(after) && after.routes == s.routes && (TargetsLive(s) ==> TargetsLive(after))
  {
    if points != [] {
      var n := |points| - 1;
      PublishAllInv(s, points[..n], order);
      PublishInv(PublishAll(s, points[..n], order).value.0, points[n], order);
    }
  }

  lemma StoreInv(s: State, c: Command, dst: Endpoint)
    requires Inv(s) && StoreAcceptedCommand(s, c, dst).Success?
    ensures Inv(StoreAcceptedCommand(s, c, dst).value)
  {
  }

  // ---------- every run ----------

  lemma StepInv(s: State, op: Op)
    requires Inv(s) && Enabled(s, op)
    ensures Inv(Step(s, op))
  {
    match op
    case OpGetOrCreate(key) =>
      if GetOrCreateConnection(s, key).Success? { CreateInv(s, key); }
    case OpRename(oldKey, newKey) =>
      if oldKey in s.idsByKey && newKey != oldKey && RenameConnection(s, oldKey, newKey).Success? {
        RekeyInv(s, s.idsByKey[oldKey], newKey);
      }
    case OpUpsertConnection(conn) =>
      if UpsertConnection(s, conn).Success? { RekeyInv(s, conn.connId, conn.key); }
    case OpDelete(key) =>
      if DeleteConnection(s, key).Success? { DeleteInv(s, key); }
    case OpUpsertConnTags(id, tags, replace) =>
      if UpsertConnTags(s, id, tags, replace).Success? { TagsInv(s, id, tags, replace); }
    case OpUpsertRoutes(routes, replace) =>
      if UpsertRoutes(s, routes, replace).Some? { RoutesInv(s, routes, replace); }
    case OpDeleteRoutes(routes) =>
    case OpPublish(p, order) =>
      if Publish(s, p, order).Success? { PublishInv(s, p, order); }
    case OpBatchPublish(ps, order) =>
      BatchIsSequential(s, ps, order);
      if BatchPublish(s, ps, order).Success? { PublishAllInv(s, ps, order); }
    case OpStoreAccepted(c, dst) =>
      if StoreAcceptedCommand(s, c, dst).Success? { StoreInv(s, c, dst); }
  }

  /** `id` has been given out, or never can be. */
  ghost predicate Spent(s: State, id: Id) {
    s.nextId == 0 || id < s.nextId
  }

  /** Ids that are spent stay so, and no step brings one back. */
  ghost predicate KeepsSpent(s: State, after: State) {
    forall id: Id :: Spent(s, id) ==> Spent(after, id) && (id !in s.connections ==> id !in after.connections)
  }

  /** Only `GetOrCreateConnection` gives out ids. */
  lemma NoNewIds(s: State, op: Op)
    requires Inv(s) && !op.OpGetOrCreate?
    ensures Step(s, op).nextId == s.nextId && Step(s, op).connections.Keys <= s.connections.Keys
  {
    match op
    case OpRename(oldKey, newKey) =>
      if oldKey in s.idsByKey { assert s.idsByKey[oldKey] in s.connections; }
    case OpUpsertConnection(conn) =>
    case OpDelete(key) =>
    case OpBatchPublish(ps, order) =>
    case _ =>
  }

  lemma CreateIsFresh(s: State, key: Key)
    requires Inv(s) && Fresh(s) && GetOrCreateConnection(s, key).Success?
    ensures var after := GetOrCreateConnection(s, key).value.0;
            Fresh(after) && (after.nextId >= s.nextId || after.nextId == 0)
    ensures var (after, conn) := GetOrCreateConnection(s, key).value;
            after == s || (s.nextId != 0 && conn.connId == s.nextId &&
                after.connections == s.connections[conn.connId := conn])
  {
  }

  lemma StepFresh(s: State, op: Op)
    requires Inv(s) && Fresh(s)
    ensures Fresh(Step(s, op)) && KeepsSpent(s, Step(s, op))
  {
    if op.OpGetOrCreate? {
      if GetOrCreateConnection(s, op.key).Success? {
        CreateIsFresh(s, op.key);
      }
    } else {
      NoNewIds(s, op);
    }
  }

  ghost predicate Run(states: seq<State>, ops: seq<Op>) {
    && |states| == |ops| + 1
    && forall i :: 0 <= i < |ops| ==> Enabled(states[i], ops[i]) && states[i + 1] == Step(states[i], ops[i])
  }

  lemma {:induction false} RunInv(states: seq<State>, ops: seq<Op>, i: nat)
    requires Run(states, ops) && i < |states| && Inv(states[0])
    ensures forall k :: 0 <= k <= i ==> Inv(states[k]) && (Fresh(states[0]) ==> Fresh(states[k]))
  {
    if i > 0 {
      RunInv(states, ops, i - 1);
      StepInv(states[i - 1], ops[i - 1]);
      if Fresh(states[i - 1]) {
        StepFresh(states[i - 1], ops[i - 1]);
      }
    }
  }

  lemma RunKeepsSpent(states: seq<State>, ops: seq<Op>, i: nat)
    requires Run(states, ops) && Inv(states[0]) && Fresh(states[0]) && i < |ops|
    ensures KeepsSpent(states[i], states[i + 1])
  {
    RunInv(states, ops, i);
    StepFresh(states[i], ops[i]);
  }

  /** Once an id has been used and given up, no later state uses it again. */
  lemma IdsAreNeverReused(states: seq<State>, ops: seq<Op>, i: nat, j: nat, k: nat, id: Id)
    requires Run(states, ops) && Inv(states[0]) && Fresh(states[0])
    requires i <= j <= k < |states|
    requires id in states[i].connections && id !in states[j].connections
    ensures id !in states[k].connections
  {
    forall n: nat | n < |ops|
      ensures KeepsSpent(states[n], states[n + 1])
    {
      RunKeepsSpent(states, ops, n);
    }
    RunInv(states, ops, i);
    SpentForever(states, i, j, id);
    GoneForever(states, j, k, id);
  }

  lemma {:induction false} SpentForever(states: seq<State>, i: nat, j: nat, id: Id)
    requires i <= j < |states| && forall n: nat :: n + 1 < |states| ==> KeepsSpent(states[n], states[n + 1])
    requires Spent(states[i], id)
    ensures Spent(states[j], id)
  {
    if i < j {
      SpentForever(states, i, j - 1, id);
      assert KeepsSpent(states[j - 1], states[j - 1 + 1]);
    }
  }

  lemma {:induction false} GoneForever(states: seq<State>, j: nat, k: nat, id: Id)
    requires j <= k < |states| && forall n: nat :: n + 1 < |states| ==> KeepsSpent(states[n], states[n + 1])
    requires Spent(states[j], id) && id !in states[j].connections
    ensures Spent(states[k], id) && id !in states[k].connections
  {
    if j < k {
      GoneForever(states, j, k - 1, id);
      assert KeepsSpent(states[k - 1], states[k - 1 + 1]);
    }
  }

  lemma StoreTargetsLive(s: State, c: Command, dst: Endpoint)
    requires TargetsLive(s) && StoreAcceptedCommand(s, c, dst).Success?
    ensures TargetsLive(StoreAcceptedCommand(s, c, dst).value) <==> dst.connId in s.connections
  {
    assert dst in StoreAcceptedCommand(s, c, dst).value.latestByDst;
  }

  lemma QuietTargetsLive(s: State, op: Op)
    requires Inv(s) && TargetsLive(s) && !op.OpPublish? && !op.OpBatchPublish? && !op.OpStoreAccepted?
    ensures TargetsLive(Step(s, op))
  {
    match op
    case OpGetOrCreate(key) =>
    case OpRename(oldKey, newKey) =>
    case OpUpsertConnection(conn) =>
    case OpDelete(key) =>
    case OpUpsertConnTags(id, tags, replace) =>
    case OpUpsertRoutes(routes, replace) =>
    case OpDeleteRoutes(routes) =>
  }

  /** Every operation keeps the cached destinations alive, except a stored command whose target,
      resolved before the remote call, is gone by now. */
  lemma StepTargetsLive(s: State, op: Op)
    requires Inv(s) && TargetsLive(s) && Enabled(s, op)
    ensures TargetsLive(Step(s, op)) <==>
              !(op.OpStoreAccepted? && StoreAcceptedCommand(s, op.command, op.dst).Success? &&
                  op.dst.connId !in s.connections)
  {
    if op.OpPublish? {
      if Publish(s, op.point, op.order).Success? { PublishInv(s, op.point, op.order); }
    } else if op.OpBatchPublish? {
      BatchIsSequential(s, op.points, op.order);
      if BatchPublish(s, op.points, op.order).Success? { PublishAllInv(s, op.points, op.order); }
    } else if op.OpStoreAccepted? {
      if StoreAcceptedCommand(s, op.command, op.dst).Success? { StoreTargetsLive(s, op.command, op.dst); }
    } else {
      QuietTargetsLive(s, op);
    }
  }
}
