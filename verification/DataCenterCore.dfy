/**
 The DataCenter core as the object it is (src/DataCenter/DataCenterCore*.cc): its maps are updated
 in place, and every public operation refines the operation of `DataCenterModel` and keeps the
 invariant of `DataCenterInvariant`.
 */
module DataCenterCore {
  import opened Wrappers
  import opened DataCenterModel
  import opened DataCenterPublish
  import opened DataCenterInvariant
  import opened DataCenterRestore
  import opened DataCenterRoutes
  import opened DataCenterConfig

  class Core {
    var connections: map<Id, Conn>
    var connIdsByKey: map<Key, Id>
    var connTagsByKey: map<Key, set<string>>
    var routes: RouteMap
    var latestByDst: map<Endpoint, Update>
    var latestBySrc: map<Endpoint, SourceUpdate>
    var sourceUpdateSequence: Sequence
    var nextConnId: Id

    function Value(): State
      reads this
    {
      State(connections, connIdsByKey, connTagsByKey, Rel(routes), latestByDst, latestBySrc, sourceUpdateSequence,
            nextConnId)
    }

    ghost predicate Valid()
      reads this
    {
      Inv(Value()) && NoEmpty(routes)
    }

    constructor ()
      ensures Valid() && Value() == Empty && Fresh(Value())
    {
      connections, connIdsByKey, connTagsByKey, routes := map[], map[], map[], map[];
      latestByDst, latestBySrc, sourceUpdateSequence, nextConnId := map[], map[], 0, 1;
    }

    // ---------- connections ----------

    method GetOrCreateConnection(key: Key) returns (r: Result<Conn, Code>)
      requires Valid()
      modifies this
      ensures Valid()
      ensures match DataCenterModel.GetOrCreateConnection(old(Value()), key)
              case Failure(e) => r == Failure(e) && Value() == old(Value())
              case Success((s, conn)) => r == Success(conn) && Value() == s
    {
      if !ValidKey(key) {
        return Failure(InvalidArgument);
      }
      if key in connIdsByKey {
        return Success(connections[connIdsByKey[key]]);
      }
      if nextConnId == 0 {
        return Failure(ResourceExhausted);
      }
      var free := NextFreeId();
      if free.None? {
        return Failure(ResourceExhausted);
      }
      CreateInv(Value(), key);
      var conn := AddConnection(free.value, key);
      return Success(conn);
    }

    method AddConnection(connId: Id, key: Key) returns (conn: Conn)
      modifies this
      ensures Value() == Created(old(Value()), key, connId) && routes == old(routes) && conn == Conn(connId, key)
    {
      nextConnId := if connId == MAX_ID then 0 else connId + 1;
      conn := Conn(connId, key);
      connections := connections[connId := conn];
      connIdsByKey := connIdsByKey[key := connId];
    }

    method NextFreeId() returns (id: Option<Id>)
      ensures id == FirstFree(connections, nextConnId)
    {
      var connId := nextConnId;
      while connId in connections
        invariant FirstFree(connections, connId) == FirstFree(connections, nextConnId)
        decreases MAX_ID - connId
      {
        if connId == MAX_ID {
          return None;
        }
        connId := connId + 1;
      }
      return Some(connId);
    }

    /** Gives a connection a new key: in both maps, in its tag table and in the routes. */
    method ChangeKey(connId: Id, oldKey: Key, newKey: Key)
      requires NoEmpty(routes)
      modifies this
      ensures Value() == Rekey(old(Value()), connId, oldKey, newKey) && NoEmpty(routes)
    {
      connIdsByKey := connIdsByKey - {oldKey};
      connIdsByKey := connIdsByKey[newKey := connId];
      if oldKey in connTagsByKey {
        var tags := connTagsByKey[oldKey];
        connTagsByKey := connTagsByKey - {oldKey};
        connTagsByKey := connTagsByKey[newKey := tags];
      }
      routes := RewriteConnectionKeyReferences(routes, oldKey, newKey);
      connections := connections[connId := Conn(connId, newKey)];
    }

    method RenameConnection(oldKey: Key, newKey: Key) returns (r: Result<Conn, Code>)
      requires Valid()
      modifies this
      ensures Valid()
      ensures match DataCenterModel.RenameConnection(old(Value()), oldKey, newKey)
              case Failure(e) => r == Failure(e) && Value() == old(Value())
              case Success((s, conn)) => r == Success(conn) && Value() == s
    {
      if !ValidKey(oldKey) || !ValidKey(newKey) {
        return Failure(InvalidArgument);
      }
      if oldKey !in connIdsByKey {
        return Failure(NotFound);
      }
      var connId := connIdsByKey[oldKey];
      if oldKey == newKey {
        return Success(connections[connId]);
      }
      if newKey in connIdsByKey && connIdsByKey[newKey] != connId {
        return Failure(AlreadyExists);
      }
      RekeyInv(Value(), connId, newKey);
      ChangeKey(connId, oldKey, newKey);
      return Success(connections[connId]);
    }

    method UpsertConnection(conn: Conn) returns (r: Result<(), Code>)
      requires Valid()
      modifies this
      ensures Valid()
      ensures match DataCenterModel.UpsertConnection(old(Value()), conn)
              case Failure(e) => r == Failure(e) && Value() == old(Value())
              case Success(s) => r == Success(()) && Value() == s
    {
      if conn.connId == 0 || !ValidKey(conn.key) {
        return Failure(InvalidArgument);
      }
      if conn.connId !in connections {
        return Failure(NotFound);
      }
      if conn.key in connIdsByKey && connIdsByKey[conn.key] != conn.connId {
        return Failure(AlreadyExists);
      }
      var curKey := connections[conn.connId].key;
      RekeyInv(Value(), conn.connId, conn.key);
      ChangeKey(conn.connId, curKey, conn.key);
      return Success(());
    }

    method DeleteConnection(key: Key) returns (r: Result<(), Code>)
      requires Valid()
      modifies this
      ensures Valid()
      ensures match DataCenterModel.DeleteConnection(old(Value()), key)
              case Failure(e) => r == Failure(e) && Value() == old(Value())
              case Success(s) => r == Success(()) && Value() == s
    {
      if !ValidKey(key) {
        return Failure(InvalidArgument);
      }
      if key !in connIdsByKey {
        return Failure(NotFound);
      }
      var connId := connIdsByKey[key];
      DeleteInv(Value(), key);
      RemoveConnection(key, connId);
      return Success(());
    }

    method RemoveConnection(key: Key, connId: Id)
      requires NoEmpty(routes)
      modifies this
      ensures Value() == Deleted(old(Value()), key, connId) && NoEmpty(routes)
    {
      connIdsByKey := connIdsByKey - {key};
      connections := connections - {connId};
      connTagsByKey := connTagsByKey - {key};
      ghost var before := Rel(routes);
      routes := EraseEndpoints(routes, (e: Stable) => e.key == key);
      assert Rel(routes) == set r | r in before && !Touches(r, key);
      ForgetConnection(connId);
    }

    /** Erases the cached values that name a connection. */
    method ForgetConnection(connId: Id)
      modifies this`latestByDst, this`latestBySrc
      ensures latestByDst == ForgetTargets(old(latestByDst), connId)
      ensures latestBySrc == ForgetSources(old(latestBySrc), connId)
    {
      ghost var targets, sources := latestByDst, latestBySrc;
      var todo := latestByDst.Keys;
      while todo != {}
        modifies this`latestByDst
        invariant todo <= targets.Keys
        invariant forall e :: e in latestByDst <==> e in targets && (e in todo || e in ForgetTargets(targets, connId))
        invariant forall e :: e in latestByDst ==> latestByDst[e] == targets[e]
      {
        var e :| e in todo;
        var update := latestByDst[e];
        if e.connId == connId || update.srcConnId == connId || update.dstConnId == connId {
          latestByDst := latestByDst - {e};
        }
        todo := todo - {e};
      }
      todo := latestBySrc.Keys;
      while todo != {}
        modifies this`latestBySrc
        invariant todo <= sources.Keys
        invariant forall e :: e in latestBySrc <==> e in sources && (e in todo || e in ForgetSources(sources, connId))
        invariant forall e :: e in latestBySrc ==> latestBySrc[e] == sources[e]
      {
        var e :| e in todo;
        if e.connId == connId || latestBySrc[e].connId == connId {
          latestBySrc := latestBySrc - {e};
        }
        todo := todo - {e};
      }
    }

    // ---------- tag tables ----------

    method UpsertConnTags(connId: Id, tags: seq<string>, replace: bool) returns (r: Result<(), Code>)
      requires Valid()
      modifies this
      ensures Valid()
      ensures match DataCenterModel.UpsertConnTags(old(Value()), connId, tags, replace)
              case Failure(e) => r == Failure(e) && Value() == old(Value())
              case Success(s) => r == Success(()) && Value() == s
    {
      if connId == 0 || "" in tags {
        return Failure(InvalidArgument);
      }
      if connId !in connections {
        return Failure(NotFound);
      }
      TagsInv(Value(), connId, tags, replace);
      var key := connections[connId].key;
      var table := if key in connTagsByKey then connTagsByKey[key] else {};
      if replace {
        table := {};
      }
      var filled := InsertTags(table, tags);
      connTagsByKey := connTagsByKey[key := filled.value];
      if replace {
        PruneRoutesRejectedByConnTags(key, filled.value);
      }
      return Success(());
    }

    method PruneRoutesRejectedByConnTags(key: Key, allowedTags: set<string>)
      requires NoEmpty(routes)
      modifies this`routes
      ensures Rel(routes) == Prune(old(Rel(routes)), key, allowedTags) && NoEmpty(routes)
    {
      ghost var before := Rel(routes);
      routes := EraseEndpoints(routes, (e: Stable) => e.key == key && e.tag !in allowedTags);
      assert Rel(routes) == Prune(before, key, allowedTags);
    }

    method ReplaceConnTagsConfig(tables: seq<Table>) returns (ok: bool)
      requires NoEmpty(routes)
      modifies this
      ensures NoEmpty(routes)
      ensures match ReplaceConnTags(old(Value()), tables)
              case None => !ok && Value() == old(Value())
              case Some(s) => ok && Value() == s
    {
      var next := ReadTables(connIdsByKey, tables);
      if next.None? {
        return false;
      }
      connTagsByKey := next.value;
      ghost var before := Rel(routes);
      var todo := connTagsByKey.Keys;
      while todo != {}
        modifies this`routes
        invariant todo <= connTagsByKey.Keys && NoEmpty(routes)
        invariant Rel(routes) == set r | r in before && RouteAdmitted(connTagsByKey - todo, r)
      {
        var key :| key in todo;
        AdmittedMore(before, connTagsByKey, todo, key);
        PruneRoutesRejectedByConnTags(key, connTagsByKey[key]);
        todo := todo - {key};
      }
      assert connTagsByKey - {} == connTagsByKey;
      return true;
    }

    // ---------- routes ----------

    method UpsertRoutes(requests: seq<RouteRef>, replace: bool) returns (ok: bool)
      requires Valid()
      modifies this
      ensures Valid()
      ensures match DataCenterModel.UpsertRoutes(old(Value()), requests, replace)
              case None => !ok && Value() == old(Value())
              case Some(s) => ok && Value() == s
    {
      assert Rel(map[]) == {};
      var next := AddRoutes(Value(), if replace then map[] else routes, requests);
      if next.None? {
        return false;
      }
      RoutesInv(Value(), requests, replace);
      routes := next.value;
      return true;
    }

    method DeleteRoutes(requests: seq<RouteRef>) returns (ok: bool)
      requires Valid()
      modifies this
      ensures Valid()
      ensures match DataCenterModel.DeleteRoutes(old(Value()), requests)
              case None => !ok && Value() == old(Value())
              case Some(s) => ok && Value() == s
    {
      var next := RemoveRoutes(Value(), routes, requests);
      if next.None? {
        return false;
      }
      routes := next.value;
      return true;
    }

    method ReplaceRoutesConfig(requests: seq<RouteRef>) returns (ok: bool)
      requires NoEmpty(routes)
      modifies this
      ensures NoEmpty(routes)
      ensures match ReplaceRoutes(old(Value()), requests)
              case None => !ok && Value() == old(Value())
              case Some(s) => ok && Value() == s
    {
      assert Rel(map[]) == {};
      var next := AddRoutes(Value(), map[], requests);
      if next.None? {
        return false;
      }
      routes := next.value;
      return true;
    }

    // ---------- publishing ----------

    /** `order` is the order in which the hash sets of destinations are walked. */
    method Publish(p: Point, order: Order) returns (r: Result<seq<Update>, Code>)
      requires Valid() && Enumerates(order, Value().routes)
      modifies this
      ensures Valid() && Value().routes == old(Value().routes)
      ensures match DataCenterModel.Publish(old(Value()), p, order)
              case Failure(e) => r == Failure(e) && Value() == old(Value())
              case Success((s, updates)) => r == Success(updates) && Value() == s
    {
      ghost var before := Value();
      r := CheckAndPublish(p, order);
      if r.Success? {
        PublishInv(before, p, order);
      }
    }

    method CheckAndPublish(p: Point, order: Order) returns (r: Result<seq<Update>, Code>)
      modifies this`sourceUpdateSequence, this`latestBySrc, this`latestByDst
      ensures match DataCenterModel.Publish(old(Value()), p, order)
              case Failure(e) => r == Failure(e) && Value() == old(Value())
              case Success((s, updates)) => r == Success(updates) && Value() == s
    {
      if !WellFormed(p) {
        return Failure(InvalidArgument);
      }
      if p.connId !in connections {
        return Failure(NotFound);
      }
      var src := Stable(connections[p.connId].key, p.tag);
      var dsts := if src in order then order[src] else [];
      var known := AllKnown(connIdsByKey, dsts);
      if !known {
        return Failure(NotFound);
      }
      if sourceUpdateSequence == MAX_SEQUENCE {
        return Failure(ResourceExhausted);
      }
      var updates := WritePublished(p, dsts);
      return Success(updates);
    }

    method WritePublished(p: Point, dsts: seq<Stable>) returns (updates: seq<Update>)
      requires WellFormed(p) && sourceUpdateSequence < MAX_SEQUENCE
      requires forall d :: d in dsts ==> d.key in connIdsByKey
      modifies this`sourceUpdateSequence, this`latestBySrc, this`latestByDst
      ensures updates == UpdatesFor(connIdsByKey, p, dsts)
      ensures sourceUpdateSequence == old(sourceUpdateSequence) + 1
      ensures latestBySrc == old(latestBySrc)[Endpoint(p.connId, p.tag) :=
                               SourceUpdate(p.connId, p.tag, PayloadOf(p), old(sourceUpdateSequence) + 1)]
      ensures latestByDst == Overlay(old(latestByDst), updates)
    {
      sourceUpdateSequence := sourceUpdateSequence + 1;
      var update := SourceUpdate(p.connId, p.tag, PayloadOf(p), sourceUpdateSequence);
      latestBySrc := latestBySrc[Endpoint(p.connId, p.tag) := update];
      updates := [];
      for i := 0 to |dsts|
        modifies this`latestByDst
        invariant updates == UpdatesFor(connIdsByKey, p, dsts)[..i]
        invariant latestByDst == Overlay(old(latestByDst), updates)
      {
        var dst := dsts[i];
        var update := Update(p.connId, p.tag, connIdsByKey[dst.key], dst.tag, PayloadOf(p));
        latestByDst := latestByDst[Endpoint(update.dstConnId, update.dstTag) := update];
        updates := updates + [update];
      }
    }

    /** Checks every point, then collects all updates, and only then writes anything. */
    method BatchPublish(points: seq<Point>, order: Order) returns (r: Result<seq<Update>, Code>)
      requires Valid() && Enumerates(order, Value().routes)
      modifies this
      ensures Valid() && Value().routes == old(Value().routes)
      ensures match DataCenterPublish.BatchPublish(old(Value()), points, order)
              case Failure(e) => r == Failure(e) && Value() == old(Value())
              case Success((s, updates)) => r == Success(updates) && Value() == s
    {
      ghost var before := Value();
      r := CheckAndPublishBatch(points, order);
      if r.Success? {
        BatchKeepsInv(before, points, order);
      }
    }

    method CheckAndPublishBatch(points: seq<Point>, order: Order) returns (r: Result<seq<Update>, Code>)
      modifies this`sourceUpdateSequence, this`latestBySrc, this`latestByDst
      ensures match DataCenterPublish.BatchPublish(old(Value()), points, order)
              case Failure(e) => r == Failure(e) && Value() == old(Value())
              case Success((s, updates)) => r == Success(updates) && Value() == s
    {
      var refused := CheckBatch(points, order);
      if refused.Some? {
        return Failure(refused.value);
      }
      var sources, updates := CollectBatch(points, order);
      WriteBatch(points, sources, updates);
      return Success(updates);
    }

    method CheckBatch(points: seq<Point>, order: Order) returns (refused: Option<Code>)
      ensures refused ==
                if BatchAccepted(Value(), points, order) then None else Some(BatchError(Value(), points, order))
    {
      for i := 0 to |points|
        invariant forall p :: p in points[..i] ==> WellFormed(p)
      {
        assert points[i] in points;
        if !WellFormed(points[i]) {
          return Some(InvalidArgument);
        }
      }
      assert points[..|points|] == points;
      for i := 0 to |points|
        invariant forall p :: p in points[..i] ==> p.connId in connections && Deliverable(Value(), p, order)
      {
        var p := points[i];
        assert p in points;
        if p.connId !in connections {
          return Some(NotFound);
        }
        var src := Stable(connections[p.connId].key, p.tag);
        var known := AllKnown(connIdsByKey, if src in order then order[src] else []);
        if !known {
          return Some(NotFound);
        }
      }
      if |points| > MAX_SEQUENCE - sourceUpdateSequence {
        return Some(ResourceExhausted);
      }
      return None;
    }

    method CollectBatch(points: seq<Point>, order: Order) returns (sources: seq<SourceUpdate>, updates: seq<Update>)
      requires BatchAccepted(Value(), points, order)
      ensures sources == SourceUpdates(points, sourceUpdateSequence)
      ensures updates == AllUpdates(Value(), points, order)
    {
      sources, updates := [], [];
      var nextSequence := sourceUpdateSequence;
      for i := 0 to |points|
        invariant nextSequence == sourceUpdateSequence + i
        invariant sources == SourceUpdates(points, sourceUpdateSequence)[..i]
        invariant updates == AllUpdates(Value(), points[..i], order)
      {
        var p := points[i];
        assert p in points;
        nextSequence := nextSequence + 1;
        sources := sources + [SourceUpdate(p.connId, p.tag, PayloadOf(p), nextSequence)];
        var src := Stable(connections[p.connId].key, p.tag);
        var dsts := if src in order then order[src] else [];
        var more := CollectUpdates(p, dsts);
        AllUpdatesMore(Value(), points, order, i);
        updates := updates + more;
      }
      assert points[..|points|] == points;
    }

    method CollectUpdates(p: Point, dsts: seq<Stable>) returns (updates: seq<Update>)
      requires WellFormed(p) && forall d :: d in dsts ==> d.key in connIdsByKey
      ensures updates == UpdatesFor(connIdsByKey, p, dsts)
    {
      updates := [];
      for j := 0 to |dsts|
        invariant updates == UpdatesFor(connIdsByKey, p, dsts)[..j]
      {
        updates := updates + [Update(p.connId, p.tag, connIdsByKey[dsts[j].key], dsts[j].tag, PayloadOf(p))];
      }
    }

    method WriteBatch(points: seq<Point>, sources: seq<SourceUpdate>, updates: seq<Update>)
      requires |points| <= MAX_SEQUENCE - sourceUpdateSequence
      modifies this`sourceUpdateSequence, this`latestBySrc, this`latestByDst
      ensures sourceUpdateSequence == old(sourceUpdateSequence) + |points|
      ensures latestBySrc == OverlaySources(old(latestBySrc), sources)
      ensures latestByDst == Overlay(old(latestByDst), updates)
    {
      for i := 0 to |sources|
        modifies this`latestBySrc
        invariant latestBySrc == OverlaySources(old(latestBySrc), sources[..i])
      {
        assert sources[..i + 1][..i] == sources[..i];
        latestBySrc := latestBySrc[Endpoint(sources[i].connId, sources[i].tag) := sources[i]];
      }
      assert sources[..|sources|] == sources;
      sourceUpdateSequence := sourceUpdateSequence + |points|;
      for i := 0 to |updates|
        modifies this`latestByDst
        invariant latestByDst == Overlay(old(latestByDst), updates[..i])
      {
        assert updates[..i + 1][..i] == updates[..i];
        latestByDst := latestByDst[Endpoint(updates[i].dstConnId, updates[i].dstTag) := updates[i]];
      }
      assert updates[..|updates|] == updates;
    }

    method StoreAcceptedCommand(c: Command, dst: Endpoint) returns (r: Result<(), Code>)
      requires Valid()
      modifies this
      ensures Valid()
      ensures match DataCenterModel.StoreAcceptedCommand(old(Value()), c, dst)
              case Failure(e) => r == Failure(e) && Value() == old(Value())
              case Success(s) => r == Success(()) && Value() == s
    {
      if c.src.None? || c.value.None? || dst.connId == 0 || dst.tag == "" || c.quality.None? {
        return Failure(InvalidArgument);
      }
      var src := Resolve(Value(), c.src.value);
      if src.Failure? {
        return Failure(src.error);
      }
      StoreInv(Value(), c, dst);
      var payload := Payload(c.value.value, if c.tsMs <= 0 then c.now else c.tsMs, c.quality.value);
      var srcId := SourceId(Value(), c.src.value);
      latestByDst := latestByDst[dst := Update(srcId, src.value.tag, dst.connId, dst.tag, payload)];
      return Success(());
    }

    /** The single destination of a command, if there is exactly one. */
    method ResolveCommandRoute(c: Command) returns (r: Result<CommandRoute, Code>)
      requires Valid()
      ensures r == DataCenterModel.ResolveCommandRoute(Value(), c)
      ensures r != Success(Unavailable)
    {
      if c.src.None? || c.value.None? || c.quality.None? {
        return Failure(InvalidArgument);
      }
      var src := Resolve(Value(), c.src.value);
      if src.Failure? {
        return Failure(src.error);
      }
      RelDestinations(routes, src.value);
      if src.value !in routes || routes[src.value] == {} {
        return Success(NoRoute);
      }
      if |routes[src.value]| != 1 {
        return Success(Ambiguous);
      }
      var dst := TheOnly(routes[src.value]);
      assert Route(src.value, dst) in Value().routes;
      if !c.parses {
        return Failure(InvalidArgument);
      }
      return Success(To(dst, connIdsByKey[dst.key]));
    }

    // ---------- reading the caches ----------

    method GetLatest(connId: Id, tags: seq<string>) returns (r: Option<seq<Update>>)
      requires Valid()
      ensures r.Some? <==> connId != 0 && "" !in tags
      ensures r.Some? ==> ListsCache(r.value, Latest(latestByDst, connId, Elements(tags)))
    {
      if connId == 0 || "" in tags {
        return None;
      }
      var filter := InsertTags({}, tags);
      assert {} + Elements(tags) == Elements(tags);
      var updates := [];
      var todo := latestByDst.Keys;
      ghost var cache := Latest(latestByDst, connId, filter.value);
      while todo != {}
        invariant todo <= latestByDst.Keys
        invariant forall u :: u in updates <==> Target(u) in cache && Target(u) !in todo && cache[Target(u)] == u
        invariant Distinct(updates)
      {
        var e :| e in todo;
        assert Target(latestByDst[e]) == e;
        if e.connId == connId && (filter.value == {} || e.tag in filter.value) {
          updates := updates + [latestByDst[e]];
        }
        todo := todo - {e};
      }
      return Some(updates);
    }

    // ---------- saving and restoring ----------

    method DumpState() returns (saved: Saved)
      requires Valid()
      ensures DumpOf(Value(), saved)
    {
      var conns := ListConnections(connections);
      var tables := ListTables(connTagsByKey);
      var refs := ListRoutes(Value(), routes, RouteFilter(0, "", 0, ""));
      assert forall q :: q in Rel(routes) ==> MatchesRoute(Value(), q, RouteFilter(0, "", 0, ""));
      saved := Saved(0, nextConnId, conns, tables, refs);
    }

    method ReplaceConnectionsConfig(next: Id, conns: seq<Conn>) returns (ok: bool)
      modifies this
      ensures routes == old(routes)
      ensures match ReplaceConnections(old(Value()), next, conns)
              case None => !ok && Value() == old(Value())
              case Some(s) => ok && Value() == s
    {
      var read := ReadConnections(conns);
      if read.None? {
        return false;
      }
      var (byId, byKey, maxId) := read.value;
      var computed: Id := 1;
      if maxId == MAX_ID {
        computed := 0;
      } else if conns != [] {
        computed := maxId + 1;
      }
      var nextId := next;
      if nextId == 0 {
        nextId := computed;
      } else if computed != 0 && nextId < computed {
        nextId := computed;
      }
      connections, connIdsByKey, nextConnId := byId, byKey, nextId;
      return true;
    }

    /** Start-up. */
    constructor Restore(saved: Saved)
      ensures Valid() && Value() == DataCenterRestore.Restore(saved)
    {
      connections, connIdsByKey, connTagsByKey, routes := map[], map[], map[], map[];
      latestByDst, latestBySrc, sourceUpdateSequence, nextConnId := map[], map[], 0, 1;
      new;
      assert Value() == Empty;
      RestoreInv(saved);
      var ok := ReplaceConnectionsConfig(saved.nextConnId, saved.conns);
      if !ok {
        return;
      }
      ok := ReplaceConnTagsConfig(saved.tables);
      if !ok {
        return;
      }
      ok := ReplaceRoutesConfig(saved.routes);
    }
  }

  ghost predicate ListsCache(updates: seq<Update>, cache: map<Endpoint, Update>) {
    && (forall u :: u in updates <==> Target(u) in cache && cache[Target(u)] == u)
    && Distinct(updates)
  }

  method AllKnown(idsByKey: map<Key, Id>, dsts: seq<Stable>) returns (known: bool)
    ensures known <==> forall d :: d in dsts ==> d.key in idsByKey
  {
    for i := 0 to |dsts|
      invariant forall d :: d in dsts[..i] ==> d.key in idsByKey
    {
      if dsts[i].key !in idsByKey {
        return false;
      }
    }
    assert dsts[..|dsts|] == dsts;
    return true;
  }

  lemma AllUpdatesMore(s: State, points: seq<Point>, order: Order, i: nat)
    requires i < |points| && forall p :: p in points ==> WellFormed(p) && p.connId in s.connections
    ensures AllUpdates(s, points[..i + 1], order) ==
              AllUpdates(s, points[..i], order) + UpdatesFor(s.idsByKey, points[i], Walk(order, SourceOf(s, points[i])))
  {
    assert points[..i + 1][..i] == points[..i];
  }

  lemma BatchKeepsInv(s: State, points: seq<Point>, order: Order)
    requires Inv(s) && Enumerates(order, s.routes) && BatchAccepted(s, points, order)
    ensures Inv(BatchResult(s, points, order).0)
  {
    BatchIsSequential(s, points, order);
    PublishAllInv(s, points, order);
  }

  lemma AdmittedMore(before: set<Route>, tags: map<Key, set<string>>, todo: set<Key>, key: Key)
    requires key in todo && todo <= tags.Keys
    ensures Prune((set r | r in before && RouteAdmitted(tags - todo, r)), key, tags[key]) ==
              (set r | r in before && RouteAdmitted(tags - (todo - {key}), r))
  {
    forall e: Stable
      ensures Admits(tags - (todo - {key}), e) <==> Admits(tags - todo, e) && !Refused(e, key, tags[key])
    {
    }
  }
}
