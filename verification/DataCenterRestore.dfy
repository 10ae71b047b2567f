/**
 Saving the DataCenter state and starting from it again: the dumps and the three Replace calls
 (src/DataCenter/DataCenterCoreConnection.cc, DataCenterCoreConnTags.cc, DataCenterCoreRoutes.cc),
 the validation of a saved state (DataCenterStateStore.cc) and the start-up that applies it
 (DataCenterGrpcService.cc).
 */
module DataCenterRestore {
  import opened Wrappers
  import opened Bytes
  import opened DataCenterModel
  import opened DataCenterPublish
  import opened DataCenterInvariant

  datatype Table = Table(key: Key, tags: seq<string>)

  const SCHEMA_VERSION := 1

  datatype Saved = Saved(schemaVersion: nat, nextConnId: Id, conns: seq<Conn>, tables: seq<Table>,
                         routes: seq<RouteRef>)

  ghost predicate Distinct<T(!new)>(xs: seq<T>) {
    forall i, j :: 0 <= i < j < |xs| ==> xs[i] != xs[j]
  }

  // ---------- the three Replace calls ----------

  ghost predicate ConnsAccepted(conns: seq<Conn>) {
    && (forall c :: c in conns ==> c.connId != 0 && ValidKey(c.key))
    && (forall i, j :: 0 <= i < j < |conns| ==> conns[i].connId != conns[j].connId && conns[i].key != conns[j].key)
  }

  function ById(conns: seq<Conn>): map<Id, Conn> {
    if conns == [] then map[] else ById(conns[..|conns| - 1])[conns[|conns| - 1].connId := conns[|conns| - 1]]
  }

  function ByKey(conns: seq<Conn>): map<Key, Id> {
    if conns == [] then map[] else ByKey(conns[..|conns| - 1])[conns[|conns| - 1].key := conns[|conns| - 1].connId]
  }

  function MaxId(conns: seq<Conn>): (m: Id)
    ensures forall c :: c in conns ==> c.connId <= m
    ensures m != 0 ==> exists c :: c in conns && c.connId == m
  {
    if conns == [] then 0
    else
      var rest := MaxId(conns[..|conns| - 1]);
      var last := conns[|conns| - 1].connId;
      assert conns == conns[..|conns| - 1] + [conns[|conns| - 1]];
      assert conns[|conns| - 1] in conns;
      if rest < last then last else rest
  }

  /** The id to give out next: the saved one, unless it is missing or too low. */
  function NextId(saved: Id, conns: seq<Conn>): Id {
    var computed := if MaxId(conns) == MAX_ID then 0 else if conns != [] then MaxId(conns) + 1 else 1;
    if saved == 0 || (computed != 0 && saved < computed) then computed else saved
  }

  ghost function ReplaceConnections(s: State, next: Id, conns: seq<Conn>): Option<State> {
    if ConnsAccepted(conns) then
      Some(s.(connections := ById(conns), idsByKey := ByKey(conns), nextId := NextId(next, conns)))
    else None
  }

  predicate TablesAccepted(idsByKey: map<Key, Id>, tables: seq<Table>) {
    forall t :: t in tables ==> ValidKey(t.key) && t.key in idsByKey && "" !in t.tags
  }

  /** Tables for the same key are merged. */
  function ByTableKey(tables: seq<Table>): map<Key, set<string>> {
    if tables == [] then map[]
    else
      var rest := ByTableKey(tables[..|tables| - 1]);
      var last := tables[|tables| - 1];
      rest[last.key := (if last.key in rest then rest[last.key] else {}) + Elements(last.tags)]
  }

  predicate RouteAdmitted(tagsByKey: map<Key, set<string>>, r: Route) {
    Admits(tagsByKey, r.src) && Admits(tagsByKey, r.dst)
  }

  function ReplaceConnTags(s: State, tables: seq<Table>): Option<State> {
    if TablesAccepted(s.idsByKey, tables) then
      var tags := ByTableKey(tables);
      Some(s.(tagsByKey := tags, routes := set r | r in s.routes && RouteAdmitted(tags, r)))
    else None
  }

  function ReplaceRoutes(s: State, routes: seq<RouteRef>): Option<State> {
    UpsertRoutes(s, routes, true)
  }

  /** Start-up: the three calls in order, up to the first that fails. */
  ghost function Restore(saved: Saved): State {
    match ReplaceConnections(Empty, saved.nextConnId, saved.conns)
    case None => Empty
    case Some(s) =>
      match ReplaceConnTags(s, saved.tables)
      case None => s
      case Some(t) =>
        match ReplaceRoutes(t, saved.routes)
        case None => t
        case Some(u) => u
  }

  // ---------- validation of a saved state ----------

  ghost predicate EndpointValid(conns: seq<Conn>, tags: map<Key, set<string>>, e: EndpointRef) {
    e.tag != "" && ValidKey(e.key) && e.key in ByKey(conns) && Admits(tags, Stable(e.key, e.tag))
  }

  ghost predicate TablesValid(conns: seq<Conn>, tables: seq<Table>) {
    && (forall i, j :: 0 <= i < j < |tables| ==> tables[i].key != tables[j].key)
    && (forall t :: t in tables ==> ValidKey(t.key) && t.key in ByKey(conns) && "" !in t.tags && Distinct(t.tags))
  }

  ghost predicate ValidState(saved: Saved) {
    && saved.schemaVersion == SCHEMA_VERSION
    && ConnsAccepted(saved.conns)
    && TablesValid(saved.conns, saved.tables)
    && (forall r :: r in saved.routes ==>
          EndpointValid(saved.conns, ByTableKey(saved.tables), r.src) &&
              EndpointValid(saved.conns, ByTableKey(saved.tables), r.dst))
  }

  // ---------- dumps ----------

  /** What the store makes of a state it saves or loads: without a schema version it gets the current one. */
  function NormalizeState(saved: Saved): Saved {
    if saved.schemaVersion == 0 then saved.(schemaVersion := SCHEMA_VERSION) else saved
  }

  function DumpEndpoint(s: State, e: Stable): EndpointRef {
    EndpointRef(if e.key in s.idsByKey then s.idsByKey[e.key] else 0, e.key, e.tag)
  }

  function DumpRoute(s: State, r: Route): RouteRef {
    RouteRef(DumpEndpoint(s, r.src), DumpEndpoint(s, r.dst))
  }

  /** `saved` lists the state, in whatever order. The core leaves the schema version to the store. */
  ghost predicate DumpOf(s: State, saved: Saved) {
    && saved.schemaVersion == 0
    && saved.nextConnId == s.nextId
    && (forall c :: c in saved.conns <==> c.connId in s.connections && s.connections[c.connId] == c)
    && Distinct(saved.conns)
    && (forall t :: t in saved.tables ==>
          t.key in s.tagsByKey && Elements(t.tags) == s.tagsByKey[t.key] && Distinct(t.tags))
    && (forall key :: key in s.tagsByKey ==> exists t :: t in saved.tables && t.key == key)
    && (forall i, j :: 0 <= i < j < |saved.tables| ==> saved.tables[i].key != saved.tables[j].key)
    && (forall r :: r in saved.routes <==> exists q :: q in s.routes && DumpRoute(s, q) == r)
    && Distinct(saved.routes)
  }

  // ---------- what restoring gives ----------

  lemma {:induction false} IdCases(conns: seq<Conn>)
    requires ConnsAccepted(conns)
    ensures forall c :: c in conns ==> c.connId in ById(conns) && ById(conns)[c.connId] == c
    ensures forall id: Id :: id in ById(conns) ==> ById(conns)[id] in conns && ById(conns)[id].connId == id
  {
    if conns != [] {
      var n := |conns| - 1;
      IdCases(conns[..n]);
      assert conns == conns[..n] + [conns[n]];
    }
  }

  lemma {:induction false} KeyCases(conns: seq<Conn>)
    requires ConnsAccepted(conns)
    ensures forall c :: c in conns ==> c.key in ByKey(conns) && ByKey(conns)[c.key] == c.connId
    ensures forall key :: key in ByKey(conns) ==> exists c ::
              c in conns && c.key == key && c.connId == ByKey(conns)[key]
  {
    if conns != [] {
      var n := |conns| - 1;
      KeyCases(conns[..n]);
      assert conns == conns[..n] + [conns[n]];
    }
  }

  lemma ByIdCases(conns: seq<Conn>)
    requires ConnsAccepted(conns)
    ensures forall c :: c in conns ==>
              && c.connId in ById(conns) && ById(conns)[c.connId] == c
              && c.key in ByKey(conns) && ByKey(conns)[c.key] == c.connId
    ensures forall id: Id :: id in ById(conns) ==> ById(conns)[id] in conns && ById(conns)[id].connId == id
    ensures forall key :: key in ByKey(conns) ==> exists c ::
              c in conns && c.key == key && c.connId == ByKey(conns)[key]
  {
    IdCases(conns);
    KeyCases(conns);
  }

  lemma ReplacedRegistry(conns: seq<Conn>)
    requires ConnsAccepted(conns)
    ensures Registry(ById(conns), ByKey(conns))
  {
    ByIdCases(conns);
  }

  lemma {:induction false} ByTableKeyCases(tables: seq<Table>)
    ensures forall key :: key in ByTableKey(tables) <==> exists t :: t in tables && t.key == key
    ensures forall key, tag :: key in ByTableKey(tables) && tag in ByTableKey(tables)[key] ==>
              exists t :: t in tables && t.key == key && tag in t.tags
    ensures forall t, tag :: t in tables && tag in t.tags ==>
              t.key in ByTableKey(tables) && tag in ByTableKey(tables)[t.key]
  {
    if tables != [] {
      var n := |tables| - 1;
      ByTableKeyCases(tables[..n]);
      assert tables == tables[..n] + [tables[n]];
    }
  }

  /** Whatever was saved, start-up ends in a state that has the invariant, and unless the saved
      state names the last id and yet a next one, its next id is above all others. */
  lemma RestoreInv(saved: Saved)
    ensures Inv(Restore(saved)) && TargetsLive(Restore(saved))
    ensures Fresh(Restore(saved)) <==>
              !(ConnsAccepted(saved.conns) && saved.nextConnId != 0 && exists c ::
                  c in saved.conns && c.connId == MAX_ID)
  {
    if ConnsAccepted(saved.conns) {
      ReplacedRegistry(saved.conns);
      ByIdCases(saved.conns);
      RestoreFresh(saved.nextConnId, saved.conns);
      var s := ReplaceConnections(Empty, saved.nextConnId, saved.conns).value;
      assert Inv(s);
      if TablesAccepted(s.idsByKey, saved.tables) {
        ByTableKeyCases(saved.tables);
        var t := ReplaceConnTags(s, saved.tables).value;
        assert Inv(t);
        if UpsertRoutes(t, saved.routes, true).Some? {
          RoutesInv(t, saved.routes, true);
        }
      }
    }
  }

  lemma RestoreFresh(next: Id, conns: seq<Conn>)
    requires ConnsAccepted(conns)
    ensures (NextId(next, conns) != 0 ==> forall c :: c in conns ==> c.connId < NextId(next, conns)) <==>
              !(next != 0 && exists c :: c in conns && c.connId == MAX_ID)
  {
    if c :| c in conns && c.connId == MAX_ID {
      assert MaxId(conns) == MAX_ID;
    }
  }

  // ---------- the round trip ----------

  /** Every route endpoint is accepted by its connection's tag table. */
  ghost predicate TagsAdmit(s: State) {
    forall r :: r in s.routes ==> RouteAdmitted(s.tagsByKey, r)
  }

  lemma ListedRegistry(connections: map<Id, Conn>, idsByKey: map<Key, Id>, conns: seq<Conn>)
    requires Registry(connections, idsByKey) && ConnsAccepted(conns)
    requires forall c :: c in conns <==> c.connId in connections && connections[c.connId] == c
    ensures ById(conns) == connections && ByKey(conns) == idsByKey
  {
    ByIdCases(conns);
    forall id: Id | id in connections ensures id in ById(conns) && ById(conns)[id] == connections[id] {
      assert connections[id] in conns;
    }
    forall key | key in idsByKey ensures key in ByKey(conns) && ByKey(conns)[key] == idsByKey[key] {
      assert connections[idsByKey[key]] in conns;
    }
  }

  lemma DumpedConns(s: State, saved: Saved)
    requires Inv(s) && DumpOf(s, saved)
    ensures ConnsAccepted(saved.conns) && ById(saved.conns) == s.connections && ByKey(saved.conns) == s.idsByKey
  {
    ListedRegistry(s.connections, s.idsByKey, saved.conns);
  }

  lemma ListedTables(tagsByKey: map<Key, set<string>>, tables: seq<Table>)
    requires forall t :: t in tables ==> t.key in tagsByKey && Elements(t.tags) == tagsByKey[t.key]
    requires forall key :: key in tagsByKey ==> exists t :: t in tables && t.key == key
    ensures ByTableKey(tables) == tagsByKey
  {
    ByTableKeyCases(tables);
    var listed := ByTableKey(tables);
    forall key, tag | key in tagsByKey
      ensures tag in listed[key] <==> tag in tagsByKey[key]
    {
      if tag in tagsByKey[key] {
        var t :| t in tables && t.key == key;
        assert tag in Elements(t.tags);
      }
      if tag in listed[key] {
        var u :| u in tables && u.key == key && tag in u.tags;
        assert tag in Elements(u.tags);
      }
    }
    forall key | key in tagsByKey ensures listed[key] == tagsByKey[key] {
    }
  }

  lemma DumpedTables(s: State, saved: Saved)
    requires Inv(s) && DumpOf(s, saved)
    ensures TablesAccepted(s.idsByKey, saved.tables) && ByTableKey(saved.tables) == s.tagsByKey
  {
    forall t | t in saved.tables ensures ValidKey(t.key) && "" !in t.tags {
      assert t.key in s.tagsByKey;
      assert forall x :: x in t.tags ==> x in Elements(t.tags);
    }
    ListedTables(s.tagsByKey, saved.tables);
  }

  lemma DumpedRoutes(s: State, saved: Saved, t: State)
    requires Inv(s) && DumpOf(s, saved)
    requires t.connections == s.connections && t.idsByKey == s.idsByKey && t.tagsByKey == s.tagsByKey
    ensures UpsertRoutes(t, saved.routes, true).Some? <==> TagsAdmit(s)
    ensures TagsAdmit(s) ==> UpsertRoutes(t, saved.routes, true) == Some(t.(routes := s.routes))
  {
    forall q | q in s.routes
      ensures DumpRoute(s, q) in saved.routes && ResolveRoute(t, DumpRoute(s, q)) == Success(q)
      ensures RouteAccepted(t, DumpRoute(s, q)) <==> RouteAdmitted(s.tagsByKey, q)
    {
    }
    ListedRoutes(s, saved.routes, t);
  }

  lemma ListedRoutes(s: State, refs: seq<RouteRef>, t: State)
    requires forall r :: r in refs ==> exists q :: q in s.routes && DumpRoute(s, q) == r
    requires forall q :: q in s.routes ==> DumpRoute(s, q) in refs && ResolveRoute(t, DumpRoute(s, q)) == Success(q)
    requires forall q :: q in s.routes ==> (RouteAccepted(t, DumpRoute(s, q)) <==> RouteAdmitted(s.tagsByKey, q))
    ensures UpsertRoutes(t, refs, true).Some? <==> TagsAdmit(s)
    ensures TagsAdmit(s) ==> UpsertRoutes(t, refs, true) == Some(t.(routes := s.routes))
  {
    if TagsAdmit(s) {
      assert {} + Denoted(t, refs) == s.routes;
    } else {
      var q :| q in s.routes && !RouteAdmitted(s.tagsByKey, q);
      assert !RouteAccepted(t, DumpRoute(s, q));
    }
  }

  lemma DumpedNext(s: State, saved: Saved)
    requires Inv(s) && Fresh(s) && DumpOf(s, saved)
    ensures NextId(saved.nextConnId, saved.conns) == s.nextId <==> s.nextId != 0 || MAX_ID in s.connections
  {
    if MAX_ID in s.connections {
      assert s.connections[MAX_ID] in saved.conns;
      assert MaxId(saved.conns) == MAX_ID;
    }
  }

  /** Start-up from a dump, up to the routes. */
  lemma RestoreUpToRoutes(s: State, saved: Saved) returns (t: State)
    requires Inv(s) && DumpOf(s, saved)
    ensures t == Empty.(connections := s.connections, idsByKey := s.idsByKey, tagsByKey := s.tagsByKey,
                        nextId := NextId(saved.nextConnId, saved.conns))
    ensures Restore(NormalizeState(saved)) ==
              (match ReplaceRoutes(t, saved.routes) case None => t case Some(u) => u)
  {
    DumpedConns(s, saved);
    DumpedTables(s, saved);
    var c := ReplaceConnections(Empty, saved.nextConnId, saved.conns).value;
    t := ReplaceConnTags(c, saved.tables).value;
    assert t.routes == {};
  }

  /** Restoring a dump brings back connections and tag tables always, the routes exactly when the
      tag tables accept them, and the next id exactly when ids are not exhausted or the last one is
      still in use. Caches and the sequence are not saved. */
  lemma RestoreOfDump(s: State, saved: Saved)
    requires Inv(s) && Fresh(s) && DumpOf(s, saved)
    ensures var r := Restore(NormalizeState(saved));
            && r.connections == s.connections && r.idsByKey == s.idsByKey && r.tagsByKey == s.tagsByKey
            && (r.routes == s.routes <==> TagsAdmit(s))
            && (r.nextId == s.nextId <==> s.nextId != 0 || MAX_ID in s.connections)
            && r.latestByDst == map[] && r.latestBySrc == map[] && r.sequence == 0
  {
    var t := RestoreUpToRoutes(s, saved);
    DumpedNext(s, saved);
    DumpedRoutes(s, saved, t);
    if !TagsAdmit(s) {
      assert s.routes != {};
    }
  }

  lemma DumpedRoutesValid(s: State, conns: seq<Conn>, refs: seq<RouteRef>)
    requires Inv(s) && ByKey(conns) == s.idsByKey
    requires forall r :: r in refs <==> exists q :: q in s.routes && DumpRoute(s, q) == r
    ensures (forall r :: r in refs ==>
              EndpointValid(conns, s.tagsByKey, r.src) && EndpointValid(conns, s.tagsByKey, r.dst)) <==> TagsAdmit(s)
  {
    forall q | q in s.routes
      ensures DumpRoute(s, q) in refs
      ensures (&& EndpointValid(conns, s.tagsByKey, DumpRoute(s, q).src)
               && EndpointValid(conns, s.tagsByKey, DumpRoute(s, q).dst))
              <==> RouteAdmitted(s.tagsByKey, q)
    {
    }
  }

  /** The state store accepts a dump exactly when the tag tables accept the routes. */
  lemma DumpValidIffTagsAdmit(s: State, saved: Saved)
    requires Inv(s) && DumpOf(s, saved)
    ensures ValidState(NormalizeState(saved)) <==> TagsAdmit(s)
  {
    DumpedConns(s, saved);
    DumpedTables(s, saved);
    DumpedRoutesValid(s, saved.conns, saved.routes);
  }

  // ---------- when the tag tables accept the routes ----------

  /** A tag table is created by appending, which does not prune. */
  predicate CreatesByAppend(s: State, op: Op) {
    op.OpUpsertConnTags? && !op.replace && op.id != 0 && "" !in op.tags && op.id in s.connections &&
        s.connections[op.id].key !in s.tagsByKey
  }

  /** ... and a route has an endpoint on that connection whose tag is not in the new table. */
  predicate Strands(s: State, op: Op)
    requires CreatesByAppend(s, op)
  {
    exists r :: r in s.routes && (Refused(r.src, s.connections[op.id].key, Elements(op.tags)) ||
        Refused(r.dst, s.connections[op.id].key, Elements(op.tags)))
  }

  lemma RekeyAdmits(s: State, id: Id, newKey: Key)
    requires Inv(s) && TagsAdmit(s) && id in s.connections && ValidKey(newKey)
    requires newKey in s.idsByKey ==> s.idsByKey[newKey] == id
    ensures TagsAdmit(Rekey(s, id, s.connections[id].key, newKey))
  {
    var oldKey := s.connections[id].key;
    var s' := Rekey(s, id, oldKey, newKey);
    forall r | r in s'.routes ensures RouteAdmitted(s'.tagsByKey, r) {
      var q :| q in s.routes && MoveRoute(q, oldKey, newKey) == r;
      assert RouteAdmitted(s.tagsByKey, q);
    }
  }

  lemma TableAdmits(s: State, op: Op)
    requires Inv(s) && TagsAdmit(s) && op.OpUpsertConnTags?
    ensures TagsAdmit(Step(s, op)) <==> !(CreatesByAppend(s, op) && Strands(s, op))
  {
    var s' := Step(s, op);
    if UpsertConnTags(s, op.id, op.tags, op.replace).Success? {
      var key := s.connections[op.id].key;
      forall r | r in s'.routes && !(CreatesByAppend(s, op) && Strands(s, op))
        ensures RouteAdmitted(s'.tagsByKey, r)
      {
        assert RouteAdmitted(s.tagsByKey, r);
      }
      if CreatesByAppend(s, op) && Strands(s, op) {
        var r :| r in s.routes && (Refused(r.src, key, Elements(op.tags)) || Refused(r.dst, key, Elements(op.tags)));
        assert s'.tagsByKey[key] == Elements(op.tags);
        assert !RouteAdmitted(s'.tagsByKey, r);
      }
    }
  }

  lemma RoutesAdmit(s: State, routes: seq<RouteRef>, replace: bool)
    requires Inv(s) && TagsAdmit(s) && UpsertRoutes(s, routes, replace).Some?
    ensures TagsAdmit(UpsertRoutes(s, routes, replace).value)
  {
  }

  /** One step keeps the agreement between tag tables and routes exactly unless it creates a table
      by appending while a route has a tag that the table lacks. */
  lemma StepAdmits(s: State, op: Op)
    requires Inv(s) && TagsAdmit(s)
    ensures TagsAdmit(Step(s, op)) <==> !(CreatesByAppend(s, op) && Strands(s, op))
  {
    match op
    case OpRename(oldKey, newKey) =>
      if RenameConnection(s, oldKey, newKey).Success? && oldKey != newKey {
        RekeyAdmits(s, s.idsByKey[oldKey], newKey);
      }
    case OpUpsertConnection(conn) =>
      if UpsertConnection(s, conn).Success? { RekeyAdmits(s, conn.connId, conn.key); }
    case OpDelete(key) =>
    case OpUpsertConnTags(_, _, _) =>
      TableAdmits(s, op);
    case OpUpsertRoutes(routes, replace) =>
      if UpsertRoutes(s, routes, replace).Some? { RoutesAdmit(s, routes, replace); }
    case _ =>
  }

  /** In every run in which each tag table is first created by replacing, every state can be saved
      and restored. */
  lemma {:induction false} RunAdmits(states: seq<State>, ops: seq<Op>, i: nat)
    requires Run(states, ops) && i < |states| && Inv(states[0]) && TagsAdmit(states[0])
    requires forall k :: 0 <= k < |ops| ==> !CreatesByAppend(states[k], ops[k])
    ensures TagsAdmit(states[i])
  {
    if i > 0 {
      RunAdmits(states, ops, i - 1);
      RunInv(states, ops, i - 1);
      StepAdmits(states[i - 1], ops[i - 1]);
    }
  }

  /** In such a run from the empty core, every dump is valid, and restarting from it gives the same
      connections, tag tables and routes and, before the ids run out, the same next id. */
  lemma SavedAndRestored(states: seq<State>, ops: seq<Op>, i: nat, saved: Saved)
    requires Run(states, ops) && i < |states| && states[0] == Empty
    requires forall k :: 0 <= k < |ops| ==> !CreatesByAppend(states[k], ops[k])
    requires DumpOf(states[i], saved)
    ensures ValidState(NormalizeState(saved))
    ensures var s, r := states[i], Restore(NormalizeState(saved));
            r == s.(latestByDst := map[], latestBySrc := map[], sequence := 0, nextId := r.nextId) &&
                (s.nextId != 0 ==> r.nextId == s.nextId)
  {
    RunInv(states, ops, i);
    RunAdmits(states, ops, i);
    DumpValidIffTagsAdmit(states[i], saved);
    RestoreOfDump(states[i], saved);
  }

  /** The exception is real: a route to a tag that a table created by appending does not list. */
  lemma AppendCanStrand(key: Key)
    requires ValidKey(key)
    ensures var e := Stable(key, "a");
            var s := Empty.(connections := map[1 := Conn(1, key)], idsByKey := map[key := 1], nextId := 2,
                            routes := {Route(e, e)});
            var op := OpUpsertConnTags(1, ["b"], false);
            Inv(s) && Fresh(s) && TagsAdmit(s) && CreatesByAppend(s, op) && Strands(s, op) && !TagsAdmit(Step(s, op))
  {
    var e := Stable(key, "a");
    var s := Empty.(connections := map[1 := Conn(1, key)], idsByKey := map[key := 1], nextId := 2,
                    routes := {Route(e, e)});
    var op := OpUpsertConnTags(1, ["b"], false);
    assert Elements(op.tags) == {"b"} && Route(e, e) in s.routes;
    StepAdmits(s, op);
  }
}
