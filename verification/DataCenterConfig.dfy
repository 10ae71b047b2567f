/**
 The loops that read a saved configuration into maps, list the core's maps as a configuration, and
 validate one before it is stored (src/DataCenter/DataCenterCoreConnection.cc,
 DataCenterCoreConnTags.cc, DataCenterCoreRoutes.cc, DataCenterStateStore.cc).

 The source sorts every list it dumps; the lists here come in hash order, and restoring them does
 not depend on the order.
 */
module DataCenterConfig {
  import opened Wrappers
  import opened DataCenterModel
  import opened DataCenterInvariant
  import opened DataCenterRoutes
  import opened DataCenterRestore

  // ---------- reading ----------

  ghost predicate ConnDiffers(conns: seq<Conn>, i: nat, c: Conn)
    requires i <= |conns|
  {
    forall k :: 0 <= k < i ==> conns[k].connId != c.connId && conns[k].key != c.key
  }

  lemma ConnsAcceptedMore(conns: seq<Conn>, i: nat)
    requires i < |conns|
    ensures ConnsAccepted(conns[..i + 1]) <==>
              ConnsAccepted(conns[..i]) && conns[i].connId != 0 && ValidKey(conns[i].key) &&
                  ConnDiffers(conns, i, conns[i])
  {
    var a := conns[..i + 1];
    assert a == conns[..i] + [conns[i]];
    if ConnsAccepted(a) {
      assert conns[i] in a;
      forall c | c in conns[..i] ensures c in a {
      }
      forall k | 0 <= k < i
        ensures conns[k].connId != conns[i].connId && conns[k].key != conns[i].key
      {
        assert a[k] == conns[k] && a[i] == conns[i];
      }
      assert forall k, n :: 0 <= k < n < i ==> conns[..i][k] == a[k] && conns[..i][n] == a[n];
    }
  }

  lemma ConnsRefusedEarly(conns: seq<Conn>, i: nat)
    requires i <= |conns| && !ConnsAccepted(conns[..i])
    ensures !ConnsAccepted(conns)
  {
    if c :| c in conns[..i] && (c.connId == 0 || !ValidKey(c.key)) {
      assert c in conns;
    } else {
      var k, n :| 0 <= k < n < i && (conns[..i][k].connId == conns[..i][n].connId ||
          conns[..i][k].key == conns[..i][n].key);
      assert conns[k] == conns[..i][k] && conns[n] == conns[..i][n];
    }
  }

  lemma ByIdMore(conns: seq<Conn>, i: nat)
    requires i < |conns|
    ensures ById(conns[..i + 1]) == ById(conns[..i])[conns[i].connId := conns[i]]
    ensures ByKey(conns[..i + 1]) == ByKey(conns[..i])[conns[i].key := conns[i].connId]
    ensures MaxId(conns[..i + 1]) == if MaxId(conns[..i]) < conns[i].connId then conns[i].connId else MaxId(conns[..i])
  {
    assert conns[..i + 1][..i] == conns[..i];
  }

  lemma ByIdHas(conns: seq<Conn>, i: nat)
    requires i < |conns| && ConnsAccepted(conns[..i])
    ensures conns[i].connId in ById(conns[..i]) || conns[i].key in ByKey(conns[..i]) <==>
              !ConnDiffers(conns, i, conns[i])
  {
    ByIdCases(conns[..i]);
    if !ConnDiffers(conns, i, conns[i]) {
      var k :| 0 <= k < i && (conns[k].connId == conns[i].connId || conns[k].key == conns[i].key);
      assert conns[k] in conns[..i];
    }
  }

  /** Both maps of a saved registry and its highest id, unless an entry is malformed or repeats an
      id or a key. */
  method ReadConnections(conns: seq<Conn>) returns (r: Option<(map<Id, Conn>, map<Key, Id>, Id)>)
    ensures r.Some? <==> ConnsAccepted(conns)
    ensures r.Some? ==> r.value == (ById(conns), ByKey(conns), MaxId(conns))
  {
    var byId: map<Id, Conn>, byKey: map<Key, Id>, maxId: Id := map[], map[], 0;
    for i := 0 to |conns|
      invariant ConnsAccepted(conns[..i])
      invariant byId == ById(conns[..i]) && byKey == ByKey(conns[..i]) && maxId == MaxId(conns[..i])
    {
      var conn := conns[i];
      ConnsAcceptedMore(conns, i);
      ByIdMore(conns, i);
      ByIdHas(conns, i);
      if conn.connId == 0 || !ValidKey(conn.key) || conn.connId in byId || conn.key in byKey {
        ConnsRefusedEarly(conns, i + 1);
        return None;
      }
      byId := byId[conn.connId := conn];
      byKey := byKey[conn.key := conn.connId];
      maxId := if maxId < conn.connId then conn.connId else maxId;
    }
    assert conns[..|conns|] == conns;
    return Some((byId, byKey, maxId));
  }

  method InsertTags(table: set<string>, tags: seq<string>) returns (r: Option<set<string>>)
    ensures r.Some? <==> "" !in tags
    ensures r.Some? ==> r.value == table + Elements(tags)
  {
    var t := table;
    for i := 0 to |tags|
      invariant "" !in tags[..i] && t == table + Elements(tags[..i])
    {
      if tags[i] == "" {
        return None;
      }
      assert tags[..i + 1] == tags[..i] + [tags[i]];
      t := t + {tags[i]};
    }
    assert tags[..|tags|] == tags;
    return Some(t);
  }

  method ReadTables(idsByKey: map<Key, Id>, tables: seq<Table>) returns (r: Option<map<Key, set<string>>>)
    ensures r.Some? <==> TablesAccepted(idsByKey, tables)
    ensures r.Some? ==> r.value == ByTableKey(tables)
  {
    var next: map<Key, set<string>> := map[];
    for i := 0 to |tables|
      invariant TablesAccepted(idsByKey, tables[..i])
      invariant next == ByTableKey(tables[..i])
    {
      var table := tables[i];
      assert table in tables;
      if !ValidKey(table.key) || table.key !in idsByKey {
        return None;
      }
      var tags := InsertTags(if table.key in next then next[table.key] else {}, table.tags);
      if tags.None? {
        return None;
      }
      next := next[table.key := tags.value];
      assert tables[..i + 1] == tables[..i] + [table];
    }
    assert tables[..|tables|] == tables;
    return Some(next);
  }

  // ---------- listing ----------

  method ListTags(tags: set<string>) returns (xs: seq<string>)
    ensures Elements(xs) == tags && Distinct(xs)
  {
    xs := [];
    var todo := tags;
    while todo != {}
      invariant todo <= tags && Elements(xs) == tags - todo && Distinct(xs)
    {
      var tag :| tag in todo;
      assert tag !in Elements(xs);
      assert Elements(xs + [tag]) == Elements(xs) + {tag};
      xs := xs + [tag];
      todo := todo - {tag};
    }
  }

  method ListConnections(connections: map<Id, Conn>) returns (conns: seq<Conn>)
    requires forall id: Id :: id in connections ==> connections[id].connId == id
    ensures forall c :: c in conns <==> c.connId in connections && connections[c.connId] == c
    ensures Distinct(conns)
  {
    conns := [];
    var todo := connections.Keys;
    while todo != {}
      invariant todo <= connections.Keys && Distinct(conns)
      invariant forall c :: c in conns <==> c.connId in connections.Keys - todo && connections[c.connId] == c
    {
      var id :| id in todo;
      assert connections[id] !in conns;
      conns := conns + [connections[id]];
      todo := todo - {id};
    }
  }

  method ListTables(tagsByKey: map<Key, set<string>>) returns (tables: seq<Table>)
    ensures forall t :: t in tables ==> t.key in tagsByKey && Elements(t.tags) == tagsByKey[t.key] && Distinct(t.tags)
    ensures forall key :: key in tagsByKey ==> exists t :: t in tables && t.key == key
    ensures forall i, j :: 0 <= i < j < |tables| ==> tables[i].key != tables[j].key
  {
    tables := [];
    var todo := tagsByKey.Keys;
    while todo != {}
      invariant todo <= tagsByKey.Keys
      invariant forall t :: t in tables ==>
                  t.key in tagsByKey.Keys - todo && Elements(t.tags) == tagsByKey[t.key] && Distinct(t.tags)
      invariant forall key :: key in tagsByKey.Keys - todo ==> exists t :: t in tables && t.key == key
      invariant forall i, j :: 0 <= i < j < |tables| ==> tables[i].key != tables[j].key
    {
      var key :| key in todo;
      var tags := ListTags(tagsByKey[key]);
      assert forall i :: 0 <= i < |tables| ==> tables[i] in tables;
      var more := tables + [Table(key, tags)];
      assert more[|tables|] in more;
      forall k | k in tagsByKey.Keys - (todo - {key})
        ensures exists t :: t in more && t.key == k
      {
        if k != key {
          assert k in tagsByKey.Keys - todo;
          var t :| t in tables && t.key == k;
          assert t in more;
        }
      }
      tables := more;
      todo := todo - {key};
    }
    assert tagsByKey.Keys - todo == tagsByKey.Keys;
  }

  /** What `ListRoutes` can filter by; 0 and "" stand for no filter. */
  datatype RouteFilter = RouteFilter(srcConnId: Id, srcTag: string, dstConnId: Id, dstTag: string)

  predicate MatchesEnd(s: State, e: Stable, connId: Id, tag: string) {
    && (connId == 0 || connId == DumpEndpoint(s, e).connId)
    && (tag == "" || tag == e.tag)
  }

  /** An endpoint matches if it is of the connection asked for, if any is, and has the tag asked for, if any. */
  lemma FilterMeans(s: State, e: Stable, connId: Id, tag: string)
    requires Inv(s) && Named(s, e)
    ensures MatchesEnd(s, e, connId, tag) <==>
              && (connId != 0 ==> connId in s.connections && s.connections[connId].key == e.key)
              && (tag != "" ==> e.tag == tag)
  {
  }

  predicate MatchesRoute(s: State, r: Route, f: RouteFilter) {
    MatchesEnd(s, r.src, f.srcConnId, f.srcTag) && MatchesEnd(s, r.dst, f.dstConnId, f.dstTag)
  }

  ghost predicate Lists(s: State, routes: set<Route>, f: RouteFilter, refs: seq<RouteRef>) {
    && (forall r :: r in refs <==> exists q :: q in routes && MatchesRoute(s, q, f) && DumpRoute(s, q) == r)
    && Distinct(refs)
  }

  lemma ListsMore(s: State, routes: set<Route>, f: RouteFilter, refs: seq<RouteRef>, q: Route)
    requires Lists(s, routes, f, refs) && q !in routes
    ensures Lists(s, routes + {q}, f, if MatchesRoute(s, q, f) then refs + [DumpRoute(s, q)] else refs)
  {
    forall p | p in routes && DumpRoute(s, p) == DumpRoute(s, q)
      ensures p == q
    {
    }
    assert DumpRoute(s, q) !in refs;
    var more := if MatchesRoute(s, q, f) then refs + [DumpRoute(s, q)] else refs;
    forall p | p in routes + {q} && MatchesRoute(s, p, f)
      ensures DumpRoute(s, p) in more
    {
      if p != q {
        assert DumpRoute(s, p) in refs;
      }
    }
    forall r | r in more
      ensures exists p :: p in routes + {q} && MatchesRoute(s, p, f) && DumpRoute(s, p) == r
    {
      if r in refs {
        var p :| p in routes && MatchesRoute(s, p, f) && DumpRoute(s, p) == r;
        assert p in routes + {q};
      } else {
        assert q in routes + {q};
      }
    }
  }

  lemma ListsSkip(s: State, routes: set<Route>, more: set<Route>, f: RouteFilter, refs: seq<RouteRef>)
    requires Lists(s, routes, f, refs) && forall q :: q in more ==> !MatchesRoute(s, q, f)
    ensures Lists(s, routes + more, f, refs)
  {
    forall r ensures r in refs <==> exists q :: q in routes + more && MatchesRoute(s, q, f) && DumpRoute(s, q) == r {
      if r in refs {
        var q :| q in routes && MatchesRoute(s, q, f) && DumpRoute(s, q) == r;
        assert q in routes + more;
      }
    }
  }

  method ListRoutes(s: State, routes: RouteMap, f: RouteFilter) returns (refs: seq<RouteRef>)
    ensures Lists(s, Rel(routes), f, refs)
  {
    refs := [];
    var todo := routes.Keys;
    while todo != {}
      invariant todo <= routes.Keys
      invariant Lists(s, Walked(routes, todo), f, refs)
    {
      var src :| src in todo;
      if MatchesEnd(s, src, f.srcConnId, f.srcTag) {
        refs := ListDestinations(s, src, routes[src], f, refs, Walked(routes, todo));
      } else {
        ListsSkip(s, Walked(routes, todo), Star(src, routes[src]), f, refs);
      }
      todo := todo - {src};
    }
    assert Walked(routes, {}) == Rel(routes);
  }

  method ListDestinations(s: State, src: Stable, dsts: set<Stable>, f: RouteFilter, before: seq<RouteRef>,
                          ghost listed: set<Route>)
    returns (refs: seq<RouteRef>)
    requires Lists(s, listed, f, before) && MatchesEnd(s, src, f.srcConnId, f.srcTag)
    requires forall q :: q in listed ==> q.src != src
    ensures Lists(s, listed + Star(src, dsts), f, refs)
  {
    refs := before;
    var todo := dsts;
    assert listed + Star(src, {}) == listed;
    while todo != {}
      invariant todo <= dsts
      invariant Lists(s, listed + Star(src, dsts - todo), f, refs)
    {
      var dst :| dst in todo;
      ListsMore(s, listed + Star(src, dsts - todo), f, refs, Route(src, dst));
      assert listed + Star(src, dsts - todo) + {Route(src, dst)} == listed + Star(src, dsts - (todo - {dst}));
      if MatchesEnd(s, dst, f.dstConnId, f.dstTag) {
        refs := refs + [DumpRoute(s, Route(src, dst))];
      }
      todo := todo - {dst};
    }
    assert dsts - todo == dsts;
  }

  // ---------- validating ----------

  method ValidateConnections(conns: seq<Conn>) returns (ok: bool)
    ensures ok <==> ConnsAccepted(conns)
  {
    var ids: set<Id>, keys: set<Key> := {}, {};
    for i := 0 to |conns|
      invariant ConnsAccepted(conns[..i])
      invariant ids == (set c | c in conns[..i] :: c.connId) && keys == (set c | c in conns[..i] :: c.key)
    {
      var conn := conns[i];
      ConnsAcceptedMore(conns, i);
      SeenIff(conns, i, conn);
      if conn.connId == 0 || !ValidKey(conn.key) || conn.connId in ids || conn.key in keys {
        ConnsRefusedEarly(conns, i + 1);
        return false;
      }
      assert conns[..i + 1] == conns[..i] + [conn];
      ids := ids + {conn.connId};
      keys := keys + {conn.key};
    }
    assert conns[..|conns|] == conns;
    return true;
  }

  lemma SeenIff(conns: seq<Conn>, i: nat, c: Conn)
    requires i <= |conns|
    ensures ConnDiffers(conns, i, c) <==>
              c.connId !in (set d | d in conns[..i] :: d.connId) && c.key !in (set d | d in conns[..i] :: d.key)
  {
    if !ConnDiffers(conns, i, c) {
      var k :| 0 <= k < i && (conns[k].connId == c.connId || conns[k].key == c.key);
      assert conns[k] in conns[..i];
    }
  }

  method ValidateTags(tags: seq<string>) returns (r: Option<set<string>>)
    ensures r.Some? <==> "" !in tags && Distinct(tags)
    ensures r.Some? ==> r.value == Elements(tags)
  {
    var seen: set<string> := {};
    for i := 0 to |tags|
      invariant "" !in tags[..i] && Distinct(tags[..i]) && seen == Elements(tags[..i])
    {
      if tags[i] == "" {
        return None;
      }
      if tags[i] in seen {
        var k :| 0 <= k < i && tags[..i][k] == tags[i];
        assert tags[k] == tags[i];
        return None;
      }
      assert tags[..i + 1] == tags[..i] + [tags[i]];
      seen := seen + {tags[i]};
    }
    assert tags[..|tags|] == tags;
    return Some(seen);
  }

  ghost predicate TableValid(conns: seq<Conn>, t: Table) {
    ValidKey(t.key) && t.key in ByKey(conns) && "" !in t.tags && Distinct(t.tags)
  }

  lemma TablesValidMore(conns: seq<Conn>, tables: seq<Table>, i: nat)
    requires i < |tables|
    ensures TablesValid(conns, tables[..i + 1]) <==>
              TablesValid(conns, tables[..i]) && TableValid(conns, tables[i]) && forall k :: 0 <= k < i ==>
                  tables[k].key != tables[i].key
  {
    var a := tables[..i + 1];
    assert a == tables[..i] + [tables[i]];
    if TablesValid(conns, a) {
      assert tables[i] in a;
      forall t | t in tables[..i] ensures t in a {
      }
      forall k | 0 <= k < i ensures tables[k].key != tables[i].key {
        assert a[k] == tables[k] && a[i] == tables[i];
      }
      assert forall k, n :: 0 <= k < n < i ==> tables[..i][k] == a[k] && tables[..i][n] == a[n];
    }
  }

  lemma TablesInvalidEarly(conns: seq<Conn>, tables: seq<Table>, i: nat)
    requires i <= |tables| && !TablesValid(conns, tables[..i])
    ensures !TablesValid(conns, tables)
  {
    if t :| t in tables[..i] && !TableValid(conns, t) {
      assert t in tables;
    } else {
      var k, n :| 0 <= k < n < i && tables[..i][k].key == tables[..i][n].key;
      assert tables[k] == tables[..i][k] && tables[n] == tables[..i][n];
    }
  }

  lemma TableSeen(tables: seq<Table>, i: nat)
    requires i < |tables|
    ensures tables[i].key in ByTableKey(tables[..i]) <==> exists k :: 0 <= k < i && tables[k].key == tables[i].key
    ensures tables[i].key !in ByTableKey(tables[..i]) ==>
              ByTableKey(tables[..i + 1]) == ByTableKey(tables[..i])[tables[i].key := Elements(tables[i].tags)]
  {
    ByTableKeyCases(tables[..i]);
    if k :| 0 <= k < i && tables[k].key == tables[i].key {
      assert tables[..i][k] in tables[..i];
    }
    assert tables[..i + 1][..i] == tables[..i];
    assert {} + Elements(tables[i].tags) == Elements(tables[i].tags);
  }

  method ValidateConnTags(conns: seq<Conn>, connectionKeys: set<Key>, tables: seq<Table>)
    returns (r: Option<map<Key, set<string>>>)
    requires connectionKeys == ByKey(conns).Keys
    ensures r.Some? <==> TablesValid(conns, tables)
    ensures r.Some? ==> r.value == ByTableKey(tables)
  {
    var tagsByKey: map<Key, set<string>> := map[];
    for i := 0 to |tables|
      invariant TablesValid(conns, tables[..i]) && tagsByKey == ByTableKey(tables[..i])
    {
      var table := tables[i];
      TablesValidMore(conns, tables, i);
      TableSeen(tables, i);
      if !ValidKey(table.key) || table.key in tagsByKey || table.key !in connectionKeys {
        TablesInvalidEarly(conns, tables, i + 1);
        return None;
      }
      var tags := ValidateTags(table.tags);
      if tags.None? {
        TablesInvalidEarly(conns, tables, i + 1);
        return None;
      }
      tagsByKey := tagsByKey[table.key := tags.value];
    }
    assert tables[..|tables|] == tables;
    return Some(tagsByKey);
  }

  method ValidateRouteEndpoint(conns: seq<Conn>, connectionKeys: set<Key>, tagsByKey: map<Key, set<string>>,
                               e: EndpointRef) returns (ok: bool)
    requires connectionKeys == ByKey(conns).Keys
    ensures ok <==> EndpointValid(conns, tagsByKey, e)
  {
    if e.tag == "" {
      return false;
    }
    if !ValidKey(e.key) {
      return false;
    }
    if e.key !in connectionKeys {
      return false;
    }
    if e.key in tagsByKey && e.tag !in tagsByKey[e.key] {
      return false;
    }
    return true;
  }

  method ConnectionKeys(conns: seq<Conn>) returns (keys: set<Key>)
    ensures keys == ByKey(conns).Keys
  {
    keys := {};
    for i := 0 to |conns|
      invariant keys == ByKey(conns[..i]).Keys
    {
      ByIdMore(conns, i);
      keys := keys + {conns[i].key};
    }
    assert conns[..|conns|] == conns;
  }

  /** The check the state store makes before it writes and after it reads. */
  method ValidateState(saved: Saved) returns (ok: bool)
    ensures ok <==> ValidState(saved)
  {
    if saved.schemaVersion != SCHEMA_VERSION {
      return false;
    }
    var connsOk := ValidateConnections(saved.conns);
    if !connsOk {
      return false;
    }
    var connectionKeys := ConnectionKeys(saved.conns);
    var tags := ValidateConnTags(saved.conns, connectionKeys, saved.tables);
    if tags.None? {
      return false;
    }
    for i := 0 to |saved.routes|
      invariant forall r :: r in saved.routes[..i] ==>
                  EndpointValid(saved.conns, tags.value, r.src) && EndpointValid(saved.conns, tags.value, r.dst)
    {
      assert saved.routes[i] in saved.routes;
      var srcOk := ValidateRouteEndpoint(saved.conns, connectionKeys, tags.value, saved.routes[i].src);
      if !srcOk {
        return false;
      }
      var dstOk := ValidateRouteEndpoint(saved.conns, connectionKeys, tags.value, saved.routes[i].dst);
      if !dstOk {
        return false;
      }
    }
    assert saved.routes[..|saved.routes|] == saved.routes;
    return true;
  }
}
