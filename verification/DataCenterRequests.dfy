/**
 What the other requests to the DataCenter core do, told by the request and the fields of the state
 alone: when they are refused and with which code, which connections, tag tables, routes and cached
 values there are afterwards, and where a command goes.
 */
module DataCenterRequests {
  import opened Wrappers
  import opened DataCenterModel
  import opened DataCenterInvariant

  // ---------- endpoints ----------

  /** The request names the endpoint: by the key of a connection if it gives any part of one, and
      otherwise by a connection id. */
  predicate Names(s: State, ref: EndpointRef, e: Stable) {
    && ref.tag != "" && e.tag == ref.tag
    && (if ref.key != Key("", "") then
          ref.key.moduleName != "" && ref.key.connName != "" && ref.key in s.idsByKey && e.key == ref.key
        else ref.connId != 0 && ref.connId in s.connections && s.connections[ref.connId].key == e.key)
  }

  /** The request could not name any endpoint, whatever is registered. */
  predicate Malformed(ref: EndpointRef) {
    || ref.tag == ""
    || (if ref.key == Key("", "") then ref.connId == 0 else ref.key.moduleName == "" || ref.key.connName == "")
  }

  /** Resolving finds what the request names, and tells malformed requests from unknown endpoints. */
  lemma ResolvesWhatItNames(s: State, ref: EndpointRef)
    ensures match Resolve(s, ref)
            case Success(e) => Names(s, ref, e)
            case Failure(code) =>
              (forall e :: !Names(s, ref, e)) && code == if Malformed(ref) then InvalidArgument else NotFound
  {
  }

  // ---------- connections ----------

  /** Only connection `id` differs. */
  predicate OthersSame(s: State, t: State, id: Id) {
    s.connections - {id} == t.connections - {id}
  }

  predicate SameData(s: State, t: State) {
    s.latestByDst == t.latestByDst && s.latestBySrc == t.latestBySrc && s.sequence == t.sequence
  }

  /** Asking for a connection finds the one with that key, or creates it under the first free id and
      changes nothing else. */
  lemma Creates(s: State, key: Key)
    requires Inv(s)
    ensures match GetOrCreateConnection(s, key)
            case Success((t, conn)) =>
              && conn.key == key && key in t.idsByKey && t.idsByKey[key] == conn.connId
              && (key in s.idsByKey ==> t == s)
              && (key !in s.idsByKey ==> CreatedIn(s, t, conn))
            case Failure(code) =>
              && (code == InvalidArgument <==> key.moduleName == "" || key.connName == "")
              && (code != InvalidArgument ==>
                    && code == ResourceExhausted && key !in s.idsByKey
                    && (s.nextId == 0 || forall id: Id :: s.nextId <= id ==> id in s.connections))
  {
  }

  predicate CreatedIn(s: State, t: State, conn: Conn) {
    && s.nextId != 0 && s.nextId <= conn.connId && conn.connId !in s.connections
    && (forall id: Id :: s.nextId <= id < conn.connId ==> id in s.connections)
    && t.connections == s.connections[conn.connId := conn] && t.idsByKey == s.idsByKey[conn.key := conn.connId]
    && t.tagsByKey == s.tagsByKey && t.routes == s.routes && SameData(s, t)
    && (if conn.connId == 0xFFFF_FFFF then t.nextId == 0 else t.nextId == conn.connId + 1)
  }

  /** Both endpoints of the route with the old key replaced by the new one. */
  predicate RenamedRoute(r: Route, q: Route, oldKey: Key, newKey: Key) {
    && q.src.tag == r.src.tag && q.dst.tag == r.dst.tag
    && q.src.key == (if r.src.key == oldKey then newKey else r.src.key)
    && q.dst.key == (if r.dst.key == oldKey then newKey else r.dst.key)
  }

  /** Connection `id` has another key: its tag table and its routes go with it. */
  ghost predicate RekeyedIn(s: State, t: State, id: Id, oldKey: Key, newKey: Key) {
    && id in t.connections && t.connections[id] == Conn(id, newKey) && OthersSame(s, t, id) && SameData(s, t)
    && t.nextId == s.nextId
    && (forall key ::
          if key == newKey then key in t.idsByKey && t.idsByKey[key] == id
          else if key == oldKey then key !in t.idsByKey
          else SameEntry(s.idsByKey, key, t.idsByKey, key))
    && SameEntry(s.tagsByKey, oldKey, t.tagsByKey, newKey)
    && (oldKey != newKey ==> oldKey !in t.tagsByKey)
    && (forall key :: key != oldKey && key != newKey ==> SameEntry(s.tagsByKey, key, t.tagsByKey, key))
    && RoutesRenamed(s, t, oldKey, newKey)
  }

  ghost predicate RoutesRenamed(s: State, t: State, oldKey: Key, newKey: Key) {
    forall q :: q in t.routes <==> exists r :: r in s.routes && RenamedRoute(r, q, oldKey, newKey)
  }

  predicate SameEntry<K, V(==)>(a: map<K, V>, i: K, b: map<K, V>, j: K) {
    (i in a <==> j in b) && (i in a ==> a[i] == b[j])
  }

  lemma Rekeys(s: State, id: Id, newKey: Key)
    requires Inv(s) && id in s.connections && (newKey in s.idsByKey ==> s.idsByKey[newKey] == id)
    ensures RekeyedIn(s, Rekey(s, id, s.connections[id].key, newKey), id, s.connections[id].key, newKey)
  {
    MovesRoutes(s, id, s.connections[id].key, newKey);
  }

  lemma MovesRoutes(s: State, id: Id, oldKey: Key, newKey: Key)
    ensures RoutesRenamed(s, Rekey(s, id, oldKey, newKey), oldKey, newKey)
  {
    var t := Rekey(s, id, oldKey, newKey);
    forall q | q in t.routes ensures exists r :: r in s.routes && RenamedRoute(r, q, oldKey, newKey) {
      var r :| r in s.routes && MoveRoute(r, oldKey, newKey) == q;
      assert RenamedRoute(r, q, oldKey, newKey);
    }
    forall q, r | r in s.routes && RenamedRoute(r, q, oldKey, newKey) ensures q in t.routes {
      assert q == MoveRoute(r, oldKey, newKey);
    }
  }

  /** A rename gives the connection its new key, or says why it cannot. */
  lemma Renames(s: State, oldKey: Key, newKey: Key)
    requires Inv(s)
    ensures match RenameConnection(s, oldKey, newKey)
            case Success((t, conn)) =>
              && oldKey in s.idsByKey && conn == Conn(s.idsByKey[oldKey], newKey)
              && RekeyedIn(s, t, conn.connId, oldKey, newKey)
            case Failure(InvalidArgument) => !ValidKey(oldKey) || !ValidKey(newKey)
            case Failure(NotFound) => ValidKey(oldKey) && ValidKey(newKey) && oldKey !in s.idsByKey
            case Failure(AlreadyExists) => oldKey in s.idsByKey && oldKey != newKey && newKey in s.idsByKey
            case Failure(ResourceExhausted) => false
  {
    if oldKey in s.idsByKey && (newKey in s.idsByKey ==> newKey == oldKey) {
      Rekeys(s, s.idsByKey[oldKey], newKey);
      if newKey == oldKey {
        assert RekeyedIn(s, s, s.idsByKey[oldKey], oldKey, newKey);
      }
    }
  }

  /** So does an upsert, which names the connection by its id. */
  lemma Upserts(s: State, conn: Conn)
    requires Inv(s)
    ensures match UpsertConnection(s, conn)
            case Success(t) =>
              conn.connId in s.connections && RekeyedIn(s, t, conn.connId, s.connections[conn.connId].key, conn.key)
            case Failure(InvalidArgument) => conn.connId == 0 || !ValidKey(conn.key)
            case Failure(NotFound) => conn.connId !in s.connections
            case Failure(AlreadyExists) =>
              conn.connId in s.connections && conn.key in s.idsByKey && s.connections[conn.connId].key != conn.key
            case Failure(ResourceExhausted) => false
  {
    if conn.connId in s.connections && (conn.key in s.idsByKey ==> s.idsByKey[conn.key] == conn.connId) {
      Rekeys(s, conn.connId, conn.key);
    }
  }

  /** What is left without connection `id`, so far known as `key`. */
  ghost predicate DeletedIn(s: State, t: State, id: Id, key: Key) {
    && id !in t.connections && OthersSame(s, t, id) && t.nextId == s.nextId && t.sequence == s.sequence
    && key !in t.idsByKey && key !in t.tagsByKey
    && (forall k :: k != key ==> SameEntry(s.idsByKey, k, t.idsByKey, k) && SameEntry(s.tagsByKey, k, t.tagsByKey, k))
    && (forall r :: r in t.routes <==> r in s.routes && r.src.key != key && r.dst.key != key)
    && (forall e: Endpoint :: if e in s.latestByDst && (e.connId == id || s.latestByDst[e].srcConnId == id) then
            e !in t.latestByDst else SameEntry(s.latestByDst, e, t.latestByDst, e))
    && (forall e: Endpoint ::
          if e.connId == id then e !in t.latestBySrc else SameEntry(s.latestBySrc, e, t.latestBySrc, e))
  }

  /** A deletion takes everything of the connection away, and fails only for a key that nobody has. */
  lemma Deletes(s: State, key: Key)
    requires Inv(s)
    ensures match DeleteConnection(s, key)
            case Success(t) => key in s.idsByKey && DeletedIn(s, t, s.idsByKey[key], key)
            case Failure(code) =>
              && key !in s.idsByKey
              && code == if key.moduleName == "" || key.connName == "" then InvalidArgument else NotFound
  {
  }

  // ---------- tag tables ----------

  /** Replacing forgets the old tags and the routes that use none of the new ones; appending keeps both. */
  lemma TagsBecome(s: State, id: Id, tags: seq<string>, replace: bool)
    requires Inv(s)
    ensures match UpsertConnTags(s, id, tags, replace)
            case Success(t) => id in s.connections && TagsIn(s, t, s.connections[id].key, tags, replace)
            case Failure(code) => if id == 0 || "" in tags then code == InvalidArgument
                else code == NotFound && id !in s.connections
  {
  }

  ghost predicate TagsIn(s: State, t: State, key: Key, tags: seq<string>, replace: bool) {
    && t == s.(tagsByKey := t.tagsByKey, routes := t.routes)
    && key in t.tagsByKey
    && (forall tag :: tag in t.tagsByKey[key] <==>
          tag in tags || (!replace && key in s.tagsByKey && tag in s.tagsByKey[key]))
    && (forall k :: k != key ==> SameEntry(s.tagsByKey, k, t.tagsByKey, k))
    && (forall r ::
          r in t.routes <==> r in s.routes && (replace ==> Lists(tags, key, r.src) && Lists(tags, key, r.dst)))
  }

  predicate Lists(tags: seq<string>, key: Key, e: Stable) {
    e.key == key ==> e.tag in tags
  }

  // ---------- routes ----------

  predicate NamesRoute(s: State, ref: RouteRef, r: Route) {
    Names(s, ref.src, r.src) && Names(s, ref.dst, r.dst)
  }

  predicate InItsTable(s: State, e: Stable) {
    e.key in s.tagsByKey ==> e.tag in s.tagsByKey[e.key]
  }

  /** The request names a route that the tag tables allow. */
  ghost predicate Allowed(s: State, ref: RouteRef) {
    exists r :: NamesRoute(s, ref, r) && InItsTable(s, r.src) && InItsTable(s, r.dst)
  }

  ghost predicate NamedByOne(s: State, requests: seq<RouteRef>, r: Route) {
    exists ref :: ref in requests && NamesRoute(s, ref, r)
  }

  lemma DenotedIsNamed(s: State, requests: seq<RouteRef>, r: Route)
    requires forall ref :: ref in requests ==> ResolveRoute(s, ref).Success?
    ensures r in Denoted(s, requests) <==> NamedByOne(s, requests, r)
  {
    if r in Denoted(s, requests) {
      var ref :| ref in requests && ResolveRoute(s, ref).value == r;
      RouteResolvesTo(s, ref, r);
    }
    if ref :| ref in requests && NamesRoute(s, ref, r) {
      RouteResolvesTo(s, ref, r);
    }
  }

  lemma RouteResolvesTo(s: State, ref: RouteRef, r: Route)
    ensures ResolveRoute(s, ref) == Success(r) <==> NamesRoute(s, ref, r)
  {
    ResolvesWhatItNames(s, ref.src);
    ResolvesWhatItNames(s, ref.dst);
  }

  lemma DenotedAreNamed(s: State, requests: seq<RouteRef>)
    requires forall ref :: ref in requests ==> ResolveRoute(s, ref).Success?
    ensures forall r :: r in Denoted(s, requests) <==> NamedByOne(s, requests, r)
  {
    forall r ensures r in Denoted(s, requests) <==> NamedByOne(s, requests, r) {
      DenotedIsNamed(s, requests, r);
    }
  }

  lemma AcceptedIffAllowed(s: State, ref: RouteRef)
    ensures RouteAccepted(s, ref) <==> Allowed(s, ref)
    ensures ResolveRoute(s, ref).Success? <==> exists r :: NamesRoute(s, ref, r)
  {
    forall r ensures ResolveRoute(s, ref) == Success(r) <==> NamesRoute(s, ref, r) {
      RouteResolvesTo(s, ref, r);
    }
    if ResolveRoute(s, ref).Success? {
      assert NamesRoute(s, ref, ResolveRoute(s, ref).value);
    }
  }

  /** All requests or none: the routes named are added to those there, or replace them. */
  lemma RoutesUpserted(s: State, requests: seq<RouteRef>, replace: bool)
    ensures match UpsertRoutes(s, requests, replace)
            case None => exists ref :: ref in requests && !Allowed(s, ref)
            case Some(t) =>
              && t == s.(routes := t.routes) && (forall ref :: ref in requests ==> Allowed(s, ref))
              && (forall r :: r in t.routes <==> NamedByOne(s, requests, r) || (!replace && r in s.routes))
  {
    forall ref ensures RouteAccepted(s, ref) <==> Allowed(s, ref) {
      AcceptedIffAllowed(s, ref);
    }
    if forall ref :: ref in requests ==> RouteAccepted(s, ref) {
      DenotedAreNamed(s, requests);
    }
  }

  /** All requests or none: the routes named are no longer there, and every other route is. */
  lemma RoutesDeleted(s: State, requests: seq<RouteRef>)
    ensures match DeleteRoutes(s, requests)
            case None => exists ref :: ref in requests && forall r :: !NamesRoute(s, ref, r)
            case Some(t) =>
              && t == s.(routes := t.routes)
              && (forall r :: r in t.routes <==> r in s.routes && !NamedByOne(s, requests, r))
  {
    forall ref
      ensures ResolveRoute(s, ref).Success? <==> exists r :: NamesRoute(s, ref, r)
    {
      AcceptedIffAllowed(s, ref);
    }
    if forall ref :: ref in requests ==> ResolveRoute(s, ref).Success? {
      DenotedAreNamed(s, requests);
    }
  }

  // ---------- commands ----------

  ghost predicate Leads(s: State, src: Stable, dst: Stable) {
    exists r :: r in s.routes && r.src == src && r.dst == dst
  }

  ghost predicate LeadsOnlyTo(s: State, src: Stable, dst: Stable) {
    forall d :: Leads(s, src, d) <==> d == dst
  }

  /** Where a command goes: to the one destination of its source, and nowhere if it has none or several. */
  ghost predicate GoesAsRouted(s: State, src: Stable, c: Command, answer: Result<CommandRoute, Code>) {
    match answer
    case Success(NoRoute) => forall d :: !Leads(s, src, d)
    case Success(Ambiguous) => exists d, e :: Leads(s, src, d) && Leads(s, src, e) && d != e
    case Success(Unavailable) => false
    case Success(To(dst, id)) =>
      && LeadsOnlyTo(s, src, dst) && c.parses
      && id in s.connections && s.connections[id].key == dst.key
    case Failure(code) => code == InvalidArgument && !c.parses && exists dst :: LeadsOnlyTo(s, src, dst)
  }

  lemma RouteFrom(s: State, c: Command, src: Stable)
    requires Inv(s) && c.src.Some? && c.value.Some? && c.quality.Some? && Resolve(s, c.src.value) == Success(src)
    ensures GoesAsRouted(s, src, c, ResolveCommandRoute(s, c))
  {
    DestinationsAreLed(s, src);
    var dsts := Destinations(s.routes, src);
    if |dsts| == 1 {
      var dst := TheOnly(dsts);
      assert LeadsOnlyTo(s, src, dst);
      var r :| r in s.routes && r.src == src && r.dst == dst;
      assert Named(s, r.dst);
    } else if dsts != {} {
      TwoOf(dsts);
    }
  }

  lemma TwoOf(dsts: set<Stable>)
    requires |dsts| > 1
    ensures exists d, e :: d in dsts && e in dsts && d != e
  {
    var d :| d in dsts;
    assert |dsts - {d}| > 0;
    var e :| e in dsts - {d};
  }

  /** A command is answered by the routes of the source it names. */
  lemma RouteOfCommand(s: State, c: Command)
    requires Inv(s)
    ensures var answer := ResolveCommandRoute(s, c);
            if c.src.None? || c.value.None? || c.quality.None? then answer == Failure(InvalidArgument)
            else if exists src :: Names(s, c.src.value, src) then
              exists src :: Names(s, c.src.value, src) && GoesAsRouted(s, src, c, answer)
            else answer == Failure(if Malformed(c.src.value) then InvalidArgument else NotFound)
  {
    if c.src.Some? && c.value.Some? && c.quality.Some? {
      ResolvesWhatItNames(s, c.src.value);
      if Resolve(s, c.src.value).Success? {
        RouteFrom(s, c, Resolve(s, c.src.value).value);
      }
    }
  }

  lemma DestinationsAreLed(s: State, src: Stable)
    ensures forall d :: d in Destinations(s.routes, src) <==> Leads(s, src, d)
  {
    forall d
      ensures d in Destinations(s.routes, src) <==> Leads(s, src, d)
    {
      if d in Destinations(s.routes, src) {
        var r :| r in s.routes && r.src == src && r.dst == d;
      }
    }
  }

  /** An accepted command is cached at its target, and only there, with its value, its time and the
      connection it came from. */
  lemma CommandStored(s: State, c: Command, dst: Endpoint)
    requires Inv(s)
    ensures match StoreAcceptedCommand(s, c, dst)
            case Success(t) =>
              && c.src.Some? && dst in t.latestByDst && dst.connId != 0 && dst.tag != ""
              && t == s.(latestByDst := s.latestByDst[dst := t.latestByDst[dst]])
              && StoredAs(s, c, t.latestByDst[dst]) && t.latestByDst[dst].dstConnId == dst.connId
              && t.latestByDst[dst].dstTag == dst.tag
            case Failure(code) =>
              || dst.connId == 0 || dst.tag == "" || c.src.None? || c.value.None? || c.quality.None?
              || forall e :: !Names(s, c.src.value, e)
  {
    if c.src.Some? {
      ResolvesWhatItNames(s, c.src.value);
    }
  }

  predicate StoredAs(s: State, c: Command, u: Update)
    requires c.src.Some?
  {
    && u.srcConnId in s.connections && Names(s, c.src.value, Stable(s.connections[u.srcConnId].key, u.srcTag))
    && c.value == Some(u.payload.value) && c.quality == Some(u.payload.quality)
    && u.payload.tsMs == (if c.tsMs > 0 then c.tsMs else c.now)
  }
}
