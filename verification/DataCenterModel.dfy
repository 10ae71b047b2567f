/**
 The DataCenter bus as a value: the connection registry, the tag tables, the route relation and
 the two caches of latest values (src/DataCenter/DataCenterCore*.cc), with what every public
 operation of the core does to them.

 Routes are kept here as a set of pairs. `DataCenterCore` holds them the way the source does, as a
 map from each source to its set of destinations, and refines these operations with its loops.
 Values, qualities and timestamps are only stored and passed on, so codes stand for them.
 */
module DataCenterModel {
  import opened Wrappers
  import opened Bytes

  const MAX_ID := TWO_32 - 1
  const MAX_SEQUENCE: int := 0xFFFF_FFFF_FFFF_FFFF

  type Id = x: int | 0 <= x < TWO_32
  type Sequence = x: int | 0 <= x <= MAX_SEQUENCE

  datatype Key = Key(moduleName: string, connName: string)
  datatype Conn = Conn(connId: Id, key: Key)
  datatype Stable = Stable(key: Key, tag: string)
  datatype Route = Route(src: Stable, dst: Stable)
  datatype Endpoint = Endpoint(connId: Id, tag: string)
  datatype Payload = Payload(value: int, tsMs: int, quality: int)
  datatype SourceUpdate = SourceUpdate(connId: Id, tag: string, payload: Payload, sequence: Sequence)
  datatype Update = Update(srcConnId: Id, srcTag: string, dstConnId: Id, dstTag: string, payload: Payload)

  datatype State = State(
    connections: map<Id, Conn>,
    idsByKey: map<Key, Id>,
    tagsByKey: map<Key, set<string>>,
    routes: set<Route>,
    latestByDst: map<Endpoint, Update>,
    latestBySrc: map<Endpoint, SourceUpdate>,
    sequence: Sequence,
    nextId: Id)

  const Empty := State(map[], map[], map[], {}, map[], map[], 0, 1)

  datatype Code = InvalidArgument | NotFound | AlreadyExists | ResourceExhausted

  predicate ValidKey(key: Key) {
    key.moduleName != "" && key.connName != ""
  }

  // ---------- endpoints ----------

  /** An endpoint as a request names it: by module and connection name, or by connection id. */
  datatype EndpointRef = EndpointRef(connId: Id, key: Key, tag: string)

  function Resolve(s: State, e: EndpointRef): Result<Stable, Code> {
    if e.tag == "" then
      Failure(InvalidArgument)
    else if e.key.moduleName != "" || e.key.connName != "" then
      if !ValidKey(e.key) then Failure(InvalidArgument)
      else if e.key !in s.idsByKey then Failure(NotFound)
      else Success(Stable(e.key, e.tag))
    else if e.connId == 0 then
      Failure(InvalidArgument)
    else if e.connId !in s.connections then
      Failure(NotFound)
    else
      Success(Stable(s.connections[e.connId].key, e.tag))
  }

  /** The tag table of the endpoint's connection, if it has one, lists the endpoint's tag. */
  predicate Admits(tagsByKey: map<Key, set<string>>, e: Stable) {
    e.key in tagsByKey ==> e.tag in tagsByKey[e.key]
  }

  predicate Named(s: State, e: Stable) {
    e.key in s.idsByKey && e.tag != ""
  }

  // ---------- connections ----------

  /** The first id from `id` on that no connection has. */
  function FirstFree(connections: map<Id, Conn>, id: Id): (r: Option<Id>)
    ensures r.Some? ==> id <= r.value && r.value !in connections && forall k: Id :: id <= k < r.value ==>
              k in connections
    ensures r.None? ==> forall k: Id :: id <= k ==> k in connections
    decreases TWO_32 - id
  {
    if id !in connections then Some(id)
    else if id == MAX_ID then None
    else FirstFree(connections, id + 1)
  }

  function GetOrCreateConnection(s: State, key: Key): Result<(State, Conn), Code> {
    if !ValidKey(key) then Failure(InvalidArgument)
    else if key in s.idsByKey && s.idsByKey[key] in s.connections then Success((s, s.connections[s.idsByKey[key]]))
    else if s.nextId == 0 then Failure(ResourceExhausted)
    else match FirstFree(s.connections, s.nextId)
      case None => Failure(ResourceExhausted)
      case Some(id) => Success((Created(s, key, id), Conn(id, key)))
  }

  function Created(s: State, key: Key, id: Id): State {
    s.(connections := s.connections[id := Conn(id, key)],
       idsByKey := s.idsByKey[key := id],
       nextId := if id == MAX_ID then 0 else id + 1)
  }

  function MoveKey(key: Key, oldKey: Key, newKey: Key): Key {
    if key == oldKey then newKey else key
  }

  function Move(e: Stable, oldKey: Key, newKey: Key): Stable {
    Stable(MoveKey(e.key, oldKey, newKey), e.tag)
  }

  function MoveRoute(r: Route, oldKey: Key, newKey: Key): Route {
    Route(Move(r.src, oldKey, newKey), Move(r.dst, oldKey, newKey))
  }

  function MoveRoutes(routes: set<Route>, oldKey: Key, newKey: Key): set<Route> {
    set r | r in routes :: MoveRoute(r, oldKey, newKey)
  }

  /** Takes the tag table along when a connection changes its key. */
  function MoveTags(tags: map<Key, set<string>>, oldKey: Key, newKey: Key): map<Key, set<string>> {
    if oldKey in tags then (tags - {oldKey})[newKey := tags[oldKey]] else tags
  }

  /** Gives connection `id`, so far known as `oldKey`, the key `newKey`. */
  function Rekey(s: State, id: Id, oldKey: Key, newKey: Key): State {
    s.(connections := s.connections[id := Conn(id, newKey)],
       idsByKey := (s.idsByKey - {oldKey})[newKey := id],
       tagsByKey := MoveTags(s.tagsByKey, oldKey, newKey),
       routes := MoveRoutes(s.routes, oldKey, newKey))
  }

  function RenameConnection(s: State, oldKey: Key, newKey: Key): Result<(State, Conn), Code> {
    if !ValidKey(oldKey) || !ValidKey(newKey) then Failure(InvalidArgument)
    else if oldKey !in s.idsByKey || s.idsByKey[oldKey] !in s.connections then Failure(NotFound)
    else
      var id := s.idsByKey[oldKey];
      if oldKey == newKey then Success((s, s.connections[id]))
      else if newKey in s.idsByKey && s.idsByKey[newKey] != id then Failure(AlreadyExists)
      else Success((Rekey(s, id, oldKey, newKey), Conn(id, newKey)))
  }

  function UpsertConnection(s: State, conn: Conn): Result<State, Code> {
    if conn.connId == 0 || !ValidKey(conn.key) then Failure(InvalidArgument)
    else if conn.connId !in s.connections then Failure(NotFound)
    else if conn.key in s.idsByKey && s.idsByKey[conn.key] != conn.connId then Failure(AlreadyExists)
    else Success(Rekey(s, conn.connId, s.connections[conn.connId].key, conn.key))
  }

  predicate Touches(r: Route, key: Key) {
    r.src.key == key || r.dst.key == key
  }

  function ForgetTargets(cache: map<Endpoint, Update>, id: Id): map<Endpoint, Update> {
    map e | e in cache && e.connId != id && cache[e].srcConnId != id && cache[e].dstConnId != id :: cache[e]
  }

  function ForgetSources(cache: map<Endpoint, SourceUpdate>, id: Id): map<Endpoint, SourceUpdate> {
    map e | e in cache && e.connId != id && cache[e].connId != id :: cache[e]
  }

  function DeleteConnection(s: State, key: Key): Result<State, Code> {
    if !ValidKey(key) then Failure(InvalidArgument)
    else if key !in s.idsByKey then Failure(NotFound)
    else Success(Deleted(s, key, s.idsByKey[key]))
  }

  function Deleted(s: State, key: Key, id: Id): State {
    s.(connections := s.connections - {id},
       idsByKey := s.idsByKey - {key},
       tagsByKey := s.tagsByKey - {key},
       routes := (set r | r in s.routes && !Touches(r, key)),
       latestByDst := ForgetTargets(s.latestByDst, id),
       latestBySrc := ForgetSources(s.latestBySrc, id))
  }

  // ---------- tag tables ----------

  predicate Refused(e: Stable, key: Key, allowed: set<string>) {
    e.key == key && e.tag !in allowed
  }

  function Prune(routes: set<Route>, key: Key, allowed: set<string>): set<Route> {
    set r | r in routes && !Refused(r.src, key, allowed) && !Refused(r.dst, key, allowed)
  }

  function Elements<T>(xs: seq<T>): set<T> {
    set x | x in xs
  }

  function UpsertConnTags(s: State, id: Id, tags: seq<string>, replace: bool): Result<State, Code> {
    if id == 0 || "" in tags then Failure(InvalidArgument)
    else if id !in s.connections then Failure(NotFound)
    else
      var key := s.connections[id].key;
      var before := if replace || key !in s.tagsByKey then {} else s.tagsByKey[key];
      var table := before + Elements(tags);
      Success(s.(tagsByKey := s.tagsByKey[key := table],
                 routes := if replace then Prune(s.routes, key, table) else s.routes))
  }

  // ---------- routes ----------

  datatype RouteRef = RouteRef(src: EndpointRef, dst: EndpointRef)

  function ResolveRoute(s: State, r: RouteRef): Result<Route, Code> {
    match Resolve(s, r.src)
    case Failure(e) => Failure(e)
    case Success(src) =>
      match Resolve(s, r.dst)
      case Failure(e) => Failure(e)
      case Success(dst) => Success(Route(src, dst))
  }

  predicate RouteAccepted(s: State, r: RouteRef) {
    var route := ResolveRoute(s, r);
    route.Success? && Admits(s.tagsByKey, route.value.src) && Admits(s.tagsByKey, route.value.dst)
  }

  /** What the route requests of a list denote. */
  function Denoted(s: State, routes: seq<RouteRef>): set<Route>
    requires forall r :: r in routes ==> ResolveRoute(s, r).Success?
  {
    set r | r in routes :: ResolveRoute(s, r).value
  }

  /** All-or-nothing: every request must be accepted. */
  function UpsertRoutes(s: State, routes: seq<RouteRef>, replace: bool): Option<State> {
    if forall r :: r in routes ==> RouteAccepted(s, r) then
      Some(s.(routes := (if replace then {} else s.routes) + Denoted(s, routes)))
    else None
  }

  function DeleteRoutes(s: State, routes: seq<RouteRef>): Option<State> {
    if forall r :: r in routes ==> ResolveRoute(s, r).Success? then
      Some(s.(routes := s.routes - Denoted(s, routes)))
    else None
  }

  // ---------- publishing ----------

  /** A publish request. `value` is missing when the request sets no kind; `quality` is missing when
      the request's quality cannot be normalised; `now` is what the clock reads when the request
      carries no timestamp. */
  datatype Point = Point(connId: Id, tag: string, value: Option<int>, tsMs: int, quality: Option<int>, now: int)

  predicate WellFormed(p: Point) {
    p.connId != 0 && p.tag != "" && p.value.Some? && p.quality.Some?
  }

  function PayloadOf(p: Point): Payload
    requires WellFormed(p)
  {
    Payload(p.value.value, if p.tsMs <= 0 then p.now else p.tsMs, p.quality.value)
  }

  /** The order in which the hash set of each source's destinations is walked. It is fixed while
      the routes do not change, and otherwise arbitrary. */
  type Order = map<Stable, seq<Stable>>

  function Destinations(routes: set<Route>, src: Stable): set<Stable> {
    set r | r in routes && r.src == src :: r.dst
  }

  ghost predicate Enumerates(order: Order, routes: set<Route>) {
    && (forall r :: r in routes ==> r.src in order)
    && (forall src :: src in order ==>
          && (forall d :: d in order[src] <==> Route(src, d) in routes)
          && (forall i, j :: 0 <= i < j < |order[src]| ==> order[src][i] != order[src][j]))
  }

  function Walk(order: Order, src: Stable): seq<Stable> {
    if src in order then order[src] else []
  }

  function UpdateFor(idsByKey: map<Key, Id>, p: Point, dst: Stable): Update
    requires WellFormed(p)
  {
    Update(p.connId, p.tag, if dst.key in idsByKey then idsByKey[dst.key] else 0, dst.tag, PayloadOf(p))
  }

  function UpdatesFor(idsByKey: map<Key, Id>, p: Point, dsts: seq<Stable>): (r: seq<Update>)
    requires WellFormed(p)
    ensures |r| == |dsts|
  {
    seq(|dsts|, i requires 0 <= i < |dsts| => UpdateFor(idsByKey, p, dsts[i]))
  }

  function Target(u: Update): Endpoint {
    Endpoint(u.dstConnId, u.dstTag)
  }

  /** Writes a log of updates into a cache by destination. */
  function Overlay(cache: map<Endpoint, Update>, log: seq<Update>): map<Endpoint, Update> {
    if log == [] then cache
    else Overlay(cache, log[..|log| - 1])[Target(log[|log| - 1]) := log[|log| - 1]]
  }

  function Publish(s: State, p: Point, order: Order): Result<(State, seq<Update>), Code> {
    if !WellFormed(p) then
      Failure(InvalidArgument)
    else if p.connId !in s.connections then
      Failure(NotFound)
    else
      var dsts := Walk(order, Stable(s.connections[p.connId].key, p.tag));
      if exists d :: d in dsts && d.key !in s.idsByKey then
        Failure(NotFound)
      else if s.sequence >= MAX_SEQUENCE then
        Failure(ResourceExhausted)
      else
        var updates := UpdatesFor(s.idsByKey, p, dsts);
        Success((s.(sequence := s.sequence + 1,
                    latestBySrc := s.latestBySrc[Endpoint(p.connId, p.tag) :=
                                     SourceUpdate(p.connId, p.tag, PayloadOf(p), s.sequence + 1)],
                    latestByDst := Overlay(s.latestByDst, updates)),
                 updates))
  }

  // ---------- reading the caches ----------

  predicate InFilter(e: Endpoint, connId: Id, filter: set<string>) {
    e.connId == connId && (filter == {} || e.tag in filter)
  }

  /** The cached values of one connection, restricted to some tags unless the filter is empty. */
  function Latest<U>(cache: map<Endpoint, U>, connId: Id, filter: set<string>): map<Endpoint, U> {
    map e | e in cache && InFilter(e, connId, filter) :: cache[e]
  }

  // ---------- commands ----------

  /** A command request; `src` is missing when the request has none, and `parses` is false for a
      decimal value that is no number. */
  datatype Command = Command(src: Option<EndpointRef>, value: Option<int>, tsMs: int, quality: Option<int>, now: int,
                             parses: bool)

  /** The connection id that goes with an endpoint request that resolves. */
  function SourceId(s: State, e: EndpointRef): Id
    requires Resolve(s, e).Success?
  {
    if e.key.moduleName != "" || e.key.connName != "" then s.idsByKey[e.key] else e.connId
  }

  /** Caches the value of a command that its target accepted. `dst` was resolved earlier. */
  function StoreAcceptedCommand(s: State, c: Command, dst: Endpoint): Result<State, Code> {
    if c.src.None? || c.value.None? || dst.connId == 0 || dst.tag == "" || c.quality.None? then
      Failure(InvalidArgument)
    else match Resolve(s, c.src.value)
      case Failure(e) => Failure(e)
      case Success(src) =>
        var payload := Payload(c.value.value, if c.tsMs <= 0 then c.now else c.tsMs, c.quality.value);
        var update := Update(SourceId(s, c.src.value), src.tag, dst.connId, dst.tag, payload);
        Success(s.(latestByDst := s.latestByDst[dst := update]))
  }

  datatype CommandRoute = NoRoute | Ambiguous | Unavailable | To(dst: Stable, connId: Id)

  /** Where a command goes: only a source with exactly one destination has one. */
  function ResolveCommandRoute(s: State, c: Command): Result<CommandRoute, Code> {
    if c.src.None? || c.value.None? || c.quality.None? then
      Failure(InvalidArgument)
    else match Resolve(s, c.src.value)
      case Failure(e) => Failure(e)
      case Success(src) =>
        var dsts := Destinations(s.routes, src);
        if dsts == {} then Success(NoRoute)
        else if |dsts| != 1 then Success(Ambiguous)
        else
          var dst := TheOnly(dsts);
          if dst.key !in s.idsByKey then Success(Unavailable)
          else if !c.parses then Failure(InvalidArgument)
          else Success(To(dst, s.idsByKey[dst.key]))
  }

  function TheOnly<T>(s: set<T>): (x: T)
    requires |s| == 1
    ensures s == {x}
  {
    SingletonIsUnique(s);
    var x :| x in s;
    x
  }

  lemma SingletonIsUnique<T>(s: set<T>)
    requires |s| == 1
    ensures forall x :: x in s ==> s == {x}
  {
    forall x | x in s
      ensures s == {x}
    {
      assert |s - {x}| == 0;
    }
  }
}
