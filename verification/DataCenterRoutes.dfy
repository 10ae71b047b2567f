/**
 Routes the way the core holds them: a map from each source endpoint to its set of destinations
 (src/DataCenter/DataCenterCoreRoutes.cc, DataCenterCoreConnection.cc, DataCenterCoreConnTags.cc).
 Each loop that builds or filters such a map is proved against the set of routes it holds.
 */
module DataCenterRoutes {
  import opened Wrappers
  import opened DataCenterModel

  type RouteMap = map<Stable, set<Stable>>

  /** The routes a map holds. */
  function Rel(m: RouteMap): set<Route> {
    set src, dst | src in m && dst in m[src] :: Route(src, dst)
  }

  predicate NoEmpty(m: RouteMap) {
    forall src :: src in m ==> m[src] != {}
  }

  /** A map without empty sets is determined by the routes it holds. */
  lemma RelDetermines(a: RouteMap, b: RouteMap)
    requires NoEmpty(a) && NoEmpty(b) && Rel(a) == Rel(b)
    ensures a == b
  {
    forall src
      ensures src in a <==> src in b
      ensures src in a ==> a[src] == b[src]
    {
      forall d ensures src in a && d in a[src] <==> src in b && d in b[src] {
        assert Route(src, d) in Rel(a) <==> Route(src, d) in Rel(b);
      }
    }
  }

  lemma RelDestinations(m: RouteMap, src: Stable)
    requires NoEmpty(m)
    ensures Destinations(Rel(m), src) == if src in m then m[src] else {}
  {
    if src in m {
      forall d | d in m[src] ensures d in Destinations(Rel(m), src) {
        assert Route(src, d) in Rel(m);
      }
    }
  }

  function At(m: RouteMap, src: Stable): set<Stable> {
    if src in m then m[src] else {}
  }

  function Star(src: Stable, dsts: set<Stable>): set<Route> {
    set d | d in dsts :: Route(src, d)
  }

  lemma RelInsert(m: RouteMap, src: Stable, dsts: set<Stable>)
    ensures Rel(m[src := At(m, src) + dsts]) == Rel(m) + Star(src, dsts)
  {
    var next := m[src := At(m, src) + dsts];
    forall r ensures r in Rel(next) <==> r in Rel(m) + Star(src, dsts) {
      if r in Star(src, dsts) {
        assert r.dst in next[r.src];
      }
    }
  }

  // ---------- moving a connection's key ----------

  method RewriteConnectionKeyReferences(routes: RouteMap, oldKey: Key, newKey: Key) returns (rewritten: RouteMap)
    ensures Rel(rewritten) == MoveRoutes(Rel(routes), oldKey, newKey)
    ensures NoEmpty(routes) ==> NoEmpty(rewritten)
  {
    if oldKey == newKey {
      return routes;
    }
    rewritten := map[];
    var todo := routes.Keys;
    while todo != {}
      invariant todo <= routes.Keys
      invariant Rel(rewritten) == MoveRoutes(Walked(routes, todo), oldKey, newKey)
      invariant NoEmpty(routes) ==> NoEmpty(rewritten)
    {
      var src :| src in todo;
      var moved := MoveDestinations(routes[src], oldKey, newKey);
      var nextSrc := Move(src, oldKey, newKey);
      RelInsert(rewritten, nextSrc, moved);
      MovedStar(routes, todo, src, oldKey, newKey);
      rewritten := rewritten[nextSrc := At(rewritten, nextSrc) + moved];
      todo := todo - {src};
    }
    assert Walked(routes, {}) == Rel(routes);
  }

  /** The routes of the sources already walked. */
  function Walked(routes: RouteMap, todo: set<Stable>): set<Route> {
    set r | r in Rel(routes) && r.src !in todo
  }

  lemma MovedStar(routes: RouteMap, todo: set<Stable>, src: Stable, oldKey: Key, newKey: Key)
    requires src in todo && src in routes
    ensures MoveRoutes(Walked(routes, todo - {src}), oldKey, newKey) ==
              MoveRoutes(Walked(routes, todo), oldKey, newKey)
              + Star(Move(src, oldKey, newKey), set d | d in routes[src] :: Move(d, oldKey, newKey))
  {
    var moved := set d | d in routes[src] :: Move(d, oldKey, newKey);
    var star := MoveRoutes(Star(src, routes[src]), oldKey, newKey);
    forall r ensures r in star <==> r in Star(Move(src, oldKey, newKey), moved) {
      if r in Star(Move(src, oldKey, newKey), moved) {
        var d :| d in routes[src] && Move(d, oldKey, newKey) == r.dst;
        assert Route(src, d) in Star(src, routes[src]);
      }
    }
    assert MoveRoutes(Walked(routes, todo) + Star(src, routes[src]), oldKey, newKey) ==
      MoveRoutes(Walked(routes, todo), oldKey, newKey) + star;
  }

  method MoveDestinations(dsts: set<Stable>, oldKey: Key, newKey: Key) returns (moved: set<Stable>)
    ensures moved == set d | d in dsts :: Move(d, oldKey, newKey)
    ensures dsts != {} ==> moved != {}
  {
    moved := {};
    var todo := dsts;
    while todo != {}
      invariant todo <= dsts
      invariant moved == set d | d in dsts - todo :: Move(d, oldKey, newKey)
    {
      var dst :| dst in todo;
      moved := moved + {Move(dst, oldKey, newKey)};
      todo := todo - {dst};
    }
    if dsts != {} {
      var d :| d in dsts;
      assert Move(d, oldKey, newKey) in moved;
    }
  }

  // ---------- erasing endpoints ----------

  function Kept(routes: set<Route>, bad: Stable -> bool): set<Route> {
    set r | r in routes && !bad(r.src) && !bad(r.dst)
  }

  /** Erases every route with a bad endpoint, and every source left without destinations. Both the
      deletion of a connection and the pruning by a tag table run this loop. */
  method EraseEndpoints(routes: RouteMap, bad: Stable -> bool) returns (left: RouteMap)
    requires NoEmpty(routes)
    ensures Rel(left) == Kept(Rel(routes), bad) && NoEmpty(left)
  {
    left := routes;
    var todo := routes.Keys;
    while todo != {}
      invariant todo <= routes.Keys
      invariant forall src :: src in todo ==> src in left && left[src] == routes[src]
      invariant Rel(left) == Kept(Walked(routes, todo), bad) + Waiting(routes, todo)
      invariant NoEmpty(left)
    {
      var src :| src in todo;
      EraseStep(routes, left, todo, src, bad);
      if bad(src) {
        left := left - {src};
      } else {
        var dsts := EraseDestinations(left[src], bad);
        if dsts == {} {
          left := left - {src};
        } else {
          left := left[src := dsts];
        }
      }
      todo := todo - {src};
    }
    assert Walked(routes, {}) == Rel(routes) && Waiting(routes, {}) == {};
  }

  function Waiting(routes: RouteMap, todo: set<Stable>): set<Route> {
    set r | r in Rel(routes) && r.src in todo
  }

  lemma EraseStep(routes: RouteMap, left: RouteMap, todo: set<Stable>, src: Stable, bad: Stable -> bool)
    requires src in todo && src in routes && src in left && left[src] == routes[src]
    requires Rel(left) == Kept(Walked(routes, todo), bad) + Waiting(routes, todo)
    ensures var dsts := set d | d in routes[src] && !bad(d);
            var next := Kept(Walked(routes, todo - {src}), bad) + Waiting(routes, todo - {src});
            && (bad(src) || dsts == {} ==> Rel(left - {src}) == next)
            && (!bad(src) ==> Rel(left[src := dsts]) == next)
  {
    var dsts := set d | d in routes[src] && !bad(d);
    var next := Kept(Walked(routes, todo - {src}), bad) + Waiting(routes, todo - {src});
    forall r ensures r in next <==> (r in Rel(left) && r.src != src) || (!bad(src) && r in Star(src, dsts)) {
    }
  }

  method EraseDestinations(dsts: set<Stable>, bad: Stable -> bool) returns (left: set<Stable>)
    ensures left == set d | d in dsts && !bad(d)
  {
    left := dsts;
    var todo := dsts;
    while todo != {}
      invariant todo <= dsts
      invariant left == set d | d in dsts && (d in todo || !bad(d))
    {
      var dst :| dst in todo;
      if bad(dst) {
        left := left - {dst};
      }
      todo := todo - {dst};
    }
  }

  // ---------- adding and removing routes ----------

  /** Adds the routes that `UpsertRoutes` and `ReplaceRoutesConfig` accept, one request at a time, and
      gives up at the first request that is refused. */
  method AddRoutes(s: State, start: RouteMap, requests: seq<RouteRef>) returns (next: Option<RouteMap>)
    requires NoEmpty(start)
    ensures next.Some? <==> forall r :: r in requests ==> RouteAccepted(s, r)
    ensures next.Some? ==> Rel(next.value) == Rel(start) + Denoted(s, requests) && NoEmpty(next.value)
  {
    var m := start;
    for i := 0 to |requests|
      invariant forall r :: r in requests[..i] ==> RouteAccepted(s, r)
      invariant Rel(m) == Rel(start) + Denoted(s, requests[..i]) && NoEmpty(m)
    {
      var request := requests[i];
      assert request in requests;
      var src := Resolve(s, request.src);
      if src.Failure? {
        return None;
      }
      var dst := Resolve(s, request.dst);
      if dst.Failure? {
        return None;
      }
      if !Admits(s.tagsByKey, src.value) {
        return None;
      }
      if !Admits(s.tagsByKey, dst.value) {
        return None;
      }
      RelInsert(m, src.value, {dst.value});
      DenotedMore(s, requests, i);
      m := m[src.value := At(m, src.value) + {dst.value}];
    }
    assert requests[..|requests|] == requests;
    return Some(m);
  }

  lemma DenotedMore(s: State, requests: seq<RouteRef>, i: nat)
    requires i < |requests| && ResolveRoute(s, requests[i]).Success?
    requires forall r :: r in requests[..i] ==> ResolveRoute(s, r).Success?
    ensures forall r :: r in requests[..i + 1] ==> r in requests[..i] || r == requests[i]
    ensures Denoted(s, requests[..i + 1]) == Denoted(s, requests[..i]) + {ResolveRoute(s, requests[i]).value}
  {
    assert requests[..i + 1] == requests[..i] + [requests[i]];
  }

  /** Removes routes one request at a time, dropping a source with its last destination. */
  method RemoveRoutes(s: State, start: RouteMap, requests: seq<RouteRef>) returns (next: Option<RouteMap>)
    requires NoEmpty(start)
    ensures next.Some? <==> forall r :: r in requests ==> ResolveRoute(s, r).Success?
    ensures next.Some? ==> Rel(next.value) == Rel(start) - Denoted(s, requests) && NoEmpty(next.value)
  {
    var m := start;
    for i := 0 to |requests|
      invariant forall r :: r in requests[..i] ==> ResolveRoute(s, r).Success?
      invariant Rel(m) == Rel(start) - Denoted(s, requests[..i]) && NoEmpty(m)
    {
      var request := requests[i];
      assert request in requests;
      var src := Resolve(s, request.src);
      if src.Failure? {
        return None;
      }
      var dst := Resolve(s, request.dst);
      if dst.Failure? {
        return None;
      }
      DenotedMore(s, requests, i);
      RelRemove(m, src.value, dst.value);
      if src.value !in m {
        continue;
      }
      var dsts := m[src.value] - {dst.value};
      m := if dsts == {} then m - {src.value} else m[src.value := dsts];
    }
    assert requests[..|requests|] == requests;
    return Some(m);
  }

  lemma RelRemove(m: RouteMap, src: Stable, dst: Stable)
    ensures var rest := Rel(m) - {Route(src, dst)};
            && (src !in m ==> Rel(m) == rest)
            && (src in m && m[src] - {dst} == {} ==> Rel(m - {src}) == rest)
            && (src in m && m[src] - {dst} != {} ==> Rel(m[src := m[src] - {dst}]) == rest)
  {
    if src in m {
      forall r ensures r in Rel(m) - {Route(src, dst)} <==>
          (r in Rel(m) && r.src != src) || r in Star(src, m[src] - {dst}) {
        if r.src == src {
          assert r in Rel(m) <==> r.dst in m[src];
        }
      }
    }
  }
}
