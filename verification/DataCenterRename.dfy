/**
 Changing the key of a connection, by `RenameConnection` or a key-changing `UpsertConnection`, is
 invisible to data flow (src/DataCenter/DataCenterCoreConnection.cc): every route is carried over
 and none are merged, and publishing before or after the change comes to the same thing.
 */
module DataCenterRename {
  import opened Wrappers
  import opened DataCenterModel
  import opened DataCenterPublish
  import opened DataCenterInvariant

  /** Connection `id` may take the key `newKey`: the condition under which both operations proceed. */
  ghost predicate MayTake(s: State, id: Id, newKey: Key) {
    && Inv(s) && id in s.connections && ValidKey(newKey)
    && (newKey in s.idsByKey ==> s.idsByKey[newKey] == id)
  }

  function Rekeyed(s: State, id: Id, newKey: Key): State
    requires id in s.connections
  {
    Rekey(s, id, s.connections[id].key, newKey)
  }

  lemma BothOperationsRekey(s: State, id: Id, newKey: Key)
    requires MayTake(s, id, newKey)
    ensures UpsertConnection(s, Conn(id, newKey)) == Success(Rekeyed(s, id, newKey))
    ensures RenameConnection(s, s.connections[id].key, newKey) == Success((Rekeyed(s, id, newKey), Conn(id, newKey)))
  {
    if newKey == s.connections[id].key {
      RekeyToSame(s, id);
    }
  }

  lemma RekeyToSame(s: State, id: Id)
    requires Inv(s) && id in s.connections
    ensures Rekeyed(s, id, s.connections[id].key) == s
  {
    var key := s.connections[id].key;
    forall r ensures MoveRoute(r, key, key) == r {
    }
    assert MoveRoutes(s.routes, key, key) == s.routes;
  }

  /** Routes are carried over one to one. */
  lemma RoutesOneToOne(s: State, id: Id, newKey: Key)
    requires MayTake(s, id, newKey)
    ensures var oldKey := s.connections[id].key;
            forall q, r :: q in s.routes && r in s.routes ==>
                MoveRoute(q, oldKey, newKey) == MoveRoute(r, oldKey, newKey) ==> q == r
    ensures |Rekeyed(s, id, newKey).routes| == |s.routes|
  {
    var oldKey := s.connections[id].key;
    forall q, r | q in s.routes && r in s.routes && MoveRoute(q, oldKey, newKey) == MoveRoute(r, oldKey, newKey)
      ensures q == r
    {
    }
    MoveKeepsCount(s.routes, oldKey, newKey);
  }

  lemma {:induction false} MoveKeepsCount(routes: set<Route>, oldKey: Key, newKey: Key)
    requires forall q, r :: q in routes && r in routes ==>
              MoveRoute(q, oldKey, newKey) == MoveRoute(r, oldKey, newKey) ==> q == r
    ensures |MoveRoutes(routes, oldKey, newKey)| == |routes|
    decreases routes
  {
    if routes != {} {
      var r :| r in routes;
      MoveKeepsCount(routes - {r}, oldKey, newKey);
      assert MoveRoutes(routes, oldKey, newKey) ==
             MoveRoutes(routes - {r}, oldKey, newKey) + {MoveRoute(r, oldKey, newKey)};
    }
  }

  // ---------- publishing ----------

  /** Every id still resolves to the same endpoints. */
  lemma IdsFollow(s: State, id: Id, newKey: Key, e: Stable)
    requires MayTake(s, id, newKey) && Named(s, e)
    ensures var s' := Rekeyed(s, id, newKey);
            var e' := Move(e, s.connections[id].key, newKey);
            e'.key in s'.idsByKey && s'.idsByKey[e'.key] == s.idsByKey[e.key] && e'.tag == e.tag
  {
  }

  lemma InUpdates(idsByKey: map<Key, Id>, p: Point, dsts: seq<Stable>, u: Update)
    requires WellFormed(p)
    ensures u in UpdatesFor(idsByKey, p, dsts) <==> exists d :: d in dsts && UpdateFor(idsByKey, p, d) == u
  {
    var updates := UpdatesFor(idsByKey, p, dsts);
    if d :| d in dsts && UpdateFor(idsByKey, p, d) == u {
      var i :| 0 <= i < |dsts| && dsts[i] == d;
      assert updates[i] == u;
    }
  }

  lemma PublishedBefore(s: State, p: Point, order: Order, u: Update)
    requires Inv(s) && WellFormed(p) && p.connId in s.connections && Enumerates(order, s.routes)
    ensures var src := SourceOf(s, p);
            u in UpdatesFor(s.idsByKey, p, Walk(order, src)) <==>
              exists d :: d in Destinations(s.routes, src) && UpdateFor(s.idsByKey, p, d) == u
  {
    var src := SourceOf(s, p);
    InUpdates(s.idsByKey, p, Walk(order, src), u);
    forall d ensures d in Walk(order, src) <==> d in Destinations(s.routes, src) {
    }
  }

  /** The same updates are sent before and after, though the hash order may differ. */
  lemma SameUpdates(s: State, id: Id, newKey: Key, p: Point, order: Order, order': Order, u: Update)
    requires MayTake(s, id, newKey) && WellFormed(p) && p.connId in s.connections
    requires Enumerates(order, s.routes) && Enumerates(order', Rekeyed(s, id, newKey).routes)
    ensures var s' := Rekeyed(s, id, newKey);
            u in UpdatesFor(s.idsByKey, p, Walk(order, SourceOf(s, p))) <==>
              u in UpdatesFor(s'.idsByKey, p, Walk(order', SourceOf(s', p)))
  {
    var oldKey := s.connections[id].key;
    var s' := Rekeyed(s, id, newKey);
    RekeyInv(s, id, newKey);
    var src := SourceOf(s, p);
    assert SourceOf(s', p) == Move(src, oldKey, newKey);
    PublishedBefore(s, p, order, u);
    PublishedBefore(s', p, order', u);
    forall d | d in Destinations(s.routes, src)
      ensures UpdateFor(s'.idsByKey, p, Move(d, oldKey, newKey)) == UpdateFor(s.idsByKey, p, d)
    {
      IdsFollow(s, id, newKey, d);
    }
  }

  /** No two updates of one publish go to the same endpoint. */
  lemma TargetsDistinct(s: State, p: Point, order: Order, i: nat, j: nat)
    requires Inv(s) && WellFormed(p) && p.connId in s.connections && Enumerates(order, s.routes)
    requires var updates := UpdatesFor(s.idsByKey, p, Walk(order, SourceOf(s, p)));
             i < j < |updates|
    ensures var updates := UpdatesFor(s.idsByKey, p, Walk(order, SourceOf(s, p)));
            Target(updates[i]) != Target(updates[j])
  {
    var src := SourceOf(s, p);
    var dsts := Walk(order, src);
    assert Route(src, dsts[i]) in s.routes && Route(src, dsts[j]) in s.routes;
  }

  ghost predicate DistinctTargets(log: seq<Update>) {
    forall i, j :: 0 <= i < j < |log| ==> Target(log[i]) != Target(log[j])
  }

  /** With distinct targets, the order of a log does not matter. */
  lemma OverlayIgnoresOrder(cache: map<Endpoint, Update>, a: seq<Update>, b: seq<Update>)
    requires DistinctTargets(a) && forall u :: u in a <==> u in b
    ensures Overlay(cache, a) == Overlay(cache, b)
  {
    forall e
      ensures e in Overlay(cache, a) <==> e in Overlay(cache, b)
      ensures e in Overlay(cache, a) ==> Overlay(cache, a)[e] == Overlay(cache, b)[e]
    {
      OverlayCases(cache, a, e);
      OverlayCases(cache, b, e);
    }
  }

  lemma {:induction false} CountInDistinct(log: seq<Update>, u: Update)
    requires DistinctTargets(log)
    ensures multiset(log)[u] == if u in log then 1 else 0
  {
    if log != [] {
      var n := |log| - 1;
      CountInDistinct(log[..n], u);
      assert log == log[..n] + [log[n]];
    }
  }

  lemma SameElementsSameMultiset(a: seq<Update>, b: seq<Update>)
    requires DistinctTargets(a) && DistinctTargets(b) && forall u :: u in a <==> u in b
    ensures multiset(a) == multiset(b)
  {
    forall u ensures multiset(a)[u] == multiset(b)[u] {
      CountInDistinct(a, u);
      CountInDistinct(b, u);
    }
  }

  function Sent(s: State, p: Point, order: Order): seq<Update>
    requires WellFormed(p) && p.connId in s.connections
  {
    UpdatesFor(s.idsByKey, p, Walk(order, SourceOf(s, p)))
  }

  lemma SentHasDistinctTargets(s: State, p: Point, order: Order)
    requires Inv(s) && WellFormed(p) && p.connId in s.connections && Enumerates(order, s.routes)
    ensures DistinctTargets(Sent(s, p, order))
  {
    var a := Sent(s, p, order);
    forall i: nat, j: nat | i < j < |a|
      ensures Target(a[i]) != Target(a[j])
    {
      TargetsDistinct(s, p, order, i, j);
    }
  }

  lemma SentFollows(s: State, id: Id, newKey: Key, p: Point, order: Order, order': Order)
    requires MayTake(s, id, newKey) && WellFormed(p) && p.connId in s.connections
    requires Enumerates(order, s.routes) && Enumerates(order', Rekeyed(s, id, newKey).routes)
    ensures var a := Sent(s, p, order);
            var b := Sent(Rekeyed(s, id, newKey), p, order');
            multiset(a) == multiset(b) && Overlay(s.latestByDst, a) == Overlay(s.latestByDst, b)
  {
    var s' := Rekeyed(s, id, newKey);
    RekeyInv(s, id, newKey);
    SentHasDistinctTargets(s, p, order);
    SentHasDistinctTargets(s', p, order');
    var a := Sent(s, p, order);
    var b := Sent(s', p, order');
    forall u ensures u in a <==> u in b {
      SameUpdates(s, id, newKey, p, order, order', u);
    }
    OverlayIgnoresOrder(s.latestByDst, a, b);
    SameElementsSameMultiset(a, b);
  }

  function Published(s: State, p: Point, updates: seq<Update>): State
    requires WellFormed(p) && s.sequence < MAX_SEQUENCE
  {
    s.(sequence := s.sequence + 1,
       latestBySrc := s.latestBySrc[Endpoint(p.connId, p.tag) := SourceUpdateFor(p, s.sequence + 1)],
       latestByDst := Overlay(s.latestByDst, updates))
  }

  lemma PublishResult(s: State, p: Point, order: Order)
    requires Inv(s) && Enumerates(order, s.routes)
    requires WellFormed(p) && p.connId in s.connections && s.sequence < MAX_SEQUENCE
    ensures Publish(s, p, order) == Success((Published(s, p, Sent(s, p, order)), Sent(s, p, order)))
  {
    PublishFailsOnlyFor(s, p, order);
  }

  lemma PublishedFollows(s: State, id: Id, newKey: Key, p: Point, a: seq<Update>, b: seq<Update>)
    requires id in s.connections && WellFormed(p) && s.sequence < MAX_SEQUENCE
    requires Overlay(s.latestByDst, a) == Overlay(s.latestByDst, b)
    ensures Published(Rekeyed(s, id, newKey), p, b) == Rekeyed(Published(s, p, a), id, newKey)
  {
  }

  /** Publishing before and after the change of key: it succeeds both times or neither, to states that differ by
      the change of key, with the same updates sent. */
  ghost predicate SamePublished(s: State, id: Id, newKey: Key, before: Result<(State, seq<Update>), Code>,
                                after: Result<(State, seq<Update>), Code>)
    requires MayTake(s, id, newKey)
  {
    && (before.Success? <==> after.Success?)
    && (before.Success? ==>
          && before.value.0.connections == s.connections && before.value.0.idsByKey == s.idsByKey
          && after.value.0 == Rekeyed(before.value.0, id, newKey)
          && multiset(after.value.1) == multiset(before.value.1))
  }

  /** Publishing after the change of key is the change of key after publishing, with the same
      updates sent. */
  lemma PublishCommutes(s: State, id: Id, newKey: Key, p: Point, order: Order, order': Order)
    requires MayTake(s, id, newKey)
    requires Enumerates(order, s.routes) && Enumerates(order', Rekeyed(s, id, newKey).routes)
    ensures var before := Publish(s, p, order);
            var after := Publish(Rekeyed(s, id, newKey), p, order');
            SamePublished(s, id, newKey, before, after)
  {
    var s' := Rekeyed(s, id, newKey);
    RekeyInv(s, id, newKey);
    PublishFailsOnlyFor(s, p, order);
    PublishFailsOnlyFor(s', p, order');
    if WellFormed(p) && p.connId in s.connections && s.sequence < MAX_SEQUENCE {
      PublishResult(s, p, order);
      PublishResult(s', p, order');
      SentFollows(s, id, newKey, p, order, order');
      PublishedFollows(s, id, newKey, p, Sent(s, p, order), Sent(s', p, order'));
    }
  }

  /** The same for any number of publishes in a row. */
  lemma {:induction false} PublishAllCommutes(s: State, id: Id, newKey: Key, points: seq<Point>, order: Order,
                                              order': Order)
    requires MayTake(s, id, newKey)
    requires Enumerates(order, s.routes) && Enumerates(order', Rekeyed(s, id, newKey).routes)
    ensures var before := PublishAll(s, points, order);
            var after := PublishAll(Rekeyed(s, id, newKey), points, order');
            SamePublished(s, id, newKey, before, after)
  {
    if points != [] {
      var n := |points| - 1;
      PublishAllCommutes(s, id, newKey, points[..n], order, order');
      var before := PublishAll(s, points[..n], order);
      if before.Success? {
        PublishAllInv(s, points[..n], order);
        PublishCommutes(before.value.0, id, newKey, points[n], order, order');
      }
    }
  }

  lemma RoutesMoveBack(s: State, id: Id, newKey: Key)
    requires MayTake(s, id, newKey)
    ensures var oldKey := s.connections[id].key;
            MoveRoutes(MoveRoutes(s.routes, oldKey, newKey), newKey, oldKey) == s.routes
  {
    var oldKey := s.connections[id].key;
    var there := MoveRoutes(s.routes, oldKey, newKey);
    forall r | r in s.routes
      ensures MoveRoute(r, oldKey, newKey) in there && MoveRoute(MoveRoute(r, oldKey, newKey), newKey, oldKey) == r
    {
    }
    assert MoveRoutes(there, newKey, oldKey) == s.routes;
  }

  /** Taking the old key back restores the state exactly. */
  lemma RenameBack(s: State, id: Id, newKey: Key)
    requires MayTake(s, id, newKey)
    ensures Rekeyed(Rekeyed(s, id, newKey), id, s.connections[id].key) == s
  {
    RoutesMoveBack(s, id, newKey);
  }
}
