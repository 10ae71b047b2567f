/**
 What publishing does (src/DataCenter/DataCenterCorePublish.cc), told by the points, the routes and the fields of
 the state alone: what a published update carries, which route it takes and where it ends up.
 */
module DataCenterEffects {
  import opened Wrappers
  import opened DataCenterModel
  import opened DataCenterPublish
  import opened DataCenterInvariant

  // ---------- publishing one point ----------

  /** The payload has the point's value and quality, and its time, or the clock's if it has none. */
  predicate Conveys(p: Point, payload: Payload) {
    && p.value == Some(payload.value) && p.quality == Some(payload.quality)
    && payload.tsMs == (if p.tsMs > 0 then p.tsMs else p.now)
  }

  /** The route starts at the point: at the key of its connection, with its tag. */
  predicate StartsAt(s: State, p: Point, r: Route) {
    p.connId in s.connections && r.src.key == s.connections[p.connId].key && r.src.tag == p.tag
  }

  /** The update brings the point along the route. */
  predicate Carries(s: State, p: Point, r: Route, u: Update) {
    && StartsAt(s, p, r) && u.srcConnId == p.connId && u.srcTag == p.tag
    && r.dst.key in s.idsByKey && u.dstConnId == s.idsByKey[r.dst.key] && u.dstTag == r.dst.tag
    && Conveys(p, u.payload)
  }

  ghost predicate CarriesSome(s: State, p: Point, u: Update) {
    exists r :: r in s.routes && Carries(s, p, r, u)
  }

  /** The entry by source after a point was published as number `n`. */
  predicate Records(p: Point, n: int, e: SourceUpdate) {
    e.connId == p.connId && e.tag == p.tag && e.sequence == n && Conveys(p, e.payload)
  }

  /** Nothing but the caches and the sequence number differs. */
  predicate SameConfiguration(s: State, t: State) {
    && t.connections == s.connections && t.idsByKey == s.idsByKey && t.nextId == s.nextId
    && t.tagsByKey == s.tagsByKey && t.routes == s.routes
  }

  lemma UpdatesCarry(s: State, p: Point, order: Order, u: Update)
    requires Inv(s) && WellFormed(p) && p.connId in s.connections && Enumerates(order, s.routes)
    ensures u in UpdatesFor(s.idsByKey, p, Walk(order, SourceOf(s, p))) <==> CarriesSome(s, p, u)
  {
    var src := SourceOf(s, p);
    var dsts := Walk(order, src);
    var updates := UpdatesFor(s.idsByKey, p, dsts);
    if u in updates {
      var i :| 0 <= i < |updates| && updates[i] == u;
      assert Route(src, dsts[i]) in s.routes && Carries(s, p, Route(src, dsts[i]), u);
    }
    if r :| r in s.routes && Carries(s, p, r, u) {
      assert r == Route(src, r.dst);
      var i :| 0 <= i < |dsts| && dsts[i] == r.dst;
      assert updates[i] == u;
    }
  }

  /** An update is sent exactly if it brings the point along a route, and no two of them go to one
      endpoint, so every route has one. */
  lemma PublishSends(s: State, p: Point, order: Order, u: Update)
    requires Inv(s) && Enumerates(order, s.routes) && Publish(s, p, order).Success?
    ensures u in Publish(s, p, order).value.1 <==> CarriesSome(s, p, u)
    ensures var updates := Publish(s, p, order).value.1;
            forall i, j :: 0 <= i < j < |updates| ==>
                updates[i].dstConnId != updates[j].dstConnId || updates[i].dstTag != updates[j].dstTag
  {
    UpdatesCarry(s, p, order, u);
    var src := SourceOf(s, p);
    var dsts := Walk(order, src);
    forall i | 0 <= i < |dsts| ensures Named(s, dsts[i]) {
      assert Route(src, dsts[i]) in s.routes;
    }
  }

  /** The cache has the update at its destination. */
  predicate Holds(cache: map<Endpoint, Update>, u: Update) {
    var e := Endpoint(u.dstConnId, u.dstTag);
    e in cache && cache[e] == u
  }

  predicate GoesTo(u: Update, e: Endpoint) {
    u.dstConnId == e.connId && u.dstTag == e.tag
  }

  /** Some update of the point goes to the endpoint. */
  ghost predicate Reaches(s: State, p: Point, e: Endpoint) {
    exists u :: CarriesSome(s, p, u) && GoesTo(u, e)
  }

  predicate SameAt<U(==)>(cache: map<Endpoint, U>, after: map<Endpoint, U>, e: Endpoint) {
    (e in cache <==> e in after) && (e in cache ==> after[e] == cache[e])
  }

  /** From `before` to `after` the point was recorded for its source as the next number. */
  ghost predicate RecordedIn(p: Point, before: State, after: State) {
    var at := Endpoint(p.connId, p.tag);
    && after.sequence == before.sequence + 1
    && at in after.latestBySrc && Records(p, before.sequence + 1, after.latestBySrc[at])
    && forall e :: e != at ==> SameAt(before.latestBySrc, after.latestBySrc, e)
  }

  /** From `before` to `after` the updates of the point were put in the cache of their destinations. */
  ghost predicate DeliveredIn(s: State, p: Point, before: State, after: State) {
    && (forall u :: CarriesSome(s, p, u) ==> Holds(after.latestByDst, u))
    && (forall e :: !Reaches(s, p, e) ==> SameAt(before.latestByDst, after.latestByDst, e))
  }

  /** Publishing records the point for its source, puts every update in the cache of its destination,
      and changes nothing else. */
  lemma PublishWrites(s: State, p: Point, order: Order)
    requires Inv(s) && Enumerates(order, s.routes) && Publish(s, p, order).Success?
    ensures var t := Publish(s, p, order).value.0;
            SameConfiguration(s, t) && RecordedIn(p, s, t) && DeliveredIn(s, p, s, t)
  {
    var t := Publish(s, p, order).value.0;
    forall u | CarriesSome(s, p, u) ensures Holds(t.latestByDst, u) {
      HoldsSent(s, p, order, u);
    }
    forall e | !Reaches(s, p, e) ensures SameAt(s.latestByDst, t.latestByDst, e) {
      SameUnreached(s, p, order, e);
    }
  }

  lemma HoldsSent(s: State, p: Point, order: Order, u: Update)
    requires Inv(s) && Enumerates(order, s.routes) && Publish(s, p, order).Success? && CarriesSome(s, p, u)
    ensures Holds(Publish(s, p, order).value.0.latestByDst, u)
  {
    var (t, updates) := Publish(s, p, order).value;
    OneOfItsTarget(s, p, order, u);
    OverlayCases(s.latestByDst, updates, Target(u));
    assert Target(t.latestByDst[Target(u)]) == Target(u);
  }

  lemma SameUnreached(s: State, p: Point, order: Order, e: Endpoint)
    requires Inv(s) && Enumerates(order, s.routes) && Publish(s, p, order).Success? && !Reaches(s, p, e)
    ensures SameAt(s.latestByDst, Publish(s, p, order).value.0.latestByDst, e)
  {
    var updates := Publish(s, p, order).value.1;
    OverlayCases(s.latestByDst, updates, e);
    forall u | u in updates ensures Target(u) != e {
      PublishSends(s, p, order, u);
    }
  }

  lemma OneOfItsTarget(s: State, p: Point, order: Order, u: Update)
    requires Inv(s) && Enumerates(order, s.routes) && Publish(s, p, order).Success? && CarriesSome(s, p, u)
    ensures u in Publish(s, p, order).value.1
    ensures forall v :: v in Publish(s, p, order).value.1 && Target(v) == Target(u) ==> v == u
  {
    PublishSends(s, p, order, u);
    var updates := Publish(s, p, order).value.1;
    forall v | v in updates && Target(v) == Target(u) ensures v == u {
      var i, j :| 0 <= i < |updates| && 0 <= j < |updates| && updates[i] == u && updates[j] == v;
    }
  }

  /** The request lacks something that a publish needs. */
  predicate Lacking(p: Point) {
    p.connId == 0 || p.tag == "" || p.value == None || p.quality == None
  }

  /** Which publishes fail, and with which code. */
  lemma PublishAnswers(s: State, p: Point, order: Order)
    requires Inv(s) && Enumerates(order, s.routes)
    ensures var r := Publish(s, p, order);
            if Lacking(p) then r == Failure(InvalidArgument)
            else if p.connId !in s.connections then r == Failure(NotFound)
            else if s.sequence == 0xFFFF_FFFF_FFFF_FFFF then r == Failure(ResourceExhausted)
            else r.Success?
  {
    PublishFailsOnlyFor(s, p, order);
  }

  /** Which batches fail, and with which code. */
  lemma BatchAnswers(s: State, points: seq<Point>, order: Order)
    requires Inv(s) && Enumerates(order, s.routes)
    ensures var r := BatchPublish(s, points, order);
            if exists p :: p in points && Lacking(p) then r == Failure(InvalidArgument)
            else if exists p :: p in points && p.connId !in s.connections then r == Failure(NotFound)
            else if s.sequence + |points| > 0xFFFF_FFFF_FFFF_FFFF then r == Failure(ResourceExhausted)
            else r.Success?
  {
    forall p | p in points
      ensures WellFormed(p) <==> !Lacking(p)
      ensures p.connId in s.connections ==> Deliverable(s, p, order)
    {
      PublishFailsOnlyFor(s, p, order);
    }
  }

  // ---------- publishing a batch ----------

  ghost predicate CarriesOneOf(s: State, points: seq<Point>, u: Update) {
    exists i :: 0 <= i < |points| && CarriesSome(s, points[i], u)
  }

  /** What a sequence of publishes does point by point. */
  lemma LastPublish(s: State, points: seq<Point>, order: Order)
    requires Inv(s) && Enumerates(order, s.routes) && points != [] && PublishAll(s, points, order).Success?
    ensures var n := |points| - 1;
            && PublishAll(s, points[..n], order).Success?
            && var before := PublishAll(s, points[..n], order).value;
            var after := PublishAll(s, points, order).value;
            && SameConfiguration(s, before.0) && Inv(before.0)
            && Publish(before.0, points[n], order).Success?
            && after.0 == Publish(before.0, points[n], order).value.0
            && after.1 == before.1 + Publish(before.0, points[n], order).value.1
  {
    var n := |points| - 1;
    PublishAllKeeps(s, points[..n], order);
  }

  lemma {:induction false} PublishAllKeeps(s: State, points: seq<Point>, order: Order)
    requires Inv(s) && Enumerates(order, s.routes) && PublishAll(s, points, order).Success?
    ensures var t := PublishAll(s, points, order).value.0;
            SameConfiguration(s, t) && Inv(t) && t.sequence == s.sequence + |points|
  {
    PublishAllInv(s, points, order);
    if points != [] {
      var n := |points| - 1;
      PublishAllKeeps(s, points[..n], order);
      PublishWrites(PublishAll(s, points[..n], order).value.0, points[n], order);
    }
  }

  lemma SameRoutesCarryTheSame(s: State, t: State, p: Point, u: Update)
    requires SameConfiguration(s, t)
    ensures CarriesSome(s, p, u) <==> CarriesSome(t, p, u)
  {
    if r :| r in s.routes && Carries(s, p, r, u) {
      assert Carries(t, p, r, u);
    }
    if r :| r in t.routes && Carries(t, p, r, u) {
      assert Carries(s, p, r, u);
    }
  }

  lemma SameRoutesReachTheSame(s: State, t: State, p: Point, e: Endpoint)
    requires SameConfiguration(s, t)
    ensures Reaches(s, p, e) <==> Reaches(t, p, e)
  {
    if u :| CarriesSome(s, p, u) && GoesTo(u, e) {
      SameRoutesCarryTheSame(s, t, p, u);
    }
    if u :| CarriesSome(t, p, u) && GoesTo(u, e) {
      SameRoutesCarryTheSame(s, t, p, u);
    }
  }

  lemma {:induction false} PublishAllSends(s: State, points: seq<Point>, order: Order, u: Update)
    requires Inv(s) && Enumerates(order, s.routes) && PublishAll(s, points, order).Success?
    ensures u in PublishAll(s, points, order).value.1 <==> CarriesOneOf(s, points, u)
  {
    if points != [] {
      var n := |points| - 1;
      LastPublish(s, points, order);
      PublishAllSends(s, points[..n], order, u);
      var before := PublishAll(s, points[..n], order).value.0;
      PublishSends(before, points[n], order, u);
      SameRoutesCarryTheSame(s, before, points[n], u);
      OneMoreCarried(s, points, u);
    }
  }

  lemma OneMoreCarried(s: State, points: seq<Point>, u: Update)
    requires points != []
    ensures var n := |points| - 1;
            CarriesOneOf(s, points, u) <==> CarriesOneOf(s, points[..n], u) || CarriesSome(s, points[n], u)
  {
    var n := |points| - 1;
    if i :| 0 <= i < n && CarriesSome(s, points[..n][i], u) {
      assert CarriesSome(s, points[i], u);
    }
    if i :| 0 <= i < |points| && CarriesSome(s, points[i], u) && i != n {
      assert CarriesSome(s, points[..n][i], u);
    }
  }

  /** A batch sends what its points would. */
  lemma BatchSends(s: State, points: seq<Point>, order: Order, u: Update)
    requires Inv(s) && Enumerates(order, s.routes) && BatchPublish(s, points, order).Success?
    ensures u in BatchPublish(s, points, order).value.1 <==> CarriesOneOf(s, points, u)
  {
    BatchIsSequential(s, points, order);
    PublishAllSends(s, points, order, u);
  }

  /** The entry of the source `at` is that of the last of the points there, numbered by its place, and
      what it was if there is none. */
  ghost predicate LastRecorded(s: State, points: seq<Point>, t: State, at: Endpoint) {
    && (forall i :: 0 <= i < |points| && LastAt(points, i, at) ==>
          at in t.latestBySrc && Records(points[i], s.sequence + i + 1, t.latestBySrc[at]))
    && ((forall i :: 0 <= i < |points| ==> !IsAt(points[i], at)) ==> SameAt(s.latestBySrc, t.latestBySrc, at))
  }

  predicate IsAt(p: Point, at: Endpoint) {
    p.connId == at.connId && p.tag == at.tag
  }

  predicate LastAt(points: seq<Point>, i: nat, at: Endpoint) {
    i < |points| && IsAt(points[i], at) && forall j :: i < j < |points| ==> !IsAt(points[j], at)
  }

  lemma {:induction false} PublishAllRecords(s: State, points: seq<Point>, order: Order, at: Endpoint)
    requires Inv(s) && Enumerates(order, s.routes) && PublishAll(s, points, order).Success?
    ensures LastRecorded(s, points, PublishAll(s, points, order).value.0, at)
  {
    if points != [] {
      var n := |points| - 1;
      LastPublish(s, points, order);
      PublishAllRecords(s, points[..n], order, at);
      PublishAllKeeps(s, points[..n], order);
      var before, t := PublishAll(s, points[..n], order).value.0, PublishAll(s, points, order).value.0;
      PublishWrites(before, points[n], order);
      OneMoreRecorded(s, points, before, t, at);
    }
  }

  lemma OneMoreRecorded(s: State, points: seq<Point>, before: State, t: State, at: Endpoint)
    requires points != [] && before.sequence == s.sequence + |points| - 1
    requires LastRecorded(s, points[..|points| - 1], before, at) && RecordedIn(points[|points| - 1], before, t)
    ensures LastRecorded(s, points, t, at)
  {
    var n := |points| - 1;
    if IsAt(points[n], at) {
      forall i | 0 <= i < n ensures !LastAt(points, i, at) {
        assert IsAt(points[n], at);
      }
      assert at == Endpoint(points[n].connId, points[n].tag);
    } else {
      assert SameAt(before.latestBySrc, t.latestBySrc, at);
      NoneRecorded(s, points, before, t, at);
    }
  }

  lemma NoneRecorded(s: State, points: seq<Point>, before: State, t: State, at: Endpoint)
    requires points != [] && LastRecorded(s, points[..|points| - 1], before, at)
    requires SameAt(before.latestBySrc, t.latestBySrc, at) && !IsAt(points[|points| - 1], at)
    ensures LastRecorded(s, points, t, at)
  {
    var fewer := points[..|points| - 1];
    forall i: nat | LastAt(points, i, at) ensures LastAt(fewer, i, at) && fewer[i] == points[i] {
    }
    if forall i :: 0 <= i < |points| ==> !IsAt(points[i], at) {
      assert forall i :: 0 <= i < |fewer| ==> !IsAt(fewer[i], at);
    }
  }

  /** The entry of the destination `e` is the update of the last of the points that reach it, and what it
      was if there is none. */
  ghost predicate LastDelivered(s: State, points: seq<Point>, t: State, e: Endpoint) {
    && (forall i, u ::
          0 <= i < |points| && LastReaching(s, points, i, e) && CarriesSome(s, points[i], u) && GoesTo(u, e) ==>
            Holds(t.latestByDst, u))
    && ((forall i :: 0 <= i < |points| ==> !Reaches(s, points[i], e)) ==> SameAt(s.latestByDst, t.latestByDst, e))
  }

  ghost predicate LastReaching(s: State, points: seq<Point>, i: nat, e: Endpoint) {
    i < |points| && Reaches(s, points[i], e) && forall j :: i < j < |points| ==> !Reaches(s, points[j], e)
  }

  lemma {:induction false} PublishAllDelivers(s: State, points: seq<Point>, order: Order, e: Endpoint)
    requires Inv(s) && Enumerates(order, s.routes) && PublishAll(s, points, order).Success?
    ensures LastDelivered(s, points, PublishAll(s, points, order).value.0, e)
  {
    if points != [] {
      var n := |points| - 1;
      LastPublish(s, points, order);
      PublishAllDelivers(s, points[..n], order, e);
      var before, t := PublishAll(s, points[..n], order).value.0, PublishAll(s, points, order).value.0;
      PublishWrites(before, points[n], order);
      forall u | CarriesSome(s, points[n], u) ensures Holds(t.latestByDst, u) {
        SameRoutesCarryTheSame(s, before, points[n], u);
      }
      SameRoutesReachTheSame(s, before, points[n], e);
      OneMoreDelivered(s, points, before, t, e);
    }
  }

  lemma OneMoreDelivered(s: State, points: seq<Point>, before: State, t: State, e: Endpoint)
    requires points != [] && LastDelivered(s, points[..|points| - 1], before, e)
    requires forall u :: CarriesSome(s, points[|points| - 1], u) ==> Holds(t.latestByDst, u)
    requires !Reaches(s, points[|points| - 1], e) ==> SameAt(before.latestByDst, t.latestByDst, e)
    ensures LastDelivered(s, points, t, e)
  {
    var n := |points| - 1;
    if !Reaches(s, points[n], e) {
      forall i, u | 0 <= i < |points| && LastReaching(s, points, i, e) && CarriesSome(s, points[i], u) && GoesTo(u, e)
        ensures Holds(t.latestByDst, u)
      {
        assert LastReaching(s, points[..n], i, e) && CarriesSome(s, points[..n][i], u);
      }
      if forall i :: 0 <= i < |points| ==> !Reaches(s, points[i], e) {
        assert forall i :: 0 <= i < n ==> !Reaches(s, points[..n][i], e);
      }
    }
  }

  /** After a batch, every source has the last of its points there and every destination the update of
      the last point that reaches it; nothing else has changed. */
  lemma BatchWrites(s: State, points: seq<Point>, order: Order, at: Endpoint)
    requires Inv(s) && Enumerates(order, s.routes) && BatchPublish(s, points, order).Success?
    ensures var t := BatchPublish(s, points, order).value.0;
            && SameConfiguration(s, t) && t.sequence == s.sequence + |points|
            && LastRecorded(s, points, t, at) && LastDelivered(s, points, t, at)
  {
    BatchIsSequential(s, points, order);
    PublishAllKeeps(s, points, order);
    PublishAllRecords(s, points, order, at);
    PublishAllDelivers(s, points, order, at);
  }
}
