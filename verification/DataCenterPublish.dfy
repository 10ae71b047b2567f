/**
 Publishing one by one and publishing a batch (src/DataCenter/DataCenterCorePublish.cc). A batch
 checks all of its points before it writes anything; the sequence of publishes checks and writes
 point by point. They agree on which lists succeed and on everything a success leaves behind.
 */
module DataCenterPublish {
  import opened Wrappers
  import opened DataCenterModel

  // ---------- the batch ----------

  predicate Deliverable(s: State, p: Point, order: Order)
    requires p.connId in s.connections
  {
    forall d :: d in Walk(order, SourceOf(s, p)) ==> d.key in s.idsByKey
  }

  function SourceOf(s: State, p: Point): Stable
    requires p.connId in s.connections
  {
    Stable(s.connections[p.connId].key, p.tag)
  }

  function SourceUpdateFor(p: Point, sequence: Sequence): SourceUpdate
    requires WellFormed(p)
  {
    SourceUpdate(p.connId, p.tag, PayloadOf(p), sequence)
  }

  function SourceUpdates(points: seq<Point>, sequence: Sequence): (r: seq<SourceUpdate>)
    requires |points| <= MAX_SEQUENCE - sequence
    requires forall p :: p in points ==> WellFormed(p)
    ensures |r| == |points|
  {
    seq(|points|, i requires 0 <= i < |points| => SourceUpdateFor(points[i], sequence + i + 1))
  }

  function AllUpdates(s: State, points: seq<Point>, order: Order): seq<Update>
    requires forall p :: p in points ==> WellFormed(p) && p.connId in s.connections
  {
    if points == [] then []
    else
      var n := |points| - 1;
      AllUpdates(s, points[..n], order) + UpdatesFor(s.idsByKey, points[n], Walk(order, SourceOf(s, points[n])))
  }

  /** Writes source updates into the cache by source, in order. */
  function OverlaySources(cache: map<Endpoint, SourceUpdate>, log: seq<SourceUpdate>): map<Endpoint, SourceUpdate> {
    if log == [] then cache
    else
      var last := log[|log| - 1];
      OverlaySources(cache, log[..|log| - 1])[Endpoint(last.connId, last.tag) := last]
  }

  predicate BatchAccepted(s: State, points: seq<Point>, order: Order) {
    && (forall p :: p in points ==> WellFormed(p) && p.connId in s.connections && Deliverable(s, p, order))
    && |points| <= MAX_SEQUENCE - s.sequence
  }

  function BatchError(s: State, points: seq<Point>, order: Order): Code
    requires !BatchAccepted(s, points, order)
  {
    if exists p :: p in points && !WellFormed(p) then InvalidArgument
    else if exists p :: p in points && (p.connId !in s.connections || !Deliverable(s, p, order)) then NotFound
    else ResourceExhausted
  }

  function BatchResult(s: State, points: seq<Point>, order: Order): (State, seq<Update>)
    requires BatchAccepted(s, points, order)
  {
    var updates := AllUpdates(s, points, order);
    (s.(sequence := s.sequence + |points|,
        latestBySrc := OverlaySources(s.latestBySrc, SourceUpdates(points, s.sequence)),
        latestByDst := Overlay(s.latestByDst, updates)),
     updates)
  }

  function BatchPublish(s: State, points: seq<Point>, order: Order): Result<(State, seq<Update>), Code> {
    if BatchAccepted(s, points, order) then Success(BatchResult(s, points, order))
    else Failure(BatchError(s, points, order))
  }

  // ---------- one by one ----------

  function PublishAll(s: State, points: seq<Point>, order: Order): Result<(State, seq<Update>), Code> {
    if points == [] then Success((s, []))
    else
      match PublishAll(s, points[..|points| - 1], order)
      case Failure(e) => Failure(e)
      case Success((before, updates)) =>
        match Publish(before, points[|points| - 1], order)
        case Failure(e) => Failure(e)
        case Success((after, more)) => Success((after, updates + more))
  }

  lemma {:induction false} OverlayConcat(cache: map<Endpoint, Update>, a: seq<Update>, b: seq<Update>)
    ensures Overlay(cache, a + b) == Overlay(Overlay(cache, a), b)
  {
    if b == [] {
      assert a + b == a;
    } else {
      var n := |b| - 1;
      OverlayConcat(cache, a, b[..n]);
      assert (a + b)[..|a| + n] == a + b[..n];
    }
  }

  lemma AcceptedPrefix(s: State, points: seq<Point>, order: Order)
    requires points != []
    ensures var n := |points| - 1; var p := points[n];
            BatchAccepted(s, points, order) <==>
              && BatchAccepted(s, points[..n], order)
              && WellFormed(p) && p.connId in s.connections && Deliverable(s, p, order) && s.sequence + n < MAX_SEQUENCE
  {
    var n := |points| - 1;
    assert points == points[..n] + [points[n]];
  }

  lemma BatchResultStep(s: State, points: seq<Point>, order: Order)
    requires points != [] && BatchAccepted(s, points, order)
    ensures BatchAccepted(s, points[..|points| - 1], order)
    ensures var n := |points| - 1;
            var before := BatchResult(s, points[..n], order);
            var last := Publish(before.0, points[n], order);
            && last.Success?
            && BatchResult(s, points, order) == (last.value.0, before.1 + last.value.1)
  {
    var n := |points| - 1;
    AcceptedPrefix(s, points, order);
    var before := BatchResult(s, points[..n], order);
    var more := UpdatesFor(s.idsByKey, points[n], Walk(order, SourceOf(s, points[n])));
    OverlayConcat(s.latestByDst, before.1, more);
    assert SourceUpdates(points, s.sequence)[..n] == SourceUpdates(points[..n], s.sequence);
  }

  /** A batch succeeds exactly when its points would one by one, with the same caches, sequence
      numbers and updates. */
  lemma {:induction false} BatchIsSequential(s: State, points: seq<Point>, order: Order)
    ensures BatchPublish(s, points, order).Success? <==> PublishAll(s, points, order).Success?
    ensures BatchPublish(s, points, order).Success? ==> BatchPublish(s, points, order) == PublishAll(s, points, order)
  {
    if points != [] {
      var n := |points| - 1;
      BatchIsSequential(s, points[..n], order);
      AcceptedPrefix(s, points, order);
      if BatchAccepted(s, points, order) {
        BatchResultStep(s, points, order);
      }
    }
  }
}
