/**
 The life of a gateway (src/DataCenter/DataCenterGrpcService.cc): operations on the core, each of
 which that changes the configuration is followed by an attempt to save it, and restarts from what
 was saved last. A save can fail, because the store refuses the state or for any other reason; the
 core keeps the change, and the state stays pending until a save succeeds. The load at a restart
 can fail as well, which leaves an empty core.

 It also holds the runs that show where saving or restarting falls short.
 */
module DataCenterRestart {
  import opened Wrappers
  import opened Bytes
  import opened DataCenterModel
  import opened DataCenterInvariant
  import opened DataCenterRestore

  /** `pending` is true while the last attempt to save has failed. `current` is history: the file holds the
      configuration of the core. */
  datatype Gateway = Gateway(core: State, file: Saved, pending: bool, current: bool)

  datatype Act = Operate(op: Op) | Restart(loaded: bool)

  /** What is loaded when nothing has been saved yet. */
  const Blank := Saved(SCHEMA_VERSION, 0, [], [], [])

  const Start := Gateway(Empty, Blank, false, true)

  // ---------- operations and saves ----------

  /** The operation changes what is saved, if it succeeds. */
  predicate Configures(s: State, op: Op) {
    match op
    case OpGetOrCreate(key) => GetOrCreateConnection(s, key).Success?
    case OpRename(oldKey, newKey) => RenameConnection(s, oldKey, newKey).Success?
    case OpUpsertConnection(conn) => UpsertConnection(s, conn).Success?
    case OpDelete(key) => DeleteConnection(s, key).Success?
    case OpUpsertConnTags(id, tags, replace) => UpsertConnTags(s, id, tags, replace).Success?
    case OpUpsertRoutes(routes, replace) => UpsertRoutes(s, routes, replace).Some?
    case OpDeleteRoutes(routes) => DeleteRoutes(s, routes).Some?
    case _ => false
  }

  /** A known connection is not saved again unless a save is pending. */
  predicate SkipsSave(g: Gateway, op: Op) {
    op.OpGetOrCreate? && op.key in g.core.idsByKey && !g.pending
  }

  /** `file` is what the store makes of a dump of the core, and valid. */
  ghost predicate SavedAs(s: State, file: Saved) {
    exists dump :: DumpOf(s, dump) && file == NormalizeState(dump) && ValidState(file)
  }

  /** A save; a failed one may have taken effect or not. */
  ghost predicate Saves(g: Gateway, core: State, after: Gateway) {
    && after.core == core
    && after.current == !after.pending
    && (SavedAs(core, after.file) || (after.pending && after.file == g.file))
  }

  ghost predicate Follows(g: Gateway, a: Act, after: Gateway) {
    match a
    case Operate(op) =>
      Enabled(g.core, op) &&
        if Configures(g.core, op) && !SkipsSave(g, op) then Saves(g, Step(g.core, op), after)
        else after == g.(core := Step(g.core, op))
    case Restart(loaded) => after == Gateway(if loaded then Restore(g.file) else Empty, g.file, false, loaded)
  }

  /** Values are never written. Asking for a known connection writes only what a failed save has left
      pending, and every other successful request that configures something is saved or left pending. */
  lemma WhatIsWritten(g: Gateway, op: Op, after: Gateway)
    requires Inv(g.core) && Follows(g, Operate(op), after)
    ensures op.OpPublish? || op.OpBatchPublish? || op.OpStoreAccepted? ==> after == g.(core := after.core)
    ensures op.OpGetOrCreate? && op.key in g.core.idsByKey ==>
              if g.pending then after.pending || SavedAs(g.core, after.file) else after == g
    ensures after.core != g.core && !op.OpPublish? && !op.OpBatchPublish? && !op.OpStoreAccepted? ==>
              after.pending || SavedAs(after.core, after.file)
  {
    if op.OpGetOrCreate? && op.key in g.core.idsByKey {
      assert Step(g.core, op) == g.core;
    }
  }

  ghost predicate Life(gs: seq<Gateway>, acts: seq<Act>) {
    && |gs| == |acts| + 1 && gs[0] == Start
    && forall i :: 0 <= i < |acts| ==> Follows(gs[i], acts[i], gs[i + 1])
  }

  // ---------- what is kept ----------

  /** What every state that was saved has. */
  ghost predicate Sound(s: State) {
    Inv(s) && Fresh(s) && TagsAdmit(s)
  }

  /** What is kept over a restart: everything but the caches, and the next id while there is one. */
  ghost predicate SameConfig(s: State, r: State) {
    && r == s.(latestByDst := map[], latestBySrc := map[], sequence := 0, nextId := r.nextId)
    && (r.nextId == s.nextId <==> s.nextId != 0 || MAX_ID in s.connections)
  }

  /** The core and what a restart would make of the file are sound, and while the file is current a restart
      would keep the configuration. */
  ghost predicate Kept(g: Gateway) {
    && Inv(g.core) && Fresh(g.core) && Sound(Restore(g.file))
    && (g.current ==> SameConfig(g.core, Restore(g.file)))
  }

  lemma RestartKeeps(s: State, saved: Saved)
    requires Sound(s) && DumpOf(s, saved)
    ensures ValidState(NormalizeState(saved))
    ensures SameConfig(s, Restore(NormalizeState(saved))) && Sound(Restore(NormalizeState(saved)))
  {
    DumpValidIffTagsAdmit(s, saved);
    RestoreOfDump(s, saved);
    DumpStaysFresh(s, saved);
  }

  lemma DumpStaysFresh(s: State, saved: Saved)
    requires Inv(s) && Fresh(s) && DumpOf(s, saved)
    ensures Inv(Restore(NormalizeState(saved))) && Fresh(Restore(NormalizeState(saved)))
  {
    RestoreInv(NormalizeState(saved));
    if saved.nextConnId != 0 {
      forall c | c in saved.conns ensures c.connId != MAX_ID {
        assert c.connId in s.connections;
      }
    }
  }

  /** What was saved restarts as it was: the store accepts nothing else. */
  lemma SavedRestarts(s: State, file: Saved)
    requires Inv(s) && Fresh(s) && SavedAs(s, file)
    ensures SameConfig(s, Restore(file)) && Sound(Restore(file))
  {
    var dump :| DumpOf(s, dump) && file == NormalizeState(dump) && ValidState(file);
    DumpValidIffTagsAdmit(s, dump);
    RestartKeeps(s, dump);
  }

  lemma BlankIsEmpty()
    ensures Restore(Blank) == Empty && Sound(Empty)
  {
    assert Denoted(Empty, []) == {};
  }

  /** Operations that are not saved leave the configuration alone. */
  lemma UnsavedKeepsConfig(g: Gateway, op: Op)
    requires Inv(g.core) && !(Configures(g.core, op) && !SkipsSave(g, op))
    ensures var s, t := g.core, Step(g.core, op);
            t == s.(latestByDst := t.latestByDst, latestBySrc := t.latestBySrc, sequence := t.sequence)
  {
    match op
    case OpGetOrCreate(key) =>
      if key in g.core.idsByKey { assert g.core.idsByKey[key] in g.core.connections; }
    case _ =>
  }

  lemma FollowsKept(g: Gateway, a: Act, after: Gateway)
    requires Kept(g) && Follows(g, a, after)
    ensures Kept(after)
  {
    match a
    case Operate(op) =>
      StepInv(g.core, op);
      StepFresh(g.core, op);
      if Configures(g.core, op) && !SkipsSave(g, op) {
        if SavedAs(after.core, after.file) {
          SavedRestarts(after.core, after.file);
        }
      } else {
        UnsavedKeepsConfig(g, op);
      }
    case Restart(loaded) =>
      BlankIsEmpty();
      RestartIsStable(g.file);
  }

  /** What start-up takes from the registry; everything else that it does not load is empty. */
  lemma RestoredRegistry(file: Saved)
    ensures var r := Restore(file);
            && r.latestByDst == map[] && r.latestBySrc == map[] && r.sequence == 0
            && r.connections == (if ConnsAccepted(file.conns) then ById(file.conns) else map[])
            && r.nextId == if ConnsAccepted(file.conns) then NextId(file.nextConnId, file.conns) else 1
  {
  }

  lemma NoNextIdMeansLastUsed(next: Id, conns: seq<Conn>)
    requires ConnsAccepted(conns) && NextId(next, conns) == 0
    ensures MAX_ID in ById(conns)
  {
    ByIdCases(conns);
    var c :| c in conns && c.connId == MAX_ID;
  }

  /** A core that was just restarted has the configuration that is on file. */
  lemma RestartIsStable(file: Saved)
    ensures SameConfig(Restore(file), Restore(file))
  {
    RestoredRegistry(file);
    if ConnsAccepted(file.conns) && NextId(file.nextConnId, file.conns) == 0 {
      NoNextIdMeansLastUsed(file.nextConnId, file.conns);
    }
  }

  lemma StartKept(g: Gateway)
    requires g == Start
    ensures Kept(g)
  {
    BlankIsEmpty();
  }

  lemma {:induction false} LifeKept(gs: seq<Gateway>, acts: seq<Act>, i: nat)
    requires Life(gs, acts) && i < |gs|
    ensures Kept(gs[i])
  {
    if i == 0 {
      StartKept(gs[0]);
    } else {
      LifeKept(gs, acts, i - 1);
      assert Follows(gs[i - 1], acts[i - 1], gs[i - 1 + 1]);
      FollowsKept(gs[i - 1], acts[i - 1], gs[i]);
    }
  }

  /** At every moment of every life, a restart from a current file keeps ids, keys, tables and routes, and the
      next id exactly unless the ids are exhausted and the last one is free. */
  lemma CurrentFileRestarts(gs: seq<Gateway>, acts: seq<Act>, i: nat)
    requires Life(gs, acts) && i < |gs| && gs[i].current
    ensures SameConfig(gs[i].core, Restore(gs[i].file))
  {
    LifeKept(gs, acts, i);
  }

  // ---------- every state can be saved ----------

  /** No tag table is created by appending. */
  ghost predicate Orderly(gs: seq<Gateway>, acts: seq<Act>)
    requires |gs| == |acts| + 1
  {
    forall i :: 0 <= i < |acts| && acts[i].Operate? ==> !CreatesByAppend(gs[i].core, acts[i].op)
  }

  lemma {:induction false} OrderlySound(gs: seq<Gateway>, acts: seq<Act>, i: nat)
    requires Life(gs, acts) && Orderly(gs, acts) && i < |gs|
    ensures Sound(gs[i].core)
  {
    LifeKept(gs, acts, i);
    if i > 0 {
      OrderlySound(gs, acts, i - 1);
      LifeKept(gs, acts, i - 1);
      assert Follows(gs[i - 1], acts[i - 1], gs[i - 1 + 1]);
      match acts[i - 1]
      case Operate(op) => StepAdmits(gs[i - 1].core, op);
      case Restart(_) =>
    }
  }

  /** In an orderly life the store never refuses a state: every dump of it is valid and restarts as it was. */
  lemma EverySaveRestarts(gs: seq<Gateway>, acts: seq<Act>, i: nat, dump: Saved)
    requires Life(gs, acts) && Orderly(gs, acts) && i < |gs| && DumpOf(gs[i].core, dump)
    ensures ValidState(NormalizeState(dump)) && SameConfig(gs[i].core, Restore(NormalizeState(dump)))
  {
    OrderlySound(gs, acts, i);
    RestartKeeps(gs[i].core, dump);
  }

  // ---------- ids over restarts ----------

  /** All ids have been given out and the last one has been given up. */
  predicate Exhausted(s: State) {
    s.nextId == 0 && MAX_ID !in s.connections
  }

  /** The core `r` after a restart gives out no id that `s` has given out, and brings back no connection that
      `s` has deleted. */
  ghost predicate Survives(s: State, r: State) {
    && (r.nextId == 0 || (s.nextId != 0 && s.nextId <= r.nextId))
    && forall id: Id :: id in r.connections && Spent(s, id) ==> id in s.connections
  }

  /** That is exactly when spent ids stay spent. */
  lemma SurvivesIff(s: State, r: State)
    ensures KeepsSpent(s, r) <==> Survives(s, r)
  {
    if KeepsSpent(s, r) && r.nextId != 0 {
      var last: Id := if s.nextId == 0 then MAX_ID else s.nextId - 1;
      assert Spent(s, last);
    }
  }

  /** A restart from a current file keeps spent ids spent exactly unless the ids are exhausted. */
  lemma RestartKeepsSpent(g: Gateway)
    requires Kept(g) && g.current
    ensures KeepsSpent(g.core, Restore(g.file)) <==> !Exhausted(g.core)
  {
    var s, r := g.core, Restore(g.file);
    if Exhausted(s) {
      assert r.nextId != 0 && Spent(s, MAX_ID) && !Spent(r, MAX_ID);
    }
  }

  lemma FollowsKeepsSpent(gs: seq<Gateway>, acts: seq<Act>, n: nat)
    requires Life(gs, acts) && n < |acts|
    requires acts[n].Restart? ==> Survives(gs[n].core, gs[n + 1].core)
    ensures KeepsSpent(gs[n].core, gs[n + 1].core)
  {
    LifeKept(gs, acts, n);
    assert Follows(gs[n], acts[n], gs[n + 1]);
    match acts[n]
    case Operate(op) => StepFresh(gs[n].core, op);
    case Restart(_) => SurvivesIff(gs[n].core, gs[n + 1].core);
  }

  function Cores(gs: seq<Gateway>): (r: seq<State>)
    ensures |r| == |gs| && forall i :: 0 <= i < |gs| ==> r[i] == gs[i].core
  {
    seq(|gs|, i requires 0 <= i < |gs| => gs[i].core)
  }

  /** Over any number of restarts that the ids survive, whatever was saved when, an id that was used and given
      up is never given out again. */
  lemma IdsAreNeverReusedOverRestarts(gs: seq<Gateway>, acts: seq<Act>, i: nat, j: nat, k: nat, id: Id)
    requires Life(gs, acts) && i <= j <= k < |gs|
    requires forall n :: 0 <= n < |acts| && acts[n].Restart? ==> Survives(gs[n].core, gs[n + 1].core)
    requires id in gs[i].core.connections && id !in gs[j].core.connections
    ensures id !in gs[k].core.connections
  {
    var states := Cores(gs);
    forall n: nat | n + 1 < |states| ensures KeepsSpent(states[n], states[n + 1]) {
      FollowsKeepsSpent(gs, acts, n);
    }
    LifeKept(gs, acts, i);
    SpentForever(states, i, j, id);
    GoneForever(states, j, k, id);
  }

  // ---------- the exceptions are real ----------

  /** The empty core after `n` ids were given out and given up. */
  function Used(n: nat): State
    requires n <= MAX_ID
  {
    Empty.(nextId := if n == MAX_ID then 0 else n + 1)
  }

  lemma UsesOneMore(key: Key, n: nat)
    requires ValidKey(key) && n < MAX_ID
    ensures Step(Step(Used(n), OpGetOrCreate(key)), OpDelete(key)) == Used(n + 1)
  {
    var s := Used(n);
    assert GetOrCreateConnection(s, key) == Success((Created(s, key, n + 1), Conn(n + 1, key)));
    var t := Created(s, key, n + 1);
    assert Deleted(t, key, n + 1) == Used(n + 1);
  }

  lemma RunMore(states: seq<State>, ops: seq<Op>, op: Op)
    requires Run(states, ops) && Enabled(states[|ops|], op)
    ensures Run(states + [Step(states[|ops|], op)], ops + [op])
  {
    var more, all := states + [Step(states[|ops|], op)], ops + [op];
    forall i | 0 <= i < |all| ensures Enabled(more[i], all[i]) && more[i + 1] == Step(more[i], all[i]) {
      if i < |ops| {
        assert more[i + 1] == states[i + 1] == Step(states[i], ops[i]);
      }
    }
  }

  ghost predicate UsesIds(states: seq<State>, ops: seq<Op>, n: nat)
    requires n <= MAX_ID
  {
    && Run(states, ops) && states[0] == Empty && states[|ops|] == Used(n)
    && |ops| == 2 * n && (n > 0 ==> 1 in states[1].connections)
  }

  lemma UsesNext(key: Key, n: nat, states: seq<State>, ops: seq<Op>)
    requires ValidKey(key) && n < MAX_ID && UsesIds(states, ops, n)
    ensures var one := Step(Used(n), OpGetOrCreate(key));
            UsesIds(states + [one] + [Used(n + 1)], ops + [OpGetOrCreate(key)] + [OpDelete(key)], n + 1)
  {
    var one := Step(Used(n), OpGetOrCreate(key));
    RunMore(states, ops, OpGetOrCreate(key));
    RunMore(states + [one], ops + [OpGetOrCreate(key)], OpDelete(key));
    UsesOneMore(key, n);
    if n == 0 {
      assert states + [one] + [Used(1)] == [Empty, one, Used(1)] && one.connections == map[1 := Conn(1, key)];
    }
  }

  /** Creating and deleting one connection over and over uses the ids up. */
  lemma {:induction false} UsesUp(key: Key, n: nat) returns (states: seq<State>, ops: seq<Op>)
    requires ValidKey(key) && n <= MAX_ID
    ensures UsesIds(states, ops, n)
  {
    states, ops := [Empty], [];
    if n > 0 {
      states, ops := UsesUp(key, n - 1);
      UsesNext(key, n - 1, states, ops);
      states := states + [Step(Used(n - 1), OpGetOrCreate(key))] + [Used(n)];
      ops := ops + [OpGetOrCreate(key)] + [OpDelete(key)];
    }
  }

  /** Some run uses up all ids and gives up the last one; restarting then gives out the first again. */
  lemma RestartGivesOutAgain(key: Key) returns (states: seq<State>, ops: seq<Op>, saved: Saved)
    requires ValidKey(key)
    ensures Run(states, ops) && states[0] == Empty && |ops| > 0 && 1 in states[1].connections
    ensures Exhausted(states[|ops|]) && DumpOf(states[|ops|], saved)
    ensures Restore(NormalizeState(saved)).nextId == 1 &&
              1 in Step(Restore(NormalizeState(saved)), OpGetOrCreate(key)).connections
  {
    states, ops := UsesUp(key, MAX_ID);
    saved := Saved(0, 0, [], [], []);
    var r := Restore(NormalizeState(saved));
    assert Denoted(Empty, []) == {};
    assert r == Empty;
  }

  /** A connection that could not be saved is forgotten by a restart, and its id is given out again. */
  lemma UnsavedIdComesBack(a: Key, b: Key) returns (gs: seq<Gateway>, acts: seq<Act>)
    requires ValidKey(a) && ValidKey(b) && a != b
    ensures Life(gs, acts) && |acts| == 3 && acts[1] == Restart(true) && !gs[1].current
    ensures gs[1].core.connections == map[1 := Conn(1, a)] && gs[3].core.connections == map[1 := Conn(1, b)]
    ensures !Survives(gs[1].core, gs[2].core)
  {
    BlankIsEmpty();
    var one, other := Step(Empty, OpGetOrCreate(a)), Step(Empty, OpGetOrCreate(b));
    assert one.connections == map[1 := Conn(1, a)] && one.nextId == 2;
    assert other.connections == map[1 := Conn(1, b)];
    gs := [Start, Gateway(one, Blank, true, false), Start, Gateway(other, Blank, true, false)];
    acts := [Operate(OpGetOrCreate(a)), Restart(true), Operate(OpGetOrCreate(b))];
    assert Saves(Start, one, gs[1]) && Saves(Start, other, gs[3]);
  }

  /** A table created by appending leaves a route that the store refuses from then on. */
  lemma AppendStrands(key: Key) returns (states: seq<State>, ops: seq<Op>)
    requires ValidKey(key)
    ensures Run(states, ops) && states[0] == Empty && |ops| == 3
    ensures TagsAdmit(states[2]) && CreatesByAppend(states[2], ops[2])
    ensures !TagsAdmit(states[3]) && forall saved :: DumpOf(states[3], saved) ==> !ValidState(NormalizeState(saved))
  {
    var e, ref := Stable(key, "a"), EndpointRef(0, key, "a");
    var one := Empty.(connections := map[1 := Conn(1, key)], idsByKey := map[key := 1], nextId := 2);
    assert Step(Empty, OpGetOrCreate(key)) == one;
    var two := one.(routes := {Route(e, e)});
    assert ResolveRoute(one, RouteRef(ref, ref)) == Success(Route(e, e));
    assert {} + Denoted(one, [RouteRef(ref, ref)]) == {Route(e, e)};
    assert Step(one, OpUpsertRoutes([RouteRef(ref, ref)], false)) == two;
    AppendCanStrand(key);
    var last := OpUpsertConnTags(1, ["b"], false);
    states := [Empty, one, two, Step(two, last)];
    ops := [OpGetOrCreate(key), OpUpsertRoutes([RouteRef(ref, ref)], false), last];
    RunInv(states, ops, 3);
    forall saved | DumpOf(states[3], saved) ensures !ValidState(NormalizeState(saved)) {
      DumpValidIffTagsAdmit(states[3], saved);
    }
  }
}
