/**
 Sequences that call sequences (src/ControlOrchestrator/ControlOrchestratorManager.cc): which calls
 run at the same time. A call runs once the recursion guard has admitted it and it has the execution
 lock of its sequence, which it holds until it ends; the caller waits meanwhile, holding its own.
 A caller may give up waiting, and a call that does not get its lock ends without having run. The
 lock that goes with a name is created once and never replaced.
 */
module SequenceCalls {
  import opened Wrappers
  import opened RequestPath

  /** A call of sequence `name` under request id `id`; `caller` is the call that waits for it. */
  datatype Call = Call(name: string, id: string, caller: Option<nat>)

  /** All calls that ever got their lock, and those that still hold it. */
  datatype Calls = Calls(all: seq<Call>, running: set<nat>)

  const NoCalls := Calls([], {})

  datatype Action = Start(call: Call) | End(i: nat)

  predicate LockFree(s: Calls, name: string) {
    forall i :: i in s.running && i < |s.all| ==> s.all[i].name != name
  }

  ghost predicate Enabled(s: Calls, a: Action) {
    match a
    case Start(call) => Admitted(call.id, call.name) && LockFree(s, call.name) && CalledFrom(s, call)
    case End(i) => i in s.running
  }

  /** Only a running call makes calls, with its own path extended by its name. */
  ghost predicate CalledFrom(s: Calls, call: Call) {
    call.caller.Some? ==>
      var i := call.caller.value;
      i in s.running && i < |s.all| && CalledBy(call.id, s.all[i].id, s.all[i].name)
  }

  function Next(s: Calls, a: Action): Calls {
    match a
    case Start(call) => Calls(s.all + [call], s.running + {|s.all|})
    case End(i) => s.(running := s.running - {i})
  }

  // ---------- what is kept ----------

  ghost predicate GoodCall(s: Calls, i: nat)
    requires i < |s.all|
  {
    var call := s.all[i];
    && Admitted(call.id, call.name)
    && (call.caller.Some? ==>
          call.caller.value < i && CalledBy(call.id, s.all[call.caller.value].id, s.all[call.caller.value].name))
  }

  /** The names of running calls are different: each holds the lock of its sequence. */
  ghost predicate Inv(s: Calls) {
    && (forall i :: i in s.running ==> i < |s.all|)
    && (forall i, j :: i in s.running && j in s.running && i != j ==> s.all[i].name != s.all[j].name)
    && (forall i: nat :: i < |s.all| ==> GoodCall(s, i))
  }

  lemma NextInv(s: Calls, a: Action)
    requires Inv(s) && Enabled(s, a)
    ensures Inv(Next(s, a))
  {
    var t := Next(s, a);
    forall i: nat | i < |t.all| ensures GoodCall(t, i) {
      if i < |s.all| {
        assert GoodCall(s, i);
      }
    }
  }

  ghost predicate Run(states: seq<Calls>, actions: seq<Action>) {
    && |states| == |actions| + 1 && states[0] == NoCalls
    && forall i :: 0 <= i < |actions| ==> Enabled(states[i], actions[i]) && states[i + 1] == Next(states[i], actions[i])
  }

  lemma {:induction false} RunInv(states: seq<Calls>, actions: seq<Action>, i: nat)
    requires Run(states, actions) && i < |states|
    ensures Inv(states[i])
  {
    if i > 0 {
      RunInv(states, actions, i - 1);
      NextInv(states[i - 1], actions[i - 1]);
    }
  }

  /** A call holds its lock from its start until it ends. */
  lemma {:induction false} HoldsUntilItEnds(states: seq<Calls>, actions: seq<Action>, j: nat, i: nat)
    requires Run(states, actions) && j < |states|
    ensures i in states[j].running <==> i < |states[j].all| && forall k :: 0 <= k < j ==> actions[k] != End(i)
  {
    RunInv(states, actions, j);
    if j > 0 {
      HoldsUntilItEnds(states, actions, j - 1, i);
      RunInv(states, actions, j - 1);
      var s, a := states[j - 1], actions[j - 1];
      assert Enabled(s, a) && states[j] == Next(s, a);
      if i == |s.all| {
        NeverEndedBefore(states, actions, j - 1, i);
      }
    }
  }

  /** No call ends before it started. */
  lemma {:induction false} NeverEndedBefore(states: seq<Calls>, actions: seq<Action>, j: nat, i: nat)
    requires Run(states, actions) && j < |states| && i >= |states[j].all|
    ensures forall k :: 0 <= k < j ==> actions[k] != End(i)
  {
    if j > 0 {
      assert Enabled(states[j - 1], actions[j - 1]) && states[j] == Next(states[j - 1], actions[j - 1]);
      RunInv(states, actions, j - 1);
      NeverEndedBefore(states, actions, j - 1, i);
    }
  }

  // ---------- calls that wait for each other ----------

  /** Running calls of which each waits for the next. */
  ghost predicate Waiting(s: Calls, stack: seq<nat>) {
    && (forall k :: 0 <= k < |stack| ==> stack[k] in s.running && stack[k] < |s.all|)
    && (forall k :: 0 < k < |stack| ==> s.all[stack[k]].caller == Some(stack[k - 1]))
  }

  function Names(s: Calls, stack: seq<nat>): (r: seq<string>)
    requires forall k :: 0 <= k < |stack| ==> stack[k] < |s.all|
    ensures |r| == |stack| && forall k :: 0 <= k < |stack| ==> r[k] == s.all[stack[k]].name
  {
    seq(|stack|, k requires 0 <= k < |stack| => s.all[stack[k]].name)
  }

  function Ids(s: Calls, stack: seq<nat>): (r: seq<string>)
    requires forall k :: 0 <= k < |stack| ==> stack[k] < |s.all|
    ensures |r| == |stack| && forall k :: 0 <= k < |stack| ==> r[k] == s.all[stack[k]].id
  {
    seq(|stack|, k requires 0 <= k < |stack| => s.all[stack[k]].id)
  }

  lemma {:induction false} StackAscends(s: Calls, stack: seq<nat>, i: nat, j: nat)
    requires Inv(s) && Waiting(s, stack) && i < j < |stack|
    ensures stack[i] < stack[j]
  {
    assert GoodCall(s, stack[j]);
    if i < j - 1 {
      StackAscends(s, stack, i, j - 1);
    }
  }

  lemma StackIsChain(s: Calls, stack: seq<nat>)
    requires Inv(s) && Waiting(s, stack)
    ensures Chain(Names(s, stack), Ids(s, stack))
  {
    forall k | 0 <= k < |stack| ensures GoodCall(s, stack[k]) {
    }
  }

  /** At any moment of any run, calls that wait for each other are of different sequences, whatever those are
      called; and if no name contains the marker, there are at most 32 of them. */
  lemma WaitingCallsDiffer(states: seq<Calls>, actions: seq<Action>, i: nat, stack: seq<nat>)
    requires Run(states, actions) && i < |states| && Waiting(states[i], stack)
    ensures var names := Names(states[i], stack);
            && (forall j, k :: 0 <= j < k < |names| ==> names[j] != names[k])
            && (MarkerFree(names) ==> |names| <= MAX_PATH)
  {
    var s, names := states[i], Names(states[i], stack);
    RunInv(states, actions, i);
    forall j, k | 0 <= j < k < |names| ensures names[j] != names[k] {
      StackAscends(s, stack, j, k);
    }
    if MarkerFree(names) {
      StackIsChain(s, stack);
      ChainsAreShortAndDistinct(names, Ids(s, stack));
    }
  }

  /** The guard admits a sequence called from itself if its name contains the marker, but the sequence does not
      run while its caller does. */
  lemma SelfCallWaits(s: Calls, i: nat, id: string)
    requires Inv(s) && i in s.running && CalledBy(id, s.all[i].id, s.all[i].name)
    requires HasMarker(s.all[i].name) && |Split(s.all[i].name).path| < MAX_PATH
    ensures Admitted(id, s.all[i].name) && !Enabled(s, Start(Call(s.all[i].name, id, Some(i))))
  {
    MarkerCalleePath(id, s.all[i].id, s.all[i].name);
    SplitIsMarkerFree(s.all[i].name);
  }

  // ---------- marker names are not limited in depth ----------

  /** Names that contain the marker, each short of the limit, and all different. */
  ghost predicate MarkerNames(names: seq<string>) {
    && (forall k :: 0 <= k < |names| ==> HasMarker(names[k]) && |Split(names[k]).path| < MAX_PATH)
    && (forall j, k :: 0 <= j < k < |names| ==> names[j] != names[k])
  }

  /** The calls of `names`, each from the one before, under the ids `ids`. */
  function Nested(names: seq<string>, ids: seq<string>): (r: seq<Call>)
    requires |names| == |ids|
    ensures |r| == |names|
  {
    seq(|names|, k requires 0 <= k < |names| => Call(names[k], ids[k], if k == 0 then None else Some(k - 1)))
  }

  function Below(n: nat): (r: set<nat>)
    ensures forall k: nat :: k in r <==> k < n
  {
    if n == 0 then {} else Below(n - 1) + {n - 1}
  }

  /** Calls that were started one from the other and all still wait. */
  function Pile(names: seq<string>, ids: seq<string>): Calls
    requires |names| == |ids|
  {
    Calls(Nested(names, ids), Below(|names|))
  }

  /** The next call on such a pile. */
  function CallOn(n: nat, name: string, id: string): Call {
    Call(name, id, if n == 0 then None else Some(n - 1))
  }

  lemma NestedMore(names: seq<string>, ids: seq<string>, name: string, id: string)
    requires |names| == |ids|
    ensures Nested(names, ids) + [CallOn(|names|, name, id)] == Nested(names + [name], ids + [id])
  {
  }

  lemma NameIsFree(names: seq<string>, ids: seq<string>, name: string)
    requires |names| == |ids| && name !in names
    ensures LockFree(Pile(names, ids), name)
  {
    var s := Pile(names, ids);
    forall i | i in s.running && i < |s.all| ensures s.all[i].name != name {
      assert s.all[i].name == names[i];
    }
  }

  lemma StartsOnPile(names: seq<string>, ids: seq<string>, name: string, id: string)
    requires |names| == |ids| && Admitted(id, name) && name !in names
    requires names != [] ==> CalledBy(id, ids[|ids| - 1], names[|names| - 1])
    ensures Enabled(Pile(names, ids), Start(CallOn(|names|, name, id)))
    ensures Next(Pile(names, ids), Start(CallOn(|names|, name, id))) == Pile(names + [name], ids + [id])
  {
    var s, n := Pile(names, ids), |names|;
    NameIsFree(names, ids, name);
    NestedMore(names, ids, name, id);
    assert n > 0 ==> n - 1 in s.running && s.all[n - 1] == Nested(names, ids)[n - 1];
    assert s.running + {n} == Below(n + 1);
  }

  lemma RunMore(states: seq<Calls>, actions: seq<Action>, a: Action)
    requires Run(states, actions) && Enabled(states[|actions|], a)
    ensures Run(states + [Next(states[|actions|], a)], actions + [a])
  {
    var more, all := states + [Next(states[|actions|], a)], actions + [a];
    forall i | 0 <= i < |all| ensures Enabled(more[i], all[i]) && more[i + 1] == Next(more[i], all[i]) {
      if i < |actions| {
        assert more[i + 1] == states[i + 1] == Next(states[i], actions[i]);
      }
    }
  }

  /** The id under which the next of several such names is called. */
  lemma NextId(names: seq<string>, ids: seq<string>, name: string) returns (id: string)
    requires |names| == |ids| && MarkerNames(names + [name])
    ensures Admitted(id, name) && (names != [] ==> CalledBy(id, ids[|ids| - 1], names[|names| - 1]))
  {
    var all := names + [name];
    assert all[|names|] == name && HasMarker(name);
    id := "";
    if names != [] {
      var last := |names| - 1;
      assert all[last] == names[last];
      id := Made("", Split(ids[last]).path + [names[last]]);
      assert CalledBy(id, ids[last], names[last]);
      MarkerCalleePath(id, ids[last], names[last]);
      SplitIsMarkerFree(names[last]);
    }
  }

  /** Whatever such names there are, however many, some run has a call of each waiting for the next. */
  lemma {:induction false} MarkerNamesNest(names: seq<string>)
    returns (states: seq<Calls>, actions: seq<Action>, ids: seq<string>)
    requires MarkerNames(names)
    ensures |ids| == |names| && Run(states, actions) && states[|actions|] == Pile(names, ids)
  {
    if names == [] {
      assert Nested([], []) == [] && Below(0) == {};
      return [NoCalls], [], [];
    }
    var n := |names| - 1;
    var front, name := names[..n], names[n];
    assert front + [name] == names;
    states, actions, ids := MarkerNamesNest(front);
    var id := NextId(front, ids, name);
    StartsOnPile(front, ids, name, id);
    var a := Start(CallOn(n, name, id));
    RunMore(states, actions, a);
    states, actions, ids := states + [Pile(names, ids + [id])], actions + [a], ids + [id];
  }

  function Upto(n: nat): (r: seq<nat>)
    ensures |r| == n && forall k :: 0 <= k < n ==> r[k] == k
  {
    seq(n, k requires 0 <= k < n => k)
  }

  /** The marker behind `k` other characters. */
  function Tagged(k: nat): (name: string)
    ensures |name| == k + |MARKER|
  {
    seq(k, i requires 0 <= i < k => 'x') + MARKER
  }

  lemma TaggedIsMarkerName(k: nat)
    ensures HasMarker(Tagged(k)) && Split(Tagged(k)).path == []
  {
    var name := Tagged(k);
    assert name[k..k + |MARKER|] == MARKER;
    assert OccursAt(name, k);
    assert LastMarker(name, |name|) == Some(k);
    assert name[k + |MARKER|..] == "";
  }

  /** So there is no limit to how many calls wait for each other: some run has `n` of them, for any `n`. */
  lemma AnyDepthIsReached(n: nat) returns (states: seq<Calls>, actions: seq<Action>, stack: seq<nat>)
    ensures Run(states, actions) && |stack| == n && Waiting(states[|actions|], stack)
  {
    var names := seq(n, k requires 0 <= k < n => Tagged(k));
    forall k | 0 <= k < n ensures HasMarker(names[k]) && |Split(names[k]).path| < MAX_PATH {
      TaggedIsMarkerName(k);
    }
    forall j, k | 0 <= j < k < n ensures names[j] != names[k] {
      assert |names[j]| != |names[k]|;
    }
    var ids;
    states, actions, ids := MarkerNamesNest(names);
    stack := Upto(n);
  }
}
