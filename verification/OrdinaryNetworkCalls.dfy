/**
 Calls of the ordinary-network transaction one after the other (script/network/ordinary_network.py),
 with interfaces that come, go and are given other settings in between: what every possible run of a
 call keeps, when one can lose settings, and what a whole sequence of calls keeps.
 */
module OrdinaryNetworkCalls {
  import opened Wrappers
  import opened OrdinaryNetworkModel
  import opened OrdinaryNetworkRuns
  import opened OrdinaryNetwork

  // ---------- lists of commands ----------

  predicate RouteCommand(c: Command) {
    c.ReplaceRoute? || c.DeleteRoute? || c.AddRule? || c.DeleteRule?
  }

  lemma {:induction false} RouteCommandsKeep(w: World, cs: seq<Command>, o: Exit, after: World)
    requires Performs(w, cs, o, after) && forall c :: c in cs ==> RouteCommand(c)
    ensures after.dns == w.dns && after.file == w.file
    decreases |cs|
  {
    if cs != [] {
      assert cs[0] in cs;
      if Possible(w, cs[0]) && Performs(Run(w, cs[0]), cs[1..], o, after) {
        RouteCommandsKeep(Run(w, cs[0]), cs[1..], o, after);
      }
    }
  }

  /** Commands in two parts stop in the first or finish it. */
  lemma {:induction false} PerformsParts(w: World, a: seq<Command>, b: seq<Command>, o: Exit, after: World)
    requires Performs(w, a + b, o, after)
    ensures (o != Done && Performs(w, a, o, after)) ||
              (Performs(w, a, Done, RunAll(w, a)) && Performs(RunAll(w, a), b, o, after))
    decreases |a|
  {
    if a == [] {
      assert a + b == b;
    } else {
      assert (a + b)[0] == a[0] && (a + b)[1..] == a[1..] + b;
      if Possible(w, a[0]) && Performs(Run(w, a[0]), a[1..] + b, o, after) {
        PerformsParts(Run(w, a[0]), a[1..], b, o, after);
      }
    }
  }

  // ---------- restoring ----------

  /** The command sets a part of the settings in `backups`. */
  predicate RestoresPart(c: Command, backups: map<string, Dns>) {
    match c
    case SetServers(i, servers) => i in backups && servers == backups[i].servers
    case SetDomains(i, domains) => i in backups && domains == backups[i].domains
    case SetDefaultRoute(i, on) => i in backups && on == backups[i].defaultRoute
    case _ => false
  }

  /** Only DNS settings changed since `before`; nothing is lost, and what `backups` names is on record or as
      named there. */
  ghost predicate OnlyRestored(before: World, w: World, backups: map<string, Dns>, original: map<string, Dns>) {
    && Inv(w, original) && w == before.(dns := w.dns) && w.dns.Keys == before.dns.Keys && Pinned(w, backups)
    && forall i :: i in w.dns && i !in backups ==> w.dns[i] == before.dns[i]
  }

  lemma PartKeeps(before: World, w: World, backups: map<string, Dns>, c: Command, original: map<string, Dns>)
    requires OnlyRestored(before, w, backups, original) && RestoresPart(c, backups)
    ensures OnlyRestored(before, Run(w, c), backups, original)
  {
    if c.iface in w.dns && Backed(w, c.iface) {
      RecordedChange(w, w, c.iface, c, original);
    } else {
      assert Run(w, c) == w;
    }
  }

  lemma {:induction false} PartsKeep(before: World, w: World, backups: map<string, Dns>, cs: seq<Command>, o: Exit,
                                     after: World,
                                     original: map<string, Dns>)
    requires OnlyRestored(before, w, backups, original) && (forall c :: c in cs ==> RestoresPart(c, backups))
    requires Performs(w, cs, o, after)
    ensures OnlyRestored(before, after, backups, original)
    decreases |cs|
  {
    if cs != [] {
      assert cs[0] in cs;
      PartKeeps(before, w, backups, cs[0], original);
      if Possible(w, cs[0]) && Performs(Run(w, cs[0]), cs[1..], o, after) {
        PartsKeep(before, Run(w, cs[0]), backups, cs[1..], o, after, original);
      }
    }
  }

  lemma {:induction false} RestorationsAreParts(available: set<string>, backups: map<string, Dns>, order: seq<string>)
    requires forall i :: i in order ==> i in backups
    ensures forall c :: c in Restorations(available, backups, order) ==> RestoresPart(c, backups)
    decreases |order|
  {
    if order != [] {
      RestorationsAreParts(available, backups, order[1..]);
    }
  }

  lemma RestoresKeeps(w: World, backups: map<string, Dns>, o: Exit, after: World, original: map<string, Dns>)
    requires Inv(w, original) && Pinned(w, backups) && Restores(w, backups, o, after)
    ensures OnlyRestored(w, after, backups, original)
    ensures o == Done ==> after == w.(dns := Restored(w.dns, backups))
  {
    var order :| Lists(backups.Keys, order) && Proceeds(w, Restorations(w.dns.Keys, backups, order), o, after);
    var cs := Restorations(w.dns.Keys, backups, order);
    RestorationsAreParts(w.dns.Keys, backups, order);
    PartsKeep(w, w, backups, cs, if Performs(w, cs, o, after) then o else Done, after, original);
    if o == Done {
      RestoresDone(w, backups, order, after);
    }
  }

  lemma RestoresDone(w: World, backups: map<string, Dns>, order: seq<string>, after: World)
    requires Lists(backups.Keys, order) && Performs(w, Restorations(w.dns.Keys, backups, order), Done, after)
    ensures after == w.(dns := Restored(w.dns, backups))
  {
    var cs := Restorations(w.dns.Keys, backups, order);
    var restored := w.(dns := map i | i in w.dns :: if i in order then backups[i] else w.dns[i]);
    PerformsRestorations(w, w.dns.Keys, backups, order);
    DoneIsRunAll(w, cs, after);
    DoneIsRunAll(w, cs, restored);
    assert restored.dns == Restored(w.dns, backups);
  }

  // ---------- removing and installing ----------

  lemma RemovesKeeps(w: World, o: Exit, after: World)
    requires Removes(w, o, after)
    ensures after.dns == w.dns && after.file == w.file
    ensures o == Done ==> OursOnly(w) && after == w.(rules := w.rules - OurRules(w), routes := map[])
  {
    if !(o != Done && after == w) {
      var rules, routes :| Lists(OurRules(w), rules) && Lists(w.routes.Keys, routes) &&
          Proceeds(w, Deletions(rules, routes), o, after);
      var cs := Deletions(rules, routes);
      RouteCommandsKeep(w, cs, if Performs(w, cs, o, after) then o else Done, after);
      if o == Done {
        DoneIsRunAll(w, cs, after);
        RunDeletions(w, rules, routes);
        assert (set r | r in w.rules && r !in rules) == w.rules - OurRules(w);
        assert (map d | d in w.routes && d !in routes :: w.routes[d]) == map[];
      }
    }
  }

  /** Removing and restoring loses nothing, and at its end everything is original. */
  lemma ClearsKeeps(w: World, backups: map<string, Dns>, o: Exit, after: World, original: map<string, Dns>)
    requires Inv(w, original) && Pinned(w, backups) && Right(w, backups, original) && Clears(w, backups, o, after)
    requires w.file.Some? ==> w.file.value.backups.Keys <= backups.Keys
    ensures Inv(after, original) && after.file == w.file && after.dns.Keys == w.dns.Keys && Pinned(after, backups)
    ensures o == Done ==> OursOnly(w) && after == Cleared(w, backups) && AllOriginal(after, original)
  {
    var o1, w1 :| Removes(w, o1, w1) && if o1 == Done then Restores(w1, backups, o, after) else o == o1 && after == w1;
    RemovesKeeps(w, o1, w1);
    if o1 == Done {
      RestoresKeeps(w1, backups, o, after, original);
      if o == Done {
        RestoredIsOriginal(after, backups, original);
      }
    }
  }

  lemma InstallsKeeps(w: World, c: Config, src: string, o: Exit, after: World, original: map<string, Dns>)
    requires Inv(w, original) && Validated(c) && Installs(w, c, src, o, after)
    ensures after.file == w.file && after.dns.Keys == w.dns.Keys
    ensures forall i :: i in w.dns && i !in Touched(c) ==> after.dns[i] == w.dns[i]
    ensures c.dns == [] || Backed(w, c.iface) || AlreadyOurs(w, c) ==> Inv(after, original)
  {
    if c.iface != "" {
      var routes := RouteInstallations(c, src);
      var dns := if c.dns != [] then SetDns(c.iface, OurDns(c)) else [];
      PerformsParts(w, routes, dns, o, after);
      if o != Done && Performs(w, routes, o, after) {
        RouteCommandsKeep(w, routes, o, after);
      } else {
        RouteCommandsKeep(w, routes, Done, RunAll(w, routes));
        if c.dns != [] {
          SetDnsKeeps(RunAll(w, routes), c, o, after, original);
        }
      }
    }
  }

  lemma SetDnsKeeps(w: World, c: Config, o: Exit, after: World, original: map<string, Dns>)
    requires Inv(w, original) && Performs(w, SetDns(c.iface, OurDns(c)), o, after)
    ensures after == w.(dns := after.dns) && after.dns.Keys == w.dns.Keys
    ensures forall i :: i in w.dns && i != c.iface ==> after.dns[i] == w.dns[i]
    ensures Backed(w, c.iface) || AlreadyOurs(w, c) ==> Inv(after, original)
  {
    SettingOneKeeps(w, w, c.iface, SetDns(c.iface, OurDns(c)), o, after);
    if Backed(w, c.iface) || AlreadyOurs(w, c) {
      PartsKeep(w, w, map[c.iface := OurDns(c)], SetDns(c.iface, OurDns(c)), o, after, original);
    }
  }

  lemma {:induction false} SettingOneKeeps(before: World, w: World, i: string, cs: seq<Command>, o: Exit, after: World)
    requires forall c :: c in cs ==> (c.SetServers? || c.SetDomains? || c.SetDefaultRoute?) && c.iface == i
    requires w == before.(dns := w.dns) && w.dns.Keys == before.dns.Keys
    requires (forall k :: k in w.dns && k != i ==> w.dns[k] == before.dns[k]) && Performs(w, cs, o, after)
    ensures after == before.(dns := after.dns) && after.dns.Keys == before.dns.Keys
    ensures forall k :: k in after.dns && k != i ==> after.dns[k] == before.dns[k]
    decreases |cs|
  {
    if cs != [] {
      assert cs[0] in cs;
      if Possible(w, cs[0]) && Performs(Run(w, cs[0]), cs[1..], o, after) {
        SettingOneKeeps(before, Run(w, cs[0]), i, cs[1..], o, after);
      }
    }
  }

  // ---------- the transaction ----------

  lemma CommitsKeeps(sources: Sources, w: World, c: Config, backups: map<string, Dns>, o: Exit, after: World,
                     original: map<string, Dns>)
    requires Inv(w, original) && Validated(c) && w.file.Some? && w.file.value.backups == backups
    requires (c.dns != [] ==> c.iface in backups) && OriginalExcept(w, original, Touched(c))
    requires Commits(sources, w, c, backups, o, after)
    ensures Inv(after, original) && after.dns == w.dns
    ensures after.file == w.file || Written(sources, after, c, backups, original)
    ensures o == Failed && after.file != w.file ==> c.iface != ""
  {
    if after != w {
      CommitEnds(sources, w, c, backups, o, after, original);
    }
  }

  lemma AttemptsClearedKeeps(sources: Sources, w: World, c: Config, src: string, backups: map<string, Dns>, o: Exit,
                             after: World, original: map<string, Dns>)
    requires Inv(w, original) && Validated(c) && w.file.Some? && w.file.value.backups == backups
    requires (c.dns != [] ==> c.iface in backups) && AllOriginal(w, original)
    requires AttemptsCleared(sources, w, c, src, backups, o, after)
    ensures Inv(after, original) && after.dns.Keys == w.dns.Keys
    ensures after.file == w.file || Written(sources, after, c, backups, original)
    ensures o == Failed && after.file != w.file ==> c.iface != ""
  {
    var o1, w1 :| Installs(w, c, src, o1, w1) &&
        if o1 == Done then Commits(sources, w1, c, backups, o, after) else o == o1 && after == w1;
    InstallsKeeps(w, c, src, o1, w1, original);
    if o1 == Done {
      CommitsKeeps(sources, w1, c, backups, o, after, original);
    }
  }

  lemma AttemptsKeeps(sources: Sources, w: World, c: Config, src: string, backups: map<string, Dns>, o: Exit,
                      after: World, original: map<string, Dns>)
    requires Inv(w, original) && Validated(c) && w.file.Some? && w.file.value.backups == backups
    requires (c.dns != [] ==> c.iface in backups) && Attempts(sources, w, c, src, backups, o, after)
    ensures Inv(after, original) && after.dns.Keys == w.dns.Keys
    ensures after.file == w.file || Written(sources, after, c, backups, original)
    ensures o == Failed && after.file != w.file ==> c.iface != ""
  {
    var o1, w1 :| Clears(w, backups, o1, w1) &&
        if o1 == Done then AttemptsCleared(sources, w1, c, src, backups, o, after) else o == o1 && after == w1;
    ClearsKeeps(w, backups, o1, w1, original);
    if o1 == Done {
      AttemptsClearedKeeps(sources, w1, c, src, backups, o, after, original);
    }
  }

  /** A rollback keeps the invariant unless it exposes the settings of the old interface. */
  lemma RollsBackKeeps(w: World, before: Option<Saved>, oldSource: Option<string>, backups: map<string, Dns>, o: Exit,
                       after: World,
                       original: map<string, Dns>)
    requires Inv(w, original) && Pinned(w, backups) && Right(w, backups, original) && FileSound(before)
    requires w.file.Some? ==> w.file.value.backups.Keys <= backups.Keys
    requires before.Some? ==> forall i :: i in before.value.backups ==>
              i in backups && before.value.backups[i] == backups[i]
    requires RollsBack(w, before, oldSource, backups, o, after)
    ensures Inv(after, original) || Exposed(w, ConfigOf(before), oldSource, original)
  {
    var o1, w1 :| Clears(w, backups, o1, w1) &&
        if o1 == Done then RollsBackCleared(w1, before, oldSource, o, after) else o == o1 && after == w1;
    ClearsKeeps(w, backups, o1, w1, original);
    if o1 == Done && !(ConfigOf(before).iface != "" && oldSource.None?) {
      ReinstallKeeps(w1, before, oldSource, backups, o, after, original);
    }
  }

  lemma ReinstallKeeps(w: World, before: Option<Saved>, oldSource: Option<string>, backups: map<string, Dns>, o: Exit,
                       after: World,
                       original: map<string, Dns>)
    requires Inv(w, original) && AllOriginal(w, original) && Right(w, backups, original) && FileSound(before)
    requires before.Some? ==> forall i :: i in before.value.backups ==>
              i in backups && before.value.backups[i] == backups[i]
    requires ConfigOf(before).iface != "" ==> oldSource.Some?
    requires RollsBackCleared(w, before, oldSource, o, after)
    ensures Inv(after, original) || Exposed(w, ConfigOf(before), oldSource, original)
  {
    var previous := ConfigOf(before);
    var o1, w1 :| Installs(w, previous, Address(oldSource), o1, w1) &&
        if o1 == Done then Ends(w1, WriteState(before), o, after) else o == o1 && after == w1;
    InstallsKeeps(w, previous, Address(oldSource), o1, w1, original);
  }

  lemma TransactsKeeps(sources: Sources, w: World, c: Config, src: string, before: Option<Saved>,
                       oldSource: Option<string>,
                       backups: map<string, Dns>, r: Outcome, after: World, original: map<string, Dns>)
    requires Inv(w, original) && Validated(c) && FileSound(before) && OursOnly(w)
    requires w.file == Some(Saved(ConfigOf(before), backups, true)) && Right(w, backups, original)
    requires c.dns != [] ==> c.iface in backups
    requires before.Some? ==> forall i :: i in before.value.backups ==>
              i in backups && before.value.backups[i] == backups[i]
    requires oldSource.Some? ==> oldSource == SourceOf(sources, ConfigOf(before))
    requires Transacts(sources, w, c, src, before, oldSource, backups, r, after)
    ensures Inv(after, original) || CanLose(sources, w.(file := before), c)
  {
    var o1, w1 :| Attempts(sources, w, c, src, backups, o1, w1) &&
      if o1 != Failed then r == Ended(o1, Incomplete) && after == w1
      else exists o2 :: RollsBack(w1, before, oldSource, backups, o2, after) && r == AfterRollback(o2);
    AttemptsKeeps(sources, w, c, src, backups, o1, w1, original);
    if o1 == Failed {
      var o2 :| RollsBack(w1, before, oldSource, backups, o2, after) && r == AfterRollback(o2);
      RollsBackKeeps(w1, before, oldSource, backups, o2, after, original);
      if Exposed(w1, ConfigOf(before), oldSource, original) {
        ExposedCanLose(sources, w, w1, before, c, oldSource, backups, original);
      }
    }
  }

  lemma JournalKeeps(w: World, c: Config, o: Exit, after: World, original: map<string, Dns>)
    requires Inv(w, original) && Validated(c) && (c.dns == [] || c.iface in w.dns || Backed(w, c.iface))
    requires Ends(w, WriteState(Journal(w, c)), o, after)
    ensures Inv(after, original) && after.(file := w.file) == w && Right(after, Backups(w, c), original)
    ensures o == Done ==> after.file == Journal(w, c)
  {
  }

  lemma ReplacesKeeps(sources: Sources, w: World, c: Config, src: string, oldSource: Option<string>, r: Outcome,
                      after: World,
                      original: map<string, Dns>)
    requires Inv(w, original) && Validated(c) && OursOnly(w)
    requires oldSource.Some? ==> oldSource == SourceOf(sources, ConfigOf(w.file))
    requires Replaces(sources, w, c, src, oldSource, r, after)
    ensures Inv(after, original) || CanLose(sources, w, c)
  {
    var o1, w1 :| Ends(w, WriteState(Journal(w, c)), o1, w1) &&
      if o1 == Done then Transacts(sources, w1, c, src, w.file, oldSource, Backups(w, c), r, after)
      else r == Ended(o1, Refused) && after == w1;
    JournalKeeps(w, c, o1, w1, original);
    if o1 == Done {
      TransactsKeeps(sources, w1, c, src, w.file, oldSource, Backups(w, c), r, after, original);
    }
  }

  lemma {:induction false} CoveredKeep(w: World, cs: seq<Command>, o: Exit, after: World, original: map<string, Dns>)
    requires Inv(w, original) && Performs(w, cs, o, after) && forall c :: c in cs ==> Covered(w, c)
    ensures Inv(after, original)
    decreases |cs|
  {
    if cs != [] {
      assert cs[0] in cs && Covered(w, cs[0]);
      var w1 := Run(w, cs[0]);
      assert Inv(w1, original) && w1.file == w.file;
      if Possible(w, cs[0]) && Performs(w1, cs[1..], o, after) {
        forall c | c in cs[1..] ensures Covered(w1, c) {
          assert c in cs;
        }
        CoveredKeep(w1, cs[1..], o, after, original);
      }
    }
  }

  lemma RepairsKeep(w: World, c: Config, src: string, r: Outcome, after: World, original: map<string, Dns>)
    requires Inv(w, original) && InPlace(w, c) && Repairs(w, c, src, r, after)
    ensures Inv(after, original)
  {
    var o :| Proceeds(w, RepairPlan(w, c, src), o, after) && r == Ended(o, Incomplete) &&
        (o == Done ==> Installed(after, c, src));
    var cs := RepairPlan(w, c, src);
    RepairsAreCovered(w, c, src);
    CoveredKeep(w, cs, if Performs(w, cs, o, after) then o else Done, after, original);
  }

  /** Every possible run of a call keeps the invariant unless settings can be lost. */
  lemma AppliesKeeps(sources: Sources, w: World, c: Config, r: Outcome, after: World, original: map<string, Dns>)
    requires Inv(w, original) && Validated(c) && Applies(sources, w, c, r, after)
    ensures Inv(after, original) || CanLose(sources, w, c)
  {
    if after != w {
      var src := Address(SourceOf(sources, c));
      if InPlace(w, c) {
        RepairsKeep(w, c, src, r, after, original);
      } else if Replaces(sources, w, c, src, None, r, after) {
        ReplacesKeeps(sources, w, c, src, None, r, after, original);
      } else {
        ReplacesKeeps(sources, w, c, src, SourceOf(sources, ConfigOf(w.file)), r, after, original);
      }
    }
  }

  /** Some run of a call loses settings exactly when they can be lost, which can be checked before it. */
  lemma LosesIff(sources: Sources, w: World, c: Config, original: map<string, Dns>)
    requires Inv(w, original) && Validated(c)
    ensures (exists r, after :: Applies(sources, w, c, r, after) && !Inv(after, original)) <==> CanLose(sources, w, c)
  {
    if CanLose(sources, w, c) {
      var after := LosesSettings(sources, w, c, Died, original);
    }
    if r, after :| Applies(sources, w, c, r, after) && !Inv(after, original) {
      AppliesKeeps(sources, w, c, r, after, original);
    }
  }

  // ---------- sequences of calls ----------

  /** A call, at a time when the source addresses are `sources`; an interface that appears or is given other
      settings from outside; one that disappears. */
  datatype Event = Call(c: Config, sources: Sources) | Reconfigure(i: string, settings: Dns) | Disappear(i: string)

  /** The host and the settings that the rest of the system gave each interface. */
  datatype Moment = Moment(w: World, original: map<string, Dns>)

  ghost predicate Happens(m: Moment, e: Event, after: Moment) {
    match e
    case Call(c, sources) =>
      && Validated(c) && after.original == m.original
      && exists r :: Applies(sources, m.w, c, r, after.w)
    case Reconfigure(i, settings) => after == Moment(Reconfigured(m.w, i, settings), m.original[i := settings])
    case Disappear(i) => after == m.(w := m.w.(dns := m.w.dns - {i}))
  }

  /** The event cannot lose settings, nor make a record stale. */
  predicate Careful(m: Moment, e: Event) {
    match e
    case Call(c, sources) => !CanLose(sources, m.w, c)
    case Reconfigure(i, settings) =>
      m.w.file.Some? && i in m.w.file.value.backups ==> m.w.file.value.backups[i] == settings
    case Disappear(_) => true
  }

  ghost predicate History(ms: seq<Moment>, es: seq<Event>) {
    && |ms| == |es| + 1
    && forall k :: 0 <= k < |es| ==> Happens(ms[k], es[k], ms[k + 1])
  }

  lemma HappensKeeps(m: Moment, e: Event, after: Moment)
    requires Inv(m.w, m.original) && Happens(m, e, after) && Careful(m, e)
    ensures Inv(after.w, after.original)
  {
    match e
    case Call(c, sources) =>
      var r :| Applies(sources, m.w, c, r, after.w);
      AppliesKeeps(sources, m.w, c, r, after.w, m.original);
    case Reconfigure(i, settings) =>
      ReconfiguredKeepsInv(m.w, m.original, i, settings);
    case Disappear(i) =>
  }

  /** Over any sequence of calls, with failures and crashes anywhere in each, and of changes from outside: as
      long as each of them is careful, every available interface has its original settings or they are on
      record. */
  lemma {:induction false} CallsKeepInv(ms: seq<Moment>, es: seq<Event>, n: nat)
    requires History(ms, es) && n < |ms| && Inv(ms[0].w, ms[0].original)
    requires forall k :: 0 <= k < n ==> Careful(ms[k], es[k])
    ensures forall k :: 0 <= k <= n ==> Inv(ms[k].w, ms[k].original)
  {
    if n > 0 {
      CallsKeepInv(ms, es, n - 1);
      assert Happens(ms[n - 1], es[n - 1], ms[n - 1 + 1]) && Careful(ms[n - 1], es[n - 1]);
      HappensKeeps(ms[n - 1], es[n - 1], ms[n]);
    }
  }
}
