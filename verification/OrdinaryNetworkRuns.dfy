/**
 What a run of the ordinary-network transaction (script/network/ordinary_network.py) can do, as a
 relation between the world before and the world after: every command may fail or be cut off, every
 reading in between may fail. The methods of the transaction stay within these relations.

 With them goes the one way in which settings can be lost: for every state and configuration for
 which it is possible there is a run that does it.
 */
module OrdinaryNetworkRuns {
  import opened Wrappers
  import opened OrdinaryNetworkModel

  type Sources = map<(string, string), string>

  // ---------- commands ----------

  /** One command: done only if it was possible and took effect; a failed or interrupted one may have
      taken effect or not. Only the removal of the file, one system call, does not take effect
      when it fails. */
  ghost predicate Ends(w: World, c: Command, o: Exit, after: World) {
    if o == Done then Possible(w, c) && after == Run(w, c)
    else after == w || (after == Run(w, c) && (o == Crashed || c != WriteState(None)))
  }

  /** Commands one after the other, up to the first that is not done. */
  ghost predicate Performs(w: World, cs: seq<Command>, o: Exit, after: World)
    decreases |cs|
  {
    if cs == [] then o == Done && after == w
    else
      || (o != Done && Ends(w, cs[0], o, after))
      || (Possible(w, cs[0]) && Performs(Run(w, cs[0]), cs[1..], o, after))
  }

  lemma {:induction false} PerformsThen(w: World, a: seq<Command>, mid: World, b: seq<Command>, o: Exit, after: World)
    requires Performs(w, a, Done, mid) && Performs(mid, b, o, after)
    ensures Performs(w, a + b, o, after)
    decreases |a|
  {
    if a == [] {
      assert a + b == b;
    } else {
      assert (a + b)[1..] == a[1..] + b;
      PerformsThen(Run(w, a[0]), a[1..], mid, b, o, after);
    }
  }

  lemma {:induction false} PerformsStops(w: World, a: seq<Command>, b: seq<Command>, o: Exit, after: World)
    requires o != Done && Performs(w, a, o, after)
    ensures Performs(w, a + b, o, after)
    decreases |a|
  {
    assert (a + b)[1..] == a[1..] + b && (a + b)[0] == a[0];
    if !Ends(w, a[0], o, after) {
      PerformsStops(Run(w, a[0]), a[1..], b, o, after);
    }
  }

  lemma {:induction false} DoneIsRunAll(w: World, cs: seq<Command>, after: World)
    requires Performs(w, cs, Done, after)
    ensures after == RunAll(w, cs)
    decreases |cs|
  {
    if cs != [] {
      DoneIsRunAll(Run(w, cs[0]), cs[1..], after);
    }
  }

  /** The next of several commands. */
  lemma PerformsNext(w: World, cs: seq<Command>, i: nat, mid: World, o: Exit, after: World)
    requires i < |cs| && Performs(w, cs[..i], Done, mid) && Ends(mid, cs[i], o, after)
    ensures o == Done ==> Performs(w, cs[..i + 1], Done, after)
    ensures o != Done ==> Performs(w, cs, o, after)
  {
    assert Performs(mid, [cs[i]], o, after);
    PerformsThen(w, cs[..i], mid, [cs[i]], o, after);
    assert cs[..i] + [cs[i]] == cs[..i + 1];
    if o != Done {
      PerformsStops(w, cs[..i + 1], cs[i + 1..], o, after);
      assert cs[..i + 1] + cs[i + 1..] == cs;
    }
  }

  /** Commands with readings in between and after them, any of which may fail. */
  ghost predicate Proceeds(w: World, cs: seq<Command>, o: Exit, after: World) {
    Performs(w, cs, o, after) || (o != Done && Performs(w, cs, Done, after))
  }

  /** `q` has exactly the elements of `s`, each once. */
  ghost predicate Lists<T(!new)>(s: set<T>, q: seq<T>) {
    (forall x :: x in s <==> x in q) && forall i, j :: 0 <= i < j < |q| ==> q[i] != q[j]
  }

  /** What is left of a list without its next element. */
  lemma SuffixSet<T(!new)>(q: seq<T>, i: nat)
    requires i < |q| && forall j, k :: 0 <= j < k < |q| ==> q[j] != q[k]
    ensures q[i] !in q[i + 1..] && forall x :: x in q[i..] <==> x == q[i] || x in q[i + 1..]
  {
    assert q[i..] == [q[i]] + q[i + 1..];
  }

  // ---------- the parts of the transaction ----------

  function OurRules(w: World): set<Rule> {
    set r | r in w.rules && r.priority in PRIORITIES
  }

  function RuleDeletions(rules: seq<Rule>): seq<Command> {
    seq(|rules|, i requires 0 <= i < |rules| => DeleteRule(rules[i]))
  }

  function RouteDeletions(routes: seq<string>): seq<Command> {
    seq(|routes|, i requires 0 <= i < |routes| => DeleteRoute(routes[i]))
  }

  function Deletions(rules: seq<Rule>, routes: seq<string>): seq<Command> {
    RuleDeletions(rules) + RouteDeletions(routes)
  }

  /** Our rules and then the routes are removed, unless something is not ours. */
  ghost predicate Removes(w: World, o: Exit, after: World) {
    || (o != Done && after == w)
    || (OursOnly(w) && exists rules, routes :: Lists(OurRules(w), rules) && Lists(w.routes.Keys, routes) &&
                                              Proceeds(w, Deletions(rules, routes), o, after))
  }

  function SetDns(i: string, d: Dns): seq<Command> {
    [SetServers(i, d.servers), SetDomains(i, d.domains), SetDefaultRoute(i, d.defaultRoute)]
  }

  /** The recorded settings, for the interfaces that are available. */
  function Restorations(available: set<string>, backups: map<string, Dns>, order: seq<string>): seq<Command>
    requires forall i :: i in order ==> i in backups
  {
    if order == [] then []
    else
      var one := if order[0] in available then SetDns(order[0], backups[order[0]]) else [];
      one + Restorations(available, backups, order[1..])
  }

  ghost predicate Restores(w: World, backups: map<string, Dns>, o: Exit, after: World) {
    exists order :: Lists(backups.Keys, order) && Proceeds(w, Restorations(w.dns.Keys, backups, order), o, after)
  }

  /** Removes and then restores. */
  ghost predicate Clears(w: World, backups: map<string, Dns>, o: Exit, after: World) {
    exists o1, w1 :: Removes(w, o1, w1) &&
        if o1 == Done then Restores(w1, backups, o, after) else o == o1 && after == w1
  }

  function RouteInstallations(c: Config, src: string): seq<Command> {
    [ReplaceRoute(c.gateway + "/32", LinkRoute(c, src)), ReplaceRoute("default", DefaultRoute(c, src)),
     AddRule(MAIN_RULE), AddRule(TABLE_RULE)]
  }

  function Installations(c: Config, src: string): seq<Command> {
    RouteInstallations(c, src) + if c.dns != [] then SetDns(c.iface, OurDns(c)) else []
  }

  ghost predicate Installs(w: World, c: Config, src: string, o: Exit, after: World) {
    if c.iface == "" then o == Done && after == w else Performs(w, Installations(c, src), o, after)
  }

  /** The final write, after the installation was verified. */
  ghost predicate Commits(sources: Sources, w: World, c: Config, backups: map<string, Dns>, o: Exit, after: World)
    requires c.dns != [] ==> c.iface in backups
  {
    || (o != Done && after == w)
    || ((c.iface != "" ==> (c.iface, c.gateway) in sources && Installed(w, c, sources[(c.iface, c.gateway)]))
        && Ends(w, WriteState(Committed(c, backups)), o, after))
  }

  /** The part that is rolled back if it fails. */
  ghost predicate Attempts(sources: Sources, w: World, c: Config, src: string, backups: map<string, Dns>, o: Exit,
                           after: World)
    requires c.dns != [] ==> c.iface in backups
  {
    exists o1, w1 :: Clears(w, backups, o1, w1) &&
        if o1 == Done then AttemptsCleared(sources, w1, c, src, backups, o, after) else o == o1 && after == w1
  }

  ghost predicate AttemptsCleared(sources: Sources, w: World, c: Config, src: string, backups: map<string, Dns>,
                                  o: Exit, after: World)
    requires c.dns != [] ==> c.iface in backups
  {
    exists o1, w1 :: Installs(w, c, src, o1, w1) &&
        if o1 == Done then Commits(sources, w1, c, backups, o, after) else o == o1 && after == w1
  }

  /** Bringing back what `before` recorded. */
  ghost predicate RollsBack(w: World, before: Option<Saved>, oldSource: Option<string>, backups: map<string, Dns>,
                            o: Exit, after: World) {
    exists o1, w1 :: Clears(w, backups, o1, w1) &&
        if o1 == Done then RollsBackCleared(w1, before, oldSource, o, after) else o == o1 && after == w1
  }

  ghost predicate RollsBackCleared(w: World, before: Option<Saved>, oldSource: Option<string>, o: Exit, after: World) {
    if ConfigOf(before).iface != "" && oldSource.None? then o == Failed && after == w
    else
      exists o1, w1 :: Installs(w, ConfigOf(before), Address(oldSource), o1, w1) &&
        if o1 == Done then Ends(w1, WriteState(before), o, after) else o == o1 && after == w1
  }

  /** After the journal was written. */
  ghost predicate Transacts(sources: Sources, w: World, c: Config, src: string, before: Option<Saved>,
                            oldSource: Option<string>,
                            backups: map<string, Dns>, r: Outcome, after: World)
    requires c.dns != [] ==> c.iface in backups
  {
    exists o1, w1 :: Attempts(sources, w, c, src, backups, o1, w1) &&
      if o1 != Failed then r == Ended(o1, Incomplete) && after == w1
      else exists o2 :: RollsBack(w1, before, oldSource, backups, o2, after) && r == AfterRollback(o2)
  }

  function AfterRollback(o: Exit): Outcome {
    if o == Done then RolledBack else Ended(o, Incomplete)
  }

  /** The settings on record and, if the interface needs some and has none, its present ones. */
  function Backups(w: World, c: Config): map<string, Dns>
    requires c.dns == [] || c.iface in w.dns || Backed(w, c.iface)
  {
    var recorded := if w.file.Some? then w.file.value.backups else map[];
    if c.dns == [] || c.iface in recorded then recorded else recorded[c.iface := w.dns[c.iface]]
  }

  function Journal(w: World, c: Config): Option<Saved>
    requires c.dns == [] || c.iface in w.dns || Backed(w, c.iface)
  {
    Some(Saved(ConfigOf(w.file), Backups(w, c), true))
  }

  function Address(source: Option<string>): string {
    if source.Some? then source.value else ""
  }

  function SourceOf(sources: Sources, c: Config): Option<string> {
    if c.iface != "" && (c.iface, c.gateway) in sources then Some(sources[(c.iface, c.gateway)]) else None
  }

  /** Replacing the configuration: the journal first, and then the transaction. */
  ghost predicate Replaces(sources: Sources, w: World, c: Config, src: string, oldSource: Option<string>, r: Outcome,
                           after: World) {
    && (c.dns == [] || c.iface in w.dns || Backed(w, c.iface))
    && exists o1, w1 :: Ends(w, WriteState(Journal(w, c)), o1, w1) &&
         if o1 == Done then Transacts(sources, w1, c, src, w.file, oldSource, Backups(w, c), r, after)
         else r == Ended(o1, Refused) && after == w1
  }

  /** Repairing what is recorded and in force. */
  ghost predicate Repairs(w: World, c: Config, src: string, r: Outcome, after: World) {
    && Repairable(w, c, src) && (c.dns != [] ==> c.iface in w.dns)
    && exists o :: Proceeds(w, RepairPlan(w, c, src), o, after) && r == Ended(o, Incomplete) &&
          (o == Done ==> Installed(after, c, src))
  }

  predicate InPlace(w: World, c: Config) {
    w.file.Some? && !w.file.value.pending && w.file.value.config == c && c.iface != ""
  }

  /** What a call of `Apply` can do. The old source address may be unreadable at the time. */
  ghost predicate Applies(sources: Sources, w: World, c: Config, r: Outcome, after: World) {
    if w.file.None? && c.iface == "" then r == Applied && after == w
    else
      || ((r in {Refused, Died} || (r == Incomplete && InPlace(w, c))) && after == w)
      || (&& OursOnly(w) && (c.iface != "" ==> (c.iface, c.gateway) in sources)
          && var src := Address(SourceOf(sources, c));
             if InPlace(w, c) then Repairs(w, c, src, r, after)
             else
               || Replaces(sources, w, c, src, SourceOf(sources, ConfigOf(w.file)), r, after)
               || Replaces(sources, w, c, src, None, r, after))
  }

  // ---------- composing runs ----------

  lemma ProceedsAtOnce(w: World, cs: seq<Command>, o: Exit)
    requires o != Done
    ensures Proceeds(w, cs, o, w)
  {
  }

  lemma PerformsThree(w: World, i: string, d: Dns, one: World, o: Exit, after: World)
    requires Ends(w, SetServers(i, d.servers), Done, one) && Ends(one, SetDomains(i, d.domains), o, after)
    ensures o == Done ==> Performs(w, SetDns(i, d)[..2], Done, after)
    ensures o != Done ==> Performs(w, SetDns(i, d), o, after)
  {
    PerformsNext(w, SetDns(i, d), 0, w, Done, one);
    PerformsNext(w, SetDns(i, d), 1, one, o, after);
  }

  lemma PerformsLast(w: World, i: string, d: Dns, one: World, two: World, o: Exit, after: World)
    requires Ends(w, SetServers(i, d.servers), Done, one) && Ends(one, SetDomains(i, d.domains), Done, two)
    requires Ends(two, SetDefaultRoute(i, d.defaultRoute), o, after)
    ensures Performs(w, SetDns(i, d), o, after)
  {
    PerformsThree(w, i, d, one, Done, two);
    PerformsNext(w, SetDns(i, d), 2, two, o, after);
    assert SetDns(i, d)[..3] == SetDns(i, d);
  }

  lemma {:induction false} RestorationsConcat(available: set<string>, backups: map<string, Dns>, a: seq<string>,
                                              b: seq<string>)
    requires forall i :: i in a + b ==> i in backups
    ensures Restorations(available, backups, a + b) ==
              Restorations(available, backups, a) + Restorations(available, backups, b)
    decreases |a|
  {
    if a == [] {
      assert a + b == b;
    } else {
      assert (a + b)[1..] == a[1..] + b;
      RestorationsConcat(available, backups, a[1..], b);
    }
  }

  lemma RestorationsUpTo(available: set<string>, backups: map<string, Dns>, order: seq<string>, k: nat)
    requires k < |order| && forall i :: i in order ==> i in backups
    ensures Restorations(available, backups, order[..k + 1]) ==
              Restorations(available, backups, order[..k]) + if order[k] in available
                  then SetDns(order[k], backups[order[k]]) else []
    ensures Restorations(available, backups, order) ==
              Restorations(available, backups, order[..k + 1]) + Restorations(available, backups, order[k + 1..])
  {
    var i := order[k];
    assert order[..k] + [i] == order[..k + 1];
    RestorationsConcat(available, backups, order[..k], [i]);
    var one := if i in available then SetDns(i, backups[i]) else [];
    assert [i][1..] == [] && one + [] == one;
    assert order[..k + 1] + order[k + 1..] == order;
    RestorationsConcat(available, backups, order[..k + 1], order[k + 1..]);
  }

  /** The next interface that is available. */
  lemma RestorationsNext(w: World, backups: map<string, Dns>, order: seq<string>, k: nat, mid: World, o: Exit,
                         after: World)
    requires k < |order| && order[k] in w.dns && forall i :: i in order ==> i in backups
    requires Performs(w, Restorations(w.dns.Keys, backups, order[..k]), Done, mid)
    requires Performs(mid, SetDns(order[k], backups[order[k]]), o, after)
    ensures o == Done ==> Performs(w, Restorations(w.dns.Keys, backups, order[..k + 1]), Done, after)
    ensures o != Done ==> Performs(w, Restorations(w.dns.Keys, backups, order), o, after)
  {
    var one, before := SetDns(order[k], backups[order[k]]), Restorations(w.dns.Keys, backups, order[..k]);
    RestorationsUpTo(w.dns.Keys, backups, order, k);
    PerformsThen(w, before, mid, one, o, after);
    if o != Done {
      PerformsStops(w, before + one, Restorations(w.dns.Keys, backups, order[k + 1..]), o, after);
    }
  }

  lemma RestorationsSkip(w: World, backups: map<string, Dns>, order: seq<string>, k: nat)
    requires k < |order| && order[k] !in w.dns && forall i :: i in order ==> i in backups
    ensures Restorations(w.dns.Keys, backups, order[..k + 1]) == Restorations(w.dns.Keys, backups, order[..k])
  {
    RestorationsUpTo(w.dns.Keys, backups, order, k);
    assert Restorations(w.dns.Keys, backups, order[..k]) + [] == Restorations(w.dns.Keys, backups, order[..k]);
  }

  lemma AttemptStops(sources: Sources, w: World, c: Config, src: string, backups: map<string, Dns>, cleared: World,
                     o: Exit, after: World)
    requires c.dns != [] ==> c.iface in backups
    requires o != Done && Clears(w, backups, Done, cleared) && Installs(cleared, c, src, o, after)
    ensures Attempts(sources, w, c, src, backups, o, after)
  {
    assert AttemptsCleared(sources, cleared, c, src, backups, o, after);
  }

  lemma AttemptEnds(sources: Sources, w: World, c: Config, src: string, backups: map<string, Dns>, cleared: World,
                    installed: World,
                    o: Exit, after: World)
    requires c.dns != [] ==> c.iface in backups
    requires Clears(w, backups, Done, cleared) && Installs(cleared, c, src, Done, installed)
    requires Commits(sources, installed, c, backups, o, after)
    ensures Attempts(sources, w, c, src, backups, o, after)
  {
    assert AttemptsCleared(sources, cleared, c, src, backups, o, after);
  }

  // ---------- a run in which everything is done ----------

  lemma {:induction false} PerformsAll(w: World, cs: seq<Command>)
    requires forall c :: c in cs ==> Possible(w, c)
    ensures Performs(w, cs, Done, RunAll(w, cs))
    decreases |cs|
  {
    if cs != [] {
      assert cs[0] in cs;
      var w1 := Run(w, cs[0]);
      assert w1.dns.Keys == w.dns.Keys;
      forall c | c in cs[1..] ensures Possible(w1, c) {
        assert c in cs;
      }
      PerformsAll(w1, cs[1..]);
    }
  }

  lemma {:induction false} ListExists<T(!new)>(s: set<T>) returns (q: seq<T>)
    ensures Lists(s, q)
    decreases |s|
  {
    q := [];
    if x :| x in s {
      var rest := ListExists(s - {x});
      q := [x] + rest;
    }
  }

  lemma {:induction false} RunDeletions(w: World, rules: seq<Rule>, routes: seq<string>)
    ensures RunAll(w, Deletions(rules, routes)) ==
              w.(rules := (set r | r in w.rules && r !in rules),
                 routes := (map d | d in w.routes && d !in routes :: w.routes[d]))
    decreases |rules| + |routes|
  {
    var cs := Deletions(rules, routes);
    if rules != [] {
      var w1 := Run(w, cs[0]);
      assert cs[1..] == Deletions(rules[1..], routes);
      RunDeletions(w1, rules[1..], routes);
      assert (set r | r in w.rules && r !in rules) == (set r | r in w1.rules && r !in rules[1..]);
    } else if routes != [] {
      var w1 := Run(w, cs[0]);
      assert cs[1..] == Deletions(rules, routes[1..]);
      RunDeletions(w1, rules, routes[1..]);
      assert (map d | d in w.routes && d !in routes :: w.routes[d]) ==
             (map d | d in w1.routes && d !in routes[1..] :: w1.routes[d]);
    } else {
      assert (set r | r in w.rules && r !in rules) == w.rules;
      assert (map d | d in w.routes && d !in routes :: w.routes[d]) == w.routes;
    }
  }

  function Restored(dns: map<string, Dns>, backups: map<string, Dns>): map<string, Dns> {
    map i | i in dns :: if i in backups then backups[i] else dns[i]
  }

  function Cleared(w: World, backups: map<string, Dns>): World {
    World(Restored(w.dns, backups), w.rules - OurRules(w), map[], w.file)
  }

  lemma RemovesAll(w: World)
    requires OursOnly(w)
    ensures Removes(w, Done, w.(rules := w.rules - OurRules(w), routes := map[]))
  {
    var rules := ListExists(OurRules(w));
    var routes := ListExists(w.routes.Keys);
    PerformsAll(w, Deletions(rules, routes));
    RunDeletions(w, rules, routes);
    assert (set r | r in w.rules && r !in rules) == w.rules - OurRules(w);
    assert (map d | d in w.routes && d !in routes :: w.routes[d]) == map[];
    assert Proceeds(w, Deletions(rules, routes), Done, RunAll(w, Deletions(rules, routes)));
  }

  lemma RunOne(w: World, c: Command, rest: seq<Command>)
    ensures RunAll(w, [c] + rest) == RunAll(Run(w, c), rest)
  {
    assert ([c] + rest)[1..] == rest;
  }

  lemma SetThree(w: World, i: string, d: Dns)
    requires i in w.dns
    ensures Run(Run(Run(w, SetServers(i, d.servers)), SetDomains(i, d.domains)), SetDefaultRoute(i, d.defaultRoute)) ==
              w.(dns := w.dns[i := d])
  {
  }

  lemma PerformsSetDns(w: World, i: string, d: Dns)
    requires i in w.dns
    ensures Performs(w, SetDns(i, d), Done, w.(dns := w.dns[i := d]))
  {
    var a, b, c := SetServers(i, d.servers), SetDomains(i, d.domains), SetDefaultRoute(i, d.defaultRoute);
    PerformsAll(w, SetDns(i, d));
    assert SetDns(i, d) == [a] + ([b] + ([c] + []));
    RunOne(w, a, [b] + ([c] + []));
    RunOne(Run(w, a), b, [c] + []);
    RunOne(Run(Run(w, a), b), c, []);
    SetThree(w, i, d);
  }

  lemma {:induction false} PerformsRestorations(w: World, available: set<string>, backups: map<string, Dns>,
                                                order: seq<string>)
    requires available == w.dns.Keys && forall i :: i in order ==> i in backups
    ensures Performs(w, Restorations(available, backups, order), Done,
                     w.(dns := map i | i in w.dns :: if i in order then backups[i] else w.dns[i]))
    decreases |order|
  {
    var after := w.(dns := map i | i in w.dns :: if i in order then backups[i] else w.dns[i]);
    if order == [] {
      assert after == w;
    } else {
      var i, rest := order[0], order[1..];
      var w1 := if i in available then w.(dns := w.dns[i := backups[i]]) else w;
      PerformsRestorations(w1, available, backups, rest);
      assert after == w1.(dns := map k | k in w1.dns :: if k in rest then backups[k] else w1.dns[k]);
      if i in available {
        PerformsSetDns(w, i, backups[i]);
        PerformsThen(w, SetDns(i, backups[i]), w1, Restorations(available, backups, rest), Done, after);
      } else {
        assert [] + Restorations(available, backups, rest) == Restorations(available, backups, rest);
      }
    }
  }

  lemma RestoresAll(w: World, backups: map<string, Dns>)
    ensures Restores(w, backups, Done, w.(dns := Restored(w.dns, backups)))
  {
    var order := ListExists(backups.Keys);
    PerformsRestorations(w, w.dns.Keys, backups, order);
    assert w.(dns := map i | i in w.dns :: if i in order then backups[i] else w.dns[i]) ==
           w.(dns := Restored(w.dns, backups));
    assert Proceeds(w, Restorations(w.dns.Keys, backups, order), Done, w.(dns := Restored(w.dns, backups)));
  }

  lemma ClearsAll(w: World, backups: map<string, Dns>)
    requires OursOnly(w)
    ensures Clears(w, backups, Done, Cleared(w, backups)) && NothingInstalled(Cleared(w, backups))
  {
    RemovesAll(w);
    RestoresAll(w.(rules := w.rules - OurRules(w), routes := map[]), backups);
  }

  function InstalledOver(w: World, c: Config, src: string): World {
    World(if c.dns != [] then w.dns[c.iface := OurDns(c)]
        else w.dns, w.rules + {MAIN_RULE, TABLE_RULE}, Desired(c, src), w.file)
  }

  lemma InstallsAll(w: World, c: Config, src: string)
    requires NothingInstalled(w) && c.iface != "" && (c.dns != [] ==> c.iface in w.dns)
    ensures Installs(w, c, src, Done, InstalledOver(w, c, src)) && Installed(InstalledOver(w, c, src), c, src)
  {
    var routed := w.(rules := w.rules + {MAIN_RULE, TABLE_RULE}, routes := Desired(c, src));
    PerformsRoutes(w, c, src);
    if c.dns != [] {
      PerformsSetDns(routed, c.iface, OurDns(c));
      PerformsThen(w, RouteInstallations(c, src), routed, SetDns(c.iface, OurDns(c)), Done, InstalledOver(w, c, src));
    } else {
      assert RouteInstallations(c, src) + [] == RouteInstallations(c, src);
    }
  }

  lemma PerformsRoutes(w: World, c: Config, src: string)
    requires w.routes == map[]
    ensures Performs(w, RouteInstallations(c, src), Done,
                     w.(rules := w.rules + {MAIN_RULE, TABLE_RULE}, routes := Desired(c, src)))
  {
    LinkIsNotDefault(c.gateway);
    var cs := RouteInstallations(c, src);
    PerformsAll(w, cs);
    assert cs == [cs[0]] + ([cs[1]] + ([cs[2]] + ([cs[3]] + [])));
    RunOne(w, cs[0], [cs[1]] + ([cs[2]] + ([cs[3]] + [])));
    var one := Run(w, cs[0]);
    RunOne(one, cs[1], [cs[2]] + ([cs[3]] + []));
    var two := Run(one, cs[1]);
    assert two.routes == Desired(c, src);
    RunOne(two, cs[2], [cs[3]] + []);
    RunOne(Run(two, cs[2]), cs[3], []);
    assert w.rules + {MAIN_RULE} + {TABLE_RULE} == w.rules + {MAIN_RULE, TABLE_RULE};
  }

  // ---------- how settings are lost ----------

  /** The settings of the old interface can be lost: it has DNS servers of ours and other settings on
      record, the new configuration would not keep that record, and both can be installed. All of
      this can be checked before a call. */
  predicate CanLose(sources: Sources, w: World, c: Config) {
    var previous := ConfigOf(w.file);
    && previous.dns != [] && previous.iface in w.dns && SourceOf(sources, previous).Some?
    && (previous.iface in w.file.value.backups ==> w.file.value.backups[previous.iface] != OurDns(previous))
    && c.iface != "" && SourceOf(sources, c).Some? && (c.dns != [] ==> c.iface in w.dns)
    && !(c.dns != [] && c.iface == previous.iface)
    && OursOnly(w)
  }

  /** An attempt whose final write takes effect and is reported as failed. */
  lemma LateWrite(sources: Sources, w: World, c: Config, backups: map<string, Dns>) returns (late: World)
    requires OursOnly(w) && Validated(c) && SourceOf(sources, c).Some? &&
              (c.dns != [] ==> c.iface in w.dns && c.iface in backups)
    ensures Attempts(sources, w, c, SourceOf(sources, c).value, backups, Failed, late)
    ensures late.file == Committed(c, backups) && late.dns.Keys == w.dns.Keys && OursOnly(late)
  {
    var src := SourceOf(sources, c).value;
    ClearsAll(w, backups);
    var cleared := Cleared(w, backups);
    InstallsAll(cleared, c, src);
    var installed := InstalledOver(cleared, c, src);
    late := installed.(file := Committed(c, backups));
    assert Commits(sources, installed, c, backups, Failed, late);
    assert AttemptsCleared(sources, cleared, c, src, backups, Failed, late);
  }

  /** A rollback that stops when it should write the old record back. */
  lemma RollbackStops(w: World, before: Option<Saved>, oldSource: string, backups: map<string, Dns>, o: Exit)
      returns (after: World)
    requires OursOnly(w) && before.Some? && ConfigOf(before).iface != "" && o != Done
    requires ConfigOf(before).dns != [] && ConfigOf(before).iface in w.dns
    ensures RollsBack(w, before, Some(oldSource), backups, o, after)
    ensures after.file == w.file && ConfigOf(before).iface in after.dns
    ensures after.dns[ConfigOf(before).iface] == OurDns(ConfigOf(before))
  {
    ClearsAll(w, backups);
    var cleared := Cleared(w, backups);
    InstallsAll(cleared, ConfigOf(before), oldSource);
    after := InstalledOver(cleared, ConfigOf(before), oldSource);
    assert Installs(cleared, ConfigOf(before), Address(Some(oldSource)), Done, after);
    assert RollsBackCleared(cleared, before, Some(oldSource), o, after);
  }

  lemma TransactionStops(sources: Sources, w: World, c: Config, before: Option<Saved>, oldSource: string,
                         backups: map<string, Dns>, r: Outcome)
    returns (after: World)
    requires OursOnly(w) && Validated(c) && SourceOf(sources, c).Some? &&
              (c.dns != [] ==> c.iface in w.dns && c.iface in backups)
    requires before.Some? && ConfigOf(before).iface != "" && ConfigOf(before).dns != [] &&
              ConfigOf(before).iface in w.dns
    requires r in {Incomplete, Died}
    ensures Transacts(sources, w, c, SourceOf(sources, c).value, before, Some(oldSource), backups, r, after)
    ensures after.file == Committed(c, backups) && ConfigOf(before).iface in after.dns
    ensures after.dns[ConfigOf(before).iface] == OurDns(ConfigOf(before))
  {
    var late := LateWrite(sources, w, c, backups);
    after := RollbackStops(late, before, oldSource, backups, if r == Died then Crashed else Failed);
  }

  /** Whenever they can be lost, some run loses them: the final write takes effect and is still reported
      as failed, the rollback brings the old settings of ours back, and then stops, with another failure or
      by dying, before it has written the old record back. */
  lemma LosesSettings(sources: Sources, w: World, c: Config, r: Outcome, original: map<string, Dns>)
      returns (after: World)
    requires Inv(w, original) && Validated(c) && CanLose(sources, w, c) && r in {Incomplete, Died}
    ensures Applies(sources, w, c, r, after) && !Inv(after, original)
  {
    var previous := ConfigOf(w.file);
    var src, oldSrc := SourceOf(sources, c).value, SourceOf(sources, previous).value;
    var journal := w.(file := Journal(w, c));
    after := TransactionStops(sources, journal, c, w.file, oldSrc, Backups(w, c), r);
    assert Ends(w, WriteState(Journal(w, c)), Done, journal);
    assert Replaces(sources, w, c, src, Some(oldSrc), r, after);
    assert original[previous.iface] != OurDns(previous) && !Backed(after, previous.iface);
  }

  /** Clearing the configuration with everything done. */
  lemma ClearingSucceeds(sources: Sources, w: World, backups: map<string, Dns>)
    requires OursOnly(w)
    ensures Attempts(sources, w, SystemNetwork, "", backups, Done, Cleared(w, backups).(file := None))
  {
    var c := SystemNetwork;
    ClearsAll(w, backups);
    var cleared := Cleared(w, backups);
    var after := cleared.(file := None);
    assert Installs(cleared, c, "", Done, cleared);
    assert Commits(sources, cleared, c, backups, Done, after);
    assert AttemptsCleared(sources, cleared, c, "", backups, Done, after);
  }

  /** What a stale record does: clearing the configuration brings it back, whatever the interface was
      given in the meantime. */
  lemma StaleSettingsComeBack(sources: Sources, w: World, i: string) returns (after: World)
    requires OursOnly(w) && w.file.Some? && i in w.file.value.backups && i in w.dns
    ensures Applies(sources, w, SystemNetwork, Applied, after)
    ensures i in after.dns && after.dns[i] == w.file.value.backups[i] && after.file == None
  {
    var c := SystemNetwork;
    var backups := Backups(w, c);
    var journal := w.(file := Journal(w, c));
    ClearingSucceeds(sources, journal, backups);
    after := Cleared(journal, backups).(file := None);
    assert Transacts(sources, journal, c, "", w.file, None, backups, Applied, after);
    assert Ends(w, WriteState(Journal(w, c)), Done, journal);
    assert Replaces(sources, w, c, "", None, Applied, after);
  }
}
